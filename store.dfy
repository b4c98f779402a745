/**
 * The blog store of app.py: the `max_uid` counter and the ordered `posts`
 * list, updated in place by get_next_uid, delete_post_from_list and the
 * in-memory steps of the `add` and `delete` handlers; plus the default and
 * seeded initial stores.
 */
module Store {
  import opened Posts

  /**
   * What load_blog_data finds on disk, as far as the model can see it: no
   * file, a file that cannot be read (an IOError), a file of valid UTF-8
   * that is not valid JSON, or a stored counter and post list. A file that
   * is not valid UTF-8 makes load_blog_data raise and is not modelled.
   */
  datatype StoredFile = Missing | Unreadable | Corrupt | Stored(maxUid: int, posts: seq<Post>)

  /** The counter of DEFAULT_BLOG_STRUCTURE; its post list is empty. */
  const DefaultMaxUid: int := 0

  /** The two sample posts initialize_sample_data writes, with uids 0 and 1. */
  function SamplePosts(): seq<Post> {
    [ Post(0, "John Doe", "First Post", "This is my first post."),
      Post(1, "Jane Doe", "Second Post", "This is another post.") ]
  }

  /**
   * initialize_sample_data: only when no data file exists, writes the sample
   * store (counter 1, the two sample posts). An unreadable or corrupt file
   * exists, so it is left alone.
   */
  function InitializeSampleData(file: StoredFile): (seeded: StoredFile)
    ensures file.Missing? ==> seeded.Stored? && UidsDistinct(seeded.posts) && UidsBounded(seeded.posts, seeded.maxUid)
    ensures file.Missing? ==> seeded.maxUid + 1 == 2 && |seeded.posts| == 2
    ensures file.Missing? ==> seeded.posts == SamplePosts() && seeded.posts[0].uid == 0 && seeded.posts[1].uid == 1
    ensures !file.Missing? ==> seeded == file
  {
    if file.Missing? then Stored(1, SamplePosts()) else file
  }

  /**
   * The store invariant: uids are distinct, every post's uid is among the
   * uids issued so far, and every issued uid is at most the counter.
   */
  ghost predicate StoreInvariant(maxUid: int, posts: seq<Post>, issued: set<int>) {
    UidsDistinct(posts) && UidsBounded(posts, maxUid) &&
    (forall p :: p in posts ==> p.uid in issued) &&
    (forall u :: u in issued ==> u <= maxUid)
  }

  /**
   * The `delete` step keeps the invariant with the counter and the issued
   * uids as they were, and a uid it deleted stays issued.
   */
  lemma DeletionKeepsStoreInvariant(maxUid: int, posts: seq<Post>, issued: set<int>, uid: int)
    requires StoreInvariant(maxUid, posts, issued)
    ensures StoreInvariant(maxUid, DeleteFromList(posts, uid).1, issued)
    ensures DeleteFromList(posts, uid).0 ==> uid in issued && uid <= maxUid
  {
    if HasUid(posts, uid) {
      var k :| IsFirstWithUid(posts, uid, k) && posts[k] == FindPostByUid(posts, uid).value;
      DeleteRemovesFirstWithUid(posts, uid, k);
      RemoveAtKeepsUidsValid(posts, k);
      assert posts[k] in posts;
    }
  }

  /**
   * The `add` step keeps the invariant: take uid maxUid + 1, record it as
   * issued, and append a post carrying it. That uid was never issued before.
   */
  lemma AdditionKeepsStoreInvariant(maxUid: int, posts: seq<Post>, issued: set<int>, p: Post)
    requires StoreInvariant(maxUid, posts, issued)
    requires p.uid == maxUid + 1
    ensures p.uid !in issued
    ensures StoreInvariant(maxUid + 1, posts + [p], issued + {p.uid})
  {
    AppendNextKeepsUidsValid(posts, maxUid, p);
  }

  /** The in-memory store one request works on (the `blog_data` dict). */
  class BlogStore {
    /** The last uid handed out (not the next one). */
    var maxUid: int
    var posts: seq<Post>
    /** Every uid this store has handed out or held in a post. */
    ghost var issued: set<int>

    /** The store invariant holds of this store's fields. */
    ghost predicate Valid()
      reads this
    {
      StoreInvariant(maxUid, posts, issued)
    }

    /**
     * load_blog_data: the stored counter and posts when the file holds valid
     * data; DEFAULT_BLOG_STRUCTURE (counter 0, no posts) when it is missing,
     * unreadable, or valid UTF-8 that is not valid JSON.
     */
    constructor Load(file: StoredFile)
      ensures file.Stored? ==> maxUid == file.maxUid && posts == file.posts
      ensures !file.Stored? ==> maxUid == DefaultMaxUid && posts == []
      ensures issued == set p | p in posts :: p.uid
      ensures UidsDistinct(posts) && UidsBounded(posts, maxUid) ==> Valid()
    {
      var loaded := if file.Stored? then file.posts else [];
      maxUid := if file.Stored? then file.maxUid else DefaultMaxUid;
      posts := loaded;
      issued := set p | p in loaded :: p.uid;
    }

    /** get_next_uid: raises the counter by one and returns its new value; posts untouched. */
    method GetNextUid() returns (uid: int)
      modifies this`maxUid, this`issued
      ensures maxUid == old(maxUid) + 1 && uid == maxUid
      ensures posts == old(posts)
      ensures issued == old(issued) + {uid}
      ensures old(Valid()) ==> Valid() && uid !in old(issued)
    {
      maxUid := maxUid + 1;
      issued := issued + {maxUid};
      uid := maxUid;
    }

    /**
     * delete_post_from_list on this store's posts, which is all the `delete`
     * handler does in memory: find the post by uid and list.remove it,
     * reporting whether there was one. Only `posts` changes: the counter is
     * never touched, so a deleted uid stays issued.
     */
    method DeletePostFromList(postUid: int) returns (wasDeleted: bool)
      modifies this`posts
      ensures (wasDeleted, posts) == DeleteFromList(old(posts), postUid)
      ensures old(Valid()) ==> Valid()
      ensures old(Valid()) && wasDeleted ==> postUid in issued && postUid <= maxUid
    {
      if Valid() {
        DeletionKeepsStoreInvariant(maxUid, posts, issued, postUid);
      }
      var postToDelete := FindPostByUid(posts, postUid);
      if postToDelete.Some? {
        posts := RemoveFirst(posts, postToDelete.value);
        wasDeleted := true;
      } else {
        wasDeleted := false;
      }
    }

    /**
     * The POST branch of the `add` handler after the form is read: validate
     * the fields; on an error change nothing and return the message;
     * otherwise take the next uid, build the post and append it.
     */
    method Add(author: string, title: string, content: string) returns (error: string)
      modifies this
      ensures error == ValidateBlogData(author, title, content)
      ensures error != "" ==> maxUid == old(maxUid) && posts == old(posts) && issued == old(issued)
      ensures error == "" ==> maxUid == old(maxUid) + 1 && issued == old(issued) + {maxUid}
      ensures error == "" ==> posts == old(posts) + [CreateBlogPost(author, title, content, maxUid)]
      ensures old(Valid()) ==> Valid()
      ensures old(Valid()) && error == "" ==> maxUid !in old(issued)
      ensures old(Valid()) && error == "" ==> FindPostByUid(posts, maxUid) == Some(posts[|posts| - 1])
    {
      error := ValidateBlogData(author, title, content);
      if error != "" {
        return;
      }
      ghost var wasValid := Valid();
      var postUid := GetNextUid();
      var newPost := CreateBlogPost(author, title, content, postUid);
      if wasValid {
        AdditionKeepsStoreInvariant(maxUid - 1, posts, issued - {postUid}, newPost);
        NextUidIsUnused(posts, maxUid - 1);
        FindAfterAppend(posts, newPost);
      }
      posts := posts + [newPost];
    }
  }

  /** With no data file, the first post ever added gets uid 1. */
  method FirstPostOnEmptyStore(author: string, title: string, content: string) returns (uid: int)
    requires ValidateBlogData(author, title, content) == ""
    ensures uid == 1
  {
    var store := new BlogStore.Load(Missing);
    var error := store.Add(author, title, content);
    uid := store.posts[0].uid;
  }

  /** From a fresh seed (uids 0 and 1, counter 1), the next post added gets uid 2. */
  method SeededAddGetsUidTwo(author: string, title: string, content: string) returns (newUid: int)
    requires ValidateBlogData(author, title, content) == ""
    ensures newUid == 2
  {
    var store := new BlogStore.Load(InitializeSampleData(Missing));
    var error := store.Add(author, title, content);
    newUid := store.posts[|store.posts| - 1].uid;
  }

  /**
   * A later request on the file the previous one saved (the seed plus a post
   * with uid 2, counter 2): deleting uid 0 leaves uids 1 and 2 in order;
   * deleting uid 999, never issued, reports false and changes nothing; the
   * counter is still 2, so the next uid handed out is 3, not the deleted 0.
   */
  method DeleteThenAddScenario() returns (remaining: seq<int>, deletedMissing: bool, laterUid: int)
    ensures remaining == [1, 2] && !deletedMissing && laterUid == 3
  {
    var store := new BlogStore.Load(Stored(2, SamplePosts() + [Post(2, "X", "Y", "Z")]));
    DeleteRemovesFirstWithUid(store.posts, 0, 0);
    var deleted := store.DeletePostFromList(0);
    assert |store.posts| == 2 && store.posts[0].uid == 1 && store.posts[1].uid == 2;
    remaining := [store.posts[0].uid, store.posts[1].uid];
    assert !HasUid(store.posts, 999);
    deletedMissing := store.DeletePostFromList(999);
    laterUid := store.GetNextUid();
  }
}
