/**
 * The blog post record of app.py and the operations over it that change
 * nothing: building a post, finding a post by uid, Python's list.remove,
 * form validation, and the uid invariant of the store together with the
 * lemmas that the add and delete steps keep it.
 */
module Posts {

  datatype Option<T> = None | Some(value: T)

  /** A blog post: app.py builds it as a dict with these four keys. */
  datatype Post = Post(uid: int, author: string, title: string, content: string)

  /** create_blog_post: a record holding exactly its arguments; no validation. */
  function CreateBlogPost(author: string, title: string, content: string, postUid: int): (p: Post)
    ensures p.uid == postUid && p.author == author && p.title == title && p.content == content
  {
    Post(postUid, author, title, content)
  }

  // ---------- searching by uid ----------

  /** Some post of `posts` carries `uid`. */
  ghost predicate HasUid(posts: seq<Post>, uid: int) {
    exists i :: 0 <= i < |posts| && posts[i].uid == uid
  }

  /** `k` is the position of the first post of `posts` that carries `uid`. */
  ghost predicate IsFirstWithUid(posts: seq<Post>, uid: int, k: int) {
    0 <= k < |posts| && posts[k].uid == uid &&
    forall j :: 0 <= j < k ==> posts[j].uid != uid
  }

  /**
   * find_post_by_uid: a linear first-match search. None exactly when no post
   * carries the uid; otherwise the post at the first position that does.
   */
  function FindPostByUid(posts: seq<Post>, postUid: int): (r: Option<Post>)
    ensures r.None? <==> !HasUid(posts, postUid)
    ensures r.Some? ==> exists k :: IsFirstWithUid(posts, postUid, k) && posts[k] == r.value
    ensures forall k :: IsFirstWithUid(posts, postUid, k) ==> r == Some(posts[k])
  {
    if |posts| == 0 then None
    else if posts[0].uid == postUid then
      assert IsFirstWithUid(posts, postUid, 0);
      Some(posts[0])
    else
      var r := FindPostByUid(posts[1..], postUid);
      assert forall i :: 0 < i < |posts| ==> posts[i] == posts[1..][i - 1];
      assert forall k :: IsFirstWithUid(posts[1..], postUid, k) ==> IsFirstWithUid(posts, postUid, k + 1);
      r
  }

  // ---------- Python's list.remove ----------

  /**
   * list.remove(x): drops the first element equal to `x`. Python raises
   * ValueError when `x` is absent; every caller here passes an element of `s`.
   */
  function RemoveFirst<T(==)>(s: seq<T>, x: T): (r: seq<T>)
    requires x in s
    ensures |r| == |s| - 1
  {
    if s[0] == x then
      s[1..]
    else
      [s[0]] + RemoveFirst(s[1..], x)
  }

  /** When `s[i]` is the first occurrence of `x`, list.remove(x) drops exactly position `i`. */
  lemma {:induction false} RemoveFirstAt<T>(s: seq<T>, x: T, i: int)
    requires 0 <= i < |s| && s[i] == x
    requires forall j :: 0 <= j < i ==> s[j] != x
    ensures RemoveFirst(s, x) == s[..i] + s[i + 1..]
  {
    if i > 0 {
      var t := s[1..];
      assert t[i - 1] == x;
      RemoveFirstAt(t, x, i - 1);
      calc {
        RemoveFirst(s, x);
        [s[0]] + RemoveFirst(t, x);
        [s[0]] + (t[..i - 1] + t[i..]);
        { assert s[..i] == [s[0]] + t[..i - 1]; assert s[i + 1..] == t[i..]; }
        s[..i] + s[i + 1..];
      }
    }
  }

  /**
   * delete_post_from_list as a value: find the post by uid, and when there is
   * one, list.remove it. The pair is the returned flag and the list afterwards.
   */
  function DeleteFromList(posts: seq<Post>, postUid: int): (r: (bool, seq<Post>))
    ensures r.0 == HasUid(posts, postUid)
    ensures !r.0 ==> r.1 == posts
  {
    match FindPostByUid(posts, postUid)
    case None => (false, posts)
    case Some(found) => (true, RemoveFirst(posts, found))
  }

  /**
   * list.remove drops the first post EQUAL to the one found; that is the found
   * post itself, so deleting a present uid removes exactly the first post
   * carrying it and keeps the others in order.
   */
  lemma DeleteRemovesFirstWithUid(posts: seq<Post>, uid: int, k: int)
    requires IsFirstWithUid(posts, uid, k)
    ensures DeleteFromList(posts, uid) == (true, posts[..k] + posts[k + 1..])
  {
    RemoveFirstAt(posts, posts[k], k);
  }

  // ---------- validation ----------

  const AuthorRequired: string := "Author name is required"
  const TitleRequired: string := "Post title is required"
  const ContentRequired: string := "Post content is required"

  /**
   * validate_blog_data: the empty string when all three fields are non-empty;
   * otherwise the message for the first empty field, in the order author,
   * title, content.
   */
  function ValidateBlogData(author: string, title: string, content: string): (message: string)
    ensures message == "" <==> author != "" && title != "" && content != ""
    ensures author == "" ==> message == AuthorRequired
    ensures author != "" && title == "" ==> message == TitleRequired
    ensures author != "" && title != "" && content == "" ==> message == ContentRequired
  {
    if author == "" then AuthorRequired
    else if title == "" then TitleRequired
    else if content == "" then ContentRequired
    else ""
  }

  // ---------- the uid invariant ----------

  /** No two posts carry the same uid. */
  ghost predicate UidsDistinct(posts: seq<Post>) {
    forall i, j :: 0 <= i < j < |posts| ==> posts[i].uid != posts[j].uid
  }

  /** Every post carries a uid no larger than the counter `maxUid`. */
  ghost predicate UidsBounded(posts: seq<Post>, maxUid: int) {
    forall p :: p in posts ==> p.uid <= maxUid
  }

  /**
   * The add step appends a post carrying maxUid + 1: uids stay distinct and
   * bounded by the new counter, and the old posts stay in place.
   */
  lemma AppendNextKeepsUidsValid(posts: seq<Post>, maxUid: int, p: Post)
    requires UidsDistinct(posts) && UidsBounded(posts, maxUid)
    requires p.uid == maxUid + 1
    ensures UidsDistinct(posts + [p]) && UidsBounded(posts + [p], maxUid + 1)
    ensures (posts + [p])[..|posts|] == posts && (posts + [p])[|posts|] == p
  {
  }

  /**
   * Removing the post at any position keeps only posts that were there, so
   * uids stay bounded, and keeps uids distinct.
   */
  lemma RemoveAtKeepsUidsValid(posts: seq<Post>, k: int)
    requires 0 <= k < |posts|
    ensures forall p :: p in posts[..k] + posts[k + 1..] ==> p in posts
    ensures UidsDistinct(posts) ==> UidsDistinct(posts[..k] + posts[k + 1..])
  {
  }

  /** When uids are distinct, a post is found by its own uid: first-match is never ambiguous. */
  lemma FindUnique(posts: seq<Post>, i: int)
    requires UidsDistinct(posts)
    requires 0 <= i < |posts|
    ensures FindPostByUid(posts, posts[i].uid) == Some(posts[i])
  {
  }

  /** A post appended under a uid no earlier post carries is found by that uid. */
  lemma FindAfterAppend(posts: seq<Post>, p: Post)
    requires !HasUid(posts, p.uid)
    ensures FindPostByUid(posts + [p], p.uid) == Some(p)
  {
    assert IsFirstWithUid(posts + [p], p.uid, |posts|);
  }

  /** The uid the add step hands out next is carried by no current post. */
  lemma NextUidIsUnused(posts: seq<Post>, maxUid: int)
    requires UidsBounded(posts, maxUid)
    ensures !HasUid(posts, maxUid + 1)
    ensures FindPostByUid(posts, maxUid + 1) == None
  {
  }
}
