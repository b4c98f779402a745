# Masterblog data layer in Dafny

Masterblog is a small Flask blog that keeps all of its posts in one JSON
file. The index page, a valid add and a delete load that file into a dict,
`blog_data`; the add form (GET) and an add that fails validation never load
it. The dict holds a counter, `max_uid`, and an ordered list of posts. Each
post has four fields: `uid`, `author`, `title` and `content`. A valid add and
a delete that found its post change the dict in place and write it back; the
index page and a delete of an absent uid do not write.

This project models the in-memory data layer of `app.py`:

- `posts.dfy` (module `Posts`) holds the post record and the operations that
  change nothing. These are `create_blog_post`, the first-match search
  `find_post_by_uid`, Python's `list.remove` as `delete_post_from_list` uses it,
  and `validate_blog_data`. It also holds the uid invariant and the lemmas
  showing that the add and delete steps keep it.
- `store.dfy` (module `Store`) holds the store itself. `BlogStore` is a class
  with the fields `maxUid` and `posts`. Its methods update them in place:
  `get_next_uid`, `delete_post_from_list` (all the `delete` handler does in
  memory) and the POST branch of the `add` handler. The module also gives the
  two initial stores: the default one (`max_uid` 0, no posts) and the seeded
  one (uids 0 and 1, `max_uid` 1).

The store invariant (`StoreInvariant`, which `BlogStore.Valid` applies to the
fields) says three things. Uids are distinct.
Every post's uid is in the ghost set `issued` of uids the store has ever handed
out or held. Every issued uid is at most `maxUid`. Add hands out
`maxUid + 1`, which is not in `issued`. Delete keeps both `maxUid` and
`issued` as they were. So within one store a deleted uid is never issued
again. This does not carry across a fresh load: `BlogStore.Load` resets
`issued` to the uids present in the file, and a file that is unreadable or not
valid JSON gives the default store with counter 0, after which app.py hands
out uid 1 again and saves over the file.

Three facts about app.py shape the model:

- It has three operations on posts: list, add and delete.
- `max_uid` records the last uid handed out. So the invariant is "every
  uid ≤ `max_uid`".
- `initialize_sample_data` sets `max_uid` to 1, so the next post gets uid 2.

`delete_post_from_list` tests the found post for truth (`if post_to_delete:`).
A found post is a dict with four keys, so it is always true. The model tests
for `Some`. It then calls `list.remove`, which removes the first post EQUAL to
the found one. `Posts.DeleteRemovesFirstWithUid` shows this is the first post
carrying the uid.

## Model

| member | source | states |
|---|---|---|
| `Posts.CreateBlogPost` | app.py:85-99 | the post carries exactly the given uid, author, title and content |
| `Posts.FindPostByUid` | app.py:74-82 | None exactly when no post has the uid; otherwise the post at the first position with that uid, so an earlier post with another uid never shadows it |
| `Posts.FindUnique` | app.py:74-82 | when uids are distinct, searching for any post's uid returns that very post |
| `Posts.RemoveFirst` | app.py:111 | `list.remove(x)` on a list holding `x` shortens it by exactly one |
| `Posts.RemoveFirstAt` | app.py:111 | when position i holds the first copy of `x`, `list.remove(x)` drops exactly position i and keeps the order of the rest |
| `Posts.DeleteFromList` | app.py:102-113 | the flag is true exactly when some post has the uid; when it is false the list is unchanged |
| `Posts.DeleteRemovesFirstWithUid` | app.py:102-113 | when position k holds the first post with the uid, find-then-`list.remove` returns true and the list loses exactly position k, the others keeping their order |
| `Posts.ValidateBlogData` | app.py:130-143 | returns "" exactly when author, title and content are all non-empty; otherwise the message for the first empty field, in the order author, title, content |
| `Posts.AppendNextKeepsUidsValid` | app.py:214-221 | appending a post with uid `max_uid + 1` keeps uids distinct and ≤ the new counter, and leaves the earlier posts in place |
| `Posts.RemoveAtKeepsUidsValid` | app.py:102-113 | removing any one post keeps only posts that were present and keeps uids distinct |
| `Posts.FindAfterAppend` | app.py:217-221 | a post appended under a uid no other post has is then found by that uid |
| `Posts.NextUidIsUnused` | app.py:64-71 | if every uid is ≤ `max_uid`, no post has uid `max_uid + 1` and searching for it finds nothing |
| `Store.InitializeSampleData` | app.py:148-172 | only a missing file is seeded; the seeded store is the two sample posts with uids 0 and 1 and counter 1, so its uids are distinct and ≤ the counter and it hands out uid 2 next; an unreadable or corrupt file is left alone |
| `Store.BlogStore.Load` | app.py:18-48 | a readable file gives back its stored counter and posts; a missing or unreadable file, or one of valid UTF-8 that is not valid JSON, gives the default store (counter 0, no posts); a loaded store whose uids are distinct and bounded satisfies the invariant |
| `Store.BlogStore.GetNextUid` | app.py:64-71 | the counter rises by exactly one, the new value is returned, posts are untouched, and the value was never issued before |
| `Store.BlogStore.DeletePostFromList` | app.py:102-113 | the returned flag and the new post list are those of `Posts.DeleteFromList` on the old list; only `posts` changes, so the counter and issued uids stay; the invariant holds afterwards and a deleted uid stays issued and ≤ the counter |
| `Store.DeletionKeepsStoreInvariant` | app.py:239-246 | deleting any uid keeps the store invariant with the same counter and issued uids; a uid that was deleted stays issued and ≤ the counter |
| `Store.AdditionKeepsStoreInvariant` | app.py:214-221 | appending a post with uid `max_uid + 1` and recording it as issued keeps the store invariant, and that uid was not issued before |
| `Store.BlogStore.Add` | app.py:198-225 | returns the validation message; on an error nothing changes; otherwise the counter rises by one and the post with that uid and the given fields is appended last, earlier posts unchanged; the new uid was never issued before (even to a deleted post) and searching for it finds the new post; the invariant holds |
| `Store.FirstPostOnEmptyStore` | app.py:18-21 | with no data file, the first valid post ever added gets uid 1 |
| `Store.SeededAddGetsUidTwo` | app.py:154-170 | from the seeded store (uids 0 and 1, counter 1), the next valid post added gets uid 2 |
| `Store.DeleteThenAddScenario` | app.py:239-246 | on the store saved after that add: deleting uid 0 leaves uids 1, 2 in order; deleting uid 999 reports false; the counter stays 2, so the next uid handed out is 3, not the deleted 0 |

## Left out

- Saving (`save_blog_data`, app.py:51-59) and the JSON encoding are not modelled. They are file I/O through `json.dump`. A failed write is only logged. The model keeps one store value across requests, which is what a successful save followed by a load gives.
- `Store.BlogStore.Load` stands for what `load_blog_data` reads from disk (`os.path.exists`, `open`, `json.load`). That file content is the parameter `StoredFile`. A stored file is taken to have the right shape: a counter and posts with four fields each. A post dict without a `uid` key, which `post.get("uid")` would treat as None, is not modelled. A file that is not valid UTF-8 makes `json.load` raise `UnicodeDecodeError`, which `load_blog_data` does not catch, so the request fails; `StoredFile` has no case for it, and its `Corrupt` case stands only for valid UTF-8 that is not valid JSON.
- The shallow `DEFAULT_BLOG_STRUCTURE.copy()` shares its `posts` list with the module constant. The model uses value semantics and does not reproduce this aliasing.
- `extract_form_data` (app.py:118-127) reads the request form and applies Python's `str.strip()`. `Store.BlogStore.Add` receives the already-stripped fields.
- Flask routing, `render_template`, `redirect`/`url_for`, the `index` listing, `print` logging and `main`/`app.run` are HTTP, UI and process plumbing.
- Concurrent requests and the lost-update race between them are not modelled: every operation acts on one store.
