# BranchBlog post store

This project models the in-memory post store of BranchBlog. BranchBlog is a small Streamlit blog where any post can be forked into a derivative post, so posts form a forest of branches instead of a flat list. It also models the earlier, simpler blog in `app.py`.

For `code.py`, the store is the session's list of posts. Publish and Create Fork append to it, and Like bumps a counter. Home lists it newest first and skips posts marked deleted. Post Detail is a guarded index. The Branch Visualizer walks the `forks` links recursively from a root id. Search filters the list by a case-insensitive substring test.

The store invariant is `Posts.WellFormed`, which every handler keeps:
- each post's id is its index;
- a parent precedes its forks;
- fork ids lie between their source's id and the list length;
- each `forks` list is strictly increasing;
- `j` is among `q`'s forks exactly when `q` is `j`'s parent.

Because of this invariant, the branch traversal terminates. The tree it builds has exactly one node per post reachable from the root.

Files:
- `wrappers.dfy`: `Option` and `Result`.
- `text.dfy`: Python's `strip`, `split`, `join`, ASCII `lower`, substring `in`, and decimal rendering.
- `tags.dfy`: tag parsing and merging.
- `posts.dfy`: the post record, the invariant, the specifications of publish and fork, the Home filter and the detail lookup.
- `store.dfy`: the mutable store class.
- `branches.dfy`: the branch tree.
- `query.dfy`: search.
- `simple_blog.dfy`: `app.py`.

The code has no soft-delete, edit, validation error or depth guard. Fork has no not-found error. Search has no tag filter and does not exclude deleted posts. The model adds none of these.

## Model

| member | source | states |
|---|---|---|
| Text.Strip | code.py:113 | `strip()` yields a slice of the input that neither starts nor ends with whitespace (Python's `isspace` set), and only whitespace lies outside it |
| Text.StripIdempotent | code.py:113 | stripping a second time changes nothing |
| Text.JoinWith | code.py:225 | `' '.join(tags)`: no pieces give the empty string; otherwise the first piece is a prefix and the length is the pieces' total length plus one separator between each pair |
| Text.Lower | code.py:225 | `lower()` keeps the length and lower-cases each character in place (ASCII letters only) |
| Text.Contains | code.py:225 | the `in` test: a needle found in a string is no longer than it, and every prefix of a string (the string itself included) is found in it |
| Text.Split | code.py:113 | `split(',')` gives at least one piece, no piece holds the separator, and re-joining the pieces with the separator restores the input |
| Text.Decimal | code.py:113 | the id in the default title `f'Post {pid}'` is a non-empty run of digits with no leading zero |
| Text.DecimalRoundTrip | code.py:113 | the digits of an id read back as that id |
| Text.DecimalInjective | code.py:175 | different ids give different default titles |
| Text.ContainsEmpty | code.py:225 | the empty query occurs in every string |
| Text.LowerIdempotent | code.py:225 | lower-casing a lower-cased string changes nothing |
| Tags.ParseTags | code.py:113 | every parsed tag is non-empty, has no whitespace at either end and holds no comma |
| Tags.StripAll | code.py:113 | `t.strip() for t in pieces`: one stripped piece per piece, in order |
| Tags.NonEmpty | code.py:113 | the `if t.strip()` filter keeps exactly the non-empty pieces, drawn from the input |
| Tags.StripAddsNothing | code.py:113 | stripping a piece never introduces a character, so no tag holds the comma it was split on |
| Tags.TagsInPieceOrder | code.py:113 | parsing keeps the order of the pieces: the tags of two runs of pieces are the first run's tags followed by the second's |
| Tags.SplitJoin | code.py:113 | splitting comma-joined, comma-free pieces gives the pieces back |
| Tags.ParseJoinedTags | code.py:113 | typing a list of tags as "a,b,c" parses back to exactly that list |
| Tags.NewTags | code.py:116 | the suggested tags added are the ones not already present, each taken from the suggestions |
| Tags.MergeTags | code.py:116 | the existing tags stay as a prefix, every suggested tag ends up present, and only new suggested tags are appended |
| Tags.MergeTagsIdempotent | code.py:184 | merging the same suggestions again adds nothing |
| Tags.MergeTagsDistinct | code.py:116 | merging distinct suggestions into distinct tags yields distinct tags |
| Posts.WellFormed | code.py:174-196 | the store invariant: ids are indices, parents precede their forks, fork ids lie between their source's id and the list length, each `forks` list is strictly increasing, and the `parent` and `forks` links agree; it implies ids strictly increase along the list |
| Posts.TitleOrDefault | code.py:113 | an empty title becomes "Post {id}"; any other title is kept verbatim |
| Posts.Published | code.py:111-129 | the published post has the next id, 0 likes, no forks, no parent and the content as typed. Its tags start with the parsed tag box. A cover is set exactly when images were uploaded and the PNG preview is non-empty; it then equals the analysis of the first image, and all of that image's suggested tags are among the tags: the tags are exactly the parsed tags merged with the suggestions. Images, audio and video are those uploaded |
| Posts.Forked | code.py:173-194 | the fork has the next id, parent = source index, 0 likes, no forks, and starts from a copy of the source's tags. Attached images replace the images and the cover, and the tags are then exactly the source's tags merged with the image's suggested tags. Otherwise images, cover and tags are the source's. Attached audio replaces the audio; otherwise it is inherited. Video is never carried over |
| Posts.HomeList | code.py:65-67 | Home shows exactly the posts not marked deleted, drawn from the list |
| Posts.HomeListAll | code.py:65-67 | while nothing is marked deleted, Home shows every post, newest first |
| Posts.Reversed | code.py:65 | `reversed(posts)`: the same length, with entry `k` taken from position `len - 1 - k` |
| Posts.HomeListNewestFirst | code.py:65 | Home's posts come in strictly decreasing id order |
| Posts.StoreHomeNewestFirst | code.py:65-67 | in any well-formed store, Home lists posts strictly newest first |
| Posts.Detail | code.py:139-143 | lookup succeeds exactly when the id is below the number of posts and then yields that entry; otherwise it reports "Post not found" |
| Posts.DetailFindsEveryPost | code.py:139-143 | because ids are indices, looking up any listed post's id finds that very post, deleted or not |
| Posts.Excerpt | code.py:78 | content up to the limit is shown whole; longer content is cut at the limit and followed by "..." |
| Store.PostStore.constructor | code.py:10-11 | a session starts with an empty, well-formed list |
| Store.PostStore.Publish | code.py:111-129 | appends exactly `Published(len(posts), ...)` and leaves every earlier post unchanged, keeping the invariant |
| Store.PostStore.Fork | code.py:165-196 | for an existing index: appends the fork at index `len(posts)`, appends that id to the end of the source's `forks`, leaves every other post unchanged, and keeps the invariant |
| Store.PostStore.Like | code.py:86-87 | the chosen post's likes go up by exactly one; nothing else changes |
| Store.PostStore.Home | code.py:65-67 | the backwards loop with `continue` on deleted posts produces `HomeList(posts)` |
| Store.PublishKeepsWellFormed | code.py:112-129 | appending a post with the next id, no parent and no forks keeps all five parts of the invariant |
| Store.ForkKeepsWellFormed | code.py:174-196 | appending a fork of an existing post and recording it in the source's `forks` keeps all five parts of the invariant |
| Branches.Tree | code.py:206-215 | the node for `i` carries `i`, its title and depth; its children are the ids of `forks`, in stored order, one level deeper |
| Branches.Subtrees | code.py:214-215 | the loop over `forks` yields one subtree per fork id, in order, at the given depth |
| Branches.BranchTree | code.py:204-218 | a tree rooted at the given id, at depth 0, exactly when the id is below the number of posts; otherwise "Invalid ID" |
| Branches.ForkToward | code.py:214-215 | for a proper descendant of `i`, the fork of `i` on the path to it is a post whose parent is `i` |
| Branches.ThroughFork | code.py:214-215 | what descends from a fork `c` of `i` descends from `i` through `c` |
| Branches.TreeSound | code.py:206-216 | every id the traversal visits is a post reached from the root, and none is visited twice |
| Branches.TreeComplete | code.py:206-216 | every post reached from the root through fork links is visited |
| Branches.TreeCoversDescendants | code.py:204-216 | the tree's node ids are exactly the posts reachable from the root, deleted ones included, and the node count equals their number |
| Query.Matches | code.py:225 | the comprehension's condition: the empty query and a query equal to the title up to case always match, and a matching query is no longer than the title, the content or the joined tags |
| Query.Search | code.py:225 | the results are posts of the list whose lower-cased title, content or space-joined tags contain the lower-cased query, and every such post is found |
| Query.SearchEmptyQuery | code.py:222-225 | an empty query returns the whole list, deleted posts included |
| Query.SearchKeepsIdOrder | code.py:225 | results keep the list's id order |
| Query.StoreSearchInIdOrder | code.py:225 | in any well-formed store, search results come in increasing id order |
| Query.SearchIgnoresCase | code.py:225 | a query and its lower-case form find the same posts |
| SimpleBlog.Preview | app.py:15 | the preview is the first 120 characters followed by "...", which is added even to shorter content |
| SimpleBlog.Lookup | app.py:32-39 | a post is shown exactly when the id is below the number of posts; otherwise "Post not found." |
| SimpleBlog.LookupFindsListed | app.py:33-35 | since ids are indices, the id a listed post's View button stores looks up that post |
| SimpleBlog.Blog.constructor | app.py:3-4 | the session starts with no posts |
| SimpleBlog.Blog.Submit | app.py:26-27 | appends exactly one post with id = previous length and the title and content as typed, so ids stay equal to indices after any sequence of submits |
| SimpleBlog.Blog.Home | app.py:12-15 | every post in insertion order, each with its title and preview |

## Left out

- Streamlit rendering is not modelled: page config, sidebar, CSS, markdown, images, audio and video players, buttons, `experimental_rerun`, `time.sleep`, and the "No posts yet."/"Published" messages. These are presentation only.
- Image analysis is not modelled: `dominant_color`, `suggest_image_tags` and the PIL open, resize, convert and PNG re-encode steps. The external image library is opaque, and the averaging uses float division. Publish and Fork take `analyze`, a function from the first uploaded image to its cover (preview, dominant colour, suggested tags).
- File uploads are modelled as `Blob` values (name and bytes). Reading them is I/O.
- `now()` is not modelled; the timestamp is the parameter `createdAt`, because it reads the clock.
- Posts.Published, Posts.Forked: the fork's cover and audio are the same objects as the source's (shared references in the source), but the model copies them as values. Nothing in the code mutates them afterwards, so no difference can be observed.
- Store.PostStore.Fork: takes the title the user submitted. The prefilled widget value `base['title'] + ' (fork)'` is UI state.
- Store.PostStore.Like: requires an existing index, because the Like button exists only next to a listed post.
- Text.Lower: lower-cases ASCII letters only. Python's `str.lower` covers all of Unicode.
- Session keys that choose what a page shows (`view`, `fork`, `selected_post`) are not modelled; the model takes their value as the id argument, a `nat`, because ids and the number input are never negative.
- Branches.Tree: records each node's depth instead of the indented markdown line `render_tree` prints, and leaves out the cover thumbnail beside each node.
- Query.Search: takes no tag argument because the Tag box (code.py:223) is never used. The result count and excerpts it prints are display only.
- Concurrency is not modelled: session state is per session and sequential.
