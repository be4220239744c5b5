/**
 * The post record of code.py and the store invariant that publish, fork and
 * like keep: ids are list indices, parents precede their forks, and the
 * `parent` and `forks` links describe the same forest.
 */
module Posts {
  import opened Wrappers
  import opened Text
  import opened Tags

  /** An uploaded file: its name and its bytes, which the blog never interprets. */
  datatype Blob = Blob(name: string, data: seq<bv8>)

  datatype Color = Color(r: int, g: int, b: int)

  /**
   * The cover of a post: the PNG preview of its first image, that image's
   * dominant colour and the tags image analysis suggested for it.
   */
  datatype Cover = Cover(preview: seq<bv8>, dominantColor: Color, suggestedTags: seq<string>)

  /**
   * One entry of the post list. `images` is empty where the source leaves the
   * key out (every reader tests it for truthiness); `deleted` is only ever read.
   */
  datatype Post = Post(
    id: nat,
    title: string,
    content: string,
    likes: nat,
    createdAt: string,
    parent: Option<nat>,
    forks: seq<nat>,
    tags: seq<string>,
    deleted: bool,
    cover: Option<Cover>,
    images: seq<Blob>,
    audio: Option<Blob>,
    video: Option<Blob>)

  /** Every post's id is its position in the list. */
  predicate IdsAreIndices(posts: seq<Post>)
  {
    forall i :: 0 <= i < |posts| ==> posts[i].id == i
  }

  /** A post's parent was created before it. */
  predicate ParentsPrecede(posts: seq<Post>)
  {
    forall i :: 0 <= i < |posts| && posts[i].parent.Some? ==> posts[i].parent.value < i
  }

  /** Every fork of a post was created after it and exists. */
  predicate ForksFollow(posts: seq<Post>)
  {
    forall i, k :: 0 <= i < |posts| && 0 <= k < |posts[i].forks| ==> i < posts[i].forks[k] < |posts|
  }

  /** Each `forks` list is in creation order, hence free of repeats. */
  predicate ForksIncreasing(posts: seq<Post>)
  {
    forall i, k, l :: 0 <= i < |posts| && 0 <= k < l < |posts[i].forks| ==> posts[i].forks[k] < posts[i].forks[l]
  }

  /** `j` is listed among the forks of `q` exactly when `q` is the parent of `j`. */
  predicate LinksAgree(posts: seq<Post>)
  {
    forall q, j :: 0 <= q < |posts| && 0 <= j < |posts| ==> (j in posts[q].forks <==> posts[j].parent == Some(q))
  }

  predicate WellFormed(posts: seq<Post>)
    ensures WellFormed(posts) ==> IdsIncreasing(posts)
  {
    IdsAreIndices(posts) && ParentsPrecede(posts) && ForksFollow(posts)
    && ForksIncreasing(posts) && LinksAgree(posts)
  }

  /** `title or f'Post {pid}'`: an empty title is replaced by a numbered default. */
  function TitleOrDefault(title: string, pid: nat): (t: string)
    ensures t != []
    ensures title != [] ==> t == title
    ensures title == [] ==> t == "Post " + Decimal(pid)
  {
    if title == [] then "Post " + Decimal(pid) else title
  }

  /**
   * The post the Publish button appends (code.py:111-129). `analyze` stands for
   * the image analysis of the first uploaded image (PNG preview, dominant colour,
   * suggested tags); it is consulted only when images were uploaded.
   */
  function Published(pid: nat, title: string, content: string, tagInput: string, createdAt: string,
                     images: seq<Blob>, analyze: Blob -> Cover, audio: Option<Blob>, video: Option<Blob>): (p: Post)
    ensures p.id == pid && p.likes == 0 && p.forks == [] && p.parent == None && !p.deleted
    ensures p.title == TitleOrDefault(title, pid) && p.content == content && p.createdAt == createdAt
    ensures ParseTags(tagInput) <= p.tags
    ensures p.cover.Some? <==> images != [] && analyze(images[0]).preview != []
    ensures p.cover.Some? ==> p.cover.value == analyze(images[0])
                              && forall t :: t in analyze(images[0]).suggestedTags ==> t in p.tags
    ensures p.cover.Some? ==> p.tags == MergeTags(ParseTags(tagInput), analyze(images[0]).suggestedTags)
    ensures p.cover.None? ==> p.tags == ParseTags(tagInput)
    ensures p.images == images && p.audio == audio && p.video == video
  {
    var base := Post(pid, TitleOrDefault(title, pid), content, 0, createdAt, None, [], ParseTags(tagInput),
                     false, None, [], None, None);
    var withCover :=
      if images != [] && analyze(images[0]).preview != [] then
        var c := analyze(images[0]);
        base.(cover := Some(c), tags := MergeTags(base.tags, c.suggestedTags))
      else base;
    withCover.(audio := audio, video := video, images := images)
  }

  /**
   * The post "Create Fork" appends for the post at index `pid` (code.py:173-194).
   * Attached images replace the images and the cover; otherwise both are inherited.
   * Attached audio replaces the audio; otherwise it is inherited. Video never is.
   */
  function Forked(source: Post, pid: nat, nid: nat, title: string, content: string, createdAt: string,
                  attachImages: seq<Blob>, analyze: Blob -> Cover, attachAudio: Option<Blob>): (p: Post)
    ensures p.id == nid && p.parent == Some(pid) && p.likes == 0 && p.forks == [] && !p.deleted
    ensures p.title == TitleOrDefault(title, nid) && p.content == content && p.createdAt == createdAt
    ensures source.tags <= p.tags
    ensures attachImages != [] ==> p.images == attachImages && p.cover == Some(analyze(attachImages[0]))
                                   && forall t :: t in analyze(attachImages[0]).suggestedTags ==> t in p.tags
    ensures attachImages != [] ==> p.tags == MergeTags(source.tags, analyze(attachImages[0]).suggestedTags)
    ensures attachImages == [] ==> p.images == source.images && p.cover == source.cover && p.tags == source.tags
    ensures attachAudio.Some? ==> p.audio == attachAudio
    ensures attachAudio.None? ==> p.audio == source.audio
    ensures p.video == None
  {
    var start := Post(nid, TitleOrDefault(title, nid), content, 0, createdAt, Some(pid), [], source.tags,
                      false, None, [], None, None);
    var withImages :=
      if attachImages != [] then
        var c := analyze(attachImages[0]);
        start.(images := attachImages, cover := Some(c), tags := MergeTags(start.tags, c.suggestedTags))
      else start.(images := source.images, cover := source.cover);
    withImages.(audio := if attachAudio.Some? then attachAudio else source.audio)
  }

  /** The Home page list: newest first, skipping posts marked deleted (code.py:65-67). */
  function HomeList(posts: seq<Post>): (shown: seq<Post>)
    ensures |shown| <= |posts|
    ensures forall k :: 0 <= k < |shown| ==> shown[k] in posts && !shown[k].deleted
    ensures forall p :: p in posts && !p.deleted ==> p in shown
  {
    if posts == [] then []
    else
      var older := HomeList(posts[1..]);
      if posts[0].deleted then older else older + [posts[0]]
  }

  /** The posts of `s`, last to first. */
  function Reversed(s: seq<Post>): (r: seq<Post>)
    ensures |r| == |s|
    ensures forall k :: 0 <= k < |s| ==> r[k] == s[|s| - 1 - k]
  {
    if s == [] then [] else Reversed(s[1..]) + [s[0]]
  }

  /** Nothing in the source ever marks a post deleted. */
  predicate NoneDeleted(posts: seq<Post>)
  {
    forall k :: 0 <= k < |posts| ==> !posts[k].deleted
  }

  /** As long as nothing is marked deleted, Home shows every post, newest first. */
  lemma {:induction false} HomeListAll(posts: seq<Post>)
    requires NoneDeleted(posts)
    ensures HomeList(posts) == Reversed(posts)
  {
    if posts != [] {
      HomeListAll(posts[1..]);
    }
  }

  predicate IdsDecreasing(s: seq<Post>)
  {
    forall k, l :: 0 <= k < l < |s| ==> s[k].id > s[l].id
  }

  predicate IdsIncreasing(s: seq<Post>)
  {
    forall k, l :: 0 <= k < l < |s| ==> s[k].id < s[l].id
  }

  /** Home lists posts strictly newest first. */
  lemma {:induction false} HomeListNewestFirst(posts: seq<Post>)
    requires IdsIncreasing(posts)
    ensures IdsDecreasing(HomeList(posts))
  {
    if posts != [] {
      HomeListNewestFirst(posts[1..]);
      var older := HomeList(posts[1..]);
      forall k | 0 <= k < |older| ensures older[k].id > posts[0].id {
        assert older[k] in posts[1..];
      }
    }
  }

  /** In a well-formed store, Home lists posts strictly newest first. */
  lemma StoreHomeNewestFirst(posts: seq<Post>)
    requires WellFormed(posts)
    ensures IdsDecreasing(HomeList(posts))
  {
    HomeListNewestFirst(posts);
  }

  /** The detail page's lookup (code.py:139-143): a guarded index into the list. */
  function Detail(posts: seq<Post>, pid: nat): (r: Result<Post>)
    ensures r.Ok? <==> pid < |posts|
    ensures r.Ok? ==> r.value == posts[pid]
    ensures r.Err? ==> r.message == "Post not found"
  {
    if pid >= |posts| then Err("Post not found") else Ok(posts[pid])
  }

  /** Because ids are indices, looking up any post's id finds that very post. */
  lemma DetailFindsEveryPost(posts: seq<Post>, p: Post)
    requires IdsAreIndices(posts) && p in posts
    ensures Detail(posts, p.id) == Ok(p)
  {
    var k :| 0 <= k < |posts| && posts[k] == p;
  }

  /** `st.write(content[:n] + ('...' if len(content) > n else ''))` on Home (400) and Search (300). */
  function Excerpt(content: string, n: nat): (r: string)
    ensures |content| <= n ==> r == content
    ensures |content| > n ==> |r| == n + 3 && r[..n] == content[..n] && r[n..] == "..."
  {
    if |content| > n then content[..n] + "..." else content
  }
}
