/**
 * The session's post list (`st.session_state.posts` in code.py) and the
 * handlers that change it: Publish appends, Create Fork appends and records
 * the fork on its source, Like bumps a counter. Home walks the list.
 */
module Store {
  import opened Wrappers
  import opened Tags
  import opened Posts

  class PostStore {
    var posts: seq<Post>

    ghost predicate Valid()
      reads this
    {
      WellFormed(posts)
    }

    /** The session starts with no posts (code.py:10-11). */
    constructor ()
      ensures Valid() && posts == []
    {
      posts := [];
    }

    /**
     * Publish (code.py:111-129): the new post takes the next id, `len(posts)`,
     * and is appended; every earlier post is left as it was.
     */
    method Publish(title: string, content: string, tagInput: string, createdAt: string,
                   images: seq<Blob>, analyze: Blob -> Cover, audio: Option<Blob>, video: Option<Blob>)
      returns (pid: nat)
      requires Valid()
      modifies this
      ensures Valid()
      ensures pid == |old(posts)|
      ensures posts == old(posts) + [Published(pid, title, content, tagInput, createdAt, images, analyze, audio, video)]
      ensures NoneDeleted(old(posts)) ==> NoneDeleted(posts)
    {
      pid := |posts|;
      var post := Post(pid, TitleOrDefault(title, pid), content, 0, createdAt, None, [], ParseTags(tagInput),
                       false, None, [], None, None);
      if images != [] && analyze(images[0]).preview != [] {
        var c := analyze(images[0]);
        post := post.(cover := Some(c));
        post := post.(tags := MergeTags(post.tags, c.suggestedTags));
      }
      // An absent upload leaves the key absent: None, or no images.
      post := post.(audio := audio, video := video, images := images);
      PublishKeepsWellFormed(posts, post);
      posts := posts + [post];
    }

    /**
     * Create Fork (code.py:173-196) of the post at index `pid`. The source
     * indexes the list without a bounds check (code.py:167), so `pid` must exist.
     */
    method Fork(pid: nat, title: string, content: string, createdAt: string,
                attachImages: seq<Blob>, analyze: Blob -> Cover, attachAudio: Option<Blob>)
      returns (nid: nat)
      requires Valid() && pid < |posts|
      modifies this
      ensures Valid()
      ensures nid == |old(posts)| && |posts| == nid + 1
      ensures posts[nid] == Forked(old(posts[pid]), pid, nid, title, content, createdAt, attachImages, analyze, attachAudio)
      ensures posts[pid] == old(posts[pid]).(forks := old(posts[pid].forks) + [nid])
      ensures forall i :: 0 <= i < nid && i != pid ==> posts[i] == old(posts[i])
      ensures NoneDeleted(old(posts)) ==> NoneDeleted(posts)
    {
      var base := posts[pid];
      nid := |posts|;
      var post := Post(nid, TitleOrDefault(title, nid), content, 0, createdAt, Some(pid), [], base.tags,
                       false, None, [], None, None);
      if attachImages != [] {
        post := post.(images := attachImages);
        var c := analyze(attachImages[0]);
        post := post.(cover := Some(c));
        post := post.(tags := MergeTags(post.tags, c.suggestedTags));
      } else {
        // The source copies the images and cover only when present; copying an absent one changes nothing.
        post := post.(images := base.images, cover := base.cover);
      }
      post := post.(audio := if attachAudio.Some? then attachAudio else base.audio);
      ghost var before := posts;
      posts := posts + [post];
      posts := posts[pid := base.(forks := base.forks + [nid])];
      ForkKeepsWellFormed(before, pid, post);
    }

    /** Like (code.py:86-87): one more like on the post at index `i`, nothing else changes. */
    method Like(i: nat)
      requires Valid() && i < |posts|
      modifies this
      ensures Valid()
      ensures posts == old(posts)[i := old(posts[i]).(likes := old(posts[i].likes) + 1)]
      ensures NoneDeleted(old(posts)) ==> NoneDeleted(posts)
    {
      posts := posts[i := posts[i].(likes := posts[i].likes + 1)];
    }

    /** The Home page loop (code.py:65-67): walk the list backwards and skip deleted posts. */
    method Home() returns (shown: seq<Post>)
      ensures shown == HomeList(posts)
    {
      shown := [];
      var i := |posts|;
      while i > 0
        invariant 0 <= i <= |posts|
        invariant shown == HomeList(posts[i..])
      {
        i := i - 1;
        assert posts[i..][1..] == posts[i + 1..];
        if posts[i].deleted {
          continue;
        }
        shown := shown + [posts[i]];
      }
    }
  }

  /** Appending a post with the next id, no parent and no forks keeps the store invariant. */
  lemma PublishKeepsWellFormed(before: seq<Post>, post: Post)
    requires WellFormed(before)
    requires post.id == |before| && post.parent == None && post.forks == []
    ensures WellFormed(before + [post])
  {
    var after := before + [post];
    assert forall i :: 0 <= i < |before| ==> after[i] == before[i];
    forall q, j | 0 <= q < |after| && 0 <= j < |after|
      ensures j in after[q].forks <==> after[j].parent == Some(q)
    {
      if q < |before| && j == |before| {
        assert j !in before[q].forks;
      }
    }
  }

  /** Appending a fork of `pid` and recording it on `pid` keeps the store invariant. */
  lemma ForkKeepsWellFormed(before: seq<Post>, pid: nat, post: Post)
    requires WellFormed(before) && pid < |before|
    requires post.id == |before| && post.parent == Some(pid) && post.forks == []
    ensures WellFormed((before + [post])[pid := before[pid].(forks := before[pid].forks + [|before|])])
  {
    var nid := |before|;
    var after := (before + [post])[pid := before[pid].(forks := before[pid].forks + [nid])];
    assert forall i :: 0 <= i < nid ==> after[i].parent == before[i].parent && after[i].id == before[i].id;
    forall q, j | 0 <= q < |after| && 0 <= j < |after|
      ensures j in after[q].forks <==> after[j].parent == Some(q)
    {
      if q == pid {
        assert after[q].forks == before[q].forks + [nid];
      } else if q < nid {
        assert after[q].forks == before[q].forks;
        assert nid !in before[q].forks;
      }
    }
  }
}
