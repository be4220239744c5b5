/**
 * The earlier blog of app.py: posts hold only an id, a title and a content;
 * Submit appends with id `len(posts)`, Home lists every post with a short
 * preview, and Post Detail is a guarded index into the list.
 */
module SimpleBlog {
  import opened Wrappers

  datatype Entry = Entry(id: nat, title: string, content: string)

  /** What Home shows for one post: its title and the preview of its content. */
  datatype Card = Card(title: string, preview: string)

  function Min(a: nat, b: nat): nat
  {
    if a < b then a else b
  }

  /** `content[:120] + "..."`: the ellipsis is added even to content of 120 characters or fewer. */
  function Preview(content: string): (r: string)
    ensures |r| == Min(|content|, 120) + 3
    ensures r[..|r| - 3] == content[..Min(|content|, 120)]
    ensures r[|r| - 3..] == "..."
  {
    content[..Min(|content|, 120)] + "..."
  }

  predicate IdsAreIndices(posts: seq<Entry>)
  {
    forall k :: 0 <= k < |posts| ==> posts[k].id == k
  }

  /** Post Detail (app.py:33-39): a post is shown only for an id below the number of posts. */
  function Lookup(posts: seq<Entry>, pid: nat): (r: Result<Entry>)
    ensures r.Ok? <==> pid < |posts|
    ensures r.Ok? ==> r.value == posts[pid]
    ensures r.Err? ==> r.message == "Post not found."
  {
    if pid < |posts| then Ok(posts[pid]) else Err("Post not found.")
  }

  /** The View button of each listed post stores its id, and looking that id up finds the post again. */
  lemma LookupFindsListed(posts: seq<Entry>, k: nat)
    requires IdsAreIndices(posts) && k < |posts|
    ensures Lookup(posts, posts[k].id) == Ok(posts[k])
  {
  }

  class Blog {
    var posts: seq<Entry>

    ghost predicate Valid()
      reads this
    {
      IdsAreIndices(posts)
    }

    constructor ()
      ensures Valid() && posts == []
    {
      posts := [];
    }

    /** Submit (app.py:26-27): title and content are stored as typed, with the next id. */
    method Submit(title: string, content: string) returns (pid: nat)
      requires Valid()
      modifies this
      ensures Valid()
      ensures pid == |old(posts)|
      ensures posts == old(posts) + [Entry(pid, title, content)]
    {
      pid := |posts|;
      posts := posts + [Entry(pid, title, content)];
    }

    /** Home (app.py:12-15): every post in insertion order, each with its preview. */
    method Home() returns (cards: seq<Card>)
      ensures |cards| == |posts|
      ensures forall k :: 0 <= k < |posts| ==> cards[k] == Card(posts[k].title, Preview(posts[k].content))
    {
      cards := [];
      for i := 0 to |posts|
        invariant |cards| == i
        invariant forall k :: 0 <= k < i ==> cards[k] == Card(posts[k].title, Preview(posts[k].content))
      {
        cards := cards + [Card(posts[i].title, Preview(posts[i].content))];
      }
    }
  }
}
