/**
 * The Search page (code.py:220-225): keep, in list order, the posts whose
 * title, content or space-joined tags contain the query, all compared in
 * lower case. The separate Tag box is read but never used, and deleted posts
 * are not filtered out.
 */
module Query {
  import opened Text
  import opened Posts

  /** The condition of the list comprehension at code.py:225. */
  predicate Matches(p: Post, query: string)
    ensures query == [] ==> Matches(p, query)
    ensures Lower(p.title) == Lower(query) ==> Matches(p, query)
    ensures Matches(p, query) ==>
              |query| <= |p.title| || |query| <= |p.content| || |query| <= |JoinWith(p.tags, ' ')|
  {
    ContainsEmpty(Lower(p.title));
    var q := Lower(query);
    Contains(Lower(p.title), q) || Contains(Lower(p.content), q) || Contains(Lower(JoinWith(p.tags, ' ')), q)
  }

  function Search(posts: seq<Post>, query: string): (found: seq<Post>)
    ensures |found| <= |posts|
    ensures forall k :: 0 <= k < |found| ==> found[k] in posts && Matches(found[k], query)
    ensures forall p :: p in posts && Matches(p, query) ==> p in found
  {
    if posts == [] then []
    else
      var rest := Search(posts[1..], query);
      if Matches(posts[0], query) then [posts[0]] + rest else rest
  }

  /** An empty query matches everything: every post is found, deleted ones too, in list order. */
  lemma {:induction false} SearchEmptyQuery(posts: seq<Post>)
    ensures Search(posts, "") == posts
  {
    if posts != [] {
      SearchEmptyQuery(posts[1..]);
      ContainsEmpty(Lower(posts[0].title));
    }
  }

  /** Results come in id order, as the list does. */
  lemma {:induction false} SearchKeepsIdOrder(posts: seq<Post>, query: string)
    requires IdsIncreasing(posts)
    ensures IdsIncreasing(Search(posts, query))
  {
    if posts != [] {
      SearchKeepsIdOrder(posts[1..], query);
      var rest := Search(posts[1..], query);
      forall k | 0 <= k < |rest| ensures rest[k].id > posts[0].id {
        assert rest[k] in posts[1..];
      }
    }
  }

  /** In a well-formed store, search results come in increasing id order. */
  lemma StoreSearchInIdOrder(posts: seq<Post>, query: string)
    requires WellFormed(posts)
    ensures IdsIncreasing(Search(posts, query))
  {
    SearchKeepsIdOrder(posts, query);
  }

  /** The query's case does not matter: searching for it or for its lower case finds the same posts. */
  lemma {:induction false} SearchIgnoresCase(posts: seq<Post>, query: string)
    ensures Search(posts, Lower(query)) == Search(posts, query)
  {
    LowerIdempotent(query);
    if posts != [] {
      SearchIgnoresCase(posts[1..], query);
    }
  }
}
