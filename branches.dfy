/**
 * The Branch Visualizer (code.py:202-218): starting from a root id, the
 * recursive `render_tree` visits a post, then each id in its `forks` list in
 * stored order one level deeper. Here the traversal builds the tree it walks.
 */
module Branches {
  import opened Wrappers
  import opened Posts

  /** A visited post: its id and title, how deep `render_tree` was, and its forks' subtrees. */
  datatype TreeNode = Node(id: nat, title: string, depth: nat, children: seq<TreeNode>)

  /**
   * `render_tree(i, depth)`. It terminates because every fork id is larger than
   * its source's id and below the number of posts.
   */
  function Tree(posts: seq<Post>, i: nat, depth: nat): (t: TreeNode)
    requires ForksFollow(posts) && i < |posts|
    ensures t.id == i && t.title == posts[i].title && t.depth == depth
    ensures |t.children| == |posts[i].forks|
    ensures forall k :: 0 <= k < |t.children| ==> t.children[k].id == posts[i].forks[k] && t.children[k].depth == depth + 1
    decreases |posts| - i, 1
  {
    Node(i, posts[i].title, depth, Subtrees(posts, i, posts[i].forks, depth + 1))
  }

  /** The loop `for f in p['forks']: render_tree(f, depth + 1)` over the forks `fs` of post `i`. */
  function Subtrees(posts: seq<Post>, i: nat, fs: seq<nat>, depth: nat): (ts: seq<TreeNode>)
    requires ForksFollow(posts) && i < |posts|
    requires forall k :: 0 <= k < |fs| ==> i < fs[k] < |posts|
    ensures |ts| == |fs|
    ensures forall k :: 0 <= k < |fs| ==> ts[k].id == fs[k] && ts[k].depth == depth
    decreases |posts| - i, 0, |fs|
  {
    if fs == [] then [] else [Tree(posts, fs[0], depth)] + Subtrees(posts, i, fs[1..], depth)
  }

  /** The Visualizer's guard (code.py:205, 218): a root id past the end gives "Invalid ID". */
  function BranchTree(posts: seq<Post>, root: nat): (r: Result<TreeNode>)
    requires ForksFollow(posts)
    ensures r.Ok? <==> root < |posts|
    ensures r.Ok? ==> r.value.id == root && r.value.depth == 0
    ensures r.Err? ==> r.message == "Invalid ID"
  {
    if root < |posts| then Ok(Tree(posts, root, 0)) else Err("Invalid ID")
  }

  /** The ids of a tree in the order `render_tree` prints them. */
  function Preorder(t: TreeNode): seq<nat>
    decreases t, 1
  {
    [t.id] + PreorderAll(t.children)
  }

  function PreorderAll(ts: seq<TreeNode>): seq<nat>
    decreases ts, 0
  {
    if ts == [] then [] else Preorder(ts[0]) + PreorderAll(ts[1..])
  }

  /** `x` is `i` or is reached from `i` by following fork links (read backwards through `parent`). */
  predicate DescendsFrom(posts: seq<Post>, x: nat, i: nat)
    decreases x
  {
    x < |posts| &&
    (x == i || (posts[x].parent.Some? && posts[x].parent.value < x && DescendsFrom(posts, posts[x].parent.value, i)))
  }

  /** Every post reached from `root`, the root included. */
  function Descendants(posts: seq<Post>, root: nat): set<nat>
  {
    set x | 0 <= x < |posts| && DescendsFrom(posts, x, root)
  }

  /** For a proper descendant `x` of `i`: the fork of `i` on the path down to `x`. */
  function ForkToward(posts: seq<Post>, x: nat, i: nat): (c: nat)
    requires DescendsFrom(posts, x, i) && x != i
    ensures c < |posts| && posts[c].parent == Some(i) && DescendsFrom(posts, x, c)
    decreases x
  {
    var p := posts[x].parent.value;
    if p == i then x else ForkToward(posts, p, i)
  }

  /** Descending from a fork `c` of `i` means descending from `i` through `c`. */
  lemma {:induction false} ThroughFork(posts: seq<Post>, x: nat, c: nat, i: nat)
    requires ParentsPrecede(posts) && c < |posts| && posts[c].parent == Some(i)
    requires DescendsFrom(posts, x, c)
    ensures DescendsFrom(posts, x, i) && c <= x && x != i && ForkToward(posts, x, i) == c
    decreases x
  {
    if x != c {
      ThroughFork(posts, posts[x].parent.value, c, i);
    }
  }

  /** Every id the traversal from `i` prints is a distinct post reached from `i`. */
  lemma {:induction false} TreeSound(posts: seq<Post>, i: nat, depth: nat)
    requires WellFormed(posts) && i < |posts|
    ensures forall x :: x in Preorder(Tree(posts, i, depth)) ==> x < |posts| && DescendsFrom(posts, x, i)
    ensures Distinct(Preorder(Tree(posts, i, depth)))
    decreases |posts| - i, 1
  {
    var fs := posts[i].forks;
    SubtreesSound(posts, i, fs, depth + 1);
    var t := Tree(posts, i, depth);
    assert t.children == Subtrees(posts, i, fs, depth + 1);
    assert Preorder(t) == [i] + PreorderAll(t.children);
    DistinctAppend([i], PreorderAll(t.children));
  }

  lemma {:induction false} SubtreesSound(posts: seq<Post>, i: nat, fs: seq<nat>, depth: nat)
    requires WellFormed(posts) && i < |posts|
    requires forall k :: 0 <= k < |fs| ==> fs[k] in posts[i].forks
    requires forall k, l :: 0 <= k < l < |fs| ==> fs[k] < fs[l]
    ensures forall x :: x in PreorderAll(Subtrees(posts, i, fs, depth)) ==>
              x < |posts| && DescendsFrom(posts, x, i) && x != i && ForkToward(posts, x, i) in fs
    ensures Distinct(PreorderAll(Subtrees(posts, i, fs, depth)))
    decreases |posts| - i, 0, |fs|
  {
    if fs != [] {
      var c := fs[0];
      assert posts[c].parent == Some(i);
      var ts := Subtrees(posts, i, fs, depth);
      assert ts[0] == Tree(posts, c, depth) && ts[1..] == Subtrees(posts, i, fs[1..], depth);
      TreeSound(posts, c, depth);
      SubtreesSound(posts, i, fs[1..], depth);
      var head := Preorder(Tree(posts, c, depth));
      var rest := PreorderAll(Subtrees(posts, i, fs[1..], depth));
      forall x | x in head
        ensures DescendsFrom(posts, x, i) && x != i && ForkToward(posts, x, i) == c
      {
        ThroughFork(posts, x, c, i);
      }
      assert c !in fs[1..];
      DistinctAppend(head, rest);
    }
  }

  /** Every post reached from `i` is printed by the traversal from `i`. */
  lemma {:induction false} TreeComplete(posts: seq<Post>, i: nat, x: nat, depth: nat)
    requires WellFormed(posts) && i < |posts| && DescendsFrom(posts, x, i)
    ensures x in Preorder(Tree(posts, i, depth))
    decreases |posts| - i
  {
    if x != i {
      var c := ForkToward(posts, x, i);
      assert c in posts[i].forks;
      TreeComplete(posts, c, x, depth + 1);
      InSubtrees(posts, i, posts[i].forks, c, depth + 1);
    }
  }

  /** The subtree of a listed fork is part of the forest printed for all the forks. */
  lemma {:induction false} InSubtrees(posts: seq<Post>, i: nat, fs: seq<nat>, c: nat, depth: nat)
    requires ForksFollow(posts) && i < |posts|
    requires forall k :: 0 <= k < |fs| ==> i < fs[k] < |posts|
    requires c in fs
    ensures forall x :: x in Preorder(Tree(posts, c, depth)) ==> x in PreorderAll(Subtrees(posts, i, fs, depth))
  {
    var ts := Subtrees(posts, i, fs, depth);
    assert ts[0] == Tree(posts, fs[0], depth) && ts[1..] == Subtrees(posts, i, fs[1..], depth);
    if fs[0] != c {
      InSubtrees(posts, i, fs[1..], c, depth);
    }
  }

  /**
   * The tree built from `root` has exactly one node per post reached from `root`,
   * deleted ones included, and no post appears twice.
   */
  lemma TreeCoversDescendants(posts: seq<Post>, root: nat)
    requires WellFormed(posts) && root < |posts|
    ensures Elements(Preorder(Tree(posts, root, 0))) == Descendants(posts, root)
    ensures |Preorder(Tree(posts, root, 0))| == |Descendants(posts, root)|
  {
    var ids := Preorder(Tree(posts, root, 0));
    TreeSound(posts, root, 0);
    forall x | x in Descendants(posts, root) ensures x in ids {
      TreeComplete(posts, root, x, 0);
    }
    DistinctCardinality(ids);
  }

  predicate Distinct(s: seq<nat>)
  {
    forall k, l :: 0 <= k < l < |s| ==> s[k] != s[l]
  }

  lemma DistinctAppend(a: seq<nat>, b: seq<nat>)
    requires Distinct(a) && Distinct(b)
    requires forall x :: x in a ==> x !in b
    ensures Distinct(a + b)
  {
    var ab := a + b;
    forall k, l | 0 <= k < l < |ab| ensures ab[k] != ab[l] {
      if k < |a| && l >= |a| {
        assert ab[k] in a && ab[l] == b[l - |a|];
      }
    }
  }

  /** The ids listed in `s`, as a set. */
  function Elements(s: seq<nat>): (e: set<nat>)
    ensures forall x :: x in e <==> x in s
  {
    if s == [] then {} else {s[0]} + Elements(s[1..])
  }

  lemma {:induction false} DistinctCardinality(s: seq<nat>)
    requires Distinct(s)
    ensures |Elements(s)| == |s|
  {
    if s != [] {
      DistinctCardinality(s[1..]);
      assert s[0] !in s[1..];
    }
  }
}
