/**
 * Tags of a post: the comma-separated tag box is parsed into a list
 * (code.py:113), and tags suggested by image analysis are merged into it
 * (code.py:116 on publish, code.py:184 on fork).
 */
module Tags {
  import opened Text

  /** Non-empty and with no whitespace at either end: what `Strip` gives unless it gives "". */
  predicate Stripped(t: string)
  {
    t != [] && !IsSpace(t[0]) && !IsSpace(t[|t| - 1])
  }

  /** A tag as parsing produces it: stripped and without a comma. */
  predicate IsTag(t: string)
  {
    Stripped(t) && ',' !in t
  }

  /** `t.strip()` for every piece, in order. */
  function StripAll(pieces: seq<string>): (stripped: seq<string>)
    ensures |stripped| == |pieces|
    ensures forall k :: 0 <= k < |pieces| ==> stripped[k] == Strip(pieces[k])
  {
    seq(|pieces|, k requires 0 <= k < |pieces| => Strip(pieces[k]))
  }

  /** The `if t.strip()` filter: drops the empty strings and keeps the rest in order. */
  function NonEmpty(ts: seq<string>): (kept: seq<string>)
    ensures |kept| <= |ts|
    ensures forall k :: 0 <= k < |kept| ==> kept[k] != [] && kept[k] in ts
    ensures forall t :: t in ts && t != [] ==> t in kept
  {
    if ts == [] then []
    else
      var rest := NonEmpty(ts[1..]);
      if ts[0] != [] then [ts[0]] + rest else rest
  }

  /** The tag box parsed as code.py:113 does: split on commas, strip, drop empty pieces. */
  function ParseTags(input: string): (tags: seq<string>)
    ensures forall k :: 0 <= k < |tags| ==> IsTag(tags[k])
  {
    var pieces := Split(input, ',');
    var stripped := StripAll(pieces);
    forall k | 0 <= k < |pieces| ensures ',' !in stripped[k] {
      StripAddsNothing(pieces[k], ',');
    }
    NonEmpty(stripped)
  }

  /** `Strip` only removes characters, so a character absent from `s` is absent from `Strip(s)`. */
  lemma StripAddsNothing(s: string, c: char)
    requires c !in s
    ensures c !in Strip(s)
  {
    var a := StripStart(s);
    var r := Strip(s);
    forall i | 0 <= i < |r| ensures r[i] != c {
      assert r[i] == s[a + i];
    }
  }

  /** Stripping works piece by piece, so it distributes over concatenation. */
  lemma StripAllAppend(a: seq<string>, b: seq<string>)
    ensures StripAll(a + b) == StripAll(a) + StripAll(b)
  {
  }

  /** Dropping empty pieces keeps the order of the rest: it distributes over concatenation. */
  lemma {:induction false} NonEmptyAppend(a: seq<string>, b: seq<string>)
    ensures NonEmpty(a + b) == NonEmpty(a) + NonEmpty(b)
  {
    if a == [] {
      assert a + b == b;
    } else {
      assert (a + b)[1..] == a[1..] + b;
      NonEmptyAppend(a[1..], b);
    }
  }

  /**
   * Parsing keeps the order of the pieces: the tags of two runs of pieces are the
   * tags of the first run followed by the tags of the second.
   */
  lemma TagsInPieceOrder(a: seq<string>, b: seq<string>)
    ensures NonEmpty(StripAll(a + b)) == NonEmpty(StripAll(a)) + NonEmpty(StripAll(b))
  {
    StripAllAppend(a, b);
    NonEmptyAppend(StripAll(a), StripAll(b));
  }

  lemma {:induction false} SplitNoSep(a: string, sep: char)
    requires sep !in a
    ensures Split(a, sep) == [a]
  {
    if a != [] {
      SplitNoSep(a[1..], sep);
    }
  }

  lemma {:induction false} SplitAfterPiece(a: string, sep: char, b: string)
    requires sep !in a
    ensures Split(a + [sep] + b, sep) == [a] + Split(b, sep)
  {
    if a == [] {
      assert (a + [sep] + b)[1..] == b;
    } else {
      assert (a + [sep] + b)[1..] == a[1..] + [sep] + b;
      SplitAfterPiece(a[1..], sep, b);
      assert [a[0]] + a[1..] == a;
    }
  }

  /** Joining pieces that contain no separator and splitting again gives the pieces back. */
  lemma {:induction false} SplitJoin(pieces: seq<string>, sep: char)
    requires |pieces| >= 1
    requires forall k :: 0 <= k < |pieces| ==> sep !in pieces[k]
    ensures Split(JoinWith(pieces, sep), sep) == pieces
  {
    if |pieces| == 1 {
      SplitNoSep(pieces[0], sep);
    } else {
      SplitJoin(pieces[1..], sep);
      SplitAfterPiece(pieces[0], sep, JoinWith(pieces[1..], sep));
    }
  }

  lemma StripTag(t: string)
    requires IsTag(t)
    ensures Strip(t) == t
  {
  }

  lemma {:induction false} NonEmptyKeepsAll(ts: seq<string>)
    requires forall k :: 0 <= k < |ts| ==> ts[k] != []
    ensures NonEmpty(ts) == ts
  {
    if ts != [] {
      NonEmptyKeepsAll(ts[1..]);
    }
  }

  lemma StripAllTags(tags: seq<string>)
    requires forall k :: 0 <= k < |tags| ==> IsTag(tags[k])
    ensures StripAll(tags) == tags
  {
    forall k | 0 <= k < |tags| ensures StripAll(tags)[k] == tags[k] {
      StripTag(tags[k]);
    }
  }

  /** Writing a list of tags back into the tag box as "a,b,c" parses to the same list. */
  lemma ParseJoinedTags(tags: seq<string>)
    requires forall k :: 0 <= k < |tags| ==> IsTag(tags[k])
    ensures ParseTags(JoinWith(tags, ',')) == tags
  {
    if tags == [] {
      assert Split("", ',') == [""];
      assert Strip("") == "";
    } else {
      SplitJoin(tags, ',');
      StripAllTags(tags);
      NonEmptyKeepsAll(tags);
    }
  }

  /** `[t for t in suggested if t not in existing]` */
  function NewTags(suggested: seq<string>, existing: seq<string>): (added: seq<string>)
    ensures |added| <= |suggested|
    ensures forall k :: 0 <= k < |added| ==> added[k] in suggested && added[k] !in existing
    ensures forall t :: t in suggested && t !in existing ==> t in added
  {
    if suggested == [] then []
    else
      var rest := NewTags(suggested[1..], existing);
      if suggested[0] !in existing then [suggested[0]] + rest else rest
  }

  /**
   * `tags.extend([t for t in suggested if t not in tags])`: the list comprehension is
   * evaluated against the tags as they were before the call.
   */
  function MergeTags(existing: seq<string>, suggested: seq<string>): (merged: seq<string>)
    ensures |existing| <= |merged| <= |existing| + |suggested|
    ensures merged[..|existing|] == existing
    ensures forall t :: t in suggested ==> t in merged
    ensures forall k :: |existing| <= k < |merged| ==> merged[k] in suggested && merged[k] !in existing
  {
    existing + NewTags(suggested, existing)
  }

  lemma {:induction false} NewTagsNone(suggested: seq<string>, existing: seq<string>)
    requires forall t :: t in suggested ==> t in existing
    ensures NewTags(suggested, existing) == []
  {
    if suggested != [] {
      NewTagsNone(suggested[1..], existing);
    }
  }

  /** Merging the same suggestions a second time adds nothing. */
  lemma MergeTagsIdempotent(existing: seq<string>, suggested: seq<string>)
    ensures MergeTags(MergeTags(existing, suggested), suggested) == MergeTags(existing, suggested)
  {
    NewTagsNone(suggested, MergeTags(existing, suggested));
  }

  /** Tags that were distinct stay distinct when the suggestions are themselves distinct. */
  lemma {:induction false} NewTagsDistinct(suggested: seq<string>, existing: seq<string>)
    requires forall i, j :: 0 <= i < j < |suggested| ==> suggested[i] != suggested[j]
    ensures forall i, j :: 0 <= i < j < |NewTags(suggested, existing)| ==>
              NewTags(suggested, existing)[i] != NewTags(suggested, existing)[j]
  {
    if suggested != [] {
      NewTagsDistinct(suggested[1..], existing);
      var rest := NewTags(suggested[1..], existing);
      assert forall k :: 0 <= k < |rest| ==> rest[k] in suggested[1..];
    }
  }

  lemma MergeTagsDistinct(existing: seq<string>, suggested: seq<string>)
    requires forall i, j :: 0 <= i < j < |existing| ==> existing[i] != existing[j]
    requires forall i, j :: 0 <= i < j < |suggested| ==> suggested[i] != suggested[j]
    ensures forall i, j :: 0 <= i < j < |MergeTags(existing, suggested)| ==>
              MergeTags(existing, suggested)[i] != MergeTags(existing, suggested)[j]
  {
    NewTagsDistinct(suggested, existing);
  }
}
