/**
 * `String.prototype.split` with a one-character separator, as in ECMAScript: the
 * string is cut at every occurrence of the separator, so `k` separators give
 * `k + 1` pieces, adjacent separators give an empty piece between them, and the
 * empty string gives the single piece "". `Join` is `Array.prototype.join`,
 * the inverse of `Split`.
 */
module JsString {

  /** Position of the first occurrence of `c` in `s`. */
  function IndexOf(s: string, c: char): (i: nat)
    requires c in s
    ensures i < |s| && s[i] == c
    ensures forall j :: 0 <= j < i ==> s[j] != c
  {
    if s[0] == c then 0 else 1 + IndexOf(s[1..], c)
  }

  /** Every piece of a list is free of the separator. */
  predicate SeparatorFree(pieces: seq<string>, sep: char)
  {
    forall k :: 0 <= k < |pieces| ==> sep !in pieces[k]
  }

  /** `s.split(sep)` for a one-character separator `sep`. */
  function Split(s: string, sep: char): (pieces: seq<string>)
    ensures |pieces| >= 1
    ensures |pieces| == 1 <==> sep !in s
    ensures |pieces| == 1 ==> pieces[0] == s
    ensures SeparatorFree(pieces, sep)
    decreases |s|
  {
    if sep !in s then [s]
    else
      var i := IndexOf(s, sep);
      [s[..i]] + Split(s[i + 1..], sep)
  }

  /** `pieces.join(sep)`: the pieces with one separator between neighbours. */
  function Join(pieces: seq<string>, sep: char): string
  {
    if |pieces| == 0 then ""
    else if |pieces| == 1 then pieces[0]
    else pieces[0] + [sep] + Join(pieces[1..], sep)
  }

  /** Splitting yields one more piece than there are separators in the string. */
  lemma {:induction false} SplitLength(s: string, sep: char)
    ensures |Split(s, sep)| == multiset(s)[sep] + 1
    decreases |s|
  {
    if sep in s {
      var i := IndexOf(s, sep);
      SplitLength(s[i + 1..], sep);
      SplitAtFirst(s, sep);
      assert multiset(s) == multiset(s[..i]) + multiset([sep]) + multiset(s[i + 1..]);
      assert sep !in s[..i];
    }
  }

  /** Joining two non-empty piece lists puts one separator between their joins. */
  lemma {:induction false} JoinAppend(p: seq<string>, q: seq<string>, sep: char)
    requires |p| >= 1 && |q| >= 1
    ensures Join(p + q, sep) == Join(p, sep) + [sep] + Join(q, sep)
    decreases |p|
  {
    if |p| == 1 {
      assert (p + q)[1..] == q;
    } else {
      assert (p + q)[1..] == p[1..] + q;
      JoinAppend(p[1..], q, sep);
    }
  }

  /** Joining the pieces of a split gives back the original string. */
  lemma {:induction false} JoinSplit(s: string, sep: char)
    ensures Join(Split(s, sep), sep) == s
    decreases |s|
  {
    if sep !in s {
      assert Split(s, sep) == [s];
    } else {
      var i := IndexOf(s, sep);
      var tail := s[i + 1..];
      JoinSplit(tail, sep);
      SplitAtFirst(s, sep);
      JoinCons(s[..i], Split(tail, sep), tail, sep);
    }
  }

  /** A string with a separator splits into its first piece and the pieces of the rest. */
  lemma SplitAtFirst(s: string, sep: char)
    requires sep in s
    ensures var i := IndexOf(s, sep);
            && s == s[..i] + [sep] + s[i + 1..]
            && Split(s, sep) == [s[..i]] + Split(s[i + 1..], sep)
  {
    var i := IndexOf(s, sep);
    CutAt(s, i);
  }

  /** Any string is the text before position `i`, the character at `i`, and the text after it. */
  lemma CutAt(s: string, i: nat)
    requires i < |s|
    ensures s == s[..i] + [s[i]] + s[i + 1..]
  {
  }

  /** Joining a piece in front of a non-empty list adds one separator. */
  lemma JoinCons(head: string, rest: seq<string>, tail: string, sep: char)
    requires |rest| >= 1
    requires Join(rest, sep) == tail
    ensures Join([head] + rest, sep) == head + [sep] + tail
  {
    assert ([head] + rest)[1..] == rest;
  }

  /** The first separator of `a + sep + b`, with `a` separator-free, follows `a`. */
  lemma IndexOfAfterFreePrefix(a: string, b: string, sep: char)
    requires sep !in a
    ensures IndexOf(a + [sep] + b, sep) == |a|
  {
    var s := a + [sep] + b;
    var i := IndexOf(s, sep);
    assert s[|a|] == sep;
    forall j | 0 <= j < |a|
      ensures s[j] != sep
    {
      assert s[j] == a[j];
    }
  }

  /** Splitting the join of separator-free pieces gives back the pieces. */
  lemma {:induction false} SplitJoin(pieces: seq<string>, sep: char)
    requires |pieces| >= 1
    requires SeparatorFree(pieces, sep)
    ensures Split(Join(pieces, sep), sep) == pieces
    decreases |pieces|
  {
    if |pieces| > 1 {
      var head, tail := pieces[0], pieces[1..];
      var rest := Join(tail, sep);
      assert pieces == [head] + tail;
      JoinCons(head, tail, rest, sep);
      var s := head + [sep] + rest;
      assert sep !in head;
      IndexOfAfterFreePrefix(head, rest, sep);
      assert s[..|head|] == head;
      assert s[|head| + 1..] == rest;
      assert Split(s, sep) == [head] + Split(rest, sep);
      SplitJoin(tail, sep);
    }
  }

  /**
   * `Split` is the only way to cut a string into separator-free pieces whose join
   * is the string. A corollary of `SplitJoin`, stated in terms of the string.
   */
  lemma SplitUnique(s: string, pieces: seq<string>, sep: char)
    requires |pieces| >= 1
    requires SeparatorFree(pieces, sep)
    requires Join(pieces, sep) == s
    ensures Split(s, sep) == pieces
  {
    SplitJoin(pieces, sep);
  }

  /** Concatenating separator-free lists gives a separator-free list. */
  lemma SeparatorFreeAppend(p: seq<string>, q: seq<string>, sep: char)
    requires SeparatorFree(p, sep) && SeparatorFree(q, sep)
    ensures SeparatorFree(p + q, sep)
  {
    forall k | 0 <= k < |p + q|
      ensures sep !in (p + q)[k]
    {
      if k < |p| { assert (p + q)[k] == p[k]; } else { assert (p + q)[k] == q[k - |p|]; }
    }
  }

  /** The pieces of `a + sep + b` are the pieces of `a` followed by those of `b`. */
  lemma SplitAroundSeparator(a: string, b: string, sep: char)
    ensures Split(a + [sep] + b, sep) == Split(a, sep) + Split(b, sep)
  {
    var p := Split(a, sep);
    var q := Split(b, sep);
    JoinSplit(a, sep);
    JoinSplit(b, sep);
    JoinAppend(p, q, sep);
    SeparatorFreeAppend(p, q, sep);
    SplitJoin(p + q, sep);
  }
}
