/** First-occurrence search, removal and replacement on sequences: the
    scan-and-erase idiom that SVertex::Replace and SShape::Remove* apply
    to their std::vector members. */
module Seqs {

  /** Index of the first occurrence of `x` in `s`, or `|s|` when `x` does not occur. */
  function IndexOf<T(==)>(s: seq<T>, x: T): (i: nat)
    ensures i <= |s|
    ensures i < |s| ==> s[i] == x
    ensures forall j :: 0 <= j < i ==> s[j] != x
    ensures i == |s| <==> x !in s
  {
    if s == [] then 0
    else if s[0] == x then 0
    else 1 + IndexOf(s[1..], x)
  }

  /** `s` without its first occurrence of `x` (unchanged when `x` is absent). */
  function RemoveFirst<T(==)>(s: seq<T>, x: T): (r: seq<T>)
    ensures |r| == if x in s then |s| - 1 else |s|
  {
    if s == [] then []
    else if s[0] == x then s[1..]
    else
      assert x in s <==> x in s[1..];
      [s[0]] + RemoveFirst(s[1..], x)
  }

  /** `s` with its first occurrence of `x` replaced by `y` (unchanged when `x` is absent). */
  function ReplaceFirst<T(==)>(s: seq<T>, x: T, y: T): (r: seq<T>)
    ensures |r| == |s|
  {
    if s == [] then []
    else if s[0] == x then [y] + s[1..]
    else [s[0]] + ReplaceFirst(s[1..], x, y)
  }

  /** RemoveFirst erases exactly the entry at the first occurrence and keeps
      every other entry in its order. */
  lemma {:induction false} RemoveFirstAt<T>(s: seq<T>, x: T)
    ensures x in s ==> RemoveFirst(s, x) == s[..IndexOf(s, x)] + s[IndexOf(s, x) + 1..]
    ensures x !in s ==> RemoveFirst(s, x) == s
  {
    if s == [] {
    } else if s[0] == x {
      assert IndexOf(s, x) == 0;
    } else {
      var t := s[1..];
      assert s == [s[0]] + t;
      RemoveFirstAt(t, x);
      if x in t {
        var i := IndexOf(t, x);
        assert IndexOf(s, x) == i + 1;
        calc {
          RemoveFirst(s, x);
          [s[0]] + RemoveFirst(t, x);
          [s[0]] + (t[..i] + t[i + 1..]);
          { assert s[..i + 1] == [s[0]] + t[..i]; assert s[i + 2..] == t[i + 1..]; }
          s[..i + 1] + s[i + 2..];
        }
      }
    }
  }

  /** ReplaceFirst substitutes `y` at the first occurrence of `x` only: every
      other position keeps its entry. */
  lemma {:induction false} ReplaceFirstAt<T>(s: seq<T>, x: T, y: T)
    ensures x in s ==> ReplaceFirst(s, x, y) == s[..IndexOf(s, x)] + [y] + s[IndexOf(s, x) + 1..]
    ensures x !in s ==> ReplaceFirst(s, x, y) == s
  {
    if s == [] {
    } else if s[0] == x {
      assert IndexOf(s, x) == 0;
    } else {
      var t := s[1..];
      assert s == [s[0]] + t;
      ReplaceFirstAt(t, x, y);
      if x in t {
        var i := IndexOf(t, x);
        assert IndexOf(s, x) == i + 1;
        calc {
          ReplaceFirst(s, x, y);
          [s[0]] + ReplaceFirst(t, x, y);
          [s[0]] + (t[..i] + [y] + t[i + 1..]);
          { assert s[..i + 1] == [s[0]] + t[..i]; assert s[i + 2..] == t[i + 1..]; }
          s[..i + 1] + [y] + s[i + 2..];
        }
      }
    }
  }

  /** The pointwise reading of ReplaceFirst: position `IndexOf(s, x)` holds `y`,
      every other position holds what `s` held there. */
  lemma ReplaceFirstPointwise<T>(s: seq<T>, x: T, y: T, j: nat)
    requires j < |s|
    ensures ReplaceFirst(s, x, y)[j] == if j == IndexOf(s, x) then y else s[j]
  {
    ReplaceFirstAt(s, x, y);
  }

  /** The entries left after RemoveFirst, position by position: those before the
      first occurrence stay where they were, those after it move up by one. */
  lemma RemoveFirstPointwise<T>(s: seq<T>, x: T, j: nat)
    requires j < |RemoveFirst(s, x)|
    ensures RemoveFirst(s, x)[j] == if j < IndexOf(s, x) then s[j] else s[j + 1]
  {
    RemoveFirstAt(s, x);
  }

  /** The linear scan of the source's for loops: the position of the first
      entry equal to `x`, or `|s|` when there is none. */
  method Find<T(==)>(s: seq<T>, x: T) returns (i: nat)
    ensures i == IndexOf(s, x)
  {
    i := 0;
    while i < |s| && s[i] != x
      invariant i <= |s|
      invariant forall j :: 0 <= j < i ==> s[j] != x
    {
      i := i + 1;
    }
    IndexOfIsFirstMatch(s, x, i);
  }

  /** The first position holding `x` (or `|s|` when there is none) is IndexOf. */
  lemma {:induction false} IndexOfIsFirstMatch<T>(s: seq<T>, x: T, i: nat)
    requires i <= |s|
    requires i < |s| ==> s[i] == x
    requires forall j :: 0 <= j < i ==> s[j] != x
    ensures i == IndexOf(s, x)
  {
    if s != [] && s[0] != x {
      assert i > 0;
      IndexOfIsFirstMatch(s[1..], x, i - 1);
    }
  }

  /** No entry occurs twice. */
  predicate Distinct<T(==)>(s: seq<T>)
  {
    forall j, k :: 0 <= j < k < |s| ==> s[j] != s[k]
  }

  /** Position `j` holds the last occurrence of `s[j]` among the first `n`
      entries: no entry after it, up to `n`, is equal to it. */
  predicate LastBefore<T(==)>(s: seq<T>, j: nat, n: nat)
    requires j < n <= |s|
    decreases n
  {
    n == j + 1 || (s[n - 1] != s[j] && LastBefore(s, j, n - 1))
  }

  /** Every entry of the first `n` has a last occurrence among them, at or
      after its own position. */
  lemma {:induction false} LastOccurrence<T>(s: seq<T>, k: nat, n: nat) returns (j: nat)
    requires k < n <= |s|
    ensures k <= j < n && s[j] == s[k] && LastBefore(s, j, n)
  {
    if n == k + 1 {
      j := k;
    } else if s[n - 1] == s[k] {
      j := n - 1;
    } else {
      j := LastOccurrence(s, k, n - 1);
    }
  }

  /** Nothing after a last occurrence, up to `n`, equals it. */
  lemma {:induction false} LastBeforeHasNoLaterCopy<T>(s: seq<T>, j: nat, n: nat)
    requires j < n <= |s| && LastBefore(s, j, n)
    ensures forall i :: j < i < n ==> s[i] != s[j]
  {
    if n > j + 1 {
      LastBeforeHasNoLaterCopy(s, j, n - 1);
    }
  }

  /** The position of the last occurrence of `x` in `s`. */
  function LastIndexOf<T(==)>(s: seq<T>, x: T): (j: nat)
    requires x in s
    ensures j < |s| && s[j] == x
    ensures forall i :: j < i < |s| ==> s[i] != x
  {
    if s[|s| - 1] == x then |s| - 1
    else
      assert x in s[..|s| - 1] by {
        var i :| 0 <= i < |s| && s[i] == x;
        assert s[..|s| - 1][i] == x;
      }
      LastIndexOf(s[..|s| - 1], x)
  }

  /** A position that holds the last occurrence of its entry is the one
      `LastIndexOf` finds. */
  lemma LastBeforeIsLastIndex<T>(s: seq<T>, j: nat)
    requires j < |s| && LastBefore(s, j, |s|)
    ensures LastIndexOf(s, s[j]) == j
  {
    LastBeforeHasNoLaterCopy(s, j, |s|);
  }
}
