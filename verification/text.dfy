/** Splitting a string at a separator character (`String.prototype.split` with a one-character
    separator) and joining the pieces back. */
module Text {

  /** `n` copies of the character `c`. */
  function Repeat(c: char, n: nat): (s: string)
    ensures |s| == n
    ensures forall i :: 0 <= i < n ==> s[i] == c
  {
    if n == 0 then [] else [c] + Repeat(c, n - 1)
  }

  /** The pieces joined with the separator between each pair. */
  function Join(parts: seq<string>, d: char): string
  {
    if |parts| == 0 then []
    else if |parts| == 1 then parts[0]
    else parts[0] + [d] + Join(parts[1..], d)
  }

  /** Splits `s` at every occurrence of `d`. There is always at least one piece, no piece contains
      the separator, and joining the pieces restores `s`. */
  function SplitOn(s: string, d: char): (parts: seq<string>)
    ensures |parts| >= 1
    ensures forall i :: 0 <= i < |parts| ==> d !in parts[i]
    ensures Join(parts, d) == s
  {
    if s == [] then [[]]
    else
      var rest := SplitOn(s[1..], d);
      assert s == [s[0]] + s[1..];
      if s[0] == d then
        assert ([[]] + rest)[1..] == rest;
        [[]] + rest
      else
        var parts := [[s[0]] + rest[0]] + rest[1..];
        assert parts[1..] == rest[1..];
        assert |rest| > 1 ==> Join(rest, d) == rest[0] + [d] + Join(rest[1..], d);
        parts
  }

  /** The pieces that are not empty, in order. */
  function DropEmpty(parts: seq<string>): (r: seq<string>)
    ensures forall i :: 0 <= i < |r| ==> r[i] != []
    ensures forall x :: x in r <==> x in parts && x != []
    ensures forall x :: multiset(r)[x] == if x == [] then 0 else multiset(parts)[x]
  {
    if parts == [] then []
    else
      assert parts == [parts[0]] + parts[1..];
      (if parts[0] == [] then [] else [parts[0]]) + DropEmpty(parts[1..])
  }

  /** Dropping empty pieces works piece by piece, so it keeps the order of the rest. */
  lemma {:induction false} DropEmptyAppend(a: seq<string>, b: seq<string>)
    ensures DropEmpty(a + b) == DropEmpty(a) + DropEmpty(b)
  {
    if a == [] {
      assert a + b == b;
    } else {
      assert (a + b)[1..] == a[1..] + b;
      DropEmptyAppend(a[1..], b);
    }
  }

  lemma {:induction false} DropEmptyKeepsNonEmpty(parts: seq<string>)
    requires forall i :: 0 <= i < |parts| ==> parts[i] != []
    ensures DropEmpty(parts) == parts
  {
    if parts != [] {
      DropEmptyKeepsNonEmpty(parts[1..]);
    }
  }

  /** Splitting a separator-free prefix off. */
  lemma {:induction false} SplitOnPrefix(x: string, d: char, y: string)
    requires d !in x
    ensures SplitOn(x + [d] + y, d) == [x] + SplitOn(y, d)
  {
    if x == [] {
      assert ([d] + y)[1..] == y;
    } else {
      SplitOnPrefix(x[1..], d, y);
      assert (x + [d] + y)[1..] == x[1..] + [d] + y;
      assert x == [x[0]] + x[1..];
    }
  }

  /** A separator-free string is one piece. */
  lemma {:induction false} SplitOnFree(x: string, d: char)
    requires d !in x
    ensures SplitOn(x, d) == [x]
  {
    if x != [] {
      SplitOnFree(x[1..], d);
      assert x == [x[0]] + x[1..];
    }
  }

  /** Splitting undoes joining, when no piece contains the separator. */
  lemma {:induction false} SplitOfJoin(parts: seq<string>, d: char)
    requires |parts| >= 1
    requires forall i :: 0 <= i < |parts| ==> d !in parts[i]
    ensures SplitOn(Join(parts, d), d) == parts
  {
    if |parts| == 1 {
      SplitOnFree(parts[0], d);
    } else {
      SplitOfJoin(parts[1..], d);
      SplitOnPrefix(parts[0], d, Join(parts[1..], d));
      assert parts == [parts[0]] + parts[1..];
    }
  }
}
