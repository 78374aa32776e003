/** Full-width to half-width folding (`zenkaku2hankaku`): every full-width Latin letter or digit is
    moved down by the fixed distance between the two Unicode blocks; nothing else changes. */
module Normalizer {
  import opened Text

  /** Distance between a full-width letter or digit and its ASCII counterpart. */
  const FullWidthOffset: int := 0xFEE0

  /** The character class `[Ａ-Ｚａ-ｚ０-９]`. */
  predicate IsFullWidthAlnum(c: char)
  {
    ('\U{FF21}' <= c <= '\U{FF3A}') || ('\U{FF41}' <= c <= '\U{FF5A}') || ('\U{FF10}' <= c <= '\U{FF19}')
  }

  predicate IsAsciiAlnum(c: char)
  {
    ('A' <= c <= 'Z') || ('a' <= c <= 'z') || ('0' <= c <= '9')
  }

  /** Folds one character. A full-width upper-case letter becomes the ASCII upper-case letter of the
      same position, and likewise for lower-case letters and digits. */
  function FoldChar(c: char): (r: char)
    ensures '\U{FF21}' <= c <= '\U{FF3A}' ==> 'A' <= r <= 'Z' && r as int - 'A' as int == c as int - 0xFF21
    ensures '\U{FF41}' <= c <= '\U{FF5A}' ==> 'a' <= r <= 'z' && r as int - 'a' as int == c as int - 0xFF41
    ensures '\U{FF10}' <= c <= '\U{FF19}' ==> '0' <= r <= '9' && r as int - '0' as int == c as int - 0xFF10
    ensures IsFullWidthAlnum(c) ==> IsAsciiAlnum(r)
    ensures !IsFullWidthAlnum(c) ==> r == c
    ensures !IsFullWidthAlnum(r)
  {
    if IsFullWidthAlnum(c) then (c as int - FullWidthOffset) as char else c
  }

  /** Folds a whole string, left to right. */
  function Normalize(s: string): (r: string)
    ensures |r| == |s|
    ensures forall i :: 0 <= i < |s| ==> r[i] == FoldChar(s[i])
  {
    if s == [] then [] else [FoldChar(s[0])] + Normalize(s[1..])
  }

  /** Folding twice is folding once. */
  lemma NormalizeIdempotent(s: string)
    ensures Normalize(Normalize(s)) == Normalize(s)
  {
    var n := Normalize(s);
    assert forall i :: 0 <= i < |n| ==> FoldChar(n[i]) == n[i];
  }

  /** Text without full-width letters or digits is left as it is. */
  lemma NormalizeFixesHalfWidth(s: string)
    requires forall i :: 0 <= i < |s| ==> !IsFullWidthAlnum(s[i])
    ensures Normalize(s) == s
  {
  }

  /** Every line folded on its own. */
  function NormalizeEach(lines: seq<string>): (r: seq<string>)
    ensures |r| == |lines|
    ensures forall i :: 0 <= i < |lines| ==> r[i] == Normalize(lines[i])
  {
    seq(|lines|, i requires 0 <= i < |lines| => Normalize(lines[i]))
  }

  /** Folding never creates or removes a line break, so folding the whole text and then splitting it
      into lines gives the same lines as splitting first and folding each line. */
  lemma {:induction false} NormalizeCommutesWithSplit(s: string)
    ensures SplitOn(Normalize(s), '\n') == NormalizeEach(SplitOn(s, '\n'))
  {
    if s != [] {
      var t := s[1..];
      NormalizeCommutesWithSplit(t);
      var n := Normalize(s);
      assert n[1..] == Normalize(t);
      var st := SplitOn(t, '\n');
      var rest := SplitOn(Normalize(t), '\n');
      assert n[0] == '\n' <==> s[0] == '\n';
      if s[0] == '\n' {
        assert SplitOn(s, '\n') == [[]] + st;
        assert SplitOn(n, '\n') == [[]] + rest;
      } else {
        assert SplitOn(s, '\n') == [[s[0]] + st[0]] + st[1..];
        assert SplitOn(n, '\n') == [[n[0]] + rest[0]] + rest[1..];
        assert ([s[0]] + st[0])[1..] == st[0];
        assert Normalize([s[0]] + st[0]) == [n[0]] + Normalize(st[0]);
        var pieces := [[s[0]] + st[0]] + st[1..];
        var folded := [[n[0]] + rest[0]] + rest[1..];
        assert |folded| == |pieces|;
        forall i | 0 <= i < |pieces|
          ensures folded[i] == Normalize(pieces[i])
        {
          if i > 0 {
            assert folded[i] == rest[i] && pieces[i] == st[i];
          }
        }
      }
    }
  }
}
