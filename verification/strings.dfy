/**
  The string primitives the calculator relies on, written out over `seq<char>`:
  JavaScript's `trim`, `split` on a set of separator characters, `includes`
  and an ASCII `toLowerCase`.
 */
module Strings {

  /** The characters JavaScript's `String.prototype.trim` removes: the
      WhiteSpace and LineTerminator productions of ECMA-262 (sections 12.2
      and 12.3), with the space separators of Unicode category Zs. */
  predicate IsJsWhitespace(c: char) {
    || c == '\t' || c == '\n' || c == '\U{000B}' || c == '\U{000C}' || c == '\r'
    || c == ' ' || c == '\U{00A0}' || c == '\U{1680}'
    || ('\U{2000}' <= c <= '\U{200A}')
    || c == '\U{2028}' || c == '\U{2029}' || c == '\U{202F}' || c == '\U{205F}'
    || c == '\U{3000}' || c == '\U{FEFF}'
  }

  predicate AllWhitespace(s: string) {
    forall i :: 0 <= i < |s| ==> IsJsWhitespace(s[i])
  }

  /** `r` has no whitespace at either end. */
  predicate IsTrimmed(r: string) {
    |r| > 0 ==> !IsJsWhitespace(r[0]) && !IsJsWhitespace(r[|r| - 1])
  }

  /** `r` is `s` with some whitespace removed from the front and the back. */
  ghost predicate IsTrimmingOf(r: string, s: string) {
    exists i :: 0 <= i <= |s| - |r| && s[i..i + |r|] == r && AllWhitespace(s[..i]) && AllWhitespace(s[i + |r|..])
  }

  function TrimStart(s: string): (r: string)
    ensures |r| <= |s| && r == s[|s| - |r|..]
    ensures AllWhitespace(s[..|s| - |r|])
    ensures |r| > 0 ==> !IsJsWhitespace(r[0])
  {
    if |s| > 0 && IsJsWhitespace(s[0]) then TrimStart(s[1..]) else s
  }

  function TrimEnd(s: string): (r: string)
    ensures |r| <= |s| && r == s[..|r|]
    ensures AllWhitespace(s[|r|..])
    ensures |r| > 0 ==> !IsJsWhitespace(r[|r| - 1])
  {
    if |s| > 0 && IsJsWhitespace(s[|s| - 1]) then TrimEnd(s[..|s| - 1]) else s
  }

  /** JavaScript's `s.trim()`: the longest middle part of `s` whose ends are not whitespace. */
  function Trim(s: string): (r: string)
    ensures IsTrimmed(r)
    ensures IsTrimmingOf(r, s)
  {
    var t := TrimStart(s);
    var r := TrimEnd(t);
    TrimEndKeepsStart(t);
    TrimmingWitness(s, t, r);
    r
  }

  lemma TrimEndKeepsStart(t: string)
    requires |t| > 0 ==> !IsJsWhitespace(t[0])
    ensures IsTrimmed(TrimEnd(t))
  {
    var r := TrimEnd(t);
    if |r| > 0 {
      assert r[0] == t[0];
    }
  }

  lemma TrimmingWitness(s: string, t: string, r: string)
    requires |t| <= |s| && t == s[|s| - |t|..] && AllWhitespace(s[..|s| - |t|])
    requires |r| <= |t| && r == t[..|r|] && AllWhitespace(t[|r|..])
    ensures IsTrimmingOf(r, s)
  {
    var i := |s| - |t|;
    assert s[i..i + |r|] == r;
    assert s[i + |r|..] == t[|r|..];
  }

  /** A trimmed string is left alone by a second trim. */
  lemma TrimIdempotent(s: string)
    ensures Trim(Trim(s)) == Trim(s)
  {
    var r := Trim(s);
    assert TrimStart(r) == r;
    assert TrimEnd(r) == r;
  }

  predicate NoSeparator(t: string, isSep: char -> bool) {
    forall i :: 0 <= i < |t| ==> !isSep(t[i])
  }

  /** The separator characters of `s`, in order. */
  function SeparatorsOf(s: string, isSep: char -> bool): seq<char> {
    if |s| == 0 then []
    else if isSep(s[0]) then [s[0]] + SeparatorsOf(s[1..], isSep)
    else SeparatorsOf(s[1..], isSep)
  }

  /** JavaScript's `s.split(re)` for a regular expression matching exactly one
      separator character: the maximal separator-free pieces, one more than
      there are separators. */
  function SplitBy(s: string, isSep: char -> bool): (r: seq<string>)
    ensures |r| == |SeparatorsOf(s, isSep)| + 1
    ensures forall k :: 0 <= k < |r| ==> NoSeparator(r[k], isSep)
  {
    if |s| == 0 then [""]
    else
      var rest := SplitBy(s[1..], isSep);
      if isSep(s[0]) then [""] + rest
      else [[s[0]] + rest[0]] + rest[1..]
  }

  /** Puts the pieces back together with the given separators between them. */
  function Weave(pieces: seq<string>, seps: seq<char>): string
    requires |pieces| == |seps| + 1
  {
    if |seps| == 0 then pieces[0] else pieces[0] + [seps[0]] + Weave(pieces[1..], seps[1..])
  }

  /** Splitting loses nothing: weaving the pieces with the separators found gives back the input. */
  lemma {:induction false} SplitWeave(s: string, isSep: char -> bool)
    ensures Weave(SplitBy(s, isSep), SeparatorsOf(s, isSep)) == s
  {
    if |s| > 0 {
      SplitWeave(s[1..], isSep);
      var rest := SplitBy(s[1..], isSep);
      var seps := SeparatorsOf(s[1..], isSep);
      if !isSep(s[0]) && |seps| > 0 {
        assert ([s[0]] + rest[0]) + [seps[0]] + Weave(rest[1..], seps[1..]) == [s[0]] + (rest[0] + [seps[0]] + Weave(rest[1..], seps[1..]));
      }
      assert s == [s[0]] + s[1..];
    }
  }

  /** Splitting at a separator splits the two sides independently. */
  lemma {:induction false} SplitConcat(a: string, c: char, b: string, isSep: char -> bool)
    requires isSep(c)
    ensures SplitBy(a + [c] + b, isSep) == SplitBy(a, isSep) + SplitBy(b, isSep)
  {
    if |a| == 0 {
      var s := a + [c] + b;
      assert s[1..] == b;
      SplitUnfold(s, isSep);
    } else {
      SplitConcat(a[1..], c, b, isSep);
      SplitConcatStep(a, c, b, isSep);
    }
  }

  lemma SplitConcatStep(a: string, c: char, b: string, isSep: char -> bool)
    requires |a| > 0
    requires SplitBy(a[1..] + [c] + b, isSep) == SplitBy(a[1..], isSep) + SplitBy(b, isSep)
    ensures SplitBy(a + [c] + b, isSep) == SplitBy(a, isSep) + SplitBy(b, isSep)
  {
    var s := a + [c] + b;
    assert s[0] == a[0];
    assert s[1..] == a[1..] + [c] + b;
    SplitUnfold(s, isSep);
    SplitUnfold(a, isSep);
    PieceStep(a[0], isSep(a[0]), SplitBy(s, isSep), SplitBy(a, isSep), SplitBy(s[1..], isSep), SplitBy(a[1..], isSep), SplitBy(b, isSep));
  }

  /** The shape shared by the steps of `SplitBy` and of the line scanner: a
      result built from a tail by the same step extends by the same pieces. */
  lemma PieceStep<T>(x: T, startsPiece: bool, whole: seq<seq<T>>, part: seq<seq<T>>,
                     restWhole: seq<seq<T>>, restPart: seq<seq<T>>, tail: seq<seq<T>>)
    requires |restPart| >= 1 && restWhole == restPart + tail
    requires startsPiece ==> whole == [[]] + restWhole && part == [[]] + restPart
    requires !startsPiece ==> whole == [[x] + restWhole[0]] + restWhole[1..] && part == [[x] + restPart[0]] + restPart[1..]
    ensures whole == part + tail
  {
    if startsPiece {
      assert [[]] + (restPart + tail) == ([[]] + restPart) + tail;
    } else {
      JoinFirst(x, restWhole, restPart, tail);
    }
  }

  /** One step of `SplitBy`: a separator starts a new piece, any other character joins the first one. */
  lemma SplitUnfold(t: string, isSep: char -> bool)
    requires |t| > 0
    ensures isSep(t[0]) ==> SplitBy(t, isSep) == [""] + SplitBy(t[1..], isSep)
    ensures !isSep(t[0]) ==> SplitBy(t, isSep) == [[t[0]] + SplitBy(t[1..], isSep)[0]] + SplitBy(t[1..], isSep)[1..]
  {
  }

  /** Prepending a character to the first piece commutes with appending more pieces. */
  lemma JoinFirst<T>(c: T, restS: seq<seq<T>>, restA: seq<seq<T>>, tail: seq<seq<T>>)
    requires |restA| >= 1 && restS == restA + tail
    ensures [[c] + restS[0]] + restS[1..] == ([[c] + restA[0]] + restA[1..]) + tail
  {
    assert restS[0] == restA[0];
    assert restS[1..] == restA[1..] + tail;
  }

  predicate StartsWith(s: string, prefix: string) {
    |prefix| <= |s| && s[..|prefix|] == prefix
  }

  predicate OccursAt(s: string, pattern: string, i: int) {
    0 <= i && i + |pattern| <= |s| && s[i..i + |pattern|] == pattern
  }

  /** JavaScript's `s.includes(pattern)`. */
  function Contains(s: string, pattern: string): (r: bool)
    ensures r <==> exists i :: OccursAt(s, pattern, i)
  {
    if StartsWith(s, pattern) then
      assert OccursAt(s, pattern, 0);
      true
    else if |s| == 0 then
      false
    else
      var r := Contains(s[1..], pattern);
      assert forall i :: OccursAt(s[1..], pattern, i) <==> OccursAt(s, pattern, i + 1);
      assert !OccursAt(s, pattern, 0);
      assert forall i :: OccursAt(s, pattern, i) ==> OccursAt(s[1..], pattern, i - 1);
      r
  }

  function LowerChar(c: char): char {
    if 'A' <= c <= 'Z' then (c as int - 'A' as int + 'a' as int) as char else c
  }

  /** `toLowerCase` on the ASCII letters; every other character is kept. */
  function ToLowerAscii(s: string): (r: string)
    ensures |r| == |s|
    ensures forall i :: 0 <= i < |s| ==> r[i] == LowerChar(s[i])
  {
    if |s| == 0 then "" else [LowerChar(s[0])] + ToLowerAscii(s[1..])
  }
}
