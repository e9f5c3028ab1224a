/**
 * The handful of Python `str` operations the game server relies on:
 * `strip()` with no argument, `lower()` and `count(ch)`, over strings as
 * sequences of Unicode scalar values.
 */
module PyStr {

  /** Python's `str.isspace()` for a single character. */
  predicate IsSpace(ch: char) {
    '\t' <= ch <= '\r' ||                         // \t \n \v \f \r
    '\U{1C}' <= ch <= '\U{1F}' ||                 // file, group, record, unit separators
    ch == ' ' || ch == '\U{85}' || ch == '\U{A0}' || ch == '\U{1680}' ||
    '\U{2000}' <= ch <= '\U{200A}' ||
    ch == '\U{2028}' || ch == '\U{2029}' || ch == '\U{202F}' ||
    ch == '\U{205F}' || ch == '\U{3000}'
  }

  predicate IsUpper(ch: char) {
    'A' <= ch <= 'Z'
  }

  /** The ASCII part of Python's case mapping: A-Z go to a-z, all else is kept. */
  function LowerChar(ch: char): (r: char)
    ensures !IsUpper(r)
    ensures IsUpper(ch) ==> 'a' <= r <= 'z' && r as int - ch as int == 'a' as int - 'A' as int
    ensures !IsUpper(ch) ==> r == ch
    ensures IsSpace(r) == IsSpace(ch)
  {
    if IsUpper(ch) then (ch as int - 'A' as int + 'a' as int) as char else ch
  }

  /** `s.lower()`: maps every character and keeps the length. */
  function Lower(s: string): (r: string)
    ensures |r| == |s|
    ensures forall i {:trigger r[i]} :: 0 <= i < |s| ==> r[i] == LowerChar(s[i])
  {
    if s == [] then [] else [LowerChar(s[0])] + Lower(s[1..])
  }

  /** `s.count(ch)` for a one-character needle: the number of positions holding `ch`. */
  function Count(s: string, ch: char): (n: nat)
    ensures n <= |s|
    ensures n == 0 <==> ch !in s
  {
    if s == [] then 0
    else (if s[0] == ch then 1 else 0) + Count(s[1..], ch)
  }

  /** `s.count(ch)` equals the length exactly when every character is `ch`. */
  lemma {:induction false} CountAll(s: string, ch: char)
    ensures Count(s, ch) == |s| <==> forall i :: 0 <= i < |s| ==> s[i] == ch
  {
    if s != [] {
      CountAll(s[1..], ch);
      assert forall i :: 1 <= i < |s| ==> s[i] == s[1..][i - 1];
    }
  }

  /** `s.count(ch)` is the number of times `ch` occurs in `s`: its multiplicity. */
  lemma {:induction false} CountIsMultiplicity(s: string, ch: char)
    ensures Count(s, ch) == multiset(s)[ch]
  {
    if s != [] {
      CountIsMultiplicity(s[1..], ch);
      assert s == [s[0]] + s[1..];
    }
  }

  /** No whitespace at either end: the shape `strip()` leaves. */
  predicate Trimmed(s: string) {
    s == [] || (!IsSpace(s[0]) && !IsSpace(s[|s| - 1]))
  }

  /** `s.lstrip()`: drops the leading whitespace and nothing else. */
  function TrimStart(s: string): (r: string)
    ensures |r| <= |s| && r == s[|s| - |r|..]
    ensures r == [] || !IsSpace(r[0])
    ensures forall i :: 0 <= i < |s| - |r| ==> IsSpace(s[i])
  {
    if s != [] && IsSpace(s[0]) then TrimStart(s[1..]) else s
  }

  /** `s.rstrip()`: drops the trailing whitespace and nothing else. */
  function TrimEnd(s: string): (r: string)
    ensures |r| <= |s| && r == s[..|r|]
    ensures r == [] || !IsSpace(r[|r| - 1])
    ensures forall i :: |r| <= i < |s| ==> IsSpace(s[i])
  {
    if s != [] && IsSpace(s[|s| - 1]) then TrimEnd(s[..|s| - 1]) else s
  }

  /** `s.strip()`: a contiguous piece of `s` with whitespace cut off both ends. */
  function Strip(s: string): (r: string)
    ensures Trimmed(r)
    ensures |r| <= |s|
  {
    TrimEnd(TrimStart(s))
  }

  /** `r` is the piece of `s` starting at `lo`, and only whitespace lies outside it. */
  predicate OuterSpaceCut(s: string, r: string, lo: int) {
    0 <= lo <= |s| - |r| && r == s[lo..lo + |r|] &&
    (forall j :: 0 <= j < lo ==> IsSpace(s[j])) &&
    (forall j :: lo + |r| <= j < |s| ==> IsSpace(s[j]))
  }

  /** `strip()` keeps everything between the outer whitespace and cuts off only whitespace. */
  lemma StripCutsOnlyOuterSpace(s: string)
    ensures exists lo :: OuterSpaceCut(s, Strip(s), lo)
  {
    var t := TrimStart(s);
    var r := TrimEnd(t);
    TwoCuts(s, t, r);
    assert OuterSpaceCut(s, Strip(s), |s| - |t|);
  }

  /**
   * Cutting whitespace off the front of `s` (leaving `t`) and then off the
   * back of `t` (leaving `r`) leaves a piece of `s` with only whitespace
   * outside it.
   */
  lemma TwoCuts(s: string, t: string, r: string)
    requires |t| <= |s| && t == s[|s| - |t|..]
    requires forall i :: 0 <= i < |s| - |t| ==> IsSpace(s[i])
    requires |r| <= |t| && r == t[..|r|]
    requires forall i :: |r| <= i < |t| ==> IsSpace(t[i])
    ensures OuterSpaceCut(s, r, |s| - |t|)
  {
    var lo := |s| - |t|;
    forall j | lo + |r| <= j < |s| ensures IsSpace(s[j]) {
      assert s[j] == t[j - lo];
    }
  }

  /** Stripping a string that has no outer whitespace leaves it as it is. */
  lemma StripTrimmed(s: string)
    requires Trimmed(s)
    ensures Strip(s) == s
  {
    assert TrimStart(s) == s;
    assert TrimEnd(s) == s;
  }

  /** Lower-casing neither adds nor removes whitespace at the ends. */
  lemma LowerKeepsTrimmed(s: string)
    requires Trimmed(s)
    ensures Trimmed(Lower(s))
  {
  }

  /** Lower-casing twice is the same as once. */
  lemma LowerIdempotent(s: string)
    ensures Lower(Lower(s)) == Lower(s)
  {
  }
}
