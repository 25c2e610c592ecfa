/** The string operations the scheduler relies on: substring tests, ASCII
    lower-casing, whitespace stripping and splitting a designator on its
    separators. Strings are sequences of characters. */
module Text {

  /** `pat` occurs in `s` starting at index `i`. */
  predicate OccursAt(s: string, pat: string, i: nat) {
    i + |pat| <= |s| && s[i..i + |pat|] == pat
  }

  /** The substring test `pat in s`, scanning `s` from the left. */
  function Contains(s: string, pat: string): (r: bool)
    ensures r <==> exists i: nat :: OccursAt(s, pat, i)
    decreases |s|
  {
    if |pat| > |s| then
      assert forall i: nat :: !OccursAt(s, pat, i);
      false
    else if s[..|pat|] == pat then
      assert OccursAt(s, pat, 0);
      true
    else
      var r := Contains(s[1..], pat);
      assert forall i: nat :: OccursAt(s[1..], pat, i) <==> OccursAt(s, pat, i + 1) by {
        forall i: nat ensures OccursAt(s[1..], pat, i) <==> OccursAt(s, pat, i + 1) {
          if i + |pat| <= |s[1..]| {
            assert s[1..][i..i + |pat|] == s[i + 1..i + 1 + |pat|];
          }
        }
      }
      assert r ==> exists i: nat :: OccursAt(s, pat, i) by {
        if r {
          var i: nat :| OccursAt(s[1..], pat, i);
          assert OccursAt(s, pat, i + 1);
        }
      }
      assert (exists i: nat :: OccursAt(s, pat, i)) ==> r by {
        if exists i: nat :: OccursAt(s, pat, i) {
          var i: nat :| OccursAt(s, pat, i);
          assert i != 0;
          assert OccursAt(s[1..], pat, i - 1);
        }
      }
      r
  }

  /** The prefix test `s.startswith(pat)`. */
  predicate StartsWith(s: string, pat: string) {
    OccursAt(s, pat, 0)
  }

  predicate IsAsciiUpper(c: char) {
    'A' <= c <= 'Z'
  }

  /** ASCII lower-casing of one character; every other character is kept. */
  function LowerChar(c: char): (r: char)
    ensures !IsAsciiUpper(r)
    ensures !IsAsciiUpper(c) ==> r == c
    ensures IsAsciiUpper(c) ==> r as int == c as int + 32
  {
    if IsAsciiUpper(c) then (c as int + 32) as char else c
  }

  /** `s.lower()`, restricted to ASCII letters. */
  function Lower(s: string): (r: string)
    ensures |r| == |s|
    ensures forall i :: 0 <= i < |r| ==> !IsAsciiUpper(r[i])
  {
    seq(|s|, i requires 0 <= i < |s| => LowerChar(s[i]))
  }

  /** Lower-casing commutes with taking a slice. */
  lemma LowerSlice(s: string, i: nat, j: nat)
    requires i <= j <= |s|
    ensures Lower(s)[i..j] == Lower(s[i..j])
  {
  }

  /** The ASCII characters that `str.strip()` removes. */
  predicate IsSpace(c: char) {
    c == ' ' || 9 <= c as int <= 13 || 28 <= c as int <= 31
  }

  /** `s` with its leading whitespace removed. */
  function StripLeft(s: string): (r: string)
    ensures |r| <= |s| && r == s[|s| - |r|..]
    ensures forall i :: 0 <= i < |s| - |r| ==> IsSpace(s[i])
    ensures r == [] || !IsSpace(r[0])
    decreases |s|
  {
    if s != [] && IsSpace(s[0]) then StripLeft(s[1..]) else s
  }

  /** `s` with its trailing whitespace removed. */
  function StripRight(s: string): (r: string)
    ensures |r| <= |s| && r == s[..|r|]
    ensures forall i :: |r| <= i < |s| ==> IsSpace(s[i])
    ensures r == [] || !IsSpace(r[|r| - 1])
    decreases |s|
  {
    if s != [] && IsSpace(s[|s| - 1]) then StripRight(s[..|s| - 1]) else s
  }

  /** `r` is the piece of `s` starting at `a`, and everything outside it is
      whitespace. */
  predicate TrimmedAt(s: string, r: string, a: nat) {
    && a + |r| <= |s| && r == s[a..a + |r|]
    && (forall i :: 0 <= i < a ==> IsSpace(s[i]))
    && (forall i :: a + |r| <= i < |s| ==> IsSpace(s[i]))
  }

  /** Cutting leading whitespace off `s` to get `t`, then trailing
      whitespace off `t` to get `r`, leaves `r` as the piece of `s` starting
      where the leading whitespace ends. */
  lemma TrimmedInTwoCuts(s: string, t: string, r: string)
    requires |t| <= |s| && t == s[|s| - |t|..] && forall i :: 0 <= i < |s| - |t| ==> IsSpace(s[i])
    requires |r| <= |t| && r == t[..|r|] && forall i :: |r| <= i < |t| ==> IsSpace(t[i])
    ensures TrimmedAt(s, r, |s| - |t|)
  {
    var a := |s| - |t|;
    assert r == s[a..a + |r|];
    forall i | a + |r| <= i < |s| ensures IsSpace(s[i]) {
      assert s[i] == t[i - a];
    }
  }

  /** `s.strip()`: a contiguous piece of `s` that neither starts nor ends
      with whitespace, and everything cut away is whitespace. */
  function Strip(s: string): (r: string)
    ensures exists a: nat :: TrimmedAt(s, r, a)
    ensures r == [] || (!IsSpace(r[0]) && !IsSpace(r[|r| - 1]))
  {
    var t := StripLeft(s);
    var r := StripRight(t);
    TrimmedInTwoCuts(s, t, r);
    var a: nat := |s| - |t|;
    assert TrimmedAt(s, r, a);
    r
  }

  /** The two characters that separate alternatives in a designator. */
  predicate IsSeparator(c: char) {
    c == '/' || c == ','
  }

  /** `s.replace('/', ',').split(',')`: the pieces between separators, empty
      pieces included, so there is always one more piece than separators. */
  function SplitFields(s: string): (r: seq<string>)
    ensures |r| >= 1
    ensures forall k, j :: 0 <= k < |r| && 0 <= j < |r[k]| ==> !IsSeparator(r[k][j])
    decreases |s|
  {
    if s == [] then [[]]
    else if IsSeparator(s[0]) then [[]] + SplitFields(s[1..])
    else
      var rest := SplitFields(s[1..]);
      [[s[0]] + rest[0]] + rest[1..]
  }

  /** `','.join(parts)`. */
  function JoinWithCommas(parts: seq<string>): string
    requires |parts| >= 1
  {
    if |parts| == 1 then parts[0] else parts[0] + [','] + JoinWithCommas(parts[1..])
  }

  /** `s.replace('/', ',')`. */
  function SlashesToCommas(s: string): (r: string)
    ensures |r| == |s|
  {
    seq(|s|, i requires 0 <= i < |s| => if s[i] == '/' then ',' else s[i])
  }

  /** Joining the pieces back with commas gives the designator with every
      slash turned into a comma: splitting loses nothing but which separator
      was used. */
  lemma {:induction false} JoinSplitFields(s: string)
    ensures JoinWithCommas(SplitFields(s)) == SlashesToCommas(s)
    decreases |s|
  {
    if s == [] {
    } else if IsSeparator(s[0]) {
      JoinSplitFields(s[1..]);
      assert SlashesToCommas(s) == [','] + SlashesToCommas(s[1..]);
    } else {
      JoinSplitFields(s[1..]);
      var rest := SplitFields(s[1..]);
      assert SlashesToCommas(s) == [s[0]] + SlashesToCommas(s[1..]);
      if |rest| == 1 {
      } else {
        assert JoinWithCommas(rest) == rest[0] + [','] + JoinWithCommas(rest[1..]);
        assert ([s[0]] + rest[0] + [','] + JoinWithCommas(rest[1..]))
            == [s[0]] + (rest[0] + [','] + JoinWithCommas(rest[1..]));
        assert ([[s[0]] + rest[0]] + rest[1..])[1..] == rest[1..];
      }
    }
  }

  /** A designator without separators is a single piece, itself. */
  lemma {:induction false} SplitFieldsNoSeparator(s: string)
    requires forall j :: 0 <= j < |s| ==> !IsSeparator(s[j])
    ensures SplitFields(s) == [s]
    decreases |s|
  {
    if s != [] {
      SplitFieldsNoSeparator(s[1..]);
      assert [s[0]] + s[1..] == s;
    }
  }
}
