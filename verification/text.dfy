/** The string operations the application relies on: `str.lower()`,
    `str.strip()`, the substring test `w in s`, and `str.replace(p, r)`.
    Case folding and whitespace are restricted to ASCII. */
module Text {

  /** Characters `str.isspace()` accepts below 128: space, `\t \n \v \f \r`
      (9..13) and the information separators 28..31. */
  predicate IsSpace(c: char) {
    c == ' ' || (9 <= c as int <= 13) || (28 <= c as int <= 31)
  }

  predicate IsUpper(c: char) {
    'A' <= c <= 'Z'
  }

  function LowerChar(c: char): (r: char)
    ensures !IsUpper(r)
    ensures IsUpper(c) ==> r as int == c as int + 32
    ensures !IsUpper(c) ==> r == c
  {
    if IsUpper(c) then (c as int + 32) as char else c
  }

  /** `s.lower()` on ASCII letters; every other character is kept. */
  function Lower(s: string): (r: string)
    ensures |r| == |s|
    ensures forall i :: 0 <= i < |s| ==> r[i] == LowerChar(s[i])
  {
    seq(|s|, i requires 0 <= i < |s| => LowerChar(s[i]))
  }

  // ---------------------------------------------------------------------
  // Stripping

  predicate AllSpace(s: string) {
    forall i :: 0 <= i < |s| ==> IsSpace(s[i])
  }

  /** `s.lstrip()`: the suffix left after dropping leading whitespace. */
  function TrimStart(s: string): (r: string)
    ensures |r| <= |s| && r == s[|s| - |r|..]
    ensures AllSpace(s[..|s| - |r|])
    ensures r == [] || !IsSpace(r[0])
    decreases |s|
  {
    if |s| > 0 && IsSpace(s[0]) then TrimStart(s[1..]) else s
  }

  /** `s.rstrip()`: the prefix left after dropping trailing whitespace. */
  function TrimEnd(s: string): (r: string)
    ensures |r| <= |s| && r == s[..|r|]
    ensures AllSpace(s[|r|..])
    ensures r == [] || !IsSpace(r[|r| - 1])
    decreases |s|
  {
    if |s| > 0 && IsSpace(s[|s| - 1]) then TrimEnd(s[..|s| - 1]) else s
  }

  /** `s.strip()`. */
  function Strip(s: string): string {
    TrimEnd(TrimStart(s))
  }

  /** A stripped string is a slice of the input with whitespace (only) cut
      from both ends, and it neither starts nor ends with whitespace. */
  lemma StripIsTrimmedSlice(s: string)
    ensures exists a, b :: 0 <= a <= b <= |s| && Strip(s) == s[a..b]
                           && AllSpace(s[..a]) && AllSpace(s[b..])
    ensures Strip(s) == [] || (!IsSpace(Strip(s)[0]) && !IsSpace(Strip(s)[|Strip(s)| - 1]))
  {
    var t := TrimStart(s);
    var a := |s| - |t|;
    var r := TrimEnd(t);
    var b := a + |r|;
    assert t == s[a..];
    assert r == s[a..b];
    assert AllSpace(s[..a]);
    assert AllSpace(s[b..]) by {
      assert s[b..] == t[|r|..];
    }
    assert 0 <= a <= b <= |s| && Strip(s) == s[a..b] && AllSpace(s[..a]) && AllSpace(s[b..]);
    if r != [] {
      assert r[0] == t[0];
    }
  }

  /** A string is blank after stripping exactly when it is all whitespace. */
  lemma StripEmptyIffAllSpace(s: string)
    ensures Strip(s) == [] <==> AllSpace(s)
  {
    var t := TrimStart(s);
    if Strip(s) == [] {
      assert AllSpace(t) by { assert t[|TrimEnd(t)|..] == t; }
      assert s == s[..|s| - |t|] + t;
    }
  }

  lemma StripIdempotent(s: string)
    ensures Strip(Strip(s)) == Strip(s)
  {
    var r := Strip(s);
    if r != [] {
      StripIsTrimmedSlice(s);
      assert TrimStart(r) == r;
      assert TrimEnd(r) == r;
    }
  }

  // ---------------------------------------------------------------------
  // Substrings

  predicate OccursAt(s: string, w: string, i: int) {
    0 <= i && i + |w| <= |s| && s[i..i + |w|] == w
  }

  /** Python `w in s` on strings. */
  predicate Contains(s: string, w: string) {
    exists i | 0 <= i <= |s| - |w| :: OccursAt(s, w, i)
  }

  /** An occurrence is either at the front or in the tail. */
  lemma ContainsStep(s: string, w: string)
    requires |s| > 0 && |w| > 0
    ensures Contains(s, w) <==> OccursAt(s, w, 0) || Contains(s[1..], w)
  {
    if Contains(s, w) && !OccursAt(s, w, 0) {
      var i :| 0 <= i <= |s| - |w| && OccursAt(s, w, i);
      assert i > 0;
      assert s[1..][i - 1..i - 1 + |w|] == s[i..i + |w|];
      assert OccursAt(s[1..], w, i - 1);
    }
    if Contains(s[1..], w) {
      var i :| 0 <= i <= |s| - 1 - |w| && OccursAt(s[1..], w, i);
      assert s[1..][i..i + |w|] == s[i + 1..i + 1 + |w|];
      assert OccursAt(s, w, i + 1);
    }
  }

  // ---------------------------------------------------------------------
  // Replacement

  /** `s.replace(p, r)`: every non-overlapping occurrence of `p`, found
      left to right, is replaced by `r`. */
  function ReplaceAll(s: string, p: string, r: string): string
    requires |p| > 0
    decreases |s|
  {
    if |s| < |p| then s
    else if s[..|p|] == p then r + ReplaceAll(s[|p|..], p, r)
    else [s[0]] + ReplaceAll(s[1..], p, r)
  }

  lemma {:induction false} ReplaceAbsent(s: string, p: string, r: string)
    requires |p| > 0
    requires !Contains(s, p)
    ensures ReplaceAll(s, p, r) == s
    decreases |s|
  {
    if |s| >= |p| {
      ContainsStep(s, p);
      assert !OccursAt(s, p, 0);
      ReplaceAbsent(s[1..], p, r);
      assert [s[0]] + s[1..] == s;
    }
  }

  lemma {:induction false} ReplaceBySelf(s: string, p: string)
    requires |p| > 0
    ensures ReplaceAll(s, p, p) == s
    decreases |s|
  {
    if |s| >= |p| {
      if s[..|p|] == p {
        ReplaceBySelf(s[|p|..], p);
        assert p + s[|p|..] == s;
      } else {
        ReplaceBySelf(s[1..], p);
        assert [s[0]] + s[1..] == s;
      }
    }
  }

  lemma {:induction false} ReplaceShrinks(s: string, p: string, r: string)
    requires 0 < |p| && |r| <= |p|
    ensures |ReplaceAll(s, p, r)| <= |s|
    decreases |s|
  {
    if |s| >= |p| {
      if s[..|p|] == p { ReplaceShrinks(s[|p|..], p, r); }
      else { ReplaceShrinks(s[1..], p, r); }
    }
  }

  lemma {:induction false} ReplaceGrows(s: string, p: string, r: string)
    requires 0 < |p| <= |r|
    ensures |ReplaceAll(s, p, r)| >= |s|
    decreases |s|
  {
    if |s| >= |p| {
      if s[..|p|] == p { ReplaceGrows(s[|p|..], p, r); }
      else { ReplaceGrows(s[1..], p, r); }
    }
  }

  lemma {:induction false} ReplacePresent(s: string, p: string, r: string)
    requires |p| > 0 && r != p
    requires Contains(s, p)
    ensures ReplaceAll(s, p, r) != s
    decreases |s|
  {
    ContainsStep(s, p);
    if s[..|p|] == p {
      var rest := ReplaceAll(s[|p|..], p, r);
      assert ReplaceAll(s, p, r) == r + rest;
      if |r| == |p| {
        assert (r + rest)[..|p|] == r;
      } else if |r| < |p| {
        ReplaceShrinks(s[|p|..], p, r);
      } else {
        ReplaceGrows(s[|p|..], p, r);
      }
    } else {
      ReplacePresent(s[1..], p, r);
      var rest := ReplaceAll(s[1..], p, r);
      assert ReplaceAll(s, p, r) == [s[0]] + rest;
    }
  }

  /** `s.replace(p, r)` returns `s` itself exactly when `p` does not occur
      in `s` or `r` is `p`. */
  lemma ReplaceUnchangedIff(s: string, p: string, r: string)
    requires |p| > 0
    ensures ReplaceAll(s, p, r) == s <==> !Contains(s, p) || r == p
  {
    if !Contains(s, p) { ReplaceAbsent(s, p, r); }
    else if r == p { ReplaceBySelf(s, p); }
    else { ReplacePresent(s, p, r); }
  }
}
