/** Character classes and the handful of Python string operations the scripts
    rely on: `isspace`, ASCII `lower`/`upper`, `in` (substring), `strip`,
    slicing `[:n]` and `split(c)[0]`. */
module Text {

  /** Python's `str.isspace()` (and the regex class `\s`): the ASCII
      whitespace and separator controls plus the Unicode space characters. */
  predicate IsSpace(c: char) {
    || c == ' '
    || ('\t' <= c <= '\r')
    || ('\U{1C}' <= c <= '\U{1F}')
    || c == '\U{85}' || c == '\U{A0}' || c == '\U{1680}'
    || ('\U{2000}' <= c <= '\U{200A}')
    || c == '\U{2028}' || c == '\U{2029}' || c == '\U{202F}' || c == '\U{205F}'
    || c == '\U{3000}'
  }

  predicate IsUpperAscii(c: char) { 'A' <= c <= 'Z' }
  predicate IsLowerAscii(c: char) { 'a' <= c <= 'z' }
  predicate IsDigit(c: char) { '0' <= c <= '9' }

  /** The regex class `[a-zA-Z0-9]`. */
  predicate IsAlnumAscii(c: char) { IsUpperAscii(c) || IsLowerAscii(c) || IsDigit(c) }

  /** The regex class `\w`, restricted to ASCII: `[a-zA-Z0-9_]`. */
  predicate IsWordAscii(c: char) { IsAlnumAscii(c) || c == '_' }

  function LowerChar(c: char): (d: char)
    ensures IsUpperAscii(c) ==> IsLowerAscii(d)
    ensures !IsUpperAscii(c) ==> d == c
  {
    if IsUpperAscii(c) then (c as int + 32) as char else c
  }

  function UpperChar(c: char): (d: char)
    ensures IsLowerAscii(c) ==> IsUpperAscii(d)
    ensures !IsLowerAscii(c) ==> d == c
  {
    if IsLowerAscii(c) then (c as int - 32) as char else c
  }

  /** `s.lower()` on the ASCII letters. */
  function Lower(s: string): (r: string)
    ensures |r| == |s|
    ensures forall i :: 0 <= i < |s| ==> r[i] == LowerChar(s[i])
  {
    seq(|s|, i requires 0 <= i < |s| => LowerChar(s[i]))
  }

  /** Lower-casing works character by character. */
  lemma LowerCons(c: char, t: string)
    ensures Lower([c] + t) == [LowerChar(c)] + Lower(t)
  {
    var l, r := Lower([c] + t), [LowerChar(c)] + Lower(t);
    forall i | 0 <= i < |l|
      ensures l[i] == r[i]
    {
      if i > 0 {
        assert ([c] + t)[i] == t[i - 1];
      }
    }
  }

  /** `s.upper()` on the ASCII letters. */
  function Upper(s: string): (r: string)
    ensures |r| == |s|
    ensures forall i :: 0 <= i < |s| ==> r[i] == UpperChar(s[i])
  {
    seq(|s|, i requires 0 <= i < |s| => UpperChar(s[i]))
  }

  predicate IsPrefix(p: string, s: string) {
    |p| <= |s| && s[..|p|] == p
  }

  /** Python's `t in s`. */
  predicate Contains(s: string, t: string)
    decreases |s|
  {
    IsPrefix(t, s) || (|s| > 0 && Contains(s[1..], t))
  }

  /** Python's `t.lower() in s.lower()`, the case-insensitive `in` used by
      every label and keyword test of the scripts. */
  predicate ContainsCI(s: string, t: string) {
    Contains(Lower(s), Lower(t))
  }

  /** Python's `any(t in s for t in ts)`. */
  predicate ContainsAny(s: string, ts: seq<string>) {
    exists i :: 0 <= i < |ts| && Contains(s, ts[i])
  }

  /** The characters of `s` that are not whitespace, in order. */
  function Visible(s: string): (r: string)
    ensures |r| <= |s|
    ensures forall i :: 0 <= i < |r| ==> !IsSpace(r[i])
  {
    if s == [] then []
    else (if IsSpace(s[0]) then [] else [s[0]]) + Visible(s[1..])
  }

  lemma {:induction false} VisibleAppend(a: string, b: string)
    ensures Visible(a + b) == Visible(a) + Visible(b)
    decreases |a|
  {
    if a == [] {
      assert a + b == b;
    } else {
      assert (a + b)[1..] == a[1..] + b;
      VisibleAppend(a[1..], b);
    }
  }

  predicate NoSpace(s: string) {
    forall i :: 0 <= i < |s| ==> !IsSpace(s[i])
  }

  lemma {:induction false} VisibleOfNoSpace(s: string)
    requires NoSpace(s)
    ensures Visible(s) == s
    decreases |s|
  {
    if s != [] {
      VisibleOfNoSpace(s[1..]);
    }
  }

  /** `s.lstrip()`: drops the leading whitespace run and nothing else. */
  function TrimStart(s: string): (r: string)
    ensures |r| <= |s| && r == s[|s| - |r|..]
    ensures forall i :: 0 <= i < |s| - |r| ==> IsSpace(s[i])
    ensures r == [] || !IsSpace(r[0])
    ensures Visible(r) == Visible(s)
    decreases |s|
  {
    if s != [] && IsSpace(s[0]) then TrimStart(s[1..]) else s
  }

  /** `s.rstrip()`: drops the trailing whitespace run and nothing else. */
  function TrimEnd(s: string): (r: string)
    ensures |r| <= |s| && r == s[..|r|]
    ensures forall i :: |r| <= i < |s| ==> IsSpace(s[i])
    ensures r == [] || !IsSpace(r[|r| - 1])
    ensures Visible(r) == Visible(s)
    decreases |s|
  {
    if s != [] && IsSpace(s[|s| - 1]) then
      var r := TrimEnd(s[..|s| - 1]);
      VisibleAppend(s[..|s| - 1], [s[|s| - 1]]);
      assert s == s[..|s| - 1] + [s[|s| - 1]];
      r
    else s
  }

  /** `s.strip()`. */
  function Strip(s: string): (r: string)
    ensures |r| <= |s|
    ensures r == [] || (!IsSpace(r[0]) && !IsSpace(r[|r| - 1]))
    ensures Visible(r) == Visible(s)
    ensures r == [] <==> Visible(s) == []
  {
    var r := TrimEnd(TrimStart(s));
    assert r != [] ==> !IsSpace(r[0]) by {
      if r != [] {
        assert r[0] == TrimStart(s)[0];
      }
    }
    assert r == [] <==> Visible(s) == [] by {
      if r != [] {
        assert Visible(r)[0] == r[0];
      }
    }
    r
  }

  /** A string with no whitespace at either edge is left alone by `strip`. */
  lemma StripOfTrimmed(s: string)
    requires s == [] || (!IsSpace(s[0]) && !IsSpace(s[|s| - 1]))
    ensures TrimStart(s) == s && TrimEnd(s) == s && Strip(s) == s
  {
  }

  lemma StripOfNoSpace(s: string)
    requires NoSpace(s)
    ensures Strip(s) == s
  {
  }

  /** Python's slice `s[:n]`. */
  function Take<T>(s: seq<T>, n: nat): (r: seq<T>)
    ensures |r| == if |s| <= n then |s| else n
    ensures r == s[..|r|]
  {
    if |s| <= n then s else s[..n]
  }

  /** Python's `s.split(c)[0]`: everything before the first `c`. */
  function Before(s: string, c: char): (r: string)
    ensures IsPrefix(r, s)
    ensures c !in r
    ensures |r| < |s| ==> s[|r|] == c
    decreases |s|
  {
    if s == [] || s[0] == c then [] else [s[0]] + Before(s[1..], c)
  }

  lemma BeforeAbsent(s: string, c: char)
    requires c !in s
    ensures Before(s, c) == s
  {
  }

  lemma {:induction false} ContainsLower(s: string, t: string)
    requires Contains(s, t)
    ensures Contains(Lower(s), Lower(t))
    decreases |s|
  {
    if IsPrefix(t, s) {
      assert Lower(s)[..|t|] == Lower(t);
    } else {
      assert Lower(s)[1..] == Lower(s[1..]);
      ContainsLower(s[1..], t);
    }
  }

  lemma {:induction false} ContainsWitness(s: string, t: string, i: nat)
    requires i + |t| <= |s| && s[i..i + |t|] == t
    ensures Contains(s, t)
    decreases i
  {
    if i > 0 {
      assert s[1..][i - 1..i - 1 + |t|] == t;
      ContainsWitness(s[1..], t, i - 1);
    }
  }

  /** A string of which every character is outside some set cannot contain a
      needle holding one of those characters. */
  lemma {:induction false} ContainsChar(s: string, t: string, k: nat)
    requires Contains(s, t) && k < |t|
    ensures t[k] in s
    decreases |s|
  {
    if IsPrefix(t, s) {
      assert s[k] == t[k];
    } else {
      ContainsChar(s[1..], t, k);
    }
  }
}
