/** The Python `str` built-ins the validators use: `upper()`, `lower()`,
    `strip()`, `isalpha()` and the substring test `sub in s`.
    Case mapping and `isalpha()` are modelled on ASCII letters; whitespace is
    Python's full `str.isspace()` set. */
module Text {

  predicate IsUpperLetter(c: char) { 'A' <= c <= 'Z' }

  predicate IsLowerLetter(c: char) { 'a' <= c <= 'z' }

  predicate IsLetter(c: char) { IsUpperLetter(c) || IsLowerLetter(c) }

  /** The characters for which Python's `str.isspace()` holds. */
  predicate IsSpace(c: char) {
    var k := c as int;
    (9 <= k <= 13) || (28 <= k <= 32) || k == 0x85 || k == 0xA0 || k == 0x1680
    || (0x2000 <= k <= 0x200A) || k == 0x2028 || k == 0x2029 || k == 0x202F
    || k == 0x205F || k == 0x3000
  }

  function ToUpper(c: char): (u: char)
    ensures IsLetter(u) == IsLetter(c)
    ensures IsSpace(u) == IsSpace(c)
    ensures !IsLowerLetter(u)
  {
    if IsLowerLetter(c) then (c as int - 32) as char else c
  }

  function ToLower(c: char): (l: char)
    ensures IsLetter(l) == IsLetter(c)
    ensures !IsUpperLetter(l)
    ensures ToLower(ToUpper(c)) == l
  {
    if IsUpperLetter(c) then (c as int + 32) as char else c
  }

  /** `s.upper()` */
  function Upper(s: string): (u: string)
    ensures |u| == |s|
    ensures forall i :: 0 <= i < |s| ==> u[i] == ToUpper(s[i])
  {
    seq(|s|, i requires 0 <= i < |s| => ToUpper(s[i]))
  }

  /** `s.lower()` */
  function Lower(s: string): (l: string)
    ensures |l| == |s|
    ensures forall i :: 0 <= i < |s| ==> l[i] == ToLower(s[i])
  {
    seq(|s|, i requires 0 <= i < |s| => ToLower(s[i]))
  }

  function TrimLeft(s: string): (t: string)
    ensures |t| <= |s|
    ensures t == s[|s| - |t|..]
    ensures t != [] ==> !IsSpace(t[0])
    ensures forall i :: 0 <= i < |s| - |t| ==> IsSpace(s[i])
  {
    if s != [] && IsSpace(s[0]) then TrimLeft(s[1..]) else s
  }

  function TrimRight(s: string): (t: string)
    ensures |t| <= |s|
    ensures t == s[..|t|]
    ensures t != [] ==> !IsSpace(t[|t| - 1])
    ensures forall i :: |t| <= i < |s| ==> IsSpace(s[i])
  {
    if s != [] && IsSpace(s[|s| - 1]) then TrimRight(s[..|s| - 1]) else s
  }

  /** `s.strip()`: the longest infix with no whitespace at either end. */
  function Strip(s: string): string {
    TrimRight(TrimLeft(s))
  }

  /** `s.isalpha()`: non-empty and made of letters only. */
  predicate IsAlpha(s: string) {
    s != [] && forall i :: 0 <= i < |s| ==> IsLetter(s[i])
  }

  predicate StartsWith(s: string, prefix: string) {
    |prefix| <= |s| && s[..|prefix|] == prefix
  }

  /** `sub in s`: `sub` starts at some position of `s`. */
  predicate Contains(s: string, sub: string) {
    StartsWith(s, sub) || (s != [] && Contains(s[1..], sub))
  }

  /** Upper-casing leaves whitespace where it was, so it commutes with `strip()`. */
  lemma {:induction false} TrimLeftUpper(s: string)
    ensures TrimLeft(Upper(s)) == Upper(TrimLeft(s))
  {
    if s != [] && IsSpace(s[0]) {
      assert Upper(s)[1..] == Upper(s[1..]);
      TrimLeftUpper(s[1..]);
    }
  }

  lemma {:induction false} TrimRightUpper(s: string)
    ensures TrimRight(Upper(s)) == Upper(TrimRight(s))
  {
    if s != [] && IsSpace(s[|s| - 1]) {
      assert Upper(s)[..|s| - 1] == Upper(s[..|s| - 1]);
      TrimRightUpper(s[..|s| - 1]);
    }
  }

  lemma StripUpper(s: string)
    ensures Strip(Upper(s)) == Upper(Strip(s))
  {
    TrimLeftUpper(s);
    TrimRightUpper(TrimLeft(s));
  }

  /** Lower-casing forgets the case the text was written in. */
  lemma LowerUpper(s: string)
    ensures Lower(Upper(s)) == Lower(s)
    ensures Lower(Lower(s)) == Lower(s)
  {
  }

  /** Whitespace around a string is what `strip()` removes. */
  lemma {:induction false} TrimLeftPadded(s: string)
    ensures TrimLeft([' '] + s) == TrimLeft(s)
  {
    assert ([' '] + s)[1..] == s;
  }

  lemma {:induction false} TrimRightPadded(s: string)
    ensures TrimRight(s + [' ']) == TrimRight(s)
  {
    assert (s + [' '])[..|s|] == s;
  }

  /** A trailing space survives the left trim unless nothing else does. */
  lemma {:induction false} TrimLeftSpaced(s: string)
    ensures TrimLeft(s + [' ']) == if TrimLeft(s) == [] then [] else TrimLeft(s) + [' ']
  {
    if s == [] {
      assert [' '][1..] == [];
    } else if IsSpace(s[0]) {
      assert (s + [' '])[1..] == s[1..] + [' '];
      TrimLeftSpaced(s[1..]);
    }
  }

  lemma StripPadded(s: string)
    ensures Strip([' '] + s + [' ']) == Strip(s)
  {
    assert [' '] + s + [' '] == [' '] + (s + [' ']);
    TrimLeftPadded(s + [' ']);
    TrimLeftSpaced(s);
    if TrimLeft(s) != [] {
      TrimRightPadded(TrimLeft(s));
    }
  }
}
