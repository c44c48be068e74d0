/** The string primitives the source leans on: the regular-expression classes
    `\d` and `\s`, `trim`, and case conversion. Case conversion is the ASCII
    part of JavaScript's `toUpperCase` / `toLowerCase`. */
module Text {
  import opened Common

  /** JavaScript's `\s`: the WhiteSpace and LineTerminator code points. */
  predicate IsSpace(c: char) {
    var n := c as int;
    (9 <= n <= 13) || n == 32 || n == 0xA0 || n == 0x1680 || (0x2000 <= n <= 0x200A)
    || n == 0x2028 || n == 0x2029 || n == 0x202F || n == 0x205F || n == 0x3000 || n == 0xFEFF
  }

  /** JavaScript's `\d`: ASCII digits only. */
  predicate IsDigit(c: char) {
    '0' <= c <= '9'
  }

  predicate AllDigits(s: string) {
    forall i :: 0 <= i < |s| ==> IsDigit(s[i])
  }

  predicate NotSpace(c: char) {
    !IsSpace(c)
  }

  /** `s.replace(/\D/g, "")` */
  function Digits(s: string): (r: string)
    ensures AllDigits(r) && |r| <= |s|
  {
    Filter(s, IsDigit)
  }

  lemma {:induction false} DigitsIdempotent(s: string)
    requires AllDigits(s)
    ensures Digits(s) == s
  {
    if s != [] {
      DigitsIdempotent(s[1..]);
    }
  }

  /** `s.replace(/\s/g, "")` */
  function RemoveSpaces(s: string): (r: string)
    ensures forall i :: 0 <= i < |r| ==> !IsSpace(r[i])
  {
    var r := Filter(s, NotSpace);
    assert forall i :: 0 <= i < |r| ==> r[i] in r;
    r
  }

  function TrimStart(s: string): (r: string)
    ensures r == [] || !IsSpace(r[0])
    ensures |r| <= |s| && r == s[|s| - |r|..]
  {
    if s != [] && IsSpace(s[0]) then TrimStart(s[1..]) else s
  }

  function TrimEnd(s: string): (r: string)
    ensures r == [] || !IsSpace(r[|r| - 1])
    ensures |r| <= |s| && r == s[..|r|]
  {
    if s != [] && IsSpace(s[|s| - 1]) then TrimEnd(s[..|s| - 1]) else s
  }

  /** `s.trim()` */
  function Trim(s: string): (r: string)
    ensures r == [] || (!IsSpace(r[0]) && !IsSpace(r[|r| - 1]))
  {
    TrimEnd(TrimStart(s))
  }

  function UpperChar(c: char): char {
    if 'a' <= c <= 'z' then (c as int - 32) as char else c
  }

  function LowerChar(c: char): char {
    if 'A' <= c <= 'Z' then (c as int + 32) as char else c
  }

  /** `s.toUpperCase()` on ASCII letters. */
  function Upper(s: string): (r: string)
    ensures |r| == |s|
    ensures forall i :: 0 <= i < |s| ==> !('a' <= r[i] <= 'z')
  {
    seq(|s|, i requires 0 <= i < |s| => UpperChar(s[i]))
  }

  /** `s.toLowerCase()` on ASCII letters. */
  function Lower(s: string): (r: string)
    ensures |r| == |s|
    ensures forall i :: 0 <= i < |s| ==> !('A' <= r[i] <= 'Z')
  {
    seq(|s|, i requires 0 <= i < |s| => LowerChar(s[i]))
  }

  lemma UpperAppend(a: string, b: string)
    ensures Upper(a + b) == Upper(a) + Upper(b)
  {
  }

  /** Upper-casing and removing white space commute: no letter is white
      space and no white space has an upper-case form. */
  lemma {:induction false} UpperRemoveSpaces(s: string)
    ensures RemoveSpaces(Upper(s)) == Upper(RemoveSpaces(s))
  {
    if s != [] {
      var u := Upper(s);
      assert u[0] == UpperChar(s[0]) && u[1..] == Upper(s[1..]);
      assert NotSpace(UpperChar(s[0])) == NotSpace(s[0]);
      UpperRemoveSpaces(s[1..]);
      var head := if NotSpace(s[0]) then [s[0]] else [];
      UpperAppend(head, Filter(s[1..], NotSpace));
    }
  }

  lemma UpperIdempotent(s: string)
    ensures Upper(Upper(s)) == Upper(s)
  {
  }

  lemma LowerIdempotent(s: string)
    ensures Lower(Lower(s)) == Lower(s)
  {
  }

  /** `a.toLowerCase() === b.toLowerCase()` */
  predicate EqualsIgnoreCase(a: string, b: string) {
    Lower(a) == Lower(b)
  }

  predicate StartsWith(s: string, prefix: string) {
    |prefix| <= |s| && s[..|prefix|] == prefix
  }

  /** `s.split(sep)` */
  function Split(s: string, sep: char): (r: seq<string>)
    ensures |r| >= 1
    decreases |s|
  {
    match FirstIndex(s, (c: char) => c == sep)
    case None => [s]
    case Some(i) => [s[..i]] + Split(s[i + 1..], sep)
  }

  lemma SplitNoSep(s: string, sep: char)
    requires forall i :: 0 <= i < |s| ==> s[i] != sep
    ensures Split(s, sep) == [s]
  {
  }

  lemma SplitCons(a: string, sep: char, rest: string)
    requires forall i :: 0 <= i < |a| ==> a[i] != sep
    ensures Split(a + [sep] + rest, sep) == [a] + Split(rest, sep)
  {
    var s := a + [sep] + rest;
    var f := FirstIndex(s, (c: char) => c == sep);
    assert s[|a|] == sep;
    assert f == Some(|a|) by {
      forall k | 0 <= k < |a| ensures s[k] != sep {
        assert s[k] == a[k];
      }
    }
    assert s[..|a|] == a && s[|a| + 1..] == rest;
  }
}
