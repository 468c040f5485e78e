/** The few Python string operations the modelled code relies on. */
module Text {

  /** The characters `str.strip()` and `str.isspace()` treat as white space. */
  predicate IsSpace(c: char) {
    '\U{9}' <= c <= '\U{d}' || '\U{1c}' <= c <= '\U{20}' || c == '\U{85}' || c == '\U{a0}' || c == '\U{1680}'
    || '\U{2000}' <= c <= '\U{200a}' || c == '\U{2028}' || c == '\U{2029}' || c == '\U{202f}'
    || c == '\U{205f}' || c == '\U{3000}'
  }

  function StripLeft(s: string, drop: char -> bool): (r: string)
    ensures |r| <= |s| && r == s[|s| - |r|..]
    ensures r != "" ==> !drop(r[0])
    ensures forall i | 0 <= i < |s| - |r| :: drop(s[i])
  {
    if s != "" && drop(s[0]) then StripLeft(s[1..], drop) else s
  }

  function StripRight(s: string, drop: char -> bool): (r: string)
    ensures |r| <= |s| && r == s[..|r|]
    ensures r != "" ==> !drop(r[|r| - 1])
    ensures forall i | |r| <= i < |s| :: drop(s[i])
  {
    if s != "" && drop(s[|s| - 1]) then StripRight(s[..|s| - 1], drop) else s
  }

  function StripBy(s: string, drop: char -> bool): string {
    StripRight(StripLeft(s, drop), drop)
  }

  function Strip(s: string): string {
    StripBy(s, IsSpace)
  }

  predicate Trimmed(s: string, drop: char -> bool) {
    s == "" || (!drop(s[0]) && !drop(s[|s| - 1]))
  }

  lemma StripByTrims(s: string, drop: char -> bool)
    ensures Trimmed(StripBy(s, drop), drop)
  {
    var l := StripLeft(s, drop);
    var r := StripRight(l, drop);
    if r != "" {
      assert r[0] == l[0];
    }
  }

  /** Stripping is the identity exactly on the strings that have nothing to strip. */
  lemma StripByFixed(s: string, drop: char -> bool)
    ensures StripBy(s, drop) == s <==> Trimmed(s, drop)
  {
    StripByTrims(s, drop);
    if Trimmed(s, drop) && s != "" {
      assert StripLeft(s, drop) == s;
      assert StripRight(s, drop) == s;
    }
  }

  /** The text after the last occurrence of `sep`: `s.split(sep)[-1]`. */
  function LastSegment(s: string, sep: char): (r: string)
    ensures |r| <= |s| && r == s[|s| - |r|..]
    ensures sep !in r
    ensures |r| < |s| ==> s[|s| - |r| - 1] == sep
    ensures sep !in s ==> r == s
  {
    if s == "" then ""
    else if s[|s| - 1] == sep then ""
    else
      var front := LastSegment(s[..|s| - 1], sep);
      front + [s[|s| - 1]]
  }

  function Filter(s: string, keep: char -> bool): (r: string)
    ensures forall c | c in r :: keep(c)
    ensures (forall c | c in s :: keep(c)) ==> r == s
  {
    if s == "" then "" else (if keep(s[0]) then [s[0]] else "") + Filter(s[1..], keep)
  }

  function MapChars(s: string, f: char -> char): (r: string)
    ensures |r| == |s| && forall i | 0 <= i < |s| :: r[i] == f(s[i])
  {
    seq(|s|, i requires 0 <= i < |s| => f(s[i]))
  }

  /** `str.lower()` on ASCII letters. */
  function LowerChar(c: char): char {
    if 'A' <= c <= 'Z' then (c as int - 'A' as int + 'a' as int) as char else c
  }

  function Lower(s: string): string {
    MapChars(s, LowerChar)
  }

  /** The index of the first `c` in `s`, or `|s|`. */
  function IndexOf(s: string, c: char): (i: nat)
    ensures i <= |s| && c !in s[..i]
    ensures i < |s| ==> s[i] == c
    ensures i == |s| <==> c !in s
  {
    if s == "" then 0
    else if s[0] == c then 0
    else
      var i := IndexOf(s[1..], c);
      assert s[..i + 1] == [s[0]] + s[1..][..i];
      i + 1
  }
}
