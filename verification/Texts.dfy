// Texts as Go re-cases, trims and compares them.
module Texts {
  // unicode.ToLower, as far as its result is a letter a to z: other letters stay outside
  // [a-z0-9] in either case.
  function LowerChar(c: char): char {
    if 'A' <= c <= 'Z' then (c as int + 32) as char
    else if c == '\U{130}' then 'i'
    else if c == '\U{212A}' then 'k'
    else c
  }

  function ToLower(s: string): (r: string)
    ensures |r| == |s| && forall i :: 0 <= i < |s| ==> r[i] == LowerChar(s[i])
  {
    if s == "" then "" else [LowerChar(s[0])] + ToLower(s[1..])
  }

  // Upper case of ASCII letters.
  function UpperChar(c: char): char {
    if 'a' <= c <= 'z' then (c as int - 32) as char else c
  }

  function ToUpper(s: string): (r: string)
    ensures |r| == |s|
  {
    seq(|s|, i requires 0 <= i < |s| => UpperChar(s[i]))
  }

  // A decimal digit.
  function Digit(n: int): char
    requires 0 <= n <= 9
  {
    ('0' as int + n) as char
  }

  // strings.HasPrefix, and bytes.HasPrefix
  predicate HasPrefix<T(==)>(s: seq<T>, p: seq<T>) {
    |p| <= |s| && s[..|p|] == p
  }

  // unicode.IsSpace
  predicate IsSpace(c: char) {
    || '\t' <= c <= '\r' || c == ' ' || c == '\U{85}' || c == '\U{A0}' || c == '\U{1680}'
    || '\U{2000}' <= c <= '\U{200A}' || c == '\U{2028}' || c == '\U{2029}' || c == '\U{202F}'
    || c == '\U{205F}' || c == '\U{3000}'
  }

  function TrimLeft(s: string, p: char -> bool): string {
    if s != "" && p(s[0]) then TrimLeft(s[1..], p) else s
  }

  function TrimRight(s: string, p: char -> bool): string {
    if s != "" && p(s[|s| - 1]) then TrimRight(s[..|s| - 1], p) else s
  }

  function TrimSpace(s: string): string {
    TrimRight(TrimLeft(s, IsSpace), IsSpace)
  }

  // Places i and j enclose what is left of s without the characters p at its ends.
  ghost predicate Encloses(s: string, p: char -> bool, i: nat, j: nat) {
    && i <= j <= |s| && (forall k :: 0 <= k < i ==> p(s[k])) && (forall k :: j <= k < |s| ==> p(s[k]))
    && (i < j ==> !p(s[i]) && !p(s[j - 1]))
  }

  lemma {:induction false} TrimLeftIs(s: string, p: char -> bool, i: nat)
    requires i <= |s| && (forall k :: 0 <= k < i ==> p(s[k])) && (i < |s| ==> !p(s[i]))
    ensures TrimLeft(s, p) == s[i..]
  {
    if i > 0 {
      TrimLeftIs(s[1..], p, i - 1);
    }
  }

  lemma {:induction false} TrimRightIs(s: string, p: char -> bool, j: nat)
    requires j <= |s| && (forall k :: j <= k < |s| ==> p(s[k])) && (0 < j ==> !p(s[j - 1]))
    ensures TrimRight(s, p) == s[..j]
  {
    if j < |s| {
      TrimRightIs(s[..|s| - 1], p, j);
      assert s[..|s| - 1][..j] == s[..j];
    } else {
      assert s[..j] == s;
    }
  }

  // Trimming leaves what the places enclose.
  lemma TrimIs(s: string, p: char -> bool, i: nat, j: nat)
    requires Encloses(s, p, i, j)
    ensures TrimRight(TrimLeft(s, p), p) == s[i..j]
  {
    if i == j {
      TrimLeftIs(s, p, |s|);
    } else {
      TrimLeftIs(s, p, i);
      var t := s[i..];
      assert t[j - i - 1] == s[j - 1];
      TrimRightIs(t, p, j - i);
      assert t[..j - i] == s[i..j];
    }
  }

  // Text order, as SQL's BETWEEN and Go's < see it.
  predicate TextBefore(a: string, b: string) {
    if b == "" then false
    else if a == "" then true
    else a[0] < b[0] || (a[0] == b[0] && TextBefore(a[1..], b[1..]))
  }

  lemma {:induction false} TextPrefix(p: string, a: string, b: string)
    ensures TextBefore(p + a, p + b) == TextBefore(a, b)
  {
    if p == "" {
      assert p + a == a && p + b == b;
    } else {
      TextPrefix(p[1..], a, b);
      assert (p + a)[1..] == p[1..] + a && (p + b)[1..] == p[1..] + b;
    }
  }

  lemma {:induction false} SameText(s: string)
    ensures !TextBefore(s, s)
  {
    if s != "" {
      SameText(s[1..]);
    }
  }
}
