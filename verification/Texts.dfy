/** White space and letter case. Text is ASCII. */
module Texts {

  /** `str.isspace` of one character. */
  predicate IsSpace(c: char) { c == ' ' || '\t' <= c <= '\r' || '\U{1C}' <= c <= '\U{1F}' }

  lemma Spaces(c: char)
    ensures IsSpace(c) <==> c in " \t\n\U{B}\U{C}\r\U{1C}\U{1D}\U{1E}\U{1F}"
  {
  }

  /** `str.lstrip` */
  function TrimLeft(s: string): (t: string)
    ensures |t| <= |s| && (t != [] ==> !IsSpace(t[0]))
    ensures s != [] && !IsSpace(s[0]) ==> t == s
  {
    if s != [] && IsSpace(s[0]) then TrimLeft(s[1..]) else s
  }

  /** `str.rstrip` */
  function TrimRight(s: string): (t: string)
    ensures t <= s && (t != [] ==> !IsSpace(t[|t| - 1]))
    ensures s != [] && !IsSpace(s[|s| - 1]) ==> t == s
  {
    if s != [] && IsSpace(s[|s| - 1]) then TrimRight(s[..|s| - 1]) else s
  }

  /** `str.strip` */
  function Trim(s: string): string { TrimRight(TrimLeft(s)) }

  lemma {:induction false} TrimLeftMembers(s: string)
    ensures forall c | c in TrimLeft(s) :: c in s
  {
    if s != [] && IsSpace(s[0]) {
      TrimLeftMembers(s[1..]);
    }
  }

  /** Stripping removes white space at the ends and nothing else. */
  lemma {:induction false} TrimLeftSplits(pad: string, s: string)
    requires forall c | c in pad :: IsSpace(c)
    ensures TrimLeft(pad + s) == TrimLeft(s)
  {
    if pad == [] {
      assert pad + s == s;
    } else {
      assert pad[0] in pad && forall c | c in pad[1..] :: c in pad;
      assert (pad + s)[1..] == pad[1..] + s;
      TrimLeftSplits(pad[1..], s);
    }
  }

  lemma {:induction false} TrimRightSplits(s: string, pad: string)
    requires forall c | c in pad :: IsSpace(c)
    ensures TrimRight(s + pad) == TrimRight(s)
  {
    if pad == [] {
      assert s + pad == s;
    } else {
      var n := |pad| - 1;
      assert pad[n] in pad && forall c | c in pad[..n] :: c in pad;
      assert (s + pad)[..|s + pad| - 1] == s + pad[..n];
      TrimRightSplits(s, pad[..n]);
    }
  }

  // ----- Case -----

  const UPPER := "ABCDEFGHIJKLMNOPQRSTUVWXYZ"
  const LOWER := "abcdefghijklmnopqrstuvwxyz"

  function LowerChar(c: char): char { if 'A' <= c <= 'Z' then c - 'A' + 'a' else c }

  function UpperChar(c: char): char { if 'a' <= c <= 'z' then c - 'a' + 'A' else c }

  /** `str.lower` */
  function Lower(s: string): (t: string)
    ensures |t| == |s|
  {
    seq(|s|, i requires 0 <= i < |s| => LowerChar(s[i]))
  }

  /** `str.upper` */
  function Upper(s: string): (t: string)
    ensures |t| == |s|
  {
    seq(|s|, i requires 0 <= i < |s| => UpperChar(s[i]))
  }

  /** The two alphabets correspond letter by letter, and nothing else changes. */
  lemma LowerByAlphabet(i: nat, c: char)
    requires i < 26
    ensures LowerChar(UPPER[i]) == LowerChar(LOWER[i]) == LOWER[i]
    ensures c !in UPPER ==> LowerChar(c) == c
  {
    assert UPPER[i] == 'A' + i as char && LOWER[i] == 'a' + i as char;
    if 'A' <= c <= 'Z' {
      assert UPPER[(c - 'A') as int] == c;
    }
  }

  lemma UpperByAlphabet(i: nat, c: char)
    requires i < 26
    ensures UpperChar(LOWER[i]) == UpperChar(UPPER[i]) == UPPER[i]
    ensures c !in LOWER ==> UpperChar(c) == c
  {
    assert UPPER[i] == 'A' + i as char && LOWER[i] == 'a' + i as char;
    if 'a' <= c <= 'z' {
      assert LOWER[(c - 'a') as int] == c;
    }
  }

  lemma CaseOfParts(s: string, t: string)
    ensures Lower(s + t) == Lower(s) + Lower(t) && Upper(s + t) == Upper(s) + Upper(t)
  {
  }
}
