/** Well-formed UTF-8 as defined by the UTF8-octets grammar of RFC 3629,
    section 4 (which also excludes overlong forms, surrogates and code
    points above U+10FFFF). */
module Utf8 {
  import opened Prelude

  predicate IsTail(b: byte) { 0x80 <= b <= 0xBF }

  /** Number of bytes announced by a lead byte (UTF8-1 .. UTF8-4), or 0 for
      a byte that cannot start a character. */
  function LeadLen(b: byte): (n: nat)
    ensures n <= 4
    ensures n == 1 <==> b < 0x80
  {
    if b < 0x80 then 1
    else if 0xC2 <= b <= 0xDF then 2
    else if 0xE0 <= b <= 0xEF then 3
    else if 0xF0 <= b <= 0xF4 then 4
    else 0
  }

  /** The range the second byte must fall in after a given lead byte. */
  predicate SecondOk(lead: byte, b: byte) {
    if lead == 0xE0 then 0xA0 <= b <= 0xBF
    else if lead == 0xED then 0x80 <= b <= 0x9F
    else if lead == 0xF0 then 0x90 <= b <= 0xBF
    else if lead == 0xF4 then 0x80 <= b <= 0x8F
    else IsTail(b)
  }

  /** Length of the well-formed character at the start of `s`, 0 if `s`
      does not start with one. */
  function CharLen(s: Bytes): (n: nat)
    ensures n <= 4 && n <= |s|
    ensures n > 0 ==> n == LeadLen(s[0])
    ensures n > 1 ==> forall k :: 1 <= k < n ==> IsTail(s[k])
  {
    if |s| == 0 then 0
    else
      var n := LeadLen(s[0]);
      if n == 0 || |s| < n then 0
      else if n >= 2 && !SecondOk(s[0], s[1]) then 0
      else if n >= 3 && !IsTail(s[2]) then 0
      else if n == 4 && !IsTail(s[3]) then 0
      else n
  }

  /** `s` is a sequence of well-formed characters (UTF8-octets). */
  predicate Valid(s: Bytes)
    decreases |s|
  {
    s == [] || (CharLen(s) > 0 && Valid(s[CharLen(s)..]))
  }

  /** Well-formed text starts with a byte that can begin a character: never
      with a continuation byte or a byte no character uses. */
  lemma ValidStartsWithLead(s: Bytes)
    requires Valid(s) && s != []
    ensures LeadLen(s[0]) > 0
  {
  }

  /** Well-formed text ends with an ASCII byte or a continuation byte, never
      with the lead byte of a longer character. */
  lemma {:induction false} ValidEndsOnBoundary(s: Bytes)
    requires Valid(s) && s != []
    ensures s[|s| - 1] < 0x80 || IsTail(s[|s| - 1])
    decreases |s|
  {
    var n := CharLen(s);
    if n < |s| {
      ValidEndsOnBoundary(s[n..]);
    }
  }

  /** A complete character decodes the same whatever follows it. */
  lemma CharLenOfExtension(p: Bytes, s: Bytes)
    requires |p| <= |s| && s[..|p|] == p
    requires CharLen(p) > 0
    ensures CharLen(s) == CharLen(p)
  {
    var n := CharLen(p);
    assert s[0] == p[0];
    assert n >= 2 ==> s[1] == p[1];
    assert n >= 3 ==> s[2] == p[2];
    assert n >= 4 ==> s[3] == p[3];
  }

  /** Well-formed text followed by well-formed text is well-formed. */
  lemma {:induction false} ValidConcat(a: Bytes, b: Bytes)
    requires Valid(a) && Valid(b)
    ensures Valid(a + b)
    decreases |a|
  {
    if a != [] {
      var n := CharLen(a);
      assert (a + b)[..|a|] == a;
      CharLenOfExtension(a, a + b);
      assert (a + b)[n..] == a[n..] + b;
      ValidConcat(a[n..], b);
    } else {
      assert a + b == b;
    }
  }

  /** UTF-8 is self-synchronising: a well-formed prefix of well-formed text
      ends on a character boundary, so what follows it is well-formed too. */
  lemma {:induction false} ValidSuffixAfterValidPrefix(s: Bytes, p: Bytes)
    requires Valid(s) && Valid(p)
    requires |p| <= |s| && s[..|p|] == p
    ensures Valid(s[|p|..])
    decreases |p|
  {
    if p == [] {
      assert s[0..] == s;
    } else {
      var n := CharLen(p);
      CharLenOfExtension(p, s);
      assert s[n..][..|p| - n] == p[n..];
      ValidSuffixAfterValidPrefix(s[n..], p[n..]);
      assert s[n..][|p| - n..] == s[|p|..];
    }
  }

  /** The same, for text not known to be well-formed: if it is, so is what
      follows a well-formed prefix. */
  lemma ValidSuffixIfValid(s: Bytes, p: Bytes)
    requires Valid(p)
    requires |p| <= |s| && s[..|p|] == p
    ensures Valid(s) ==> Valid(s[|p|..])
  {
    if Valid(s) {
      ValidSuffixAfterValidPrefix(s, p);
    }
  }

  /** Text made only of ASCII bytes is well-formed. */
  lemma {:induction false} AsciiValid(s: Bytes)
    requires forall k :: 0 <= k < |s| ==> s[k] < 0x80
    ensures Valid(s)
    decreases |s|
  {
    if s != [] {
      assert CharLen(s) == 1;
      AsciiValid(s[1..]);
    }
  }

  /** A character cut short is not well-formed text. */
  lemma TruncatedCharInvalid(s: Bytes)
    requires 0 < |s| < LeadLen(s[0])
    ensures !Valid(s)
  {
  }
}
