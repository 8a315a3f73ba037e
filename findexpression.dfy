/** The two regular-expression searches the program performs with
    FindExpression: `[^/]*$` (the last path segment) and `^[^/]*` (the first
    path segment). Both patterns can match the empty string, so both always
    find a match. A '/' byte never occurs inside a multi-byte UTF-8
    character, so searching bytes agrees with searching runes. */
module FindExpression {
  import opened Prelude

  /** No byte of `s` is '/'. */
  predicate NoSlash(s: Bytes) {
    forall k :: 0 <= k < |s| ==> s[k] != Slash
  }

  /** The leftmost match of `[^/]*$`: everything after the last '/', or the
      whole string when there is no '/'. */
  function LastSegment(s: Bytes): (r: Bytes)
    ensures |r| <= |s| && r == s[|s| - |r|..]
    ensures NoSlash(r)
    ensures |r| < |s| ==> s[|s| - |r| - 1] == Slash
    decreases |s|
  {
    if s == [] then []
    else if s[|s| - 1] == Slash then []
    else
      var init := s[..|s| - 1];
      var prev := LastSegment(init);
      assert init[|init| - |prev|..] + [s[|s| - 1]] == s[|s| - |prev| - 1..];
      prev + [s[|s| - 1]]
  }

  /** The match of `^[^/]*`: everything before the first '/', or the whole
      string when there is no '/'. */
  function FirstSegment(s: Bytes): (r: Bytes)
    ensures |r| <= |s| && r == s[..|r|]
    ensures NoSlash(r)
    ensures |r| < |s| ==> s[|r|] == Slash
    decreases |s|
  {
    if s == [] then []
    else if s[0] == Slash then []
    else [s[0]] + FirstSegment(s[1..])
  }

  /** The input is some prefix P followed by its last segment, where P is
      empty or ends in '/'. */
  lemma LastSegmentSplit(s: Bytes)
    ensures exists p :: s == p + LastSegment(s) && (p == [] || p[|p| - 1] == Slash)
  {
    var r := LastSegment(s);
    var p := s[..|s| - |r|];
    assert s == p + r;
  }

  /** A string without '/' is its own first and last segment. */
  lemma NoSlashIsOneSegment(s: Bytes)
    requires NoSlash(s)
    ensures LastSegment(s) == s && FirstSegment(s) == s
  {
    var r := LastSegment(s);
    assert |r| == |s|;
    var f := FirstSegment(s);
    assert |f| == |s|;
  }

  /** What follows the last '/' is the last segment. */
  lemma {:induction false} LastSegmentAfterSlash(a: Bytes, b: Bytes)
    requires NoSlash(b)
    ensures LastSegment(a + [Slash] + b) == b
    decreases |b|
  {
    var s := a + [Slash] + b;
    if b != [] {
      var b' := b[..|b| - 1];
      assert s[..|s| - 1] == a + [Slash] + b';
      LastSegmentAfterSlash(a, b');
      assert b == b' + [b[|b| - 1]];
    }
  }

  /** What precedes the first '/' is the first segment. */
  lemma {:induction false} FirstSegmentBeforeSlash(a: Bytes, b: Bytes)
    requires NoSlash(a)
    ensures FirstSegment(a + [Slash] + b) == a
    decreases |a|
  {
    var s := a + [Slash] + b;
    if a != [] {
      assert s[1..] == a[1..] + [Slash] + b;
      FirstSegmentBeforeSlash(a[1..], b);
      assert a == [a[0]] + a[1..];
    }
  }

  /** A "collection/rkey" path splits back into its two parts. */
  lemma PathSplitRoundTrip(collection: Bytes, rkey: Bytes)
    requires NoSlash(collection) && NoSlash(rkey)
    ensures FirstSegment(collection + [Slash] + rkey) == collection
    ensures LastSegment(collection + [Slash] + rkey) == rkey
  {
    FirstSegmentBeforeSlash(collection, rkey);
    LastSegmentAfterSlash(collection, rkey);
  }

  /** "hello/world" splits into the collection-style first segment "hello"
      and the rkey-style last segment "world". */
  lemma HelloWorldExample()
    ensures FirstSegment(Ascii("hello/world")) == Ascii("hello")
    ensures LastSegment(Ascii("hello/world")) == Ascii("world")
  {
    assert Ascii("hello/world") == Ascii("hello") + [Slash] + Ascii("world");
    PathSplitRoundTrip(Ascii("hello"), Ascii("world"));
  }
}
