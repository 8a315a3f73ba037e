/** The file-name builder (MakeFilepath) and its byte-budgeted, UTF-8-safe
    truncation (FilenameLengthLimit), in the three variants the repository
    carries: pkg/utils/filename.go (Plain), pkg/utils/filename_unix.go (Unix)
    and pkg/utils/filename_windows.go (Windows). The variant is an explicit
    parameter. Paths are the strings before path.Clean normalises them. */
module Filename {
  import opened Prelude
  import opened Utf8
  import opened FindExpression

  // ---------------------------------------------------------------------
  // FilenameLengthLimit

  /** The longest prefix of `s`, at most `n` bytes long, that is well-formed
      UTF-8 (the empty prefix always is). */
  function LongestValidPrefix(s: Bytes, n: int): (k: nat)
    requires n <= |s|
    ensures k <= n || (n < 0 && k == 0)
    ensures Valid(s[..k])
    ensures forall j :: k < j <= n ==> !Valid(s[..j])
    decreases n
  {
    if n <= 0 then 0
    else if Valid(s[..n]) then n
    else LongestValidPrefix(s, n - 1)
  }

  /** What FilenameLengthLimit returns: the input when it is shorter than
      `maxBytes`, otherwise its longest well-formed prefix of at most
      `maxBytes` bytes. */
  function LengthLimited(s: Bytes, maxBytes: int): (r: Bytes)
    ensures |r| <= |s| && r == s[..|r|]
    ensures |s| < maxBytes ==> r == s
    ensures maxBytes <= 0 ==> r == []
    ensures maxBytes >= 0 ==> |r| <= maxBytes
    ensures |s| >= maxBytes ==> Valid(r)
    ensures |s| >= maxBytes ==> forall j :: |r| < j <= maxBytes ==> !Valid(s[..j])
  {
    if |s| < maxBytes then s else s[..LongestValidPrefix(s, maxBytes)]
  }

  /** The source loop: append one byte at a time and remember the last
      accumulated prefix that is well-formed. */
  method FilenameLengthLimit(filename: Bytes, maxBytes: int) returns (r: Bytes)
    ensures r == LengthLimited(filename, maxBytes)
  {
    if |filename| < maxBytes {
      return filename;
    }
    var lastValidFilename: Bytes := [];
    var currentFilename: Bytes := [];
    var i := 0;
    while i < maxBytes
      invariant 0 <= i <= |filename| && (i <= maxBytes || i == 0)
      invariant currentFilename == filename[..i]
      invariant lastValidFilename == filename[..LongestValidPrefix(filename, i)]
    {
      currentFilename := currentFilename + [filename[i]];
      if Valid(currentFilename) {
        lastValidFilename := currentFilename;
      }
      i := i + 1;
    }
    return lastValidFilename;
  }

  /** Truncating twice is truncating once. */
  lemma LengthLimitedIdempotent(s: Bytes, maxBytes: int)
    ensures LengthLimited(LengthLimited(s, maxBytes), maxBytes) == LengthLimited(s, maxBytes)
  {
    var r := LengthLimited(s, maxBytes);
    assert r[..|r|] == r;
  }

  /** On well-formed input the truncation never splits a character: the
      kept part and the dropped part are both well-formed. */
  lemma LengthLimitedKeepsCharacters(s: Bytes, maxBytes: int)
    requires Valid(s)
    ensures Valid(LengthLimited(s, maxBytes))
    ensures Valid(s[|LengthLimited(s, maxBytes)|..])
  {
    var r := LengthLimited(s, maxBytes);
    ValidSuffixAfterValidPrefix(s, r);
  }

  /** ASCII text is cut at exactly the budget. */
  lemma AsciiLengthLimited(s: Bytes, maxBytes: int)
    requires forall k :: 0 <= k < |s| ==> s[k] < 0x80
    requires 0 <= maxBytes <= |s|
    ensures LengthLimited(s, maxBytes) == s[..maxBytes]
  {
    AsciiValid(s[..maxBytes]);
  }

  /** `n` copies of `c`. */
  function Repeat(c: Bytes, n: nat): (r: Bytes)
    ensures |r| == n * |c|
  {
    if n == 0 then [] else Repeat(c, n - 1) + c
  }

  /** U+1F60A SMILING FACE WITH SMILING EYES, four bytes in UTF-8. */
  const Smile: Bytes := [0xF0, 0x9F, 0x98, 0x8A]

  /** Fewer copies are a prefix of more copies. */
  lemma {:induction false} RepeatIsPrefix(c: Bytes, m: nat, n: nat)
    requires m <= n
    ensures |Repeat(c, m)| <= |Repeat(c, n)| && Repeat(c, n)[..|Repeat(c, m)|] == Repeat(c, m)
    decreases n
  {
    if m < n {
      RepeatIsPrefix(c, m, n - 1);
      var r := Repeat(c, n - 1);
      assert Repeat(c, n) == r + c;
      assert (r + c)[..|Repeat(c, m)|] == r[..|Repeat(c, m)|];
    }
  }

  lemma RepeatPrefix(c: Bytes, n: nat, m: nat, t: nat)
    requires m < n && t <= |c|
    ensures Repeat(c, n)[..m * |c| + t] == Repeat(c, m) + c[..t]
  {
    RepeatIsPrefix(c, m + 1, n);
    var q := Repeat(c, m);
    var p := Repeat(c, m + 1);
    assert p == q + c;
    var k := |q| + t;
    assert k <= |p|;
    assert Repeat(c, n)[..k] == p[..k];
    assert p[..k] == q + c[..t];
  }


  lemma {:induction false} RepeatSmileValid(n: nat)
    ensures Valid(Repeat(Smile, n))
  {
    if n > 0 {
      RepeatSmileValid(n - 1);
      assert CharLen(Smile) == 4 && Smile[4..] == [];
      ValidConcat(Repeat(Smile, n - 1), Smile);
    }
  }

  /** A run of emoji cut inside its last character is not well-formed. */
  lemma SmileRunCutInvalid(n: nat, q: nat, t: nat)
    requires q < n && 1 <= t <= 3
    ensures !Valid(Repeat(Smile, n)[..4 * q + t])
  {
    RepeatPrefix(Smile, n, q, t);
    var p := Repeat(Smile, q);
    var c := Repeat(Smile, n)[..4 * q + t];
    assert c[..|p|] == p;
    assert c[|p|..] == Smile[..t];
    RepeatSmileValid(q);
    TruncatedCharInvalid(Smile[..t]);
    ValidSuffixIfValid(c, p);
  }

  /** A run of four-byte emoji limited to `maxBytes` bytes keeps
      `maxBytes / 4` whole emoji. */
  lemma SmileRunLimited(n: nat, maxBytes: int)
    requires 0 <= maxBytes <= 4 * n
    ensures LengthLimited(Repeat(Smile, n), maxBytes) == Repeat(Smile, maxBytes / 4)
  {
    var s := Repeat(Smile, n);
    var q := maxBytes / 4;
    var k := LongestValidPrefix(s, maxBytes);
    RepeatSmileValid(q);
    if q < n {
      RepeatPrefix(Smile, n, q, 0);
      assert Smile[..0] == [];
    } else {
      assert s[..4 * q] == s;
    }
    assert s[..4 * q] == Repeat(Smile, q);
    assert k >= 4 * q;
    if k > 4 * q {
      SmileRunCutInvalid(n, q, k - 4 * q);
    }
  }

  /** 140 four-byte emoji limited to 255 bytes keep 63 emoji. */
  lemma EmojiExample()
    ensures LengthLimited(Repeat(Smile, 140), 255) == Repeat(Smile, 63)
  {
    SmileRunLimited(140, 255);
  }

  // ---------------------------------------------------------------------
  // Sanitising the base name

  datatype Variant = Plain | Unix | Windows

  /** The bytes a variant strips from, or replaces in, the base name:
      Plain strips '/'; Unix keeps everything; Windows' replacer strips
      " \ / | : < > ? * and turns a newline into a space. */
  predicate Replaced(v: Variant, b: byte) {
    match v
    case Plain => b == Slash
    case Unix => false
    case Windows =>
      b == 0x22 || b == Backslash || b == Slash || b == 0x7C || b == 0x3A
      || b == 0x3C || b == 0x3E || b == 0x3F || b == 0x2A || b == Newline
  }

  function SanitizeByte(v: Variant, b: byte): Bytes {
    if !Replaced(v, b) then [b]
    else if b == Newline then [Space]
    else []
  }

  /** strings.Replace(s, "/", "", -1) for Plain, the identity for Unix and
      replacer.Replace for Windows. All replaced strings are single ASCII
      bytes, so the replacement is a byte-by-byte map. */
  function Sanitize(v: Variant, s: Bytes): (r: Bytes)
    ensures |r| <= |s|
    ensures forall k :: 0 <= k < |r| ==> !Replaced(v, r[k])
  {
    if s == [] then [] else SanitizeByte(v, s[0]) + Sanitize(v, s[1..])
  }

  /** What each byte becomes: Plain deletes '/', Unix keeps every byte, and
      Windows deletes " \ / | : < > ? * and turns a newline into a space.
      With SanitizeConcat this fixes Sanitize on every input. */
  lemma SanitizeSingleByte(v: Variant, b: byte)
    ensures v == Plain ==> Sanitize(v, [b]) == (if b == Slash then [] else [b])
    ensures v == Unix ==> Sanitize(v, [b]) == [b]
    ensures v == Windows && b == Newline ==> Sanitize(v, [b]) == [Space]
    ensures v == Windows && b in WindowsDeleted ==> Sanitize(v, [b]) == []
    ensures v == Windows && b != Newline && b !in WindowsDeleted ==> Sanitize(v, [b]) == [b]
  {
  }

  /** The bytes the Windows replacer deletes outright. */
  const WindowsDeleted: set<byte> := {0x22, Backslash, Slash, 0x7C, 0x3A, 0x3C, 0x3E, 0x3F, 0x2A}

  lemma {:induction false} SanitizeConcat(v: Variant, a: Bytes, b: Bytes)
    ensures Sanitize(v, a + b) == Sanitize(v, a) + Sanitize(v, b)
    decreases |a|
  {
    if a != [] {
      assert (a + b)[1..] == a[1..] + b;
      SanitizeConcat(v, a[1..], b);
    } else {
      assert a + b == b;
    }
  }

  /** A string is left alone exactly when it holds none of the replaced
      bytes. */
  lemma {:induction false} SanitizeFixedPoint(v: Variant, s: Bytes)
    ensures Sanitize(v, s) == s <==> forall k :: 0 <= k < |s| ==> !Replaced(v, s[k])
    decreases |s|
  {
    if s != [] && forall k :: 0 <= k < |s| ==> !Replaced(v, s[k]) {
      assert forall k :: 0 <= k < |s[1..]| ==> !Replaced(v, s[1..][k]) by {
        forall k | 0 <= k < |s[1..]| ensures !Replaced(v, s[1..][k]) { assert s[1..][k] == s[k + 1]; }
      }
      SanitizeFixedPoint(v, s[1..]);
      assert s == [s[0]] + s[1..];
    }
  }

  /** Sanitising twice is sanitising once. */
  lemma SanitizeIdempotent(v: Variant, s: Bytes)
    ensures Sanitize(v, Sanitize(v, s)) == Sanitize(v, s)
  {
    SanitizeFixedPoint(v, Sanitize(v, s));
  }

  /** A single character stays well-formed: an ASCII one becomes nothing, a
      space or itself, and a multi-byte one has no byte below 0x80, so no
      byte of it is replaced. */
  lemma SanitizeChar(v: Variant, c: Bytes)
    requires c != [] && CharLen(c) == |c|
    ensures Valid(Sanitize(v, c))
  {
    if |c| == 1 {
      assert Sanitize(v, c) == SanitizeByte(v, c[0]) + Sanitize(v, []);
      AsciiValid(Sanitize(v, c));
    } else {
      SanitizeFixedPoint(v, c);
      assert c[|c|..] == [];
    }
  }

  /** Sanitising keeps well-formed text well-formed, character by
      character. */
  lemma {:induction false} SanitizeValid(v: Variant, s: Bytes)
    requires Valid(s)
    ensures Valid(Sanitize(v, s))
    decreases |s|
  {
    if s != [] {
      var n := CharLen(s);
      assert s == s[..n] + s[n..];
      SanitizeConcat(v, s[..n], s[n..]);
      SanitizeValid(v, s[n..]);
      assert s[..n][..n] == s[..n];
      CharLenOfExtension(s[..n], s) by {
        assert CharLen(s[..n]) == n by {
          assert s[..n][0] == s[0];
          assert n >= 2 ==> s[..n][1] == s[1];
          assert n >= 3 ==> s[..n][2] == s[2];
          assert n >= 4 ==> s[..n][3] == s[3];
        }
      }
      SanitizeChar(v, s[..n]);
      ValidConcat(Sanitize(v, s[..n]), Sanitize(v, s[n..]));
    }
  }

  // ---------------------------------------------------------------------
  // Decimal formatting of the index (%d, strconv.Itoa)

  function Digit(d: nat): (b: byte)
    requires d < 10
  {
    (0x30 + d) as byte
  }

  predicate IsDigit(b: byte) { 0x30 <= b <= 0x39 }

  /** Decimal representation of a natural number, without leading zeros. */
  function Decimal(n: nat): (d: Bytes)
    ensures |d| >= 1
    ensures forall k :: 0 <= k < |d| ==> IsDigit(d[k])
    ensures n > 0 ==> d[0] != 0x30
  {
    if n < 10 then [Digit(n)] else Decimal(n / 10) + [Digit(n % 10)]
  }

  /** The number a string of decimal digits denotes (a non-digit counts as
      0). */
  function DecimalValue(d: Bytes): nat
    decreases |d|
  {
    if d == [] then 0
    else DecimalValue(d[..|d| - 1]) * 10 + (if IsDigit(d[|d| - 1]) then d[|d| - 1] as int - 0x30 else 0)
  }

  /** `Decimal` renders `n` itself: reading its digits back gives `n`. */
  lemma {:induction false} DecimalRoundTrip(n: nat)
    ensures DecimalValue(Decimal(n)) == n
  {
    if n >= 10 {
      DecimalRoundTrip(n / 10);
      var d := Decimal(n);
      assert d[..|d| - 1] == Decimal(n / 10);
    }
  }

  /** A positive number has no more decimal digits than its value, which is
      why reserving `i` bytes for "_<i>" always leaves room for it. */
  lemma {:induction false} DecimalLength(n: nat)
    requires n >= 1
    ensures |Decimal(n)| <= n
  {
    if n >= 10 {
      DecimalLength(n / 10);
    }
  }

  // ---------------------------------------------------------------------
  // MakeFilepath

  /** The separator filepath.Join uses (Plain formats with '/' itself). */
  function Separator(v: Variant): byte {
    if v == Windows then Backslash else Slash
  }

  /** filepath.Join before cleaning: the non-empty elements joined by the
      separator. */
  function Join(sep: byte, elems: seq<Bytes>): Bytes
  {
    if elems == [] then []
    else
      var rest := Join(sep, elems[1..]);
      if elems[0] == [] then rest
      else if rest == [] then elems[0]
      else elems[0] + [sep] + rest
  }

  lemma JoinTwo(sep: byte, a: Bytes, b: Bytes)
    requires a != [] && b != []
    ensures Join(sep, [a, b]) == a + [sep] + b
  {
    assert [a, b][1..] == [b];
    assert [b][1..] == [];
    assert Join(sep, [b]) == b;
  }

  lemma JoinThree(sep: byte, a: Bytes, b: Bytes, c: Bytes)
    requires a != [] && b != [] && c != []
    ensures Join(sep, [a, b, c]) == a + [sep] + b + [sep] + c
  {
    assert [a, b, c][1..] == [b, c];
    JoinTwo(sep, b, c);
  }

  /** "<rkey>_<handle>_<text>" */
  function RawBase(rkey: Bytes, handle: Bytes, text: Bytes): Bytes {
    rkey + [Underscore] + handle + [Underscore] + text
  }

  /** The byte budget for the base name: the extension and its dot are
      reserved, and for a positive index also '_' and `i` bytes (the index's
      value, not its digit count). */
  function Budget(mediaType: Bytes, i: int, maxBytes: int): (b: int)
    ensures i > 0 ==> b + |[Underscore]| + i + |[Dot] + mediaType| == maxBytes
    ensures i <= 0 ==> b + |[Dot] + mediaType| == maxBytes
  {
    if i > 0 then maxBytes - (|mediaType| + 2 + i) else maxBytes - (|mediaType| + 1)
  }

  /** The base name after sanitising and then truncating to the budget. */
  function TruncatedBase(v: Variant, rkey: Bytes, handle: Bytes, text: Bytes,
                         mediaType: Bytes, i: int, maxBytes: int): (r: Bytes)
  {
    LengthLimited(Sanitize(v, RawBase(rkey, handle, text)), Budget(mediaType, i, maxBytes))
  }

  /** The base is a prefix of the sanitised base, and it is empty or within
      the budget. */
  lemma TruncatedBaseBounds(v: Variant, rkey: Bytes, handle: Bytes, text: Bytes,
                            mediaType: Bytes, i: int, maxBytes: int)
    ensures var clean := Sanitize(v, RawBase(rkey, handle, text));
            var r := TruncatedBase(v, rkey, handle, text, mediaType, i, maxBytes);
            |r| <= |clean| && r == clean[..|r|]
            && (r == [] || |r| <= Budget(mediaType, i, maxBytes))
  {
  }

  /** "_<i>" for a positive index, nothing otherwise. */
  function IndexSuffix(i: int): Bytes {
    if i > 0 then [Underscore] + Decimal(i) else []
  }

  /** The path formatted around a given base: "<dir>/<base>[_<i>].<ext>"
      with Sprintf for Plain, Join(dir, base[, i]) + ".<ext>" for Unix and
      Join(dir, base) + "[_<i>].<ext>" for Windows. */
  function Compose(v: Variant, directory: Bytes, base: Bytes, mediaType: Bytes, i: int): (p: Bytes)
    ensures |p| > |mediaType| && p[|p| - |mediaType| - 1..] == [Dot] + mediaType
  {
    Stem(v, directory, base, i) + [Dot] + mediaType
  }

  /** The path up to the extension's dot. */
  function Stem(v: Variant, directory: Bytes, base: Bytes, i: int): Bytes {
    match v
    case Plain => directory + [Slash] + base + IndexSuffix(i)
    case Unix => if i > 0 then Join(Slash, [directory, base, Decimal(i)]) else Join(Slash, [directory, base])
    case Windows => Join(Backslash, [directory, base]) + IndexSuffix(i)
  }

  /** MakeFilepath: sanitise and truncate the base, then format the path. */
  function MakeFilepath(v: Variant, directory: Bytes, rkey: Bytes, handle: Bytes, text: Bytes,
                        mediaType: Bytes, i: int, maxBytes: int): (p: Bytes)
    ensures |p| > |mediaType| && p[|p| - |mediaType| - 1..] == [Dot] + mediaType
  {
    Compose(v, directory, TruncatedBase(v, rkey, handle, text, mediaType, i, maxBytes), mediaType, i)
  }

  /** The file name around a given base: what follows the directory and its
      separator. */
  function NameOf(v: Variant, base: Bytes, mediaType: Bytes, i: int): Bytes {
    if v == Unix && i > 0 then base + [Slash] + Decimal(i) + [Dot] + mediaType
    else base + IndexSuffix(i) + [Dot] + mediaType
  }

  /** The file name of a post's blob. */
  function FileName(v: Variant, rkey: Bytes, handle: Bytes, text: Bytes,
                    mediaType: Bytes, i: int, maxBytes: int): Bytes
  {
    NameOf(v, TruncatedBase(v, rkey, handle, text, mediaType, i, maxBytes), mediaType, i)
  }

  /** The path is the directory, one separator and the file name. (For the
      Join-based builders an empty directory or an empty truncated base would
      be dropped by filepath.Join; the requirements exclude that.) */
  lemma FilepathLayout(v: Variant, directory: Bytes, rkey: Bytes, handle: Bytes, text: Bytes,
                       mediaType: Bytes, i: int, maxBytes: int)
    requires directory != []
    requires v == Plain || TruncatedBase(v, rkey, handle, text, mediaType, i, maxBytes) != []
    ensures MakeFilepath(v, directory, rkey, handle, text, mediaType, i, maxBytes)
            == directory + [Separator(v)] + FileName(v, rkey, handle, text, mediaType, i, maxBytes)
  {
    ComposeLayout(v, directory, TruncatedBase(v, rkey, handle, text, mediaType, i, maxBytes), mediaType, i);
  }

  lemma ComposeLayout(v: Variant, directory: Bytes, base: Bytes, mediaType: Bytes, i: int)
    requires directory != []
    requires v == Plain || base != []
    ensures Compose(v, directory, base, mediaType, i) == directory + [Separator(v)] + NameOf(v, base, mediaType, i)
  {
    var stem := Stem(v, directory, base, i);
    var index := if v == Unix && i > 0 then [Slash] + Decimal(i) else IndexSuffix(i);
    assert stem == directory + [Separator(v)] + base + index by {
      match v {
        case Plain =>
        case Unix =>
          if i > 0 { JoinThree(Slash, directory, base, Decimal(i)); } else { JoinTwo(Slash, directory, base); }
        case Windows =>
          JoinTwo(Backslash, directory, base);
      }
    }
    assert NameOf(v, base, mediaType, i) == base + index + [Dot] + mediaType;
    LayoutCase(Compose(v, directory, base, mediaType, i), NameOf(v, base, mediaType, i),
               stem, directory, Separator(v), base, index, mediaType);
  }

  lemma LayoutCase(path: Bytes, name: Bytes, stem: Bytes, directory: Bytes, sep: byte,
                   base: Bytes, index: Bytes, mediaType: Bytes)
    requires name == base + index + [Dot] + mediaType
    requires stem == directory + [sep] + base + index && path == stem + [Dot] + mediaType
    ensures path == directory + [sep] + name
  {
  }

  /** The file name starts with its base; what follows is, for a positive
      index, a '_' (Unix: a '/') and the decimal digits of `i` itself, then
      "." and the extension; otherwise "." and the extension alone.
      `FileName` is `NameOf` of the truncated base. */
  lemma NameTail(v: Variant, base: Bytes, mediaType: Bytes, i: int)
    ensures var name := NameOf(v, base, mediaType, i);
            var tail := name[|base|..];
            |name| >= |base| && name[..|base|] == base
            && (i <= 0 ==> tail == [Dot] + mediaType)
            && (i > 0 ==> |tail| >= 3 + |mediaType|
                          && tail[0] == (if v == Unix then Slash else Underscore)
                          && DecimalValue(tail[1..|tail| - |mediaType| - 1]) == i
                          && tail[|tail| - |mediaType| - 1..] == [Dot] + mediaType)
  {
    var name := NameOf(v, base, mediaType, i);
    if i > 0 {
      var sep := if v == Unix then Slash else Underscore;
      IndexedTail(name, base, sep, i, mediaType);
    } else {
      PlainTail(name, base, mediaType);
    }
  }

  lemma IndexedTail(name: Bytes, base: Bytes, sep: byte, i: nat, ext: Bytes)
    requires i > 0 && name == base + [sep] + Decimal(i) + [Dot] + ext
    ensures var tail := name[|base|..];
            |name| >= |base| && name[..|base|] == base && |tail| >= 3 + |ext| && tail[0] == sep
            && DecimalValue(tail[1..|tail| - |ext| - 1]) == i
            && tail[|tail| - |ext| - 1..] == [Dot] + ext
  {
    var tail := name[|base|..];
    assert tail == [sep] + Decimal(i) + [Dot] + ext;
    assert tail[1..|tail| - |ext| - 1] == Decimal(i);
    DecimalRoundTrip(i);
  }

  lemma PlainTail(name: Bytes, base: Bytes, ext: Bytes)
    requires name == base + [Dot] + ext
    ensures |name| >= |base| && name[..|base|] == base && name[|base|..] == [Dot] + ext
  {
  }


  /** Whenever the budget is not negative, the file name fits in `maxBytes`
      bytes (the directory is not counted): digits(i) <= i. */
  lemma FileNameWithinLimit(v: Variant, rkey: Bytes, handle: Bytes, text: Bytes,
                            mediaType: Bytes, i: int, maxBytes: int)
    requires Budget(mediaType, i, maxBytes) >= 0
    ensures |FileName(v, rkey, handle, text, mediaType, i, maxBytes)| <= maxBytes
  {
    if i > 0 { DecimalLength(i); }
  }

  /** The base is sanitised first and truncated second, so it is a prefix of
      the sanitised "<rkey>_<handle>_<text>"; it is well-formed UTF-8 when the
      three inputs are, and it never ends inside a character. */
  lemma TruncatedBaseValid(v: Variant, rkey: Bytes, handle: Bytes, text: Bytes,
                           mediaType: Bytes, i: int, maxBytes: int)
    requires Valid(rkey) && Valid(handle) && Valid(text)
    ensures var sane := Sanitize(v, RawBase(rkey, handle, text));
            var base := TruncatedBase(v, rkey, handle, text, mediaType, i, maxBytes);
            base == sane[..|base|] && Valid(base) && Valid(sane[|base|..])
  {
    var u: Bytes := [Underscore];
    AsciiValid(u);
    ValidConcat(rkey, u);
    ValidConcat(rkey + u, handle);
    ValidConcat(rkey + u + handle, u);
    ValidConcat(rkey + u + handle + u, text);
    SanitizeValid(v, RawBase(rkey, handle, text));
    LengthLimitedKeepsCharacters(Sanitize(v, RawBase(rkey, handle, text)), Budget(mediaType, i, maxBytes));
  }

  /** No byte of `s` is one its variant replaces. */
  predicate Clean(v: Variant, s: Bytes) {
    forall k :: 0 <= k < |s| ==> !Replaced(v, s[k])
  }

  /** Plain and Windows file names hold none of the bytes their variant
      strips, as long as the extension holds none either: for Plain there is
      no '/' after the directory's separator. */
  lemma FileNameClean(v: Variant, rkey: Bytes, handle: Bytes, text: Bytes,
                      mediaType: Bytes, i: int, maxBytes: int)
    requires v != Unix && Clean(v, mediaType)
    ensures Clean(v, FileName(v, rkey, handle, text, mediaType, i, maxBytes))
  {
    var sane := Sanitize(v, RawBase(rkey, handle, text));
    var base := TruncatedBase(v, rkey, handle, text, mediaType, i, maxBytes);
    TruncatedBaseBounds(v, rkey, handle, text, mediaType, i, maxBytes);
    assert Clean(v, base) by {
      forall k | 0 <= k < |base| ensures !Replaced(v, base[k]) { assert base[k] == sane[k]; }
    }
    NameOfClean(v, base, mediaType, i);
  }

  lemma NameOfClean(v: Variant, base: Bytes, mediaType: Bytes, i: int)
    requires v != Unix && Clean(v, base) && Clean(v, mediaType)
    ensures Clean(v, NameOf(v, base, mediaType, i))
  {
    var tail := IndexSuffix(i) + [Dot];
    assert Clean(v, tail) by {
      if i > 0 {
        var d := Decimal(i);
        forall k | 0 <= k < |tail| ensures !Replaced(v, tail[k]) {
          if 1 <= k <= |d| { assert tail[k] == d[k - 1]; }
        }
      }
    }
    CleanConcat(v, base, tail);
    CleanConcat(v, base + tail, mediaType);
    assert NameOf(v, base, mediaType, i) == base + tail + mediaType;
  }

  lemma CleanConcat(v: Variant, a: Bytes, b: Bytes)
    requires Clean(v, a) && Clean(v, b)
    ensures Clean(v, a + b)
  {
    forall k | 0 <= k < |a + b| ensures !Replaced(v, (a + b)[k]) {
      if k >= |a| { assert (a + b)[k] == b[k - |a|]; }
    }
  }

  /** For an ASCII base long enough to be cut, a positive index costs `i`
      bytes of the budget although "_<i>" takes only 1 + digits(i): the name
      ends up exactly `maxBytes - i + |Decimal(i)|` bytes long. */
  lemma IndexReservesValueNotDigits(v: Variant, rkey: Bytes, handle: Bytes, text: Bytes,
                                    mediaType: Bytes, i: int, maxBytes: int)
    requires v != Unix && i > 0
    requires var s := Sanitize(v, RawBase(rkey, handle, text));
             (forall k :: 0 <= k < |s| ==> s[k] < 0x80) && 0 <= Budget(mediaType, i, maxBytes) <= |s|
    ensures |FileName(v, rkey, handle, text, mediaType, i, maxBytes)| == maxBytes - i + |Decimal(i)|
  {
    AsciiLengthLimited(Sanitize(v, RawBase(rkey, handle, text)), Budget(mediaType, i, maxBytes));
  }

  /** A base that fits its budget and holds no replaced byte is kept
      verbatim, so a Plain path reads "<dir>/<rkey>_<handle>_<text>_<i>.<ext>",
      the layout tests/utils_test.go TestFilepath expects. */
  lemma ShortCleanBaseKept(v: Variant, directory: Bytes, rkey: Bytes, handle: Bytes, text: Bytes,
                           mediaType: Bytes, i: int, maxBytes: int)
    requires Clean(v, RawBase(rkey, handle, text))
    requires |RawBase(rkey, handle, text)| < Budget(mediaType, i, maxBytes)
    ensures TruncatedBase(v, rkey, handle, text, mediaType, i, maxBytes) == RawBase(rkey, handle, text)
    ensures v == Plain ==>
              MakeFilepath(v, directory, rkey, handle, text, mediaType, i, maxBytes)
              == directory + [Slash] + RawBase(rkey, handle, text) + IndexSuffix(i) + [Dot] + mediaType
  {
    SanitizeFixedPoint(v, RawBase(rkey, handle, text));
  }

  /** The Unix builder strips nothing: its base is "<rkey>_<handle>_<text>"
      verbatim, '/' included. */
  lemma UnixBaseVerbatim(rkey: Bytes, handle: Bytes, text: Bytes)
    ensures Sanitize(Unix, RawBase(rkey, handle, text)) == RawBase(rkey, handle, text)
  {
    SanitizeFixedPoint(Unix, RawBase(rkey, handle, text));
  }

  /** With the Plain builder the last path element is the whole file name:
      the base and the index suffix hold no '/', so the directory is all
      that precedes it. */
  lemma PlainLastElement(directory: Bytes, rkey: Bytes, handle: Bytes, text: Bytes,
                         mediaType: Bytes, i: int, maxBytes: int)
    requires directory != [] && NoSlash(mediaType)
    ensures LastSegment(MakeFilepath(Plain, directory, rkey, handle, text, mediaType, i, maxBytes))
            == FileName(Plain, rkey, handle, text, mediaType, i, maxBytes)
  {
    var name := FileName(Plain, rkey, handle, text, mediaType, i, maxBytes);
    assert Clean(Plain, mediaType) by {
      forall k | 0 <= k < |mediaType| ensures !Replaced(Plain, mediaType[k]) { assert mediaType[k] != Slash; }
    }
    FileNameClean(Plain, rkey, handle, text, mediaType, i, maxBytes);
    assert NoSlash(name) by {
      forall k | 0 <= k < |name| ensures name[k] != Slash { assert !Replaced(Plain, name[k]); }
    }
    FilepathLayout(Plain, directory, rkey, handle, text, mediaType, i, maxBytes);
    LastSegmentAfterSlash(directory, name);
  }

  /** With the Unix builder a positive index is a path element of its own:
      the file is "<i>.<ext>" inside a directory named after the post, not
      "<base>_<i>.<ext>". */
  lemma UnixIndexIsOwnElement(directory: Bytes, rkey: Bytes, handle: Bytes, text: Bytes,
                              mediaType: Bytes, i: int, maxBytes: int)
    requires directory != [] && i > 0 && NoSlash(mediaType)
    requires TruncatedBase(Unix, rkey, handle, text, mediaType, i, maxBytes) != []
    ensures LastSegment(MakeFilepath(Unix, directory, rkey, handle, text, mediaType, i, maxBytes))
            == Decimal(i) + [Dot] + mediaType
  {
    var base := TruncatedBase(Unix, rkey, handle, text, mediaType, i, maxBytes);
    var last := Decimal(i) + [Dot] + mediaType;
    assert NoSlash(last) by {
      forall k | 0 <= k < |last| ensures last[k] != Slash {
        if k < |Decimal(i)| { assert IsDigit(last[k]); }
        else if k > |Decimal(i)| { assert last[k] == mediaType[k - |Decimal(i)| - 1]; }
      }
    }
    JoinThree(Slash, directory, base, Decimal(i));
    assert MakeFilepath(Unix, directory, rkey, handle, text, mediaType, i, maxBytes)
           == (directory + [Slash] + base) + [Slash] + last;
    LastSegmentAfterSlash(directory + [Slash] + base, last);
  }
}
