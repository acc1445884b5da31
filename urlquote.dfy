/** `urllib.parse.quote(text)` with its default `safe='/'`, as xspfgen.py
    applies it to a track's POSIX path: the text is encoded as UTF-8 and
    every byte outside the unreserved set of section 2.3 of RFC 3986
    (letters, digits, `-`, `.`, `_`, `~`) and outside `/` becomes `%XX`
    with upper-case hexadecimal digits, as in section 2.1 of RFC 3986. */
module UrlQuote {
  import opened PyStr
  import opened Seqs

  newtype byte = x: int | 0 <= x < 256

  // ---------------------------------------------------------------------
  // UTF-8
  // ---------------------------------------------------------------------

  /** The UTF-8 encoding of one Unicode scalar value. */
  function Utf8(c: char): (bs: seq<byte>)
    ensures 1 <= |bs| <= 4
    ensures |bs| == 1 <==> (c as int) < 0x80
  {
    var cp := c as int;
    if cp < 0x80 then [cp as byte]
    else if cp < 0x800 then [(0xC0 + cp / 64) as byte, (0x80 + cp % 64) as byte]
    else if cp < 0x10000 then
      [(0xE0 + cp / 4096) as byte, (0x80 + (cp / 64) % 64) as byte, (0x80 + cp % 64) as byte]
    else
      [(0xF0 + cp / 262144) as byte, (0x80 + (cp / 4096) % 64) as byte,
       (0x80 + (cp / 64) % 64) as byte, (0x80 + cp % 64) as byte]
  }

  /** `text.encode("utf-8")`. */
  function Utf8Encode(s: string): seq<byte> {
    if s == [] then [] else Utf8(s[0]) + Utf8Encode(s[1..])
  }

  /** Reads the code point back from the bytes of one encoded character. */
  function Utf8CodePoint(bs: seq<byte>): int
    requires 1 <= |bs| <= 4
  {
    var b := seq(|bs|, k requires 0 <= k < |bs| => bs[k] as int);
    if |bs| == 1 then b[0]
    else if |bs| == 2 then (b[0] - 0xC0) * 64 + (b[1] - 0x80)
    else if |bs| == 3 then (b[0] - 0xE0) * 4096 + (b[1] - 0x80) * 64 + (b[2] - 0x80)
    else (b[0] - 0xF0) * 262144 + (b[1] - 0x80) * 4096 + (b[2] - 0x80) * 64 + (b[3] - 0x80)
  }

  /** The encoding of a character determines the character. */
  lemma Utf8RoundTrip(c: char)
    ensures Utf8CodePoint(Utf8(c)) == c as int
  {
    var cp := c as int;
    if cp >= 0x10000 {
      FourSixBitGroups(cp);
    } else if cp >= 0x800 {
      ThreeSixBitGroups(cp);
    } else {
      Split64(cp);
    }
  }

  lemma Split64(n: nat)
    ensures n == (n / 64) * 64 + n % 64
  {
  }

  /** A number as a leading part and two six-bit groups. */
  lemma ThreeSixBitGroups(n: nat)
    ensures (n / 4096) * 4096 + ((n / 64) % 64) * 64 + n % 64 == n
  {
    var q := n / 64;
    Split64(n);
    Split64(q);
    assert n / 4096 == q / 64;
  }

  /** A number as a leading part and three six-bit groups. */
  lemma FourSixBitGroups(n: nat)
    ensures (n / 262144) * 262144 + ((n / 4096) % 64) * 4096 + ((n / 64) % 64) * 64 + n % 64 == n
  {
    var q := n / 64;
    ThreeSixBitGroups(q);
    Split64(n);
    assert n / 4096 == q / 64;
    assert n / 262144 == q / 4096;
  }

  /** An ASCII text is encoded byte for byte. */
  lemma {:induction false} Utf8Ascii(s: string)
    requires forall k :: 0 <= k < |s| ==> (s[k] as int) < 0x80
    ensures |Utf8Encode(s)| == |s|
    ensures forall k :: 0 <= k < |s| ==> Utf8Encode(s)[k] as int == s[k] as int
  {
    if s != [] {
      Utf8Ascii(s[1..]);
    }
  }

  // ---------------------------------------------------------------------
  // Percent-encoding
  // ---------------------------------------------------------------------

  /** The characters `quote` leaves alone: unreserved ones and `/`. */
  predicate IsSafeChar(c: char) {
    ('A' <= c <= 'Z') || ('a' <= c <= 'z') || ('0' <= c <= '9')
    || c == '_' || c == '.' || c == '-' || c == '~' || c == '/'
  }

  predicate IsSafeByte(b: byte) {
    b < 0x80 && IsSafeChar((b as int) as char)
  }

  predicate IsUpperHex(c: char) {
    ('0' <= c <= '9') || ('A' <= c <= 'F')
  }

  function HexDigit(d: nat): (c: char)
    requires d < 16
    ensures IsUpperHex(c)
  {
    if d < 10 then ('0' as int + d) as char else ('A' as int + d - 10) as char
  }

  function HexValue(c: char): (d: nat)
    requires IsUpperHex(c)
    ensures d < 16
  {
    if c <= '9' then c as int - '0' as int else c as int - 'A' as int + 10
  }

  /** One byte as `quote` writes it: itself if safe, else `%XX`. */
  function QuoteByte(b: byte): string {
    if IsSafeByte(b) then [(b as int) as char]
    else ['%', HexDigit(b as int / 16), HexDigit(b as int % 16)]
  }

  function QuoteBytes(bs: seq<byte>): string {
    if bs == [] then "" else QuoteByte(bs[0]) + QuoteBytes(bs[1..])
  }

  /** `quote(text)` with `safe='/'`. */
  function Quote(s: string): string {
    QuoteBytes(Utf8Encode(s))
  }

  /** Percent-decoding to bytes: `%XX` is one byte, any other ASCII
      character stands for itself; anything else is not a quoted text. */
  function PercentDecode(t: string): Option<seq<byte>>
    decreases |t|
  {
    if t == [] then Some([])
    else if t[0] == '%' then
      if |t| >= 3 && IsUpperHex(t[1]) && IsUpperHex(t[2]) then
        match PercentDecode(t[3..])
        case None => None
        case Some(rest) => Some([(HexValue(t[1]) * 16 + HexValue(t[2])) as byte] + rest)
      else None
    else if (t[0] as int) < 0x80 then
      match PercentDecode(t[1..])
      case None => None
      case Some(rest) => Some([(t[0] as int) as byte] + rest)
    else None
  }

  lemma QuoteByteDecodes(b: byte, t: string, rest: seq<byte>)
    requires PercentDecode(t) == Some(rest)
    ensures PercentDecode(QuoteByte(b) + t) == Some([b] + rest)
  {
    var q := QuoteByte(b) + t;
    if IsSafeByte(b) {
      assert q[1..] == t;
    } else {
      var hi, lo := b as int / 16, b as int % 16;
      assert HexValue(HexDigit(hi)) == hi;
      assert HexValue(HexDigit(lo)) == lo;
      assert q[3..] == t;
    }
  }

  /** Percent-decoding undoes `quote_from_bytes`. */
  lemma {:induction false} QuoteBytesRoundTrip(bs: seq<byte>)
    ensures PercentDecode(QuoteBytes(bs)) == Some(bs)
  {
    if bs != [] {
      QuoteBytesRoundTrip(bs[1..]);
      QuoteByteDecodes(bs[0], QuoteBytes(bs[1..]), bs[1..]);
      assert [bs[0]] + bs[1..] == bs;
    }
  }

  /** One byte's quoted form: a safe byte is kept as its own character;
      any other byte becomes `%` and two upper-case hexadecimal digits
      whose value is the byte. */
  lemma QuoteByteForm(b: byte)
    ensures IsSafeByte(b) ==> QuoteByte(b) == [(b as int) as char]
    ensures !IsSafeByte(b) ==>
      |QuoteByte(b)| == 3 && QuoteByte(b)[0] == '%'
      && IsUpperHex(QuoteByte(b)[1]) && IsUpperHex(QuoteByte(b)[2])
      && HexValue(QuoteByte(b)[1]) * 16 + HexValue(QuoteByte(b)[2]) == b as int
  {
    if !IsSafeByte(b) {
      assert HexValue(HexDigit(b as int / 16)) == b as int / 16;
      assert HexValue(HexDigit(b as int % 16)) == b as int % 16;
    }
  }

  /** Quoting works byte by byte: the quoted form of a concatenation is
      the concatenation of the quoted forms. */
  lemma {:induction false} QuoteBytesAppend(a: seq<byte>, b: seq<byte>)
    ensures QuoteBytes(a + b) == QuoteBytes(a) + QuoteBytes(b)
  {
    if a != [] {
      QuoteBytesAppend(a[1..], b);
      ConsAppend(a, b);
      AppendAssoc(QuoteByte(a[0]), QuoteBytes(a[1..]), QuoteBytes(b));
    } else {
      EmptyAppend(a, b);
    }
  }

  /** The byte at position `k` of a byte string is quoted, in place, as
      `QuoteByte` of it: whatever surrounds a safe byte, it is kept. */
  lemma QuoteBytesAt(bs: seq<byte>, k: nat)
    requires k < |bs|
    ensures QuoteBytes(bs) == QuoteBytes(bs[..k]) + QuoteByte(bs[k]) + QuoteBytes(bs[k + 1..])
  {
    var pre, post := bs[..k], bs[k + 1..];
    Around(bs, k);
    QuoteBytesAppend(pre, [bs[k]] + post);
    QuoteBytesAppend([bs[k]], post);
    QuoteBytesSingle(bs[k]);
    AppendAssoc(QuoteBytes(pre), QuoteByte(bs[k]), QuoteBytes(post));
  }

  lemma QuoteBytesSingle(b: byte)
    ensures QuoteBytes([b]) == QuoteByte(b)
  {
    assert [b][1..] == [];
  }

  /** A space between two safe letters is escaped and the letters are
      kept: `quote("a b")` is `a%20b`. */
  lemma QuoteSpace()
    ensures Quote("a b") == "a%20b"
  {
    assert Utf8Encode("a b") == [0x61, 0x20, 0x62] by {
      assert "a b"[1..] == " b" && " b"[1..] == "b" && "b"[1..] == "";
    }
    var bs: seq<byte> := [0x61, 0x20, 0x62];
    QuoteByteForm(0x61);
    QuoteByteForm(0x62);
    assert QuoteByte(0x20) == "%20";
    assert bs[1..] == [0x20, 0x62] && bs[1..][1..] == [0x62] && bs[1..][1..][1..] == [];
  }

  /** The location's quoted path decodes to the UTF-8 bytes of the path. */
  lemma QuoteRoundTrip(s: string)
    ensures PercentDecode(Quote(s)) == Some(Utf8Encode(s))
  {
    QuoteBytesRoundTrip(Utf8Encode(s));
  }

  /** `quote` writes only safe characters, `%` and upper-case hex digits. */
  lemma {:induction false} QuoteAlphabet(bs: seq<byte>)
    ensures forall k :: 0 <= k < |QuoteBytes(bs)| ==>
      IsSafeChar(QuoteBytes(bs)[k]) || QuoteBytes(bs)[k] == '%' || IsUpperHex(QuoteBytes(bs)[k])
  {
    if bs != [] {
      QuoteAlphabet(bs[1..]);
      var q, tail := QuoteByte(bs[0]), QuoteBytes(bs[1..]);
      assert QuoteBytes(bs) == q + tail;
      forall k | 0 <= k < |q + tail|
        ensures IsSafeChar((q + tail)[k]) || (q + tail)[k] == '%' || IsUpperHex((q + tail)[k])
      {
        if k >= |q| {
          assert (q + tail)[k] == tail[k - |q|];
        }
      }
    }
  }

  /** A text made only of safe characters passes through `quote` unchanged. */
  lemma {:induction false} QuoteKeepsSafe(s: string)
    requires forall k :: 0 <= k < |s| ==> IsSafeChar(s[k])
    ensures Quote(s) == s
  {
    if s != [] {
      QuoteKeepsSafe(s[1..]);
      assert Utf8Encode(s) == [(s[0] as int) as byte] + Utf8Encode(s[1..]);
      assert Quote(s) == QuoteByte((s[0] as int) as byte) + Quote(s[1..]);
    }
  }
}
