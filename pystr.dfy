/** The parts of Python's built-in `str` and `int` behaviour that the two
    scripts rely on: `str(n)`, the `>` and `0` alignment of format
    specifications, `c * n`, `startswith`/`endswith` and `split(sep)`.
    Text is `seq<char>` throughout. */
module PyStr {

  datatype Option<+T> = None | Some(value: T)

  // ---------------------------------------------------------------------
  // Decimal numerals
  // ---------------------------------------------------------------------

  /** The characters that the model accepts as decimal digits (ASCII). */
  predicate IsDigit(c: char) {
    '0' <= c <= '9'
  }

  predicate AllDigits(s: string) {
    forall k :: 0 <= k < |s| ==> IsDigit(s[k])
  }

  function DigitChar(d: nat): (c: char)
    requires d < 10
    ensures IsDigit(c) && c as int - '0' as int == d
  {
    ('0' as int + d) as char
  }

  function Pow10(e: nat): (p: nat)
    ensures p >= 1
  {
    if e == 0 then 1 else 10 * Pow10(e - 1)
  }

  /** `str(n)` for a non-negative `n`: the shortest decimal numeral. */
  function NatStr(n: nat): (r: string)
    ensures 1 <= |r| && AllDigits(r)
    ensures r[0] == '0' ==> n == 0
    decreases n
  {
    if n < 10 then [DigitChar(n)] else NatStr(n / 10) + [DigitChar(n % 10)]
  }

  /** The value of a string of decimal digits (leading zeros allowed). */
  function DigitsValue(s: string): nat
    requires AllDigits(s)
  {
    if s == [] then 0
    else 10 * DigitsValue(s[..|s| - 1]) + (s[|s| - 1] as int - '0' as int)
  }

  /** `str(n)` for any integer: a minus sign before the magnitude. */
  function IntStr(n: int): (r: string)
    ensures 1 <= |r|
    ensures n >= 0 <==> AllDigits(r)
    ensures n < 0 <==> r[0] == '-'
  {
    if n < 0 then
      var r := "-" + NatStr(-n);
      assert !IsDigit(r[0]);
      r
    else NatStr(n)
  }

  /** Reads back an optional minus sign followed by at least one digit. */
  function ParseInt(s: string): Option<int> {
    if |s| > 1 && s[0] == '-' && AllDigits(s[1..]) then Some(-(DigitsValue(s[1..]) as int))
    else if |s| > 0 && AllDigits(s) then Some(DigitsValue(s))
    else None
  }

  lemma {:induction false} NatStrValue(n: nat)
    ensures DigitsValue(NatStr(n)) == n
    decreases n
  {
    if n >= 10 {
      NatStrValue(n / 10);
      var s := NatStr(n);
      assert s[..|s| - 1] == NatStr(n / 10);
    }
  }

  /** Leading zeros do not change the value of a numeral. */
  lemma {:induction false} LeadingZerosValue(z: nat, s: string)
    requires AllDigits(s)
    ensures AllDigits(Repeat('0', z) + s)
    ensures DigitsValue(Repeat('0', z) + s) == DigitsValue(s)
    decreases |s|
  {
    var t := Repeat('0', z) + s;
    if s == [] {
      assert t == Repeat('0', z);
      ZerosValue(z);
    } else {
      LeadingZerosValue(z, s[..|s| - 1]);
      assert t[..|t| - 1] == Repeat('0', z) + s[..|s| - 1];
    }
  }

  lemma {:induction false} ZerosValue(z: nat)
    ensures AllDigits(Repeat('0', z))
    ensures DigitsValue(Repeat('0', z)) == 0
    decreases z
  {
    if z > 0 {
      ZerosValue(z - 1);
      assert Repeat('0', z)[..z - 1] == Repeat('0', z - 1);
    }
  }

  /** `str(n)` and `ParseInt` are inverse: the numeral determines the number. */
  lemma IntStrRoundTrip(n: int)
    ensures ParseInt(IntStr(n)) == Some(n)
  {
    var s := IntStr(n);
    if n < 0 {
      NegStrParts(n);
      NatStrValue(-n);
      assert |s| > 1 && s[0] == '-' && AllDigits(s[1..]);
    } else {
      NatStrValue(n);
      assert s == NatStr(n) && IsDigit(s[0]);
    }
  }

  lemma NegStrParts(n: int)
    requires n < 0
    ensures |IntStr(n)| > 1 && IntStr(n)[1..] == NatStr(-n)
  {
    var d := NatStr(-n);
    assert IntStr(n) == "-" + d;
    assert ("-" + d)[1..] == d;
  }

  /** The numeral of `n >= 1` has `w` digits exactly when `10^(w-1) <= n < 10^w`. */
  lemma {:induction false} NatStrLength(n: nat)
    requires n >= 1
    ensures Pow10(|NatStr(n)| - 1) <= n < Pow10(|NatStr(n)|)
    decreases n
  {
    if n >= 10 {
      NatStrLength(n / 10);
    }
  }

  /** A larger number never has a shorter numeral. */
  lemma {:induction false} NatStrLengthMonotone(a: nat, b: nat)
    requires a <= b
    ensures |NatStr(a)| <= |NatStr(b)|
    decreases b
  {
    if a >= 10 {
      NatStrLengthMonotone(a / 10, b / 10);
    }
  }

  // ---------------------------------------------------------------------
  // Repetition and alignment
  // ---------------------------------------------------------------------

  /** `c * n` on a one-character string: empty for `n <= 0`. */
  function Repeat(c: char, n: int): (r: string)
    ensures |r| == if n <= 0 then 0 else n
    ensures forall k :: 0 <= k < |r| ==> r[k] == c
  {
    if n <= 0 then "" else Repeat(c, n - 1) + [c]
  }

  /** `c * n` also grows at the front. */
  lemma RepeatFront(c: char, n: int)
    requires n > 0
    ensures Repeat(c, n) == [c] + Repeat(c, n - 1)
  {
    var r, t := Repeat(c, n), [c] + Repeat(c, n - 1);
    assert |r| == |t|;
    forall k | 0 <= k < |r| ensures r[k] == t[k] {
      if k > 0 {
        assert t[k] == Repeat(c, n - 1)[k - 1];
      }
    }
  }

  /** The format specification `{fill}>{width}`: right alignment, padding
      on the left with `fill`, never truncating. */
  function PadLeft(s: string, width: int, fill: char): (r: string)
    ensures |r| == if |s| >= width then |s| else width
  {
    Repeat(fill, width - |s|) + s
  }

  /** The padded text ends with the original one and everything in front
      of it is the fill character. */
  lemma PadLeftShape(s: string, width: int, fill: char)
    ensures var r := PadLeft(s, width, fill);
            EndsWith(r, s) && forall k :: 0 <= k < |r| - |s| ==> r[k] == fill
  {
    var pad := Repeat(fill, width - |s|);
    var r := PadLeft(s, width, fill);
    assert r == pad + s;
    assert r[|r| - |s|..] == s;
    forall k | 0 <= k < |r| - |s| ensures r[k] == fill {
      assert r[k] == pad[k];
    }
  }

  // ---------------------------------------------------------------------
  // Prefixes, suffixes and split
  // ---------------------------------------------------------------------

  predicate StartsWith(s: string, prefix: string) {
    |prefix| <= |s| && s[..|prefix|] == prefix
  }

  predicate EndsWith(s: string, suffix: string) {
    |suffix| <= |s| && s[|s| - |suffix|..] == suffix
  }

  predicate OccursAt(s: string, sep: string, j: int) {
    0 <= j && j + |sep| <= |s| && s[j..j + |sep|] == sep
  }

  predicate Contains(s: string, sep: string) {
    exists j :: 0 <= j <= |s| && OccursAt(s, sep, j)
  }

  /** The leftmost occurrence of `sep` in `s` at or after `from`. */
  function FindFrom(s: string, sep: string, from: nat): (r: Option<nat>)
    requires |sep| > 0
    ensures r.Some? ==> from <= r.value && OccursAt(s, sep, r.value)
    ensures r.Some? ==> forall j :: from <= j < r.value ==> !OccursAt(s, sep, j)
    ensures r.None? ==> forall j :: from <= j ==> !OccursAt(s, sep, j)
    decreases |s| - from
  {
    if from + |sep| > |s| then None
    else if s[from..from + |sep|] == sep then Some(from)
    else FindFrom(s, sep, from + 1)
  }

  /** `s.split(sep)`: cut at each leftmost, non-overlapping occurrence. */
  function Split(s: string, sep: string): (r: seq<string>)
    requires |sep| > 0
    ensures |r| >= 1
    decreases |s|
  {
    match FindFrom(s, sep, 0)
    case None => [s]
    case Some(k) => [s[..k]] + Split(s[k + |sep|..], sep)
  }

  /** `sep.join(parts)`. */
  function Join(parts: seq<string>, sep: string): string {
    if parts == [] then ""
    else if |parts| == 1 then parts[0]
    else parts[0] + sep + Join(parts[1..], sep)
  }

  /** Joining the pieces of a split gives back the text. */
  lemma {:induction false} SplitJoin(s: string, sep: string)
    requires |sep| > 0
    ensures Join(Split(s, sep), sep) == s
    decreases |s|
  {
    match FindFrom(s, sep, 0)
    case None =>
    case Some(k) =>
      var rest := s[k + |sep|..];
      var tail := Split(rest, sep);
      SplitJoin(rest, sep);
      assert Split(s, sep) == [s[..k]] + tail;
      assert ([s[..k]] + tail)[1..] == tail;
      assert Join([s[..k]] + tail, sep) == s[..k] + sep + Join(tail, sep);
      assert s == s[..k] + sep + rest;
  }

  /** No piece of a split contains the separator. */
  lemma {:induction false} SplitPiecesFree(s: string, sep: string)
    requires |sep| > 0
    ensures forall k :: 0 <= k < |Split(s, sep)| ==> !Contains(Split(s, sep)[k], sep)
    decreases |s|
  {
    match FindFrom(s, sep, 0)
    case None =>
      forall j | 0 <= j <= |s| ensures !OccursAt(s, sep, j) { }
    case Some(k) =>
      var rest := s[k + |sep|..];
      SplitPiecesFree(rest, sep);
      var head := s[..k];
      forall j | 0 <= j <= |head| ensures OccursAt(head, sep, j) ==> OccursAt(s, sep, j) {
        if j + |sep| <= |head| {
          assert head[j..j + |sep|] == s[..k][j..j + |sep|] == s[j..j + |sep|];
        }
      }
      assert Split(s, sep) == [head] + Split(rest, sep);
  }

  /** Each cut is at the leftmost occurrence: in every piece but the last,
      followed by the separator, the separator first occurs right after
      the piece. */
  lemma {:induction false} SplitLeftmost(s: string, sep: string)
    requires |sep| > 0
    ensures forall k, j :: 0 <= k < |Split(s, sep)| - 1 && 0 <= j < |Split(s, sep)[k]| ==>
              !OccursAt(Split(s, sep)[k] + sep, sep, j)
    decreases |s|
  {
    match FindFrom(s, sep, 0)
    case None =>
    case Some(i) =>
      var rest := s[i + |sep|..];
      SplitLeftmost(rest, sep);
      FirstPieceLeftmost(s, sep, i);
      var r, tail := Split(s, sep), Split(rest, sep);
      assert r == [s[..i]] + tail;
      forall k, j | 1 <= k < |r| - 1 && 0 <= j < |r[k]| ensures !OccursAt(r[k] + sep, sep, j) {
        assert r[k] == tail[k - 1];
      }
  }

  /** The piece before the leftmost occurrence at `i`, followed by the
      separator, holds no earlier occurrence. */
  lemma FirstPieceLeftmost(s: string, sep: string, i: nat)
    requires |sep| > 0 && FindFrom(s, sep, 0) == Some(i)
    ensures forall j :: 0 <= j < i ==> !OccursAt(s[..i] + sep, sep, j)
  {
    var t := s[..i] + sep;
    assert t == s[..i + |sep|];
    forall j | 0 <= j < i ensures !OccursAt(t, sep, j) {
      assert !OccursAt(s, sep, j);
      if j + |sep| <= |t| {
        assert t[j..j + |sep|] == s[j..j + |sep|];
      }
    }
  }
}
