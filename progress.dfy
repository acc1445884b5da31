/** The arithmetic of xspfgen.py's progress report: `format_time`, the
    counter width `lm`, the percentage split into tens and units, and the
    text of one progress line up to the timing fields. */
module Progress {
  import opened PyStr

  /** Python's `a // b` for a positive divisor: the quotient rounded
      towards minus infinity, for a negative dividend too. */
  function FloorDiv(a: int, b: int): int
    requires b > 0
    decreases if a < 0 then 1 else 0, if a < 0 then -a else a
  {
    if a < 0 then FloorDiv(a + b, b) - 1
    else if a < b then 0
    else FloorDiv(a - b, b) + 1
  }

  /** `a // b` is the largest multiple of `b` that does not exceed `a`. */
  lemma {:induction false} FloorDivSpec(a: int, b: int)
    requires b > 0
    ensures FloorDiv(a, b) * b <= a < FloorDiv(a, b) * b + b
    decreases if a < 0 then 1 else 0, if a < 0 then -a else a
  {
    if a < 0 {
      FloorDivSpec(a + b, b);
      var q := FloorDiv(a + b, b);
      assert (q - 1) * b == q * b - b;
    } else if a >= b {
      FloorDivSpec(a - b, b);
      var q := FloorDiv(a - b, b);
      assert (q + 1) * b == q * b + b;
    }
  }

  /** Python's `divmod(a, b)` for a positive divisor: the floor quotient and
      the remainder, which then lies in `0..b-1`. */
  function DivMod(a: int, b: int): (int, int)
    requires b > 0
  {
    var q := FloorDiv(a, b);
    (q, a - q * b)
  }

  /** The quotient and remainder recompose the dividend, and the remainder
      lies between zero and the divisor. */
  lemma DivModSpec(a: int, b: int)
    requires b > 0
    ensures var (q, r) := DivMod(a, b);
            q * b + r == a && 0 <= r < b
  {
    FloorDivSpec(a, b);
  }

  // ---------------------------------------------------------------------
  // format_time
  // ---------------------------------------------------------------------

  /** `format_time(seconds)`: `f"{minute:>2}min {second:02d}s"` where
      `minute, second = divmod(seconds, 60)`. */
  function FormatTime(seconds: int): string {
    var minuteSecond := DivMod(seconds, 60);
    Clock(minuteSecond.0, minuteSecond.1)
  }

  /** The text `format_time` writes for a minute and a second count. */
  function Clock(minute: int, second: int): string {
    PadLeft(IntStr(minute), 2, ' ') + "min " + PadLeft(IntStr(second), 2, '0') + "s"
  }

  /** Drops the spaces that right alignment put in front of a field. */
  function TrimLeadingSpaces(s: string): string {
    if s != [] && s[0] == ' ' then TrimLeadingSpaces(s[1..]) else s
  }

  /** Reads a `format_time` text back: a right-aligned minute count, then
      `min `, two second digits and `s`. */
  function ParseTime(t: string): Option<int> {
    if |t| < 9 then None
    else ParseTimeFields(t[..|t| - 7], t[|t| - 7..])
  }

  function ParseTimeFields(m: string, tail: string): Option<int>
    requires |tail| == 7
  {
    var sec := tail[4..6];
    if tail[0] != 'm' || tail[1] != 'i' || tail[2] != 'n' || tail[3] != ' ' || tail[6] != 's'
       || !AllDigits(sec) then None
    else match ParseInt(TrimLeadingSpaces(m))
      case None => None
      case Some(minute) => Some(minute * 60 + DigitsValue(sec))
  }

  /** `format_time` splits its argument into minutes and seconds with the
      seconds in `0..59`, for negative arguments too. */
  lemma FormatTimeSplit(seconds: int)
    ensures var (minute, second) := DivMod(seconds, 60);
            minute * 60 + second == seconds && 0 <= second < 60
  {
    DivModSpec(seconds, 60);
  }

  lemma {:induction false} TrimPadded(z: nat, s: string)
    requires s != [] && s[0] != ' '
    ensures TrimLeadingSpaces(Repeat(' ', z) + s) == s
    decreases z
  {
    if z > 0 {
      RepeatFront(' ', z);
      var rest := Repeat(' ', z - 1) + s;
      var t := [' '] + rest;
      assert Repeat(' ', z) + s == t;
      assert t[0] == ' ' && t[1..] == rest;
      TrimPadded(z - 1, s);
    } else {
      assert Repeat(' ', z) + s == s;
    }
  }

  /** The seconds field of `format_time` is always two digits. */
  lemma SecondsField(second: int)
    requires 0 <= second < 60
    ensures |PadLeft(IntStr(second), 2, '0')| == 2
    ensures AllDigits(PadLeft(IntStr(second), 2, '0'))
    ensures DigitsValue(PadLeft(IntStr(second), 2, '0')) == second
  {
    NatStrLengthMonotone(second, 99);
    LeadingZerosValue(2 - |NatStr(second)|, NatStr(second));
    NatStrValue(second);
  }

  /** How `ParseTime` reads a text assembled like `format_time`'s. */
  lemma ParseTimeParts(m: string, sec: string, minute: int, total: int)
    requires |m| >= 2 && |sec| == 2 && AllDigits(sec) && minute * 60 + DigitsValue(sec) == total
    requires ParseInt(TrimLeadingSpaces(m)) == Some(minute)
    ensures ParseTime(m + "min " + sec + "s") == Some(total)
  {
    TailFields(m, sec, minute, total);
    ParseTimeSplit(m, "min " + sec + "s");
    Concat3(m, "min ", sec, "s");
  }

  lemma Concat3(a: string, b: string, c: string, d: string)
    ensures a + b + c + d == a + (b + c + d)
  {
  }

  lemma TailFields(m: string, sec: string, minute: int, total: int)
    requires |sec| == 2 && AllDigits(sec) && minute * 60 + DigitsValue(sec) == total
    requires ParseInt(TrimLeadingSpaces(m)) == Some(minute)
    ensures |"min " + sec + "s"| == 7
    ensures ParseTimeFields(m, "min " + sec + "s") == Some(total)
  {
    var tail := "min " + sec + "s";
    assert tail[4..6] == sec;
  }

  lemma ParseTimeSplit(m: string, tail: string)
    requires |m| >= 2 && |tail| == 7
    ensures ParseTime(m + tail) == ParseTimeFields(m, tail)
  {
    var t := m + tail;
    assert t[..|t| - 7] == m;
    assert t[|t| - 7..] == tail;
  }

  /** The right-aligned minute field reads back as the minute count. */
  lemma MinuteField(minute: int)
    ensures |PadLeft(IntStr(minute), 2, ' ')| >= 2
    ensures ParseInt(TrimLeadingSpaces(PadLeft(IntStr(minute), 2, ' '))) == Some(minute)
  {
    var digits := IntStr(minute);
    assert digits[0] != ' ';
    var z := if |digits| >= 2 then 0 else 2 - |digits|;
    assert Repeat(' ', 2 - |digits|) == Repeat(' ', z);
    assert PadLeft(digits, 2, ' ') == Repeat(' ', z) + digits;
    TrimPadded(z, digits);
    IntStrRoundTrip(minute);
  }

  /** `format_time` loses nothing: its text determines its argument. */
  lemma FormatTimeRoundTrip(seconds: int)
    ensures ParseTime(FormatTime(seconds)) == Some(seconds)
  {
    var qr := DivMod(seconds, 60);
    DivModSpec(seconds, 60);
    ClockRoundTrip(qr.0, qr.1, seconds);
    assert FormatTime(seconds) == Clock(qr.0, qr.1);
  }

  /** The clock text of a minute count and a second count in `0..59` reads
      back as the total number of seconds. */
  lemma ClockRoundTrip(minute: int, second: int, total: int)
    requires 0 <= second < 60 && minute * 60 + second == total
    ensures ParseTime(Clock(minute, second)) == Some(total)
  {
    SecondsField(second);
    MinuteField(minute);
    ParseTimeParts(PadLeft(IntStr(minute), 2, ' '), PadLeft(IntStr(second), 2, '0'), minute, total);
  }

  /** The clock text field by field: the right-aligned minute field, which
      reads back as `minute`, then `min `, then two digits whose value is
      `second`, then `s`. */
  lemma ClockFields(minute: int, second: int)
    requires 0 <= second < 60
    ensures var t := Clock(minute, second);
            |t| >= 9 && t[|t| - 7..|t| - 3] == "min " && t[|t| - 1] == 's'
            && AllDigits(t[|t| - 3..|t| - 1]) && DigitsValue(t[|t| - 3..|t| - 1]) == second
            && ParseInt(TrimLeadingSpaces(t[..|t| - 7])) == Some(minute)
  {
    var m, sec := PadLeft(IntStr(minute), 2, ' '), PadLeft(IntStr(second), 2, '0');
    SecondsField(second);
    MinuteField(minute);
    var t := Clock(minute, second);
    assert t == m + "min " + sec + "s";
    assert t[..|t| - 7] == m;
    assert t[|t| - 7..|t| - 3] == "min ";
    assert t[|t| - 3..|t| - 1] == sec;
  }

  /** For `0 <= seconds < 6000` (under 100 minutes) the text is exactly nine
      characters; beyond that the minute field widens. */
  lemma FormatTimeWidth(seconds: int)
    ensures var (minute, _) := DivMod(seconds, 60);
            |FormatTime(seconds)| == (if |IntStr(minute)| < 2 then 2 else |IntStr(minute)|) + 7
    ensures 0 <= seconds < 6000 ==> |FormatTime(seconds)| == 9
  {
    var qr := DivMod(seconds, 60);
    DivModSpec(seconds, 60);
    ClockWidth(qr.0, qr.1);
    assert FormatTime(seconds) == Clock(qr.0, qr.1);
    if 0 <= seconds < 6000 {
      assert 0 <= qr.0 < 100;
      NatStrLengthMonotone(qr.0, 99);
    }
  }

  lemma ClockWidth(minute: int, second: int)
    requires 0 <= second < 60
    ensures |Clock(minute, second)| == (if |IntStr(minute)| < 2 then 2 else |IntStr(minute)|) + 7
  {
    SecondsField(second);
  }

  // ---------------------------------------------------------------------
  // The counter width lm
  // ---------------------------------------------------------------------

  /** `lm = int(log10(toal) + 1)`: the number of decimal digits of `toal`;
      `None` stands for the ValueError ("math domain error") of `log10(0)`. */
  function DigitWidth(toal: nat): (lm: Option<nat>)
    ensures toal == 0 <==> lm.None?
    ensures lm.Some? ==> lm.value >= 1 && Pow10(lm.value - 1) <= toal < Pow10(lm.value)
  {
    if toal == 0 then None
    else
      NatStrLength(toal);
      Some(|NatStr(toal)|)
  }

  /** The counter `f"{i:>{lm}}"` is `lm` characters wide for every `i` from
      1 to `toal`. */
  lemma CounterWidth(i: nat, toal: nat)
    requires 1 <= i <= toal
    ensures |PadLeft(IntStr(i), DigitWidth(toal).value, ' ')| == DigitWidth(toal).value
  {
    NatStrLengthMonotone(i, toal);
  }

  // ---------------------------------------------------------------------
  // The bar
  // ---------------------------------------------------------------------

  /** `(i * 100) // toal`; the total is positive by the time a line is
      printed. */
  function Percent(i: int, toal: int): int
    requires toal > 0
  {
    FloorDiv(i * 100, toal)
  }

  /** `shiwei, gewei = divmod((i * 100) // toal, 10)`. */
  function BarDigits(i: int, toal: int): (int, int)
    requires toal > 0
  {
    DivMod(Percent(i, toal), 10)
  }

  /** `"#" * shiwei + str(gewei) + " " * (9 - shiwei)`. */
  function BarField(i: int, toal: int): string
    requires toal > 0
  {
    var (shiwei, gewei) := BarDigits(i, toal);
    Repeat('#', shiwei) + IntStr(gewei) + Repeat(' ', 9 - shiwei)
  }

  /** The progress line up to the two timing fields:
      `f"  {i:>{lm}}/{toal} |"`, then the bar, then `"| "`. */
  function ProgressLine(i: int, toal: int, lm: int): string
    requires toal > 0
  {
    "  " + PadLeft(IntStr(i), lm, ' ') + "/" + IntStr(toal) + " |" + BarField(i, toal) + "| "
  }

  /** The progress lines printed after tracks `1..n`, in order. */
  function ProgressLines(n: nat, toal: int, lm: int): (ls: seq<string>)
    requires toal > 0
    ensures |ls| == n
  {
    Tabulate(n, i => ProgressLine(i, toal, lm))
  }

  /** `[f(1), ..., f(n)]`. */
  function Tabulate<T>(n: nat, f: int -> T): (s: seq<T>)
    ensures |s| == n
  {
    if n == 0 then [] else Tabulate(n - 1, f) + [f(n)]
  }

  lemma {:induction false} TabulateAt<T>(n: nat, f: int -> T, k: nat)
    requires k < n
    ensures Tabulate(n, f)[k] == f(k + 1)
  {
    if k < n - 1 {
      TabulateAt(n - 1, f, k);
    }
  }

  /** The `k`-th line printed is the line for track `k + 1`. */
  lemma ProgressLinesAt(n: nat, toal: int, lm: int, k: nat)
    requires toal > 0 && k < n
    ensures ProgressLines(n, toal, lm)[k] == ProgressLine(k + 1, toal, lm)
  {
    TabulateAt(n, i => ProgressLine(i, toal, lm), k);
  }

  /** Printing the line of track `n + 1` extends the lines printed so far. */
  lemma ProgressLinesSnoc(n: nat, toal: int, lm: int)
    requires toal > 0
    ensures ProgressLines(n + 1, toal, lm) == ProgressLines(n, toal, lm) + [ProgressLine(n + 1, toal, lm)]
  {
  }

  /** While `1 <= i <= toal` the percentage is in `0..100`, and it is 100
      exactly at `i == toal`. */
  lemma PercentBounds(i: int, toal: int)
    requires 1 <= i <= toal
    ensures 0 <= Percent(i, toal) <= 100
    ensures Percent(i, toal) == 100 <==> i == toal
  {
    FloorDivSpec(i * 100, toal);
    var p := Percent(i, toal);
    var r := i * 100 - p * toal;
    var hundred := i * 100;
    assert p * toal + r == hundred;
    assert hundred <= 100 * toal;
    FactorLe(p, 100, toal);
    assert (-1) * toal < p * toal;
    FactorLe(-1, p - 1, toal);
    if i < toal {
      assert hundred <= 100 * toal - 100;
      assert p * toal < (99 + 1) * toal;
      FactorLe(p, 99, toal);
    } else {
      assert 100 * toal < (p + 1) * toal;
      FactorLe(100, p, toal);
    }
  }

  /** While `1 <= i <= toal` the tens digit is in `0..10`, the units digit
      in `0..9`, and they recompose the percentage; the tens digit reaches
      10 only at `i == toal`. */
  lemma BarDigitsBounds(i: int, toal: int)
    requires 1 <= i <= toal
    ensures var (shiwei, gewei) := BarDigits(i, toal);
            0 <= shiwei <= 10 && 0 <= gewei <= 9 && shiwei * 10 + gewei == Percent(i, toal)
            && (shiwei == 10 <==> i == toal)
  {
    PercentBounds(i, toal);
    DivModSpec(Percent(i, toal), 10);
  }

  /** Multiplying by a positive factor preserves strict order. */
  lemma FactorLe(a: int, b: int, c: int)
    requires c > 0
    ensures a * c <= b * c ==> a <= b
    ensures a * c < (b + 1) * c ==> a <= b
  {
    if a > b {
      MulAtLeast(a - b, c);
      assert a * c == b * c + (a - b) * c;
      assert (b + 1) * c == b * c + c;
    }
  }

  /** A positive multiple of `c` is at least `c`. */
  lemma {:induction false} MulAtLeast(x: int, c: int)
    requires x >= 1 && c > 0
    ensures x * c >= c
    decreases x
  {
    if x > 1 {
      MulAtLeast(x - 1, c);
      assert x * c == (x - 1) * c + c;
    }
  }

  /** The percentage never goes down as the counter grows. */
  lemma PercentMonotone(i: int, j: int, toal: int)
    requires toal > 0 && i <= j
    ensures Percent(i, toal) <= Percent(j, toal)
  {
    FloorDivSpec(i * 100, toal);
    FloorDivSpec(j * 100, toal);
    var p, q := Percent(i, toal), Percent(j, toal);
    assert (q + 1) * toal == q * toal + toal;
    assert p * toal < (q + 1) * toal;
    FactorLe(p, q, toal);
  }

  /** The bar is ten characters wide up to the last track, and
      `##########0`, eleven wide, at `i == toal`, because `" " * -1` is empty. */
  lemma BarFieldWidth(i: int, toal: int)
    requires 1 <= i <= toal
    ensures |BarField(i, toal)| == if i == toal then 11 else 10
    ensures i == toal ==> BarField(i, toal) == "##########0"
  {
    BarDigitsBounds(i, toal);
    PercentBounds(i, toal);
    var (shiwei, gewei) := BarDigits(i, toal);
    assert |IntStr(gewei)| == 1;
    if i == toal {
      assert shiwei == 10 && gewei == 0;
      assert IntStr(0) == "0";
      assert Repeat('#', 10) == "##########";
    }
  }

  /** Every progress line of a run has the same width, `2 * lm + 17`, except
      the last, which is one wider. */
  lemma ProgressLineWidth(i: nat, toal: nat)
    requires 1 <= i <= toal
    ensures var lm := DigitWidth(toal).value;
            |ProgressLine(i, toal, lm)| == 2 * lm + (if i == toal then 18 else 17)
  {
    CounterWidth(i, toal);
    BarFieldWidth(i, toal);
  }
}
