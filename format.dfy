/**
 * `padStart` and `formatTime` of `src/utils/index.ts` (the copies in
 * `src/utils/utils.ts` are the same code), for integer inputs.
 */
module Format {
  import opened Js

  /** `Array(n).join(z)`: `n` empty strings separated by `z`. */
  function Join(n: nat, z: string): (r: string)
    ensures n <= 1 ==> r == ""
  {
    if n <= 1 then "" else Join(n - 1, z) + z
  }

  /** `k` copies of the character `c`. */
  function Repeat(c: char, k: nat): (r: string)
    ensures |r| == k && forall i :: 0 <= i < k ==> r[i] == c
  {
    seq(k, _ => c)
  }

  lemma {:induction false} JoinOneChar(n: nat, c: char)
    requires n >= 1
    ensures Join(n, [c]) == Repeat(c, n - 1)
  {
    if n > 1 {
      JoinOneChar(n - 1, c);
    }
  }

  lemma {:induction false} JoinLength(n: nat, z: string)
    requires n >= 1
    ensures |Join(n, z)| == (n - 1) * |z|
  {
    if n > 1 {
      JoinLength(n - 1, z);
    }
  }

  /** `t.slice(start)`: a negative start counts from the end and is clamped at 0. */
  function Slice(t: string, start: int): (r: string)
    ensures start < 0 && -start <= |t| ==> r == t[|t| + start..]
    ensures start < 0 && -start > |t| ==> r == t
    ensures start == 0 ==> r == t
  {
    var from := if start < 0 then (if |t| + start < 0 then 0 else |t| + start)
                else (if start > |t| then |t| else start);
    t[from..]
  }

  /**
   * `padStart(str, num, z)`: `num - 1` copies of `z`, then `str`, cut to the
   * last `num` characters by `slice(-num)`; `slice(-0)` keeps everything.
   */
  function PadStart(s: string, num: nat, z: string): (r: string)
    ensures num == 0 ==> r == s
    ensures num > 0 ==> |r| == if |Join(num, z)| + |s| < num then |Join(num, z)| + |s| else num
    // the result is a suffix of the filler followed by `s`
    ensures |r| <= |s| ==> r == s[|s| - |r|..]
    ensures |r| >= |s| ==> r[|r| - |s|..] == s
  {
    Slice(Join(num, z) + s, -(num as int))
  }

  /** With `num = 0` the string comes back unchanged. */
  lemma PadStartZero(s: string, z: string)
    ensures PadStart(s, 0, z) == s
  {
  }

  /** A string at least `num` long is cut to its last `num` characters, whatever the filler. */
  lemma PadStartTruncates(s: string, num: nat, z: string)
    requires 1 <= num <= |s|
    ensures PadStart(s, num, z) == s[|s| - num..]
  {
    var t := Join(num, z) + s;
    JoinLength(num, z);
    assert |t| >= num;
    assert t[|t| - num..] == s[|s| - num..];
  }

  /**
   * With a one-character filler, a non-empty string shorter than `num` is
   * padded on the left to exactly `num` characters.
   */
  lemma PadStartPads(s: string, num: nat, c: char)
    requires 1 <= |s| <= num
    ensures PadStart(s, num, [c]) == Repeat(c, num - |s|) + s
    ensures |PadStart(s, num, [c])| == num
  {
    JoinOneChar(num, c);
    var t := Repeat(c, num - 1) + s;
    assert |t| >= num;
    assert t[|t| - num..] == Repeat(c, num - |s|) + s;
  }

  /** The empty string is padded to one character short of `num`. */
  lemma PadStartEmptyString(num: nat, c: char)
    requires num >= 1
    ensures PadStart("", num, [c]) == Repeat(c, num - 1)
  {
    JoinOneChar(num, c);
    assert Join(num, [c]) + "" == Repeat(c, num - 1);
  }

  /** `~~x` on an integral number: ToInt32, wrapping modulo 2^32 into the signed range. */
  function ToInt32(x: int): (r: int)
    ensures -0x8000_0000 <= r < 0x8000_0000
    ensures -0x8000_0000 <= x < 0x8000_0000 ==> r == x
  {
    var m := x % 0x1_0000_0000;
    if m >= 0x8000_0000 then m - 0x1_0000_0000 else m
  }

  /** JavaScript's `%`: the remainder takes the sign of the dividend. */
  function JsRem(a: int, b: int): (r: int)
    requires b != 0
    ensures a >= 0 && b > 0 ==> r == a % b
  {
    var m := (if a < 0 then -a else a) % (if b < 0 then -b else b);
    if a < 0 then -m else m
  }

  /** Two decimal digits of an integer, as `padStart(n, 2, 0)` prints it. */
  function Field(n: int): (r: string)
    ensures |r| == 2
  {
    PadStart(NumToString(n), 2, "0")
  }

  /** Three two-character fields joined by colons. */
  lemma ClockShape(a: string, b: string, c: string)
    requires |a| == 2 && |b| == 2 && |c| == 2
    ensures var r := a + ":" + b + ":" + c; |r| == 8 && r[2] == ':' && r[5] == ':'
  {
  }

  /** `formatTime(times)` for a non-negative integer number of seconds. */
  function FormatTime(t: nat): (r: string)
    ensures |r| == 8 && r[2] == ':' && r[5] == ':'
  {
    var h, m, s := Field(ToInt32(t / 3600)), Field(JsRem(ToInt32(t / 60), 60)), Field(ToInt32(t % 60));
    ClockShape(h, m, s);
    h + ":" + m + ":" + s
  }

  /** A non-negative field is printed as its last two decimal digits. */
  lemma TwoDigits(n: nat)
    ensures Field(n) == [DigitChar((n / 10) % 10), DigitChar(n % 10)]
  {
    var d := Digits(n);
    assert Join(2, "0") == "0";
    var t := "0" + d;
    assert Field(n) == t[|t| - 2..];
    if n < 10 {
      assert n / 10 == 0 && n % 10 == n;
      assert d == [DigitChar(n)];
      assert t == [DigitChar(0), DigitChar(n)];
    } else {
      var q := Digits(n / 10);
      assert d == q + [DigitChar(n % 10)];
      assert q[|q| - 1] == DigitChar((n / 10) % 10);
      assert t[|t| - 2] == q[|q| - 1];
    }
  }

  /** The number a two-digit field reads as. */
  function FieldValue(f: string): (v: nat)
    requires |f| == 2 && IsDigit(f[0]) && IsDigit(f[1])
    ensures v < 100
  {
    10 * DigitValue(f[0]) + DigitValue(f[1])
  }

  /** A printed field is two digits that read back as the value modulo 100. */
  lemma FieldReadsBack(n: nat)
    ensures |Field(n)| == 2 && IsDigit(Field(n)[0]) && IsDigit(Field(n)[1])
    ensures FieldValue(Field(n)) == n % 100
  {
    TwoDigits(n);
    var q := n / 10;
    assert DigitValue(DigitChar(q % 10)) == q % 10;
    assert DigitValue(DigitChar(n % 10)) == n % 10;
    assert n == 10 * q + n % 10;
    assert q == 10 * (q / 10) + q % 10;
    assert q / 10 == n / 100;
    assert n == 100 * (n / 100) + 10 * (q % 10) + n % 10;
  }

  /** Below 100 a printed field reads back as the value itself. */
  lemma FieldReadsBackBelow100(n: nat)
    requires n < 100
    ensures |Field(n)| == 2 && IsDigit(Field(n)[0]) && IsDigit(Field(n)[1])
    ensures FieldValue(Field(n)) == n
  {
    FieldReadsBack(n);
  }

  /** Eight characters `HH:MM:SS`: digits around two colons. */
  predicate ClockShaped(r: string) {
    && |r| == 8 && r[2] == ':' && r[5] == ':'
    && forall i :: 0 <= i < 8 && i != 2 && i != 5 ==> IsDigit(r[i])
  }

  /** The numbers the three fields of a clock read as. */
  function Hours(r: string): (v: nat)
    requires ClockShaped(r)
    ensures v < 100
  {
    assert IsDigit(r[0]) && IsDigit(r[1]);
    FieldValue(r[0..2])
  }

  function Minutes(r: string): (v: nat)
    requires ClockShaped(r)
    ensures v < 100
  {
    assert IsDigit(r[3]) && IsDigit(r[4]);
    FieldValue(r[3..5])
  }

  function Seconds(r: string): (v: nat)
    requires ClockShaped(r)
    ensures v < 100
  {
    assert IsDigit(r[6]) && IsDigit(r[7]);
    FieldValue(r[6..8])
  }

  /** The clock a formatted time reads back as: the inverse of `FormatTime`. */
  function ParseClock(r: string): int
    requires ClockShaped(r)
  {
    Hours(r) * 3600 + Minutes(r) * 60 + Seconds(r)
  }

  /** Hours, minutes and seconds recompose the time. */
  lemma ClockArithmetic(t: nat)
    ensures t == (t / 3600) * 3600 + ((t / 60) % 60) * 60 + t % 60
    ensures (t / 60) / 60 == t / 3600
  {
    var q := t / 60;
    assert t == 60 * q + t % 60;
    assert q == 60 * (q / 60) + q % 60;
    assert q / 60 == t / 3600;
  }

  /** In the int32 range the truncations of `formatTime` are plain integer division. */
  lemma FormatTimeFields(t: nat)
    requires t < 0x8000_0000
    ensures FormatTime(t) == Field(t / 3600) + ":" + Field((t / 60) % 60) + ":" + Field(t % 60)
  {
    assert ToInt32(t / 3600) == t / 3600;
    assert ToInt32(t / 60) == t / 60;
    assert JsRem(t / 60, 60) == (t / 60) % 60;
    assert ToInt32(t % 60) == t % 60;
  }

  /** The layout `A:B:C` of three two-digit fields, and the time `ParseClock` reads from it. */
  lemma ClockLayout(a: string, b: string, c: string)
    requires |a| == 2 && |b| == 2 && |c| == 2
    requires IsDigit(a[0]) && IsDigit(a[1]) && IsDigit(b[0]) && IsDigit(b[1]) && IsDigit(c[0]) && IsDigit(c[1])
    ensures var r := a + ":" + b + ":" + c;
            && ClockShaped(r)
            && Hours(r) == FieldValue(a) && Minutes(r) == FieldValue(b) && Seconds(r) == FieldValue(c)
  {
    var r := a + ":" + b + ":" + c;
    assert r[0..2] == a && r[3..5] == b && r[6..8] == c;
  }

  /** A clock of two-digit fields reads back to the seconds it stands for. */
  lemma ClockOfFields(h: nat, m: nat, s: nat)
    requires h < 100 && m < 60 && s < 60
    ensures var r := Field(h) + ":" + Field(m) + ":" + Field(s);
            && ClockShaped(r) && Minutes(r) == m && Seconds(r) == s
            && ParseClock(r) == h * 3600 + m * 60 + s
  {
    FieldReadsBackBelow100(h);
    FieldReadsBackBelow100(m);
    FieldReadsBackBelow100(s);
    ClockLayout(Field(h), Field(m), Field(s));
  }

  /**
   * Below 100 hours the result is `HH:MM:SS`: eight characters, two colons,
   * minutes and seconds under 60, and the three fields read back to `t`.
   */
  lemma FormatTimeRoundTrip(t: nat)
    requires t < 360000
    ensures var r := FormatTime(t);
            && ClockShaped(r) && Minutes(r) < 60 && Seconds(r) < 60
            && ParseClock(r) == t
  {
    FormatTimeFields(t);
    ClockArithmetic(t);
    ClockOfFields(t / 3600, (t / 60) % 60, t % 60);
  }

  /** From 100 hours on, the hour field shows the hour modulo 100; minutes and seconds stay exact. */
  lemma FormatTimeHourWraps(t: nat)
    requires 360000 <= t < 0x8000_0000
    ensures var r := FormatTime(t);
            && ClockShaped(r)
            && Hours(r) == (t / 3600) % 100 && Minutes(r) == (t / 60) % 60 && Seconds(r) == t % 60
  {
    var h, m, s := t / 3600, (t / 60) % 60, t % 60;
    FormatTimeFields(t);
    FieldReadsBack(h);
    FieldReadsBackBelow100(m);
    FieldReadsBackBelow100(s);
    ClockLayout(Field(h), Field(m), Field(s));
  }
}
