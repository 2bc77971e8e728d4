/** `Util.msToTimeSpan`: a duration in milliseconds rendered in the C# time
    span format `[d.]hh:mm:ss.fff`. */
module TimeSpan {

  import opened Wrappers
  import opened Decimal
  import opened Text

  const MsPerSecond: nat := 1000
  const MsPerMinute: nat := 60_000
  const MsPerHour: nat := 3_600_000
  const MsPerDay: nat := 86_400_000

  /** The duration, in milliseconds, of a day count and clock fields. */
  function Millis(d: nat, h: nat, m: nat, s: nat, f: nat): nat {
    d * MsPerDay + h * MsPerHour + m * MsPerMinute + s * MsPerSecond + f
  }

  /** `x.length < 2 ? "0" + x : x`. */
  function PadTwo(s: string): string {
    if |s| < 2 then "0" + s else s
  }

  /** `x.toFixed(7)` for the exact value `whole + frac / 1000`. */
  function ToFixedSeven(whole: nat, frac: nat): string
    requires frac < 1000
  {
    NatToString(whole) + "." + Padded(frac, 3) + "0000"
  }

  /** Number of '0' characters at the end of `s`. */
  function TrailingZeros(s: string): (n: nat)
    ensures n <= |s|
  {
    if |s| > 0 && s[|s| - 1] == '0' then 1 + TrailingZeros(s[..|s| - 1]) else 0
  }

  /** `s.replace(/0{0,4}$/, "")`: the leftmost match is the last
      `min(4, trailing zeros)` characters. */
  function DropFinalZeros(s: string): string {
    var z := if TrailingZeros(s) < 4 then TrailingZeros(s) else 4;
    s[..|s| - z]
  }

  /** The seconds field: `((ms / 1000) % 60).toFixed(7)` with up to four
      trailing zeros removed, then padded to two integer digits. */
  function SecondsText(ms: nat): string {
    var sec := DropFinalZeros(ToFixedSeven((ms / MsPerSecond) % 60, ms % MsPerSecond));
    if IndexOf(sec, '.') < 2 then "0" + sec else sec
  }

  /** `Util.msToTimeSpan(totalms)` for integer milliseconds: negative input
      is read as 0, and the text is the `[d.]hh:mm:ss.fff` layout of the
      duration's fields, from which the duration can be read back. */
  function MsToTimeSpan(totalms: int): (r: string)
    ensures var ms: nat := if totalms < 0 then 0 else totalms;
      && r == Layout(ms / MsPerDay, (ms / MsPerHour) % 24, (ms / MsPerMinute) % 60,
                     (ms / MsPerSecond) % 60, ms % MsPerSecond)
      && ParseTimeSpan(r) == Some(ms)
  {
    var ms: nat := if totalms < 0 then 0 else totalms;
    MsToTimeSpanLayout(ms);
    TimeSpanRoundTrip(ms);
    TimeSpanText(ms)
  }

  /** The text `msToTimeSpan` assembles for `ms >= 0`: the seconds through
      `toFixed(7)` and the trailing-zero `replace`, the other fields through
      `"" + x` and the two-digit padding. */
  function TimeSpanText(ms: nat): string
  {
    var sec := SecondsText(ms);
    var min := PadTwo(NatToString((ms / MsPerMinute) % 60));
    var hour := PadTwo(NatToString((ms / MsPerHour) % 24));
    var days := ms / MsPerDay;
    var daysText := if days > 0 then NatToString(days) + "." else "";
    daysText + hour + ":" + min + ":" + sec
  }

  /** The `[d.]hh:mm:ss.fff` text of a duration given by its fields: the day
      count and its `.` only when there are days, every other field
      zero-padded to its width. */
  function Layout(d: nat, h: nat, m: nat, s: nat, f: nat): (text: string)
    requires h < 24 && m < 60 && s < 60 && f < 1000
    ensures |text| >= 12
  {
    (if d > 0 then NatToString(d) + "." else "")
      + Padded(h, 2) + ":" + Padded(m, 2) + ":" + Padded(s, 2) + "." + Padded(f, 3)
  }

  /** The day prefix of a time span: empty, or a positive day count and `.`. */
  function ParseDays(prefix: string): Option<nat> {
    if prefix == [] then Some(0)
    else if prefix[|prefix| - 1] != '.' then None
    else
      match ParseNat(prefix[..|prefix| - 1])
      case Some(d) => if d > 0 then Some(d) else None
      case None => None
  }

  /** Reads a `[d.]hh:mm:ss.fff` time span back into milliseconds. */
  function ParseTimeSpan(text: string): Option<nat> {
    if |text| < 12 then None
    else
      var prefix, clock := text[..|text| - 12], text[|text| - 12..];
      var d := ParseDays(prefix);
      var h, m, s, f := ParseNat(clock[0..2]), ParseNat(clock[3..5]), ParseNat(clock[6..8]), ParseNat(clock[9..12]);
      if && d.Some? && h.Some? && m.Some? && s.Some? && f.Some?
         && clock[2] == ':' && clock[5] == ':' && clock[8] == '.'
         && h.value < 24 && m.value < 60 && s.value < 60
      then Some(Millis(d.value, h.value, m.value, s.value, f.value))
      else None
  }

  lemma PadTwoPadded(n: nat)
    requires n < 100
    ensures PadTwo(NatToString(n)) == Padded(n, 2)
  {
    NatToStringLength(n, 2);
  }

  lemma TrailingZerosOfSuffix(t: string)
    ensures TrailingZeros(t + "0000") >= 4
  {
    var u := t + "0000";
    assert u[..|u| - 1] == t + "000";
    assert (t + "000")[..|u| - 2] == t + "00";
    assert (t + "00")[..|u| - 3] == t + "0";
    assert TrailingZeros(t + "0") >= 1;
    assert TrailingZeros(t + "00") >= 2;
    assert TrailingZeros(t + "000") >= 3;
  }

  lemma SecondsTextLayout(ms: nat)
    ensures var s, f := (ms / MsPerSecond) % 60, ms % MsPerSecond;
      SecondsText(ms) == Padded(s, 2) + "." + Padded(f, 3)
  {
    var s, f := (ms / MsPerSecond) % 60, ms % MsPerSecond;
    var t := NatToString(s) + "." + Padded(f, 3);
    assert ToFixedSeven(s, f) == t + "0000";
    TrailingZerosOfSuffix(t);
    assert DropFinalZeros(t + "0000") == t;
    var dot := |NatToString(s)|;
    assert t[dot] == '.' && '.' !in t[..dot] by {
      assert t[..dot] == NatToString(s);
    }
    assert IndexOf(t, '.') == dot;
  }

  lemma ConcatAssoc(a: string, b: string, c: string)
    ensures a + (b + "." + c) == a + b + "." + c
  {
  }

  /** Days, hours, minutes, seconds and milliseconds recombine to `ms`. */
  lemma Recombine(ms: nat)
    ensures ms == Millis(ms / MsPerDay, (ms / MsPerHour) % 24, (ms / MsPerMinute) % 60,
                         (ms / MsPerSecond) % 60, ms % MsPerSecond)
  {
    var a := ms / 1000;
    var b := a / 60;
    var c := b / 60;
    assert ms == 1000 * a + ms % 1000;
    assert a == 60 * b + a % 60;
    assert b == 60 * c + b % 60;
    assert c == 24 * (c / 24) + c % 24;
    assert b == ms / 60_000;
    assert c == ms / 3_600_000;
    assert c / 24 == ms / 86_400_000;
  }

  /** The time span of `ms` is the `Layout` of its fields: hours below 24,
      minutes and seconds below 60, milliseconds below 1000. */
  lemma MsToTimeSpanLayout(ms: nat)
    ensures TimeSpanText(ms) == Layout(ms / MsPerDay, (ms / MsPerHour) % 24,
        (ms / MsPerMinute) % 60, (ms / MsPerSecond) % 60, ms % MsPerSecond)
  {
    var d, h, m, s, f := ms / MsPerDay, (ms / MsPerHour) % 24,
        (ms / MsPerMinute) % 60, (ms / MsPerSecond) % 60, ms % MsPerSecond;
    var daysText := if d > 0 then NatToString(d) + "." else "";
    PadTwoPadded(h);
    PadTwoPadded(m);
    SecondsTextLayout(ms);
    var head := daysText + Padded(h, 2) + ":" + Padded(m, 2) + ":";
    assert TimeSpanText(ms) == head + SecondsText(ms);
    ConcatAssoc(head, Padded(s, 2), Padded(f, 3));
  }

  /** Where the fields sit in a time span text. */
  lemma LayoutSlices(prefix: string, hh: string, mm: string, ss: string, fff: string)
    requires |hh| == 2 && |mm| == 2 && |ss| == 2 && |fff| == 3
    ensures var text := prefix + hh + ":" + mm + ":" + ss + "." + fff;
      var clock := text[|text| - 12..];
      && |text| >= 12
      && text[..|text| - 12] == prefix
      && clock[0..2] == hh && clock[2] == ':'
      && clock[3..5] == mm && clock[5] == ':'
      && clock[6..8] == ss && clock[8] == '.'
      && clock[9..12] == fff
  {
    var text := prefix + hh + ":" + mm + ":" + ss + "." + fff;
    var clock := hh + ":" + mm + ":" + ss + "." + fff;
    assert text == prefix + clock;
    assert text[|text| - 12..] == clock;
  }

  /** Parsing a time span text whose fields each parse. */
  lemma ParseFields(prefix: string, hh: string, mm: string, ss: string, fff: string,
                    d: nat, h: nat, m: nat, s: nat, f: nat)
    requires |hh| == 2 && |mm| == 2 && |ss| == 2 && |fff| == 3
    requires ParseDays(prefix) == Some(d)
    requires ParseNat(hh) == Some(h) && ParseNat(mm) == Some(m)
    requires ParseNat(ss) == Some(s) && ParseNat(fff) == Some(f)
    requires h < 24 && m < 60 && s < 60
    ensures ParseTimeSpan(prefix + hh + ":" + mm + ":" + ss + "." + fff)
         == Some(Millis(d, h, m, s, f))
  {
    LayoutSlices(prefix, hh, mm, ss, fff);
  }

  /** Parsing undoes `Layout`. */
  lemma ParseLayout(d: nat, h: nat, m: nat, s: nat, f: nat)
    requires h < 24 && m < 60 && s < 60 && f < 1000
    ensures ParseTimeSpan(Layout(d, h, m, s, f))
         == Some(Millis(d, h, m, s, f))
  {
    var prefix := if d > 0 then NatToString(d) + "." else "";
    ParsePadded(h, 2);
    ParsePadded(m, 2);
    ParsePadded(s, 2);
    ParsePadded(f, 3);
    if d > 0 {
      assert prefix[..|prefix| - 1] == NatToString(d);
      ParseNatToString(d);
    }
    ParseFields(prefix, Padded(h, 2), Padded(m, 2), Padded(s, 2), Padded(f, 3), d, h, m, s, f);
  }

  /** Rendering a non-negative duration and reading it back gives the
      duration: the text carries every millisecond. */
  lemma TimeSpanRoundTrip(ms: nat)
    ensures ParseTimeSpan(TimeSpanText(ms)) == Some(ms)
  {
    var d, h, m, s, f := ms / MsPerDay, (ms / MsPerHour) % 24,
        (ms / MsPerMinute) % 60, (ms / MsPerSecond) % 60, ms % MsPerSecond;
    var text := Layout(d, h, m, s, f);
    assert TimeSpanText(ms) == text by { MsToTimeSpanLayout(ms); }
    assert ParseTimeSpan(text) == Some(Millis(d, h, m, s, f)) by {
      ParseLayout(d, h, m, s, f);
    }
    assert Millis(d, h, m, s, f) == ms by { Recombine(ms); }
  }

  /** Negative input is formatted as 0: "00:00:00.000", which reads back as
      the zero duration. */
  lemma NegativeTimeSpan(totalms: int)
    requires totalms <= 0
    ensures MsToTimeSpan(totalms) == "00:00:00.000"
    ensures ParseTimeSpan(MsToTimeSpan(totalms)) == Some(0)
  {
    var z: nat := if totalms < 0 then 0 else totalms;
    assert MsToTimeSpan(totalms) == TimeSpanText(z);
    ZeroTimeSpan(z);
  }

  lemma PaddedZero(width: nat)
    requires 1 <= width
    ensures Padded(0, width) == Zeros(width)
  {
    assert NatToString(0) == "0";
    assert Zeros(width - 1) + "0" == Zeros(width);
  }

  /** Zero milliseconds is "00:00:00.000". The argument is a variable pinned
      to 0 by the precondition, not the literal itself: a call on literal
      arguments is unfolded eagerly by the verifier, which makes the proof
      costly. */
  lemma ZeroTimeSpan(z: nat)
    requires z == 0
    ensures TimeSpanText(z) == "00:00:00.000"
  {
    MsToTimeSpanLayout(z);
    ZeroFields(z);
    LayoutZero(z / MsPerDay, (z / MsPerHour) % 24, (z / MsPerMinute) % 60, (z / MsPerSecond) % 60, z % MsPerSecond);
  }

  /** Every field of 0 ms is 0 (a variable pinned to 0, as in `ZeroTimeSpan`). */
  lemma ZeroFields(z: nat)
    requires z == 0
    ensures z / MsPerDay == 0 && (z / MsPerHour) % 24 == 0 && (z / MsPerMinute) % 60 == 0
    ensures (z / MsPerSecond) % 60 == 0 && z % MsPerSecond == 0
  {
  }

  lemma LayoutZero(d: nat, h: nat, m: nat, s: nat, f: nat)
    requires d == 0 && h == 0 && m == 0 && s == 0 && f == 0
    ensures Layout(d, h, m, s, f) == "00:00:00.000"
  {
    var two, three := Padded(h, 2), Padded(f, 3);
    assert two == Zeros(2) by { PaddedZero(2); }
    assert three == Zeros(3) by { PaddedZero(3); }
    assert Padded(m, 2) == two && Padded(s, 2) == two;
    assert Layout(d, h, m, s, f) == two + ":" + two + ":" + two + "." + three;
  }
}
