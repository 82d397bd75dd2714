/** The `formatTime` helper of the countdown component: whole seconds to an
    `MM:SS` label. The minutes field is `floor(s / 60)` and the seconds field
    `s % 60`, each written in decimal and left-padded with '0' to two
    characters. Padding never truncates, so minutes of 100 or more give a
    wider field. Only non-negative seconds are modelled; for those, the
    JavaScript floor-division and remainder agree with Dafny's `/` and `%`. */
module TimeFormat {

  datatype Option<T> = None | Some(value: T)

  predicate IsDigit(c: char) {
    '0' <= c <= '9'
  }

  predicate AllDigits(s: string) {
    forall i :: 0 <= i < |s| ==> IsDigit(s[i])
  }

  function DigitChar(d: nat): (c: char)
    requires d < 10
    ensures IsDigit(c) && c as int - '0' as int == d
  {
    (d + '0' as int) as char
  }

  function DigitValue(c: char): nat
    requires IsDigit(c)
  {
    c as int - '0' as int
  }

  /** The number a string of decimal digits denotes (most significant first).
      Leading zeros are allowed and add nothing. */
  function ValueOf(s: string): nat
    requires AllDigits(s)
    decreases |s|
  {
    if s == [] then 0 else 10 * ValueOf(s[..|s| - 1]) + DigitValue(s[|s| - 1])
  }

  /** `String(n)` for a non-negative integer: the canonical decimal spelling,
      with no leading zero except for 0 itself. */
  function Decimal(n: nat): (r: string)
    ensures |r| >= 1 && AllDigits(r) && ValueOf(r) == n
    ensures r[0] == '0' ==> n == 0
    ensures |r| == 1 <==> n < 10
  {
    if n < 10 then
      [DigitChar(n)]
    else
      var r := Decimal(n / 10) + [DigitChar(n % 10)];
      assert r[..|r| - 1] == Decimal(n / 10);
      r
  }

  /** `s.padStart(width, fill)` with a one-character fill: prefixes copies of
      `fill` until `s` is `width` long; a string already that long or longer
      is returned as it is. */
  function PadStart(s: string, width: nat, fill: char): (r: string)
    ensures |r| == if |s| < width then width else |s|
    ensures r[|r| - |s|..] == s
    ensures forall i :: 0 <= i < |r| - |s| ==> r[i] == fill
  {
    if |s| >= width then s else seq(width - |s|, _ => fill) + s
  }

  /** One field of the label, `String(n).padStart(2, '0')`: a single digit
      gets one '0' in front, longer spellings are kept whole (see
      `FieldIsPadStart`). */
  function Field(n: nat): (f: string)
    ensures |f| >= 2 && AllDigits(f) && ValueOf(f) == n
    ensures |f| == 2 <==> n < 100
  {
    DecimalAtMostTwoDigits(n);
    if n < 10 then
      var f := ['0', DigitChar(n)];
      assert f[..1] == ['0'];
      f
    else
      Decimal(n)
  }

  /** The label shown for `seconds` remaining. */
  function FormatTime(seconds: nat): (r: string)
    ensures |r| >= 5 && r[|r| - 3] == ':'
    ensures AllDigits(r[..|r| - 3]) && ValueOf(r[..|r| - 3]) == seconds / 60
    ensures AllDigits(r[|r| - 2..]) && ValueOf(r[|r| - 2..]) == seconds % 60
    ensures |r| == 5 <==> seconds < 6000
    ensures |r| > 5 ==> r[0] != '0'
  {
    var minutes, secs := Field(seconds / 60), Field(seconds % 60);
    var r := minutes + ":" + secs;
    assert r[..|r| - 3] == minutes;
    assert r[|r| - 2..] == secs;
    r
  }

  /** Reads an `M...M:SS` label back into seconds: the reference reading of
      what `FormatTime` displays. The seconds field must be two digits below
      60; the minutes field any non-empty run of digits. */
  function ParseTime(t: string): Option<nat> {
    if |t| < 4 || t[|t| - 3] != ':' then None
    else
      var m, s := t[..|t| - 3], t[|t| - 2..];
      if AllDigits(m) && AllDigits(s) && ValueOf(s) < 60
      then Some(ValueOf(m) * 60 + ValueOf(s))
      else None
  }

  /** A string of '0' characters denotes zero. */
  lemma {:induction false} ZerosValue(k: nat)
    ensures AllDigits(seq(k, _ => '0')) && ValueOf(seq(k, _ => '0')) == 0
  {
    var z := seq(k, _ => '0');
    if k > 0 {
      assert z[..k - 1] == seq(k - 1, _ => '0');
      ZerosValue(k - 1);
    }
  }

  /** Leading zeros do not change the value of a digit string. */
  lemma {:induction false} LeadingZerosValue(k: nat, s: string)
    requires AllDigits(s)
    ensures AllDigits(seq(k, _ => '0') + s)
    ensures ValueOf(seq(k, _ => '0') + s) == ValueOf(s)
    decreases |s|
  {
    var z := seq(k, _ => '0');
    var t := z + s;
    if s == [] {
      assert t == z;
      ZerosValue(k);
    } else {
      assert t[..|t| - 1] == z + s[..|s| - 1];
      LeadingZerosValue(k, s[..|s| - 1]);
    }
  }

  /** Padding a digit string with '0' keeps its digits and its value. */
  lemma PaddedValue(s: string, width: nat)
    requires AllDigits(s)
    ensures AllDigits(PadStart(s, width, '0'))
    ensures ValueOf(PadStart(s, width, '0')) == ValueOf(s)
  {
    if |s| < width {
      LeadingZerosValue(width - |s|, s);
    }
  }

  /** The decimal spelling fits a two-character field exactly below 100. */
  lemma DecimalAtMostTwoDigits(n: nat)
    ensures |Decimal(n)| <= 2 <==> n < 100
  {
    if n >= 10 {
      assert Decimal(n) == Decimal(n / 10) + [DigitChar(n % 10)];
    }
  }

  /** `Field` is the decimal spelling padded to width 2 with '0'. */
  lemma FieldIsPadStart(n: nat)
    ensures Field(n) == PadStart(Decimal(n), 2, '0')
  {
  }

  /** The label is `String(s / 60).padStart(2, '0')`, a colon, and
      `String(s % 60).padStart(2, '0')`, character for character. */
  lemma FormatTimeIsPadded(seconds: nat)
    ensures FormatTime(seconds) ==
      PadStart(Decimal(seconds / 60), 2, '0') + ":" + PadStart(Decimal(seconds % 60), 2, '0')
  {
    FieldIsPadStart(seconds / 60);
    FieldIsPadStart(seconds % 60);
  }

  /** Reading the label back gives the seconds it was made from; hence no two
      second counts share a label. */
  lemma ParseFormatTime(seconds: nat)
    ensures ParseTime(FormatTime(seconds)) == Some(seconds)
  {
  }

  lemma FormatTimeInjective(a: nat, b: nat)
    requires FormatTime(a) == FormatTime(b)
    ensures a == b
  {
    ParseFormatTime(a);
    ParseFormatTime(b);
  }

  /** The seconds field is exactly two digits and below 60; the minutes field
      grows past two characters only from 100 minutes on. */
  lemma FormatTimeFields(seconds: nat)
    ensures var r := FormatTime(seconds);
      |r[|r| - 2..]| == 2 && ValueOf(r[|r| - 2..]) < 60
      && (|r[..|r| - 3]| > 2 <==> seconds / 60 >= 100)
  {
  }

  /** Labels at the boundaries of both fields. */
  lemma SampleZero()
    ensures FormatTime(0) == "00:00"
  {
    assert Decimal(0) == "0";
  }

  lemma SampleTwo()
    ensures FormatTime(2) == "00:02"
  {
    assert Decimal(0) == "0";
    assert Decimal(2) == "2";
  }

  lemma Sample59()
    ensures FormatTime(59) == "00:59"
  {
    assert Decimal(0) == "0";
    assert Decimal(59) == "59";
  }

  lemma Sample60()
    ensures FormatTime(60) == "01:00"
  {
    assert Decimal(0) == "0";
    assert Decimal(1) == "1";
  }

  lemma Sample125()
    ensures FormatTime(125) == "02:05"
  {
    assert Decimal(2) == "2";
    assert Decimal(5) == "5";
  }

  lemma Sample6000()
    ensures FormatTime(6000) == "100:00"
  {
    assert Decimal(0) == "0";
    assert Decimal(100) == "100";
  }
}
