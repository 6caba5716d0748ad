/**
 * Rendering of a second count as zero-padded clock text, as the study
 * tracker shows its study time ("hh:mm:ss") and the Pomodoro countdown
 * ("mm:ss"). Each field is the decimal text of an integer, padded on the
 * left with '0' to at least two characters; fields are joined with ':'.
 *
 * The partner of the formatting functions is ParseClock, which splits the
 * text at ':' and reads every field back as a number.
 */
module Clock {
  import opened Wrappers

  const SecondsPerMinute := 60
  const SecondsPerHour := 3600

  predicate IsDigit(c: char) { '0' <= c <= '9' }

  predicate AllDigits(s: string) { forall i :: 0 <= i < |s| ==> IsDigit(s[i]) }

  function DigitChar(d: nat): (c: char)
    requires d < 10
    ensures IsDigit(c)
  {
    (48 + d) as char
  }

  function DigitValue(c: char): (d: nat)
    requires IsDigit(c)
    ensures d < 10
  {
    c as int - 48
  }

  /** Decimal text of n, as toString() gives it for a non-negative integer: no leading zero. */
  function Digits(n: nat): (s: string)
    ensures 1 <= |s| && AllDigits(s)
    ensures |s| == 1 <==> n < 10
    ensures |s| <= 2 <==> n < 100
    ensures |s| > 1 ==> s[0] != '0'
  {
    if n < 10 then [DigitChar(n)]
    else
      var front := Digits(n / 10);
      assert |front| == 1 ==> front[0] == DigitChar(n / 10) != '0';
      front + [DigitChar(n % 10)]
  }

  /** The number a string of decimal digits denotes (leading zeros allowed). */
  function ParseDigits(s: string): nat
    requires AllDigits(s)
  {
    if s == [] then 0 else 10 * ParseDigits(s[..|s| - 1]) + DigitValue(s[|s| - 1])
  }

  /** padStart(width, fill): fill on the left until the text is width long. */
  function PadStart(s: string, width: nat, fill: char): (r: string)
    ensures |r| == if |s| < width then width else |s|
    ensures r[|r| - |s|..] == s
    ensures forall i :: 0 <= i < |r| - |s| ==> r[i] == fill
  {
    if |s| >= width then s
    else
      var padding := seq(width - |s|, _ => fill);
      assert (padding + s)[|padding|..] == s;
      padding + s
  }

  /**
   * The shape of a clock field: all digits, at least two of them, and a
   * leading zero only when exactly two.
   */
  predicate ClockField(f: string)
  {
    AllDigits(f) && |f| >= 2 && (|f| == 2 || f[0] != '0')
  }

  /**
   * One clock field: v.toString().padStart(2, '0'). It is at least two
   * digits, exactly two below 100, has no leading zero beyond those two,
   * and reads back as v.
   */
  function Pad2(v: nat): (r: string)
    ensures AllDigits(r) && ParseDigits(r) == v
    ensures |r| >= 2 && (|r| == 2 <==> v < 100)
    ensures |r| > 2 ==> r[0] != '0'
    ensures ClockField(r)
  {
    var d := Digits(v);
    ParseDigitsOfDigits(v);
    if |d| < 2 then
      LeadingZeroIgnored(d);
      PadStart(d, 2, '0')
    else
      PadStart(d, 2, '0')
  }

  /**
   * formatTime of the Pomodoro panel. The text reads back as the whole
   * minutes and the remaining seconds (below 60) of the count, has two
   * zero-padded fields, and is five characters long below 100 minutes.
   */
  function FormatTime(totalSeconds: nat): (r: string)
    ensures ParseClock(r) == Some([totalSeconds / 60, totalSeconds % 60])
    ensures |Fields(r)| == 2 && forall f | f in Fields(r) :: ClockField(f)
    ensures |r| == 5 <==> totalSeconds < 6000
  {
    var minutes := totalSeconds / SecondsPerMinute;
    var seconds := totalSeconds % SecondsPerMinute;
    ParseJoined(Pad2(minutes), Pad2(seconds));
    Pad2(minutes) + ":" + Pad2(seconds)
  }

  /**
   * formatTimeLong of the study timer (and formatTime of the legacy
   * tracker). The text reads back as hours, minutes and seconds, has three
   * zero-padded fields, and is eight characters long below 100 hours.
   */
  function FormatTimeLong(totalSeconds: nat): (r: string)
    ensures ParseClock(r) == Some([totalSeconds / 3600, (totalSeconds % 3600) / 60, totalSeconds % 60])
    ensures |Fields(r)| == 3 && forall f | f in Fields(r) :: ClockField(f)
    ensures |r| == 8 <==> totalSeconds < 360000
  {
    var hours := totalSeconds / SecondsPerHour;
    var minutes := (totalSeconds % SecondsPerHour) / SecondsPerMinute;
    var seconds := totalSeconds % SecondsPerMinute;
    HmsDecomposition(totalSeconds);
    PaddedHms(hours, minutes, seconds);
    assert hours < 100 <==> totalSeconds < 360000;
    Pad2(hours) + ":" + Pad2(minutes) + ":" + Pad2(seconds)
  }

  /** The ':'-separated fields of s, in order (an empty s has one empty field). */
  function Fields(s: string): (r: seq<string>)
    ensures |r| >= 1
  {
    if s == [] then [[]]
    else
      var rest := Fields(s[1..]);
      if s[0] == ':' then [[]] + rest else [[s[0]] + rest[0]] + rest[1..]
  }

  function ParseFields(fs: seq<string>): Option<seq<int>>
  {
    if fs == [] then Some([])
    else if !AllDigits(fs[0]) then None
    else match ParseFields(fs[1..])
      case None => None
      case Some(vs) => Some([ParseDigits(fs[0])] + vs)
  }

  /** Reads clock text back as its field values; None if a field is not all digits. */
  function ParseClock(s: string): Option<seq<int>>
  {
    ParseFields(Fields(s))
  }

  // ---------------------------------------------------------------------
  // Lemmas

  lemma {:induction false} ParseDigitsOfDigits(n: nat)
    ensures ParseDigits(Digits(n)) == n
  {
    if n >= 10 {
      var s := Digits(n / 10);
      var t := s + [DigitChar(n % 10)];
      assert t[..|t| - 1] == s;
      ParseDigitsOfDigits(n / 10);
    }
  }

  lemma {:induction false} LeadingZeroIgnored(s: string)
    requires AllDigits(s)
    ensures AllDigits("0" + s) && ParseDigits("0" + s) == ParseDigits(s)
  {
    var t := "0" + s;
    assert AllDigits(t) by {
      forall i | 0 <= i < |t| ensures IsDigit(t[i]) {
        if i > 0 { assert t[i] == s[i - 1]; }
      }
    }
    if s != [] {
      assert t[..|t| - 1] == "0" + s[..|s| - 1];
      LeadingZeroIgnored(s[..|s| - 1]);
    }
  }

  lemma {:induction false} FieldsOfDigits(a: string)
    requires AllDigits(a)
    ensures Fields(a) == [a]
  {
    if a != [] {
      assert a[0] != ':';
      FieldsOfDigits(a[1..]);
      assert [a[0]] + a[1..] == a;
    }
  }

  lemma {:induction false} FieldsJoin(a: string, b: string)
    requires AllDigits(a)
    ensures Fields(a + ":" + b) == [a] + Fields(b)
  {
    if a == [] {
      assert a + ":" + b == ":" + b;
      assert (":" + b)[1..] == b;
    } else {
      var ab := a + ":" + b;
      assert ab[0] == a[0] != ':';
      assert ab[1..] == a[1..] + ":" + b;
      FieldsJoin(a[1..], b);
      assert [a[0]] + a[1..] == a;
    }
  }

  lemma ParseFieldsCons(f: string, rest: seq<string>, vs: seq<int>)
    requires AllDigits(f) && ParseFields(rest) == Some(vs)
    ensures ParseFields([f] + rest) == Some([ParseDigits(f)] + vs)
  {
  }

  lemma {:induction false} ParseJoined(a: string, b: string)
    requires AllDigits(a) && AllDigits(b)
    ensures Fields(a + ":" + b) == [a, b]
    ensures ParseClock(a + ":" + b) == Some([ParseDigits(a), ParseDigits(b)])
  {
    FieldsJoin(a, b);
    FieldsOfDigits(b);
    assert Fields(a + ":" + b) == [a] + [b];
    ParseFieldsCons(b, [], []);
    assert [b] + [] == [b];
    var one: seq<int> := [ParseDigits(b)];
    assert [ParseDigits(b)] + [] == one;
    ParseFieldsCons(a, [b], one);
    assert [ParseDigits(a)] + one == [ParseDigits(a), ParseDigits(b)];
  }

  lemma {:induction false} ParseThreeFields(a: string, b: string, c: string)
    requires AllDigits(a) && AllDigits(b) && AllDigits(c)
    ensures Fields(a + ":" + b + ":" + c) == [a, b, c]
    ensures ParseClock(a + ":" + b + ":" + c) == Some([ParseDigits(a), ParseDigits(b), ParseDigits(c)])
  {
    assert a + ":" + b + ":" + c == a + ":" + (b + ":" + c);
    FieldsJoin(a, b + ":" + c);
    ParseJoined(b, c);
    ParseFieldsCons(a, Fields(b + ":" + c), [ParseDigits(b), ParseDigits(c)]);
    assert [ParseDigits(a)] + [ParseDigits(b), ParseDigits(c)] == [ParseDigits(a), ParseDigits(b), ParseDigits(c)];
  }

  /** The hours/minutes/seconds split of formatTimeLong: fields below 60 that add back up to t. */
  lemma HmsDecomposition(t: nat)
    ensures (t % 3600) / 60 < 60 && t % 60 < 60
    ensures 3600 * (t / 3600) + 60 * ((t % 3600) / 60) + t % 60 == t
  {
    var r := t % 3600;
    assert t == 3600 * (t / 3600) + r;
    assert r == 60 * (r / 60) + r % 60;
    assert r % 60 == t % 60 by {
      assert t == 60 * (60 * (t / 3600) + r / 60) + r % 60;
    }
  }

  /** Three padded fields below 100, joined with ':': their shape, their values and their length. */
  lemma PaddedHms(h: nat, m: nat, s: nat)
    requires m < 100 && s < 100
    ensures ParseClock(Pad2(h) + ":" + Pad2(m) + ":" + Pad2(s)) == Some([h, m, s])
    ensures |Fields(Pad2(h) + ":" + Pad2(m) + ":" + Pad2(s))| == 3
    ensures forall f | f in Fields(Pad2(h) + ":" + Pad2(m) + ":" + Pad2(s)) :: ClockField(f)
    ensures |Pad2(h) + ":" + Pad2(m) + ":" + Pad2(s)| == 8 <==> h < 100
  {
    ParseThreeFields(Pad2(h), Pad2(m), Pad2(s));
  }

  /**
   * The legacy tracker's formatTime: three fields, minutes and seconds below
   * 60, and 3600 * h + 60 * m + s == t for the fields read back.
   */
  lemma LegacyFormatTimeFields(t: nat)
    ensures exists h: nat, m: nat, s: nat ::
      ParseClock(FormatTimeLong(t)) == Some([h, m, s]) && m < 60 && s < 60 &&
      3600 * h + 60 * m + s == t
  {
    HmsDecomposition(t);
    var h, m, s := t / 3600, (t % 3600) / 60, t % 60;
    assert ParseClock(FormatTimeLong(t)) == Some([h, m, s]);
  }

  // ---------------------------------------------------------------------
  // The formatting contracts determine the text: any text that reads back
  // as the same fields and has the same zero-padded shape is the same text.

  function Pow10(k: nat): (p: nat)
    ensures p >= 1
  {
    if k == 0 then 1 else 10 * Pow10(k - 1)
  }

  lemma {:induction false} Pow10Monotone(j: nat, k: nat)
    requires j <= k
    ensures Pow10(j) <= Pow10(k)
  {
    if j < k {
      Pow10Monotone(j, k - 1);
    }
  }

  lemma Pow10Shorter(j: nat, k: nat)
    ensures j < k ==> Pow10(j) <= Pow10(k - 1)
  {
    if j < k {
      Pow10Monotone(j, k - 1);
    }
  }

  /** A text of k digits denotes less than 10^k. */
  lemma {:induction false} ParseDigitsBelow(s: string)
    requires AllDigits(s)
    ensures ParseDigits(s) < Pow10(|s|)
  {
    if s != [] {
      ParseDigitsBelow(s[..|s| - 1]);
    }
  }

  /** A text of k digits without a leading zero denotes at least 10^(k-1). */
  lemma {:induction false} ParseDigitsAtLeast(s: string)
    requires AllDigits(s) && |s| >= 1 && s[0] != '0'
    ensures ParseDigits(s) >= Pow10(|s| - 1)
  {
    if |s| > 1 {
      var front := s[..|s| - 1];
      assert front[0] == s[0];
      ParseDigitsAtLeast(front);
    }
  }

  /** The last digit and the rest of a number are determined by the number. */
  lemma DecimalStepInjective(x: nat, d: nat, y: nat, e: nat)
    requires d < 10 && e < 10 && 10 * x + d == 10 * y + e
    ensures x == y && d == e
  {
  }

  /** Two digit texts of the same length that denote the same number are equal. */
  lemma {:induction false} SameLengthSameDigits(f: string, g: string)
    requires AllDigits(f) && AllDigits(g) && |f| == |g|
    requires ParseDigits(f) == ParseDigits(g)
    ensures f == g
  {
    if f != [] {
      var n := |f| - 1;
      var f0, g0 := f[..n], g[..n];
      assert ParseDigits(f) == 10 * ParseDigits(f0) + DigitValue(f[n]);
      assert ParseDigits(g) == 10 * ParseDigits(g0) + DigitValue(g[n]);
      DecimalStepInjective(ParseDigits(f0), DigitValue(f[n]), ParseDigits(g0), DigitValue(g[n]));
      assert f[n] == g[n];
      SameLengthSameDigits(f0, g0);
      assert f == f0 + [f[n]];
      assert g == g0 + [g[n]];
    }
  }

  /** Texts without a leading zero that denote the same number have the same length. */
  lemma NoLeadingZeroSameLength(f: string, g: string)
    requires AllDigits(f) && |f| >= 1 && f[0] != '0'
    requires AllDigits(g) && |g| >= 1 && g[0] != '0'
    requires ParseDigits(f) == ParseDigits(g)
    ensures |f| == |g|
  {
    ParseDigitsBelow(f);
    ParseDigitsBelow(g);
    ParseDigitsAtLeast(f);
    ParseDigitsAtLeast(g);
    Pow10Shorter(|f|, |g|);
    Pow10Shorter(|g|, |f|);
  }

  /** A clock field is two characters long exactly when it denotes less than 100. */
  lemma ClockFieldLength(f: string)
    requires ClockField(f)
    ensures |f| == 2 <==> ParseDigits(f) < 100
  {
    ParseDigitsBelow(f);
    if |f| > 2 {
      ParseDigitsAtLeast(f);
      Pow10Monotone(2, |f| - 1);
    }
  }

  /** A clock field is the only one of its shape that denotes its value. */
  lemma ClockFieldUnique(f: string, g: string)
    requires ClockField(f) && ClockField(g) && ParseDigits(f) == ParseDigits(g)
    ensures f == g
  {
    ClockFieldLength(f);
    ClockFieldLength(g);
    if |f| > 2 {
      NoLeadingZeroSameLength(f, g);
    }
    SameLengthSameDigits(f, g);
  }

  /** Text that reads back as values has all-digit fields, one per value, each denoting its value. */
  lemma {:induction false} ParseFieldsValues(fs: seq<string>, vs: seq<int>)
    requires ParseFields(fs) == Some(vs)
    ensures |vs| == |fs|
    ensures forall i :: 0 <= i < |fs| ==> AllDigits(fs[i]) && vs[i] == ParseDigits(fs[i])
  {
    if fs != [] {
      var rest := ParseFields(fs[1..]).value;
      ParseFieldsValues(fs[1..], rest);
      assert vs == [ParseDigits(fs[0])] + rest;
      forall i | 0 < i < |fs|
        ensures AllDigits(fs[i]) && vs[i] == ParseDigits(fs[i])
      {
        assert fs[i] == fs[1..][i - 1];
      }
    }
  }

  /** Fields joined back with ':'. */
  function Join(fs: seq<string>): string
    requires |fs| >= 1
  {
    if |fs| == 1 then fs[0] else fs[0] + ":" + Join(fs[1..])
  }

  lemma JoinTwo(fs: seq<string>)
    requires |fs| == 2
    ensures Join(fs) == fs[0] + ":" + fs[1]
  {
    assert Join(fs[1..]) == fs[1];
  }

  lemma JoinThree(fs: seq<string>)
    requires |fs| == 3
    ensures Join(fs) == fs[0] + ":" + fs[1] + ":" + fs[2]
  {
    JoinTwo(fs[1..]);
    assert fs[0] + ":" + (fs[1] + ":" + fs[2]) == fs[0] + ":" + fs[1] + ":" + fs[2];
  }

  /** Splitting at ':' loses nothing: the fields join back to the text. */
  lemma {:induction false} JoinFields(s: string)
    ensures Join(Fields(s)) == s
  {
    if s != [] {
      var rest := Fields(s[1..]);
      JoinFields(s[1..]);
      if s[0] == ':' {
        assert Fields(s)[1..] == rest;
        assert s == ":" + s[1..];
      } else {
        var fs := Fields(s);
        assert fs[0] == [s[0]] + rest[0];
        if |rest| == 1 {
          assert s == [s[0]] + s[1..];
        } else {
          assert fs[1..] == rest[1..];
          assert s[1..] == rest[0] + ":" + Join(rest[1..]);
          assert s == [s[0]] + (rest[0] + ":" + Join(rest[1..]));
        }
      }
    }
  }

  /** Clock fields that read back as values are the padded values. */
  lemma ClockFieldsArePadded(fs: seq<string>, vs: seq<int>)
    requires ParseFields(fs) == Some(vs)
    requires forall f | f in fs :: ClockField(f)
    ensures |vs| == |fs|
    ensures forall i | 0 <= i < |fs| :: vs[i] >= 0 && fs[i] == Pad2(vs[i])
  {
    ParseFieldsValues(fs, vs);
    forall i | 0 <= i < |fs|
      ensures vs[i] >= 0 && fs[i] == Pad2(vs[i])
    {
      assert fs[i] in fs;
      ClockFieldUnique(fs[i], Pad2(vs[i]));
    }
  }

  /** Two clock fields that read back as x and y are the padded x and y. */
  lemma TwoClockFieldsDetermined(r: string, x: nat, y: nat)
    requires ParseClock(r) == Some([x, y])
    requires |Fields(r)| == 2 && forall f | f in Fields(r) :: ClockField(f)
    ensures r == Pad2(x) + ":" + Pad2(y)
  {
    var fs := Fields(r);
    ClockFieldsArePadded(fs, [x, y]);
    JoinFields(r);
    JoinTwo(fs);
  }

  /** Three clock fields that read back as x, y and z are the padded x, y and z. */
  lemma ThreeClockFieldsDetermined(r: string, x: nat, y: nat, z: nat)
    requires ParseClock(r) == Some([x, y, z])
    requires |Fields(r)| == 3 && forall f | f in Fields(r) :: ClockField(f)
    ensures r == Pad2(x) + ":" + Pad2(y) + ":" + Pad2(z)
  {
    var fs := Fields(r);
    ClockFieldsArePadded(fs, [x, y, z]);
    JoinFields(r);
    JoinThree(fs);
  }

  /** Any mm:ss text of clock fields that reads back as the minutes and seconds of t is formatTime(t). */
  lemma FormatTimeDetermined(t: nat, r: string)
    requires ParseClock(r) == Some([t / 60, t % 60])
    requires |Fields(r)| == 2 && forall f | f in Fields(r) :: ClockField(f)
    ensures r == FormatTime(t)
  {
    TwoClockFieldsDetermined(r, t / 60, t % 60);
  }

  /** Any hh:mm:ss text of clock fields that reads back as the hours, minutes and seconds of t is formatTimeLong(t). */
  lemma FormatTimeLongDetermined(t: nat, r: string)
    requires ParseClock(r) == Some([t / 3600, (t % 3600) / 60, t % 60])
    requires |Fields(r)| == 3 && forall f | f in Fields(r) :: ClockField(f)
    ensures r == FormatTimeLong(t)
  {
    ThreeClockFieldsDetermined(r, t / 3600, (t % 3600) / 60, t % 60);
  }
}
