/** The display timer of the time-entry list: an `HH:MM:SS` string that the
    one-second interval advances by splitting it on ':', reading the three
    fields as numbers, carrying seconds into minutes and minutes into hours,
    and printing each field zero-padded to two digits. Hours are never
    reduced modulo 24: they grow without bound and take as many digits as
    they need. */
module TimerText {
  import opened Sequences

  /** The numeric value of a timer: hours, minutes, seconds. */
  datatype Hms = Hms(hours: nat, minutes: nat, seconds: nat)

  /** The number of seconds a timer denotes. */
  function TotalSeconds(t: Hms): nat {
    t.hours * 3600 + t.minutes * 60 + t.seconds
  }

  /** Minutes and seconds are both below 60. */
  predicate Canonical(t: Hms) {
    t.minutes < 60 && t.seconds < 60
  }

  /** The canonical timer one second later. */
  function Next(t: Hms): (r: Hms)
    ensures Canonical(t) ==> Canonical(r) && TotalSeconds(r) == TotalSeconds(t) + 1
  {
    if t.seconds < 59 then Hms(t.hours, t.minutes, t.seconds + 1)
    else if t.minutes < 59 then Hms(t.hours, t.minutes + 1, 0)
    else Hms(t.hours + 1, 0, 0)
  }

  /** The canonical timer that denotes `n` seconds. */
  function FromSeconds(n: nat): (t: Hms)
    ensures Canonical(t) && TotalSeconds(t) == n
  {
    if n == 0 then Hms(0, 0, 0) else Next(FromSeconds(n - 1))
  }

  /** Two canonical timers that denote the same number of seconds are equal. */
  lemma CanonicalUnique(a: Hms, b: Hms)
    requires Canonical(a) && Canonical(b) && TotalSeconds(a) == TotalSeconds(b)
    ensures a == b
  {
    var n := TotalSeconds(a);
    assert a.minutes * 60 + a.seconds < 3600;
    assert b.minutes * 60 + b.seconds < 3600;
    assert a.hours == n / 3600 == b.hours;
    assert a.minutes * 60 + a.seconds == b.minutes * 60 + b.seconds;
    assert a.minutes == (a.minutes * 60 + a.seconds) / 60;
    assert b.minutes == (b.minutes * 60 + b.seconds) / 60;
  }

  /** The arithmetic of one tick: add a second, carry into minutes with
      floor(seconds / 60) and into hours with floor(minutes / 60), and keep
      minutes and seconds modulo 60. */
  function Advance(t: Hms): (r: Hms)
    ensures TotalSeconds(r) == TotalSeconds(t) + 1
    ensures Canonical(r)
    ensures r.hours >= t.hours
  {
    var s := t.seconds + 1;
    var m := t.minutes + s / 60;
    var h := t.hours + m / 60;
    Hms(h, m % 60, s % 60)
  }

  /** On a canonical timer the tick arithmetic gives the next second. */
  lemma AdvanceIsNext(t: Hms)
    requires Canonical(t)
    ensures Advance(t) == Next(t)
  {
  }

  predicate IsDigit(c: char) {
    '0' <= c <= '9'
  }

  predicate AllDigits(s: string) {
    s == [] || (AllDigits(s[..|s| - 1]) && IsDigit(s[|s| - 1]))
  }

  /** A string of digits holds no ':' separator. */
  lemma {:induction false} DigitsHaveNoColon(s: string)
    requires AllDigits(s)
    ensures ':' !in s
  {
    if s != [] {
      DigitsHaveNoColon(s[..|s| - 1]);
      assert s == s[..|s| - 1] + [s[|s| - 1]];
    }
  }

  /** A field that `Number` reads as a non-negative integer. */
  predicate IsNumeral(s: string) {
    |s| > 0 && AllDigits(s)
  }

  function DigitChar(d: nat): (c: char)
    requires d < 10
    ensures IsDigit(c) && c as int - '0' as int == d
  {
    ('0' as int + d) as char
  }

  /** `Number(s)` for a string of decimal digits. */
  function DecimalValue(s: string): nat
    requires AllDigits(s)
  {
    if s == [] then 0
    else DecimalValue(s[..|s| - 1]) * 10 + (s[|s| - 1] as int - '0' as int)
  }

  /** `String(n)`: the decimal digits of `n`, without leading zeros. */
  function DecimalString(n: nat): (r: string)
    ensures |r| >= 1
  {
    if n < 10 then [DigitChar(n)] else DecimalString(n / 10) + [DigitChar(n % 10)]
  }

  /** `Number(String(n)) == n`. */
  lemma {:induction false} DecimalRoundTrip(n: nat)
    ensures IsNumeral(DecimalString(n)) && DecimalValue(DecimalString(n)) == n
  {
    if n >= 10 {
      var r := DecimalString(n);
      DecimalRoundTrip(n / 10);
      assert r[..|r| - 1] == DecimalString(n / 10);
    }
  }

  /** Leading zeros do not change the value `Number` reads. */
  lemma {:induction false} LeadingZero(s: string)
    requires AllDigits(s)
    ensures AllDigits("0" + s) && DecimalValue("0" + s) == DecimalValue(s)
    decreases |s|
  {
    if s != [] {
      var z := "0" + s;
      assert z[..|z| - 1] == "0" + s[..|s| - 1];
      LeadingZero(s[..|s| - 1]);
    }
  }

  /** `k` copies of `c`. */
  function Repeat(c: char, k: nat): (r: string)
    ensures |r| == k
  {
    if k == 0 then [] else Repeat(c, k - 1) + [c]
  }

  /** `s.padStart(width, fill)`: `s` preceded by as many copies of `fill` as
      it takes to reach `width`. */
  function PadStart(s: string, width: nat, fill: char): (r: string)
    ensures |s| >= width ==> r == s
    ensures |s| < width ==> r == Repeat(fill, width - |s|) + s
    decreases width - |s|
  {
    if |s| >= width then s
    else
      var r := PadStart([fill] + s, width, fill);
      assert Repeat(fill, width - |s|) == Repeat(fill, width - |s| - 1) + [fill];
      r
  }

  /** One timer field: `String(n).padStart(2, '0')`. */
  function Field(n: nat): string {
    PadStart(DecimalString(n), 2, '0')
  }

  /** A field is at least two digits long and reads back as its number. */
  lemma FieldRoundTrip(n: nat)
    ensures IsNumeral(Field(n)) && |Field(n)| >= 2 && DecimalValue(Field(n)) == n
  {
    var d := DecimalString(n);
    DecimalRoundTrip(n);
    if |d| < 2 {
      assert Field(n) == "0" + d;
      LeadingZero(d);
    }
  }

  /** Numbers below one hundred print as exactly two digits. */
  lemma FieldBelowHundred(n: nat)
    requires n < 100
    ensures Field(n) == [DigitChar(n / 10), DigitChar(n % 10)]
  {
    if n >= 10 {
      assert DecimalString(n) == DecimalString(n / 10) + [DigitChar(n % 10)];
    }
  }

  /** The string the tick updater returns for a timer value. */
  function Format(t: Hms): string {
    Field(t.hours) + ":" + Field(t.minutes) + ":" + Field(t.seconds)
  }

  /** `s.split(sep)`: the pieces between separators; never empty. */
  function Split(s: string, sep: char): (r: seq<string>)
    ensures |r| >= 1
  {
    if s == [] then [""]
    else
      var rest := Split(s[1..], sep);
      if s[0] == sep then [""] + rest
      else [[s[0]] + rest[0]] + rest[1..]
  }

  lemma {:induction false} SplitAfterPiece(a: string, sep: char, b: string)
    requires sep !in a
    ensures Split(a + [sep] + b, sep) == [a] + Split(b, sep)
    decreases |a|
  {
    if a == [] {
      assert a + [sep] + b == [sep] + b;
      assert ([sep] + b)[1..] == b;
    } else {
      assert (a + [sep] + b)[1..] == a[1..] + [sep] + b;
      SplitAfterPiece(a[1..], sep, b);
      assert [a[0]] + a[1..] == a;
    }
  }

  lemma {:induction false} SplitLastPiece(a: string, sep: char)
    requires sep !in a
    ensures Split(a, sep) == [a]
    decreases |a|
  {
    if a != [] {
      SplitLastPiece(a[1..], sep);
      assert [a[0]] + a[1..] == a;
    }
  }

  /** `prevTime.split(':').map(Number)` destructured into three fields; a
      timer whose first three fields are not digit strings has no value in
      this model. */
  function Parse(s: string): Option<Hms> {
    var parts := Split(s, ':');
    if |parts| >= 3 && IsNumeral(parts[0]) && IsNumeral(parts[1]) && IsNumeral(parts[2])
    then Some(Hms(DecimalValue(parts[0]), DecimalValue(parts[1]), DecimalValue(parts[2])))
    else None
  }

  /** Three digit fields joined by ':' read back as their values. */
  lemma ParseFields(h: string, m: string, s: string)
    requires IsNumeral(h) && IsNumeral(m) && IsNumeral(s)
    ensures Parse(h + ":" + m + ":" + s) == Some(Hms(DecimalValue(h), DecimalValue(m), DecimalValue(s)))
  {
    DigitsHaveNoColon(h);
    DigitsHaveNoColon(m);
    DigitsHaveNoColon(s);
    assert h + ":" + m + ":" + s == h + [':'] + (m + [':'] + s);
    SplitAfterPiece(h, ':', m + [':'] + s);
    SplitAfterPiece(m, ':', s);
    SplitLastPiece(s, ':');
  }

  /** Destructuring takes the first three fields: anything after a third
      ':' is ignored. */
  lemma ParseIgnoresExtraFields(h: string, m: string, s: string, rest: string)
    requires IsNumeral(h) && IsNumeral(m) && IsNumeral(s)
    ensures Parse(h + ":" + m + ":" + s + ":" + rest) == Some(Hms(DecimalValue(h), DecimalValue(m), DecimalValue(s)))
  {
    DigitsHaveNoColon(h);
    DigitsHaveNoColon(m);
    DigitsHaveNoColon(s);
    assert h + ":" + m + ":" + s + ":" + rest == h + [':'] + (m + [':'] + (s + [':'] + rest));
    SplitAfterPiece(h, ':', m + [':'] + (s + [':'] + rest));
    SplitAfterPiece(m, ':', s + [':'] + rest);
    SplitAfterPiece(s, ':', rest);
  }

  /** Reading back a formatted timer gives the same value. */
  lemma ParseFormat(t: Hms)
    ensures Parse(Format(t)) == Some(t)
  {
    FieldRoundTrip(t.hours);
    FieldRoundTrip(t.minutes);
    FieldRoundTrip(t.seconds);
    ParseFields(Field(t.hours), Field(t.minutes), Field(t.seconds));
  }

  /** A timer string the tick updater can read. */
  predicate WellFormed(s: string) {
    Parse(s).Some?
  }

  /** The state updater passed to `setTimer` on every interval tick. */
  function Tick(s: string): (r: string)
    requires WellFormed(s)
    ensures Parse(r) == Some(Advance(Parse(s).value))
  {
    var t := Advance(Parse(s).value);
    ParseFormat(t);
    Format(t)
  }

  /** A tick of a well-formed display shows one second more, with minutes
      and seconds below sixty and the hours never decreasing (nor wrapping). */
  lemma TickAddsOneSecond(s: string)
    requires WellFormed(s)
    ensures WellFormed(Tick(s))
    ensures TotalSeconds(Parse(Tick(s)).value) == TotalSeconds(Parse(s).value) + 1
    ensures Canonical(Parse(Tick(s)).value)
    ensures Parse(Tick(s)).value.hours >= Parse(s).value.hours
    ensures Tick(s) == Format(Parse(Tick(s)).value)
  {
    ParseFormat(Advance(Parse(s).value));
  }

  /** Ticking the rendering of `k` seconds renders `k + 1` seconds. */
  lemma TickCounts(k: nat)
    requires k > 0
    ensures WellFormed(Format(FromSeconds(k - 1)))
    ensures Tick(Format(FromSeconds(k - 1))) == Format(FromSeconds(k))
  {
    ParseFormat(FromSeconds(k - 1));
    AdvanceIsNext(FromSeconds(k - 1));
  }

  /** The rendering of `k` seconds, by naming its canonical value. */
  lemma Renders(k: nat, t: Hms)
    requires Canonical(t) && TotalSeconds(t) == k
    ensures Format(FromSeconds(k)) == Format(t)
  {
    CanonicalUnique(FromSeconds(k), t);
  }

  /** The initial and reset value of the display. */
  const Zero: string := "00:00:00"

  lemma FieldZero()
    ensures Field(0) == "00"
  {
  }

  lemma FormatZero()
    ensures Format(Hms(0, 0, 0)) == "00:00:00"
  {
    FieldZero();
  }

  lemma ZeroIsNoSeconds()
    ensures Zero == Format(FromSeconds(0))
  {
    Renders(0, Hms(0, 0, 0));
    FormatZero();
  }

  /** The updater's arithmetic on any string: a display that does not parse
      is left alone. `DisplayTicks` shows it agrees with `Tick` on every
      display reached from a reset. */
  function Updater(s: string): string {
    if WellFormed(s) then Format(Advance(Parse(s).value)) else s
  }

  /** The display after `n` ticks from a reset. */
  function Display(n: nat): string {
    if n == 0 then Zero else Updater(Display(n - 1))
  }

  lemma DisplayStep(k: nat)
    requires k > 0 && Display(k - 1) == Format(FromSeconds(k - 1))
    ensures Display(k) == Format(FromSeconds(k))
  {
    TickCounts(k);
  }

  /** After `n` ticks the display shows `n` seconds. */
  lemma {:induction false} DisplayIsFormat(n: nat)
    ensures Display(n) == Format(FromSeconds(n))
  {
    if n == 0 {
      ZeroIsNoSeconds();
    } else {
      DisplayIsFormat(n - 1);
      DisplayStep(n);
    }
  }

  /** Every display parses, and ticking it gives the next display. */
  lemma DisplayTicks(n: nat)
    ensures WellFormed(Display(n)) && Tick(Display(n)) == Display(n + 1)
  {
    DisplayIsFormat(n);
    ParseFormat(FromSeconds(n));
  }

  /** One tick from the display of `t` shows `u`, the second after it. */
  lemma TickFromTo(t: Hms, u: Hms)
    requires Canonical(t) && Canonical(u) && TotalSeconds(u) == TotalSeconds(t) + 1
    ensures WellFormed(Format(t)) && Tick(Format(t)) == Format(u)
  {
    ParseFormat(t);
    CanonicalUnique(Advance(t), u);
  }

  /** A whole minute carries into the minutes field. */
  lemma TickCarriesMinute()
    ensures WellFormed("00:00:59") && Tick("00:00:59") == "00:01:00"
  {
    FieldZero();
    assert Format(Hms(0, 0, 59)) == "00:00:59";
    assert Format(Hms(0, 1, 0)) == "00:01:00";
    TickFromTo(Hms(0, 0, 59), Hms(0, 1, 0));
  }

  /** A whole hour carries into the hours field. */
  lemma TickCarriesHour()
    ensures WellFormed("00:59:59") && Tick("00:59:59") == "01:00:00"
  {
    FieldZero();
    assert Format(Hms(0, 59, 59)) == "00:59:59";
    assert Format(Hms(1, 0, 0)) == "01:00:00";
    TickFromTo(Hms(0, 59, 59), Hms(1, 0, 0));
  }

  /** Hours do not wrap at two digits (or at 24). */
  lemma TickPastNinetyNineHours()
    ensures WellFormed("99:59:59") && Tick("99:59:59") == "100:00:00"
  {
    FieldZero();
    assert Format(Hms(99, 59, 59)) == "99:59:59";
    assert Format(Hms(100, 0, 0)) == "100:00:00";
    TickFromTo(Hms(99, 59, 59), Hms(100, 0, 0));
  }

  lemma FormatOneSecond()
    ensures Format(Hms(0, 0, 1)) == "00:00:01"
  {
    FieldZero();
  }

  /** The first tick after a reset shows one second. */
  lemma TickFromZero()
    ensures WellFormed(Zero) && Tick(Zero) == "00:00:01"
  {
    FormatZero();
    FormatOneSecond();
    TickFromTo(Hms(0, 0, 0), Hms(0, 0, 1));
  }

  /** A timer stopped after 125 seconds shows two minutes and five seconds. */
  lemma TwoMinutesFiveSeconds()
    ensures Format(FromSeconds(125)) == "00:02:05"
  {
    FieldZero();
    assert Format(Hms(0, 2, 5)) == "00:02:05";
    Renders(125, Hms(0, 2, 5));
  }
}
