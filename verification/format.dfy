/** `formatDuration` of server.js on whole seconds: hours, minutes and
    seconds by floor division and remainder, printed as `h:m:s` with no
    zero-padding. */
module Format {
  import opened Wrappers
  import opened Decimal

  datatype Clock = Clock(hours: nat, minutes: nat, seconds: nat)

  /** The three fields: `floor(d / 3600)`, `floor((d % 3600) / 60)`, `d % 60`. */
  function Split(d: nat): (c: Clock)
    ensures c.hours * 3600 + c.minutes * 60 + c.seconds == d
    ensures c.minutes < 60 && c.seconds < 60
  {
    Clock(d / 3600, (d % 3600) / 60, d % 60)
  }

  /** There is only one way to write d with minutes and seconds below 60. */
  lemma SplitUnique(d: nat, c: Clock)
    requires c.hours * 3600 + c.minutes * 60 + c.seconds == d
    requires c.minutes < 60 && c.seconds < 60
    ensures Split(d) == c
  {
    var r := c.minutes * 60 + c.seconds;
    assert 0 <= r < 3600;
    assert d == c.hours * 3600 + r;
    assert d / 3600 == c.hours && d % 3600 == r;
    assert r / 60 == c.minutes;
    assert d % 60 == c.seconds by {
      assert d == (c.hours * 60 + c.minutes) * 60 + c.seconds;
    }
  }

  /** The display text: `${hours}:${minutes}:${seconds}`. */
  function FormatDuration(d: nat): string
  {
    var c := Split(d);
    ToDecimal(c.hours) + ":" + ToDecimal(c.minutes) + ":" + ToDecimal(c.seconds)
  }

  /** Any decomposition with minutes and seconds below 60 is the one printed,
      each field as its shortest decimal numeral. */
  lemma FormatShowsFields(d: nat, c: Clock)
    requires c.hours * 3600 + c.minutes * 60 + c.seconds == d
    requires c.minutes < 60 && c.seconds < 60
    ensures FormatDuration(d) == ToDecimal(c.hours) + ":" + ToDecimal(c.minutes) + ":" + ToDecimal(c.seconds)
  {
    SplitUnique(d, c);
  }

  /** The first position of c in s. */
  function IndexOf(s: string, c: char): (r: Option<nat>)
    ensures r.Some? ==> r.value < |s| && s[r.value] == c && c !in s[..r.value]
    ensures r.None? ==> c !in s
  {
    if s == [] then None
    else if s[0] == c then Some(0)
    else
      match IndexOf(s[1..], c)
      case None => None
      case Some(i) => Some(i + 1)
  }

  /** Reads an `h:m:s` display back into seconds: three unsigned decimal
      fields separated by ':'. The inverse of FormatDuration. */
  function ParseClock(t: string): Option<nat>
  {
    match IndexOf(t, ':')
    case None => None
    case Some(i) =>
      var rest := t[i + 1..];
      match IndexOf(rest, ':')
      case None => None
      case Some(j) =>
        var h, m, s := t[..i], rest[..j], rest[j + 1..];
        if IsNumeral(h) && IsNumeral(m) && IsNumeral(s) then Some(Value(h) * 3600 + Value(m) * 60 + Value(s))
        else None
  }

  /** The first ':' after a run of digits is the one right after it. */
  lemma {:induction false} IndexOfAfterDigits(a: string, rest: string)
    requires AllDigits(a)
    ensures IndexOf(a + ":" + rest, ':') == Some(|a|)
    ensures (a + ":" + rest)[..|a|] == a && (a + ":" + rest)[|a| + 1..] == rest
    decreases |a|
  {
    if a != [] {
      assert (a + ":" + rest)[1..] == a[1..] + ":" + rest;
      IndexOfAfterDigits(a[1..], rest);
    }
  }

  /** Three numerals joined by ':' read back as their weighted sum. */
  lemma ParseClockOfNumerals(th: string, tm: string, ts: string)
    requires IsNumeral(th) && IsNumeral(tm) && IsNumeral(ts)
    ensures ParseClock(th + ":" + tm + ":" + ts).Some?
    ensures ParseClock(th + ":" + tm + ":" + ts).value == Value(th) * 3600 + Value(tm) * 60 + Value(ts)
  {
    var t := th + ":" + tm + ":" + ts;
    assert t == th + ":" + (tm + ":" + ts);
    IndexOfAfterDigits(th, tm + ":" + ts);
    IndexOfAfterDigits(tm, ts);
  }

  /** Reading the display back gives the seconds that were formatted. */
  lemma FormatRoundTrip(d: nat)
    ensures ParseClock(FormatDuration(d)).Some?
    ensures ParseClock(FormatDuration(d)).value == d
  {
    var c := Split(d);
    ParseClockOfNumerals(ToDecimal(c.hours), ToDecimal(c.minutes), ToDecimal(c.seconds));
  }

  /** Distinct durations are displayed differently. */
  lemma FormatInjective(a: nat, b: nat)
    requires FormatDuration(a) == FormatDuration(b)
    ensures a == b
  {
    FormatRoundTrip(a);
    FormatRoundTrip(b);
  }

  /** One hour, two minutes and three seconds; zero, with every field
      printed; three minutes, with no padding. */
  lemma FormatExamples()
    ensures FormatDuration(3723) == "1:2:3"
    ensures FormatDuration(0) == "0:0:0"
    ensures FormatDuration(180) == "0:3:0"
  {
    FormatShowsFields(3723, Clock(1, 2, 3));
    FormatShowsFields(0, Clock(0, 0, 0));
    FormatShowsFields(180, Clock(0, 3, 0));
  }
}
