/** `parseDuration` of server.js: the time part of an ISO 8601 duration
    (`PT[nH][nM][nS]`) read with the unanchored pattern
    `/PT(\d+H)?(\d+M)?(\d+S)?/` and turned into whole seconds. */
module Duration {
  import opened Wrappers
  import opened Decimal

  /** "PT" starts at index j of s. */
  predicate PTAt(s: string, j: int)
  {
    0 <= j && j + 1 < |s| && s[j] == 'P' && s[j + 1] == 'T'
  }

  predicate ContainsPT(s: string)
  {
    exists j :: 0 <= j < |s| && PTAt(s, j)
  }

  /** The leftmost "PT" at or after `from`: where the unanchored pattern
      starts to match, since every group after "PT" is optional. */
  function FindPT(s: string, from: nat): (r: Option<nat>)
    requires from <= |s|
    ensures r.Some? ==> from <= r.value && PTAt(s, r.value)
    ensures r.Some? ==> forall j :: from <= j < r.value ==> !PTAt(s, j)
    ensures r.None? ==> forall j :: from <= j ==> !PTAt(s, j)
    decreases |s| - from
  {
    if from + 1 >= |s| then None
    else if PTAt(s, from) then Some(from)
    else FindPT(s, from + 1)
  }

  /** Length of the maximal run of digits at the start of s (what the greedy
      `\d+` takes). */
  function DigitRun(s: string): (k: nat)
    ensures k <= |s| && AllDigits(s[..k])
    ensures k < |s| ==> !IsDigit(s[k])
  {
    if s == [] || !IsDigit(s[0]) then 0
    else
      var k := 1 + DigitRun(s[1..]);
      assert forall i :: 1 <= i < k ==> s[..k][i] == s[1..][..k - 1][i - 1];
      k
  }

  /** The text captured by the optional group `(\d+X)` at the start of s,
      for the designator X; None when the group takes no part in the match. */
  function Group(s: string, designator: char): (g: Option<string>)
    requires !IsDigit(designator)
    ensures g.Some? ==> g.value <= s && |g.value| >= 2
    ensures g.Some? ==> AllDigits(g.value[..|g.value| - 1]) && g.value[|g.value| - 1] == designator
    ensures g.None? ==> forall k :: 1 <= k < |s| && AllDigits(s[..k]) ==> s[k] != designator
  {
    var k := DigitRun(s);
    if 0 < k < |s| && s[k] == designator then Some(s[..k + 1])
    else
      None
  }

  /** The text a capture took; nothing for a group that took no part. */
  function Text(g: Option<string>): string
  {
    match g
    case Some(t) => t
    case None => []
  }

  /** The three capture groups of a successful match; None is `undefined`. */
  datatype Captures = Captures(hours: Option<string>, minutes: Option<string>, seconds: Option<string>)

  /** The three optional groups `(\d+H)?(\d+M)?(\d+S)?` matched one after
      another at the start of t, each starting where the previous one ended. */
  function MatchGroups(t: string): (c: Captures)
    ensures Text(c.hours) + Text(c.minutes) + Text(c.seconds) <= t
  {
    var h := Group(t, 'H');
    var rest1 := t[|Text(h)|..];
    var m := Group(rest1, 'M');
    var rest2 := rest1[|Text(m)|..];
    var s := Group(rest2, 'S');
    PrefixThen(Text(m), rest1, Text(s));
    PrefixThen(Text(h), t, Text(m) + Text(s));
    assert Text(h) + (Text(m) + Text(s)) == Text(h) + Text(m) + Text(s);
    Captures(h, m, s)
  }

  /** A prefix of what follows a prefix extends it. */
  lemma PrefixThen(a: string, t: string, b: string)
    requires a <= t && b <= t[|a|..]
    ensures a + b <= t
  {
    assert (a + b)[..|a|] == a;
    assert forall i :: |a| <= i < |a + b| ==> (a + b)[i] == b[i - |a|] == t[|a|..][i - |a|];
  }

  /** `s.match(/PT(\d+H)?(\d+M)?(\d+S)?/)`: None is the `null` returned when
      s contains no "PT". */
  function MatchPattern(s: string): (r: Option<Captures>)
    ensures r.Some? <==> ContainsPT(s)
  {
    match FindPT(s, 0)
    case None => None
    case Some(i) => Some(MatchGroups(s[i + 2..]))
  }

  /** In a capture, the digits are everything but the designator. */
  lemma CaptureDigitRun(t: string)
    ensures |t| >= 1 && AllDigits(t[..|t| - 1]) && !IsDigit(t[|t| - 1]) ==> DigitRun(t) == |t| - 1
  {
    if |t| >= 1 && AllDigits(t[..|t| - 1]) && !IsDigit(t[|t| - 1]) {
      assert t == t[..|t| - 1] + [t[|t| - 1]];
      DigitRunOf(t[..|t| - 1], [t[|t| - 1]]);
    }
  }

  /** `parseInt(g) || 0`: parseInt reads the leading digits of the capture,
      which are the number written before the designator; on an `undefined`
      group it gives NaN, which `|| 0` turns into 0. */
  function ParseIntOrZero(g: Option<string>): (n: nat)
    ensures g.None? ==> n == 0
    ensures g.Some? && |g.value| >= 1 && AllDigits(g.value[..|g.value| - 1]) && !IsDigit(g.value[|g.value| - 1])
            ==> n == Value(g.value[..|g.value| - 1])
  {
    match g
    case Some(t) =>
      CaptureDigitRun(t);
      Value(t[..DigitRun(t)])
    case None => 0
  }

  /** `hours * 3600 + minutes * 60 + seconds` over the parsed captures. */
  function Seconds(c: Captures): nat
  {
    ParseIntOrZero(c.hours) * 3600 + ParseIntOrZero(c.minutes) * 60 + ParseIntOrZero(c.seconds)
  }

  /** Total whole seconds of the duration text; None where the source throws
      a TypeError by indexing the `null` match, which happens exactly when
      the text holds no "PT". */
  function ParseDuration(s: string): (r: Option<nat>)
    ensures r.None? <==> !ContainsPT(s)
  {
    match MatchPattern(s)
    case None => None
    case Some(c) => Some(Seconds(c))
  }

  /** Text that starts with "PT" is matched right there. */
  lemma ParseLeadingPT(t: string)
    ensures ParseDuration("PT" + t) == Some(Seconds(MatchGroups(t)))
  {
    assert PTAt("PT" + t, 0);
    assert ("PT" + t)[2..] == t;
  }

  /** One `nX` component of an ISO 8601 time part, or nothing when absent. */
  function Component(n: Option<nat>, designator: char): string
  {
    match n
    case Some(v) => ToDecimal(v) + [designator]
    case None => []
  }

  /** The ISO 8601 time part `PT[nH][nM][nS]` with the components given. */
  function IsoTime(h: Option<nat>, m: Option<nat>, s: Option<nat>): string
  {
    "PT" + Component(h, 'H') + Component(m, 'M') + Component(s, 'S')
  }

  lemma {:induction false} DigitRunOf(t: string, rest: string)
    requires AllDigits(t)
    requires rest == [] || !IsDigit(rest[0])
    ensures DigitRun(t + rest) == |t|
    decreases |t|
  {
    if t != [] {
      assert (t + rest)[1..] == t[1..] + rest;
      DigitRunOf(t[1..], rest);
    }
  }

  /** A present component is captured whole by its own group; an absent one
      leaves the group to whatever follows. */
  lemma GroupOnComponent(n: Option<nat>, d: char, tail: string)
    requires !IsDigit(d)
    ensures Group(Component(n, d) + tail, d) == if n.Some? then Some(Component(n, d)) else Group(tail, d)
  {
    if n.Some? {
      var t := ToDecimal(n.value);
      assert Component(n, d) + tail == t + ([d] + tail);
      DigitRunOf(t, [d] + tail);
      assert (t + ([d] + tail))[..|t| + 1] == t + [d];
    } else {
      assert Component(n, d) + tail == tail;
    }
  }

  /** A present component with another designator stops a group. */
  lemma GroupSkipsComponent(n: Option<nat>, e: char, d: char, tail: string)
    requires !IsDigit(e) && !IsDigit(d) && e != d
    ensures Group(Component(n, e) + tail, d) == if n.Some? then None else Group(tail, d)
  {
    if n.Some? {
      var t := ToDecimal(n.value);
      assert Component(n, e) + tail == t + ([e] + tail);
      DigitRunOf(t, [e] + tail);
    } else {
      assert Component(n, e) + tail == tail;
    }
  }

  /** What a group captures when the text holds the component. */
  function CaptureOf(n: Option<nat>, d: char): Option<string>
  {
    if n.Some? then Some(Component(n, d)) else None
  }

  lemma ParseIntOfComponent(n: Option<nat>, d: char)
    requires !IsDigit(d)
    ensures ParseIntOrZero(CaptureOf(n, d)) == OrZero(n)
  {
    if n.Some? {
      var t := ToDecimal(n.value);
      assert (t + [d])[..|t|] == t;
    }
  }

  /** The group for designator d is still to be tried after the components
      present: d comes after the last of them in the order H, M, S. */
  predicate Pending(h: Option<nat>, m: Option<nat>, s: Option<nat>, d: char)
  {
    (d == 'S' && s.None?) || (d == 'M' && m.None? && s.None?) || (d == 'H' && h.None? && m.None? && s.None?)
  }

  /** No group still to be tried captures anything at the start of tail. */
  predicate Blocked(h: Option<nat>, m: Option<nat>, s: Option<nat>, tail: string)
  {
    (Pending(h, m, s, 'H') ==> Group(tail, 'H').None?) &&
    (Pending(h, m, s, 'M') ==> Group(tail, 'M').None?) &&
    (Pending(h, m, s, 'S') ==> Group(tail, 'S').None?)
  }

  /** The hours group captures the hours component, and nothing when it is absent. */
  lemma HoursGroup(h: Option<nat>, m: Option<nat>, s: Option<nat>, tail: string)
    requires Blocked(h, m, s, tail)
    ensures Group(Component(h, 'H') + (Component(m, 'M') + (Component(s, 'S') + tail)), 'H') == CaptureOf(h, 'H')
  {
    var cm, cs := Component(m, 'M'), Component(s, 'S');
    GroupOnComponent(h, 'H', cm + (cs + tail));
    if h.None? {
      GroupSkipsComponent(m, 'M', 'H', cs + tail);
      if m.None? {
        GroupSkipsComponent(s, 'S', 'H', tail);
      }
    }
  }

  /** The minutes group captures the minutes component, and nothing when it is absent. */
  lemma MinutesGroup(m: Option<nat>, s: Option<nat>, tail: string)
    requires m.None? && s.None? ==> Group(tail, 'M').None?
    ensures Group(Component(m, 'M') + (Component(s, 'S') + tail), 'M') == CaptureOf(m, 'M')
  {
    GroupOnComponent(m, 'M', Component(s, 'S') + tail);
    if m.None? {
      GroupSkipsComponent(s, 'S', 'M', tail);
    }
  }

  lemma SecondsGroup(s: Option<nat>, tail: string)
    requires s.None? ==> Group(tail, 'S').None?
    ensures Group(Component(s, 'S') + tail, 'S') == CaptureOf(s, 'S')
  {
    GroupOnComponent(s, 'S', tail);
  }

  lemma MatchComponents(h: Option<nat>, m: Option<nat>, s: Option<nat>, tail: string)
    requires Blocked(h, m, s, tail)
    ensures MatchGroups(Component(h, 'H') + Component(m, 'M') + Component(s, 'S') + tail)
         == Captures(CaptureOf(h, 'H'), CaptureOf(m, 'M'), CaptureOf(s, 'S'))
  {
    var ch, cm, cs := Component(h, 'H'), Component(m, 'M'), Component(s, 'S');
    var t := ch + cm + cs + tail;
    assert t == ch + (cm + (cs + tail));
    HoursGroup(h, m, s, tail);
    assert t[|Text(CaptureOf(h, 'H'))|..] == cm + (cs + tail);
    MinutesGroup(m, s, tail);
    assert (cm + (cs + tail))[|Text(CaptureOf(m, 'M'))|..] == cs + tail;
    SecondsGroup(s, tail);
  }

  lemma SecondsOfComponents(h: Option<nat>, m: Option<nat>, s: Option<nat>)
    ensures Seconds(Captures(CaptureOf(h, 'H'), CaptureOf(m, 'M'), CaptureOf(s, 'S')))
         == OrZero(h) * 3600 + OrZero(m) * 60 + OrZero(s)
  {
    ParseIntOfComponent(h, 'H');
    ParseIntOfComponent(m, 'M');
    ParseIntOfComponent(s, 'S');
  }

  /** Reading `PT[nH][nM][nS]` followed by text that no group still to be
      tried can take gives h*3600 + m*60 + s, each missing component counting
      as 0; the text after the match is ignored. */
  lemma ParseIsoTimeThen(h: Option<nat>, m: Option<nat>, s: Option<nat>, tail: string)
    requires Blocked(h, m, s, tail)
    ensures ParseDuration(IsoTime(h, m, s) + tail).Some?
    ensures ParseDuration(IsoTime(h, m, s) + tail).value == OrZero(h) * 3600 + OrZero(m) * 60 + OrZero(s)
  {
    var t := Component(h, 'H') + Component(m, 'M') + Component(s, 'S') + tail;
    assert IsoTime(h, m, s) + tail == "PT" + t;
    ParseLeadingPT(t);
    MatchComponents(h, m, s, tail);
    SecondsOfComponents(h, m, s);
  }

  /** Reading `PT[nH][nM][nS]` gives h*3600 + m*60 + s, each missing
      component counting as 0. */
  lemma ParseIsoTime(h: Option<nat>, m: Option<nat>, s: Option<nat>)
    ensures ParseDuration(IsoTime(h, m, s)).Some?
    ensures ParseDuration(IsoTime(h, m, s)).value == OrZero(h) * 3600 + OrZero(m) * 60 + OrZero(s)
  {
    assert IsoTime(h, m, s) + [] == IsoTime(h, m, s);
    ParseIsoTimeThen(h, m, s, []);
  }

  /** Components are only recognised in the order H, M, S: a component whose
      designator does not come after the last one present (a minutes or hours
      component after seconds, hours after minutes, a repeated designator, or
      any other letter or mark) ends the match, and it and everything after it
      are ignored. */
  lemma LateComponentIgnored(h: Option<nat>, m: Option<nat>, s: Option<nat>, x: nat, d: char, rest: string)
    requires !IsDigit(d) && !Pending(h, m, s, d)
    ensures ParseDuration(IsoTime(h, m, s) + Component(Some(x), d) + rest).Some?
    ensures ParseDuration(IsoTime(h, m, s) + Component(Some(x), d) + rest).value
         == OrZero(h) * 3600 + OrZero(m) * 60 + OrZero(s)
  {
    var tail := Component(Some(x), d) + rest;
    if Pending(h, m, s, 'H') {
      GroupSkipsComponent(Some(x), d, 'H', rest);
    }
    if Pending(h, m, s, 'M') {
      GroupSkipsComponent(Some(x), d, 'M', rest);
    }
    if Pending(h, m, s, 'S') {
      GroupSkipsComponent(Some(x), d, 'S', rest);
    }
    assert IsoTime(h, m, s) + Component(Some(x), d) + rest == IsoTime(h, m, s) + tail;
    ParseIsoTimeThen(h, m, s, tail);
  }

  /** All three components: one hour, two minutes and three seconds. */
  lemma FullExample()
    ensures ParseDuration("PT1H2M3S") == Some(3723)
  {
    assert Component(Some(1), 'H') == "1H";
    assert Component(Some(2), 'M') == "2M";
    assert Component(Some(3), 'S') == "3S";
    assert IsoTime(Some(1), Some(2), Some(3)) == "PT1H2M3S";
    ParseIsoTime(Some(1), Some(2), Some(3));
  }

  /** A lone component: the missing ones count as 0. */
  lemma MissingComponentExamples()
    ensures ParseDuration("PT2M") == Some(120)
  {
    assert Component(Some(2), 'M') == "2M";
    assert IsoTime(None, Some(2), None) == "PT2M";
    ParseIsoTime(None, Some(2), None);
  }

  /** The bare designator: every component counts as 0. */
  lemma BarePTExample()
    ensures ParseDuration("PT") == Some(0)
  {
    var t: string := [];
    assert "PT" + t == "PT";
    assert MatchGroups(t) == Captures(None, None, None);
    ParseLeadingPT(t);
  }

  lemma OneMinuteExample()
    ensures ParseDuration("PT1M") == Some(60)
  {
    assert Component(Some(1), 'M') == "1M";
    assert IsoTime(None, Some(1), None) == "PT1M";
    ParseIsoTime(None, Some(1), None);
  }

  lemma LoneSecondsExample()
    ensures ParseDuration("PT45S") == Some(45)
  {
    assert ToDecimal(4) == "4";
    assert ToDecimal(45) == "45";
    assert Component(Some(45), 'S') == "45S";
    assert IsoTime(None, None, Some(45)) == "PT45S";
    ParseIsoTime(None, None, Some(45));
  }

  /** Minutes before hours: the hours are ignored. */
  lemma OutOfOrderExample()
    ensures ParseDuration("PT1M2H") == Some(60)
  {
    assert Component(Some(1), 'M') == "1M" && Component(Some(2), 'H') == "2H";
    assert IsoTime(None, Some(1), None) + Component(Some(2), 'H') + [] == "PT1M2H";
    LateComponentIgnored(None, Some(1), None, 2, 'H', []);
  }

  /** Seconds before minutes: the minutes are ignored. */
  lemma SecondsFirstExample()
    ensures ParseDuration("PT1S2M") == Some(1)
  {
    assert Component(Some(1), 'S') == "1S" && Component(Some(2), 'M') == "2M";
    assert IsoTime(None, None, Some(1)) + Component(Some(2), 'M') + [] == "PT1S2M";
    LateComponentIgnored(None, None, Some(1), 2, 'M', []);
  }

  /** Fractional seconds: no group takes "1.", so the match is the bare "PT". */
  lemma FractionalSecondsExample()
    ensures ParseDuration("PT1.5S") == Some(0)
  {
    assert Component(Some(1), '.') == "1.";
    assert IsoTime(None, None, None) + Component(Some(1), '.') + "5S" == "PT1.5S";
    LateComponentIgnored(None, None, None, 1, '.', "5S");
  }

  /** Texts with a day designator hold no "PT", so the source throws. */
  lemma DayDesignatorExamples()
    ensures ParseDuration("P1D") == None
    ensures ParseDuration("P1DT2H") == None
  {
  }
}
