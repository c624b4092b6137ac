/** Tick labels of the time axis: a duration in milliseconds broken into
    days, hours, minutes, seconds and milliseconds by successive truncating
    division, then printed with the finer units suppressed according to the
    largest tick of the axis. Durations are whole milliseconds (`int`). */
module TimeLabel {

  const MsPerDay: nat := 86400000
  const MsPerHour: nat := 3600000
  const MsPerMinute: nat := 60000
  const MsPerSecond: nat := 1000

  // ---------------------------------------------------------------------
  // Decimal printing of the components

  function DigitChar(d: nat): char
    requires d < 10
  {
    "0123456789"[d]
  }

  /** The decimal form of `n`, as JavaScript prints a non-negative integer. */
  function NatToString(n: nat): (s: string)
    ensures |s| > 0
    ensures forall i :: 0 <= i < |s| ==> '0' <= s[i] <= '9'
    ensures n > 0 ==> s[0] != '0'
    decreases n
  {
    if n < 10 then [DigitChar(n)] else NatToString(n / 10) + [DigitChar(n % 10)]
  }

  /** The value of a string of decimal digits. */
  function DigitsValue(s: string): nat
    requires forall i :: 0 <= i < |s| ==> '0' <= s[i] <= '9'
  {
    if |s| == 0 then 0 else 10 * DigitsValue(s[..|s| - 1]) + (s[|s| - 1] as int - '0' as int)
  }

  /** Printing a number and reading it back gives the number. */
  lemma {:induction false} NatToStringRoundTrip(n: nat)
    ensures DigitsValue(NatToString(n)) == n
    decreases n
  {
    var s := NatToString(n);
    if n >= 10 {
      NatToStringRoundTrip(n / 10);
      assert s[..|s| - 1] == NatToString(n / 10);
    }
  }

  // ---------------------------------------------------------------------
  // Trimming

  function TrimStart(s: string): (r: string)
    ensures |r| <= |s| && r == s[|s| - |r|..]
    ensures r == [] || r[0] != ' '
    ensures forall k :: 0 <= k < |s| - |r| ==> s[k] == ' '
    decreases |s|
  {
    if |s| > 0 && s[0] == ' ' then TrimStart(s[1..]) else s
  }

  function TrimEnd(s: string): (r: string)
    ensures |r| <= |s| && r == s[..|r|]
    ensures r == [] || r[|r| - 1] != ' '
    ensures forall k :: |r| <= k < |s| ==> s[k] == ' '
    decreases |s|
  {
    if |s| > 0 && s[|s| - 1] == ' ' then TrimEnd(s[..|s| - 1]) else s
  }

  /** `String.prototype.trim` on strings whose only white space is ' '. */
  function Trim(s: string): (r: string)
    ensures r == [] || (r[0] != ' ' && r[|r| - 1] != ' ')
    ensures exists i, j ::
      && 0 <= i <= j <= |s| && r == s[i..j]
      && (forall k :: 0 <= k < i ==> s[k] == ' ')
      && (forall k :: j <= k < |s| ==> s[k] == ' ')
  {
    TrimSlice(s, TrimStart(s), TrimEnd(TrimStart(s)));
    TrimEnd(TrimStart(s))
  }

  /** Dropping leading spaces (giving `t`) and then trailing ones (giving
      `r`) keeps the slice of `s` between them. */
  lemma TrimSlice(s: string, t: string, r: string)
    requires |t| <= |s| && t == s[|s| - |t|..]
    requires |r| <= |t| && r == t[..|r|]
    requires forall k :: |r| <= k < |t| ==> t[k] == ' '
    ensures |s| - |t| + |r| <= |s| && r == s[|s| - |t|..|s| - |t| + |r|]
    ensures forall k :: |s| - |t| + |r| <= k < |s| ==> s[k] == ' '
  {
    var i := |s| - |t|;
    forall k | 0 <= k < |r| ensures r[k] == s[i + k] {
      assert r[k] == t[k];
    }
    SpacesAfter(s, i, t, |r|);
  }

  /** Spaces at the end of a suffix are spaces at the end of the whole. */
  lemma SpacesAfter(s: string, i: nat, t: string, n: nat)
    requires i <= |s| && t == s[i..] && n <= |t|
    requires forall k :: n <= k < |t| ==> t[k] == ' '
    ensures forall k :: i + n <= k < |s| ==> s[k] == ' '
  {
    forall k | i + n <= k < |s| ensures s[k] == ' ' {
      assert s[k] == t[k - i];
    }
  }

  /** Trimming passes over a leading character that is not a space. */
  lemma {:induction false} TrimEndPrefix(c: char, s: string)
    requires c != ' '
    ensures TrimEnd([c] + s) == [c] + TrimEnd(s)
    decreases |s|
  {
    if |s| > 0 && s[|s| - 1] == ' ' {
      assert ([c] + s)[..|s|] == [c] + s[..|s| - 1];
      TrimEndPrefix(c, s[..|s| - 1]);
    }
  }

  // ---------------------------------------------------------------------
  // Breakdown of a duration

  datatype Breakdown = Breakdown(days: nat, hours: nat, minutes: nat, seconds: nat, millis: nat)

  /** Successive truncating division of a non-negative duration; days are
      split off only when asked for, otherwise the hours are unbounded. */
  function Decompose(ms: nat, showDays: bool): (b: Breakdown)
    ensures b.days * MsPerDay + b.hours * MsPerHour + b.minutes * MsPerMinute + b.seconds * MsPerSecond + b.millis == ms
    ensures b.minutes < 60 && b.seconds < 60 && b.millis < 1000
    ensures showDays ==> b.hours < 24
    ensures !showDays ==> b.days == 0
  {
    var days := if showDays then ms / MsPerDay else 0;
    var afterDays := ms - MsPerDay * days;
    var hours := afterDays / MsPerHour;
    var afterHours := afterDays - MsPerHour * hours;
    var minutes := afterHours / MsPerMinute;
    var afterMinutes := afterHours - MsPerMinute * minutes;
    var seconds := afterMinutes / MsPerSecond;
    Breakdown(days, hours, minutes, seconds, afterMinutes - MsPerSecond * seconds)
  }

  /** Two breakdowns within the same bounds that add up to the same duration
      are the same: the breakdown is the only one there is. */
  lemma DecomposeUnique(ms: nat, showDays: bool, b: Breakdown)
    requires b.days * MsPerDay + b.hours * MsPerHour + b.minutes * MsPerMinute + b.seconds * MsPerSecond + b.millis == ms
    requires b.minutes < 60 && b.seconds < 60 && b.millis < 1000
    requires showDays ==> b.hours < 24
    requires !showDays ==> b.days == 0
    ensures Decompose(ms, showDays) == b
  {
    var d := Decompose(ms, showDays);
    var lowB := b.minutes * MsPerMinute + b.seconds * MsPerSecond + b.millis;
    var lowD := d.minutes * MsPerMinute + d.seconds * MsPerSecond + d.millis;
    assert lowB < MsPerHour && lowD < MsPerHour;
    if showDays {
      assert b.hours * MsPerHour + lowB < MsPerDay;
      assert d.hours * MsPerHour + lowD < MsPerDay;
      DivUnique(ms, MsPerDay, b.days, b.hours * MsPerHour + lowB);
      DivUnique(ms, MsPerDay, d.days, d.hours * MsPerHour + lowD);
    }
    var restB := b.hours * MsPerHour + lowB;
    DivUnique(restB, MsPerHour, b.hours, lowB);
    DivUnique(restB, MsPerHour, d.hours, lowD);
    DivUnique(lowB, MsPerMinute, b.minutes, b.seconds * MsPerSecond + b.millis);
    DivUnique(lowB, MsPerMinute, d.minutes, d.seconds * MsPerSecond + d.millis);
    var secB := b.seconds * MsPerSecond + b.millis;
    DivUnique(secB, MsPerSecond, b.seconds, b.millis);
    DivUnique(secB, MsPerSecond, d.seconds, d.millis);
  }

  lemma DivUnique(n: nat, k: nat, q: nat, r: nat)
    requires k > 0 && n == q * k + r && r < k
    ensures q == n / k && r == n % k
  {
    var q', r' := n / k, n % k;
    assert (q - q') * k == r' - r;
    MulTrichotomy(q - q', k);
  }

  /** A non-zero multiple of k is at least k away from zero. */
  lemma MulTrichotomy(a: int, k: nat)
    ensures a == 0 || a * k >= k || a * k + k <= 0
  {
    if a >= 1 {
      MulAtLeast(a, k);
    } else if a <= -1 {
      MulAtLeast(-a, k);
      assert a * k + (-a) * k == 0;
    }
  }

  lemma MulAtLeast(a: int, k: nat)
    requires a >= 1
    ensures a * k >= k
  {
  }

  // ---------------------------------------------------------------------
  // The shown components and their printing

  datatype Unit = Day | Hour | Minute | Second | Milli

  datatype Part = Part(value: nat, unit: Unit)

  function Rank(u: Unit): nat
  {
    match u
    case Day => 0
    case Hour => 1
    case Minute => 2
    case Second => 3
    case Milli => 4
  }

  function ValueOf(b: Breakdown, u: Unit): nat
  {
    match u
    case Day => b.days
    case Hour => b.hours
    case Minute => b.minutes
    case Second => b.seconds
    case Milli => b.millis
  }

  predicate Shows(parts: seq<Part>, u: Unit)
  {
    exists i :: 0 <= i < |parts| && parts[i].unit == u
  }

  /** One component, present only when shown and nonzero. */
  function Optional(show: bool, v: nat, u: Unit): seq<Part>
  {
    if show && v != 0 then [Part(v, u)] else []
  }

  lemma ShowsOptional(show: bool, v: nat, u: Unit)
    ensures forall u' :: Shows(Optional(show, v, u), u') <==> show && v != 0 && u' == u
  {
    if show && v != 0 {
      assert Optional(show, v, u)[0].unit == u;
    }
  }

  lemma ShowsAppend(p: seq<Part>, q: seq<Part>)
    ensures forall u :: Shows(p + q, u) <==> Shows(p, u) || Shows(q, u)
  {
    forall u | Shows(p + q, u) ensures Shows(p, u) || Shows(q, u) {
      var i :| 0 <= i < |p + q| && (p + q)[i].unit == u;
      if i >= |p| {
        assert q[i - |p|].unit == u;
      }
    }
    forall u | Shows(q, u) ensures Shows(p + q, u) {
      var i :| 0 <= i < |q| && q[i].unit == u;
      assert (p + q)[|p| + i].unit == u;
    }
    forall u | Shows(p, u) ensures Shows(p + q, u) {
      var i :| 0 <= i < |p| && p[i].unit == u;
      assert (p + q)[i].unit == u;
    }
  }

  /** The components that the label prints, largest unit first: days when
      asked for and not zero, then hours and minutes when not zero, seconds
      only on an axis below one hour, milliseconds only on an axis below five
      seconds, each when not zero. */
  function Parts(b: Breakdown, maxValue: int, showDays: bool): (r: seq<Part>)
    ensures |r| <= 5
    ensures r == [] <==>
      && !(showDays && b.days != 0) && b.hours == 0 && b.minutes == 0
      && !(maxValue < MsPerHour && b.seconds != 0) && !(maxValue < 5000 && b.millis != 0)
  {
    Optional(showDays, b.days, Day) +
    (Optional(true, b.hours, Hour) +
    (Optional(true, b.minutes, Minute) +
    (Optional(maxValue < MsPerHour, b.seconds, Second) +
     Optional(maxValue < 5000, b.millis, Milli))))
  }

  /** Which units the label shows. */
  lemma PartsShown(b: Breakdown, maxValue: int, showDays: bool)
    ensures var parts := Parts(b, maxValue, showDays);
      && (Shows(parts, Day) <==> showDays && b.days != 0)
      && (Shows(parts, Hour) <==> b.hours != 0)
      && (Shows(parts, Minute) <==> b.minutes != 0)
      && (Shows(parts, Second) <==> maxValue < MsPerHour && b.seconds != 0)
      && (Shows(parts, Milli) <==> maxValue < 5000 && b.millis != 0)
  {
    var o1 := Optional(showDays, b.days, Day);
    var o2 := Optional(true, b.hours, Hour);
    var o3 := Optional(true, b.minutes, Minute);
    var o4 := Optional(maxValue < MsPerHour, b.seconds, Second);
    var o5 := Optional(maxValue < 5000, b.millis, Milli);
    ShowsOptional(showDays, b.days, Day);
    ShowsOptional(true, b.hours, Hour);
    ShowsOptional(true, b.minutes, Minute);
    ShowsOptional(maxValue < MsPerHour, b.seconds, Second);
    ShowsOptional(maxValue < 5000, b.millis, Milli);
    ShowsAppend(o4, o5);
    ShowsAppend(o3, o4 + o5);
    ShowsAppend(o2, o3 + (o4 + o5));
    ShowsAppend(o1, o2 + (o3 + (o4 + o5)));
  }

  predicate Ascending(parts: seq<Part>)
  {
    forall i, j :: 0 <= i < j < |parts| ==> Rank(parts[i].unit) < Rank(parts[j].unit)
  }

  predicate CarriesValues(parts: seq<Part>, b: Breakdown)
  {
    forall i :: 0 <= i < |parts| ==> parts[i].value == ValueOf(b, parts[i].unit) != 0
  }

  predicate RanksFrom(parts: seq<Part>, r: nat)
  {
    forall i :: 0 <= i < |parts| ==> Rank(parts[i].unit) >= r
  }

  lemma PrependOptional(show: bool, u: Unit, b: Breakdown, rest: seq<Part>)
    requires Ascending(rest) && CarriesValues(rest, b) && RanksFrom(rest, Rank(u) + 1)
    ensures var parts := Optional(show, ValueOf(b, u), u) + rest;
      Ascending(parts) && CarriesValues(parts, b) && RanksFrom(parts, Rank(u))
  {
    var parts := Optional(show, ValueOf(b, u), u) + rest;
    if show && ValueOf(b, u) != 0 {
      assert forall i :: 1 <= i < |parts| ==> parts[i] == rest[i - 1];
    } else {
      assert parts == rest;
    }
  }

  /** Each shown component carries its own nonzero value, and the units appear
      from the largest to the smallest, each at most once. */
  lemma PartsInOrder(b: Breakdown, maxValue: int, showDays: bool)
    ensures Ascending(Parts(b, maxValue, showDays))
    ensures CarriesValues(Parts(b, maxValue, showDays), b)
  {
    var o5 := Optional(maxValue < 5000, b.millis, Milli);
    PrependOptional(maxValue < 5000, Milli, b, []);
    assert o5 + [] == o5;
    PrependOptional(maxValue < MsPerHour, Second, b, o5);
    var r4 := Optional(maxValue < MsPerHour, b.seconds, Second) + o5;
    PrependOptional(true, Minute, b, r4);
    var r3 := Optional(true, b.minutes, Minute) + r4;
    PrependOptional(true, Hour, b, r3);
    var r2 := Optional(true, b.hours, Hour) + r3;
    PrependOptional(showDays, Day, b, r2);
  }

  function Suffix(u: Unit): string
  {
    match u
    case Day => "d "
    case Hour => " h "
    case Minute => " m "
    case Second => " s "
    case Milli => " ms "
  }

  /** Each component printed as its number followed by its unit. */
  function Render(parts: seq<Part>): (s: string)
    ensures s == [] <==> parts == []
    ensures s != [] ==> '0' <= s[0] <= '9'
  {
    if parts == [] then [] else NatToString(parts[0].value) + Suffix(parts[0].unit) + Render(parts[1..])
  }

  /** The label of a duration `t` on an axis whose largest tick is `maxValue`. */
  function Label(t: int, maxValue: int, showDays: bool): (r: string)
    ensures t < 0 ==> |r| > 0 && r[0] == '-'
    ensures t >= 0 ==> r == [] || '0' <= r[0] <= '9'
  {
    var magnitude := if t < 0 then -t else t;
    var body := Render(Parts(Decompose(magnitude, showDays), maxValue, showDays));
    var text := if t < 0 then "-" + body else body;
    TrimKeepsFirst(text);
    Trim(text)
  }

  /** Trimming a text that does not start with a space keeps its first
      character. */
  lemma TrimKeepsFirst(s: string)
    ensures |s| > 0 && s[0] != ' ' ==> |Trim(s)| > 0 && Trim(s)[0] == s[0]
  {
    if |s| > 0 && s[0] != ' ' {
      assert TrimStart(s) == s;
      var r := TrimEnd(s);
      assert |r| > 0;
      assert r[0] == s[0];
    }
  }

  /** The label is the trimmed, signed text of the magnitude's components. */
  lemma LabelOf(t: int, maxValue: int, showDays: bool, magnitude: nat, body: string)
    requires magnitude == (if t < 0 then -t else t)
    requires body == Render(Parts(Decompose(magnitude, showDays), maxValue, showDays))
    ensures Label(t, maxValue, showDays) == Trim(if t < 0 then "-" + body else body)
  {
  }

  /** The labelling routine, step by step: take the magnitude, split off days
      (when asked for), hours, minutes, seconds and milliseconds, then build the
      text from the minutes outward and trim it. */
  method MilliToString(milliSeconds: int, maxValue: int, showDays: bool) returns (text: string)
    ensures text == Label(milliSeconds, maxValue, showDays)
  {
    var ms := milliSeconds;
    var negative := ms < 0;
    if negative {
      ms := -ms;
    }
    ghost var magnitude: nat := ms;
    var d, h, m, s, frac := Split(ms, showDays);
    var result := JoinParts(d, h, m, s, frac, maxValue, showDays);
    ghost var body := Render(Parts(Decompose(magnitude, showDays), maxValue, showDays));
    assert result == body;
    if negative {
      result := "-" + result;
    }
    LabelOf(milliSeconds, maxValue, showDays, magnitude, body);
    text := Trim(result);
  }

  /** The truncating divisions of the labelling routine: days (when asked
      for), hours, minutes, seconds, and the milliseconds left over. */
  method Split(milliSeconds: nat, showDays: bool) returns (d: nat, h: nat, m: nat, s: nat, frac: nat)
    ensures Breakdown(d, h, m, s, frac) == Decompose(milliSeconds, showDays)
  {
    var ms := milliSeconds;
    d := 0;  // left undefined by the source when days are not asked for; it prints nothing either way
    if showDays {
      d := ms / MsPerDay;
      ms := ms - MsPerDay * d;
    }
    h := ms / MsPerHour;
    ms := ms - MsPerHour * h;
    m := ms / MsPerMinute;
    ms := ms - MsPerMinute * m;
    s := ms / MsPerSecond;
    ms := ms - MsPerSecond * s;
    frac := ms;
  }

  /** The text of the shown components, built as the labelling routine
      builds it: minutes first, then seconds and milliseconds appended, then
      hours and days put in front. */
  method JoinParts(d: nat, h: nat, m: nat, s: nat, frac: nat, maxValue: int, showDays: bool) returns (result: string)
    requires !showDays ==> d == 0
    ensures result == Render(Parts(Breakdown(d, h, m, s, frac), maxValue, showDays))
  {
    ghost var pm := Piece(true, m, Minute);
    ghost var ps := Piece(maxValue < MsPerHour, s, Second);
    ghost var pf := Piece(maxValue < 5000, frac, Milli);
    ghost var ph := Piece(true, h, Hour);
    ghost var pd := Piece(showDays, d, Day);
    result := if m != 0 then NatToString(m) + " m " else "";
    assert result == pm;
    if maxValue < MsPerHour {
      if s != 0 {
        result := result + NatToString(s) + " s ";
        AppendAssoc(pm, NatToString(s), " s ");
      }
    }
    assert result == pm + ps by {
      if !(maxValue < MsPerHour && s != 0) {
        assert ps == [];
        AppendEmpty(pm);
      }
    }
    if maxValue < 5000 {
      result := if frac != 0 then result + NatToString(frac) + " ms " else result;
      if frac != 0 {
        AppendAssoc(pm + ps, NatToString(frac), " ms ");
      }
    }
    assert result == (pm + ps) + pf by {
      if !(maxValue < 5000 && frac != 0) {
        assert pf == [];
        AppendEmpty(pm + ps);
      }
    }
    AppendAssoc(pm, ps, pf);
    if h != 0 {
      result := NatToString(h) + " h " + result;
    }
    assert result == ph + (pm + (ps + pf)) by {
      if h == 0 {
        assert ph == [];
        AppendEmpty(pm + (ps + pf));
      }
    }
    if d != 0 {
      result := NatToString(d) + "d " + result;
    }
    assert result == pd + (ph + (pm + (ps + pf))) by {
      if d == 0 {
        assert pd == [];
        AppendEmpty(ph + (pm + (ps + pf)));
      }
    }
    RenderParts(Breakdown(d, h, m, s, frac), maxValue, showDays);
  }

  lemma AppendEmpty(a: string)
    ensures [] + a == a && a + [] == a
  {
  }

  lemma AppendAssoc(a: string, b: string, c: string)
    ensures (a + b) + c == a + (b + c)
  {
  }

  /** The printed components, spelled out in the order the routine builds
      them. */
  lemma RenderParts(b: Breakdown, maxValue: int, showDays: bool)
    ensures Render(Parts(b, maxValue, showDays)) ==
      Piece(showDays, b.days, Day) +
      (Piece(true, b.hours, Hour) +
      (Piece(true, b.minutes, Minute) +
      (Piece(maxValue < MsPerHour, b.seconds, Second) +
       Piece(maxValue < 5000, b.millis, Milli))))
  {
    var o1 := Optional(showDays, b.days, Day);
    var o2 := Optional(true, b.hours, Hour);
    var o3 := Optional(true, b.minutes, Minute);
    var o4 := Optional(maxValue < MsPerHour, b.seconds, Second);
    var o5 := Optional(maxValue < 5000, b.millis, Milli);
    RenderAppend(o1, o2 + (o3 + (o4 + o5)));
    RenderAppend(o2, o3 + (o4 + o5));
    RenderAppend(o3, o4 + o5);
    RenderAppend(o4, o5);
    RenderOptional(showDays, b.days, Day);
    RenderOptional(true, b.hours, Hour);
    RenderOptional(true, b.minutes, Minute);
    RenderOptional(maxValue < MsPerHour, b.seconds, Second);
    RenderOptional(maxValue < 5000, b.millis, Milli);
  }

  /** The text of one component: its number and unit when shown and nonzero. */
  function Piece(show: bool, v: nat, u: Unit): string
  {
    if show && v != 0 then NatToString(v) + Suffix(u) else ""
  }

  lemma RenderOptional(show: bool, v: nat, u: Unit)
    ensures Render(Optional(show, v, u)) == Piece(show, v, u)
  {
    if show && v != 0 {
      assert Optional(show, v, u)[1..] == [];
    }
  }

  lemma {:induction false} RenderAppend(p: seq<Part>, q: seq<Part>)
    ensures Render(p + q) == Render(p) + Render(q)
    decreases |p|
  {
    if p == [] {
      assert p + q == q;
    } else {
      assert (p + q)[0] == p[0];
      assert (p + q)[1..] == p[1..] + q;
      RenderAppend(p[1..], q);
    }
  }

  // ---------------------------------------------------------------------
  // Properties of the label

  /** A zero duration has an empty label. */
  lemma LabelOfZero(maxValue: int, showDays: bool)
    ensures Label(0, maxValue, showDays) == ""
  {
    var b := Decompose(0, showDays);
    DecomposeUnique(0, showDays, Breakdown(0, 0, 0, 0, 0));
  }

  /** A negative duration is labelled as its magnitude with a leading '-'. */
  lemma LabelOfNegative(t: int, maxValue: int, showDays: bool)
    requires t < 0
    ensures Label(t, maxValue, showDays) == "-" + Label(-t, maxValue, showDays)
  {
    var body := Render(Parts(Decompose(-t, showDays), maxValue, showDays));
    assert TrimStart("-" + body) == "-" + body;
    assert TrimStart(body) == body;
    TrimEndPrefix('-', body);
  }

  /** A label never starts or ends with a space. */
  lemma LabelTrimmed(t: int, maxValue: int, showDays: bool)
    ensures var l := Label(t, maxValue, showDays); l == "" || (l[0] != ' ' && l[|l| - 1] != ' ')
  {
  }

  /** Below one second, on an axis below five seconds, the label is the
      milliseconds alone. */
  lemma LabelBelowOneSecond(t: int, maxValue: int, showDays: bool)
    requires 0 < t < 1000 && maxValue < 5000
    ensures Label(t, maxValue, showDays) == NatToString(t) + " ms"
  {
    var b := Breakdown(0, 0, 0, 0, t);
    DecomposeUnique(t, showDays, b);
    RenderParts(b, maxValue, showDays);
    var body := NatToString(t) + " ms ";
    assert Render(Parts(b, maxValue, showDays)) == body;
    TrimmedNumberUnit(NatToString(t), " ms ");
    assert Label(t, maxValue, showDays) == Trim(body);
  }

  /** A whole number of hours, without days, is labelled in hours alone. */
  lemma LabelWholeHours(h: nat, maxValue: int)
    requires h > 0
    ensures Label(h * MsPerHour, maxValue, false) == NatToString(h) + " h"
  {
    var b := Breakdown(0, h, 0, 0, 0);
    DecomposeUnique(h * MsPerHour, false, b);
    RenderParts(b, maxValue, false);
    var body := NatToString(h) + " h ";
    assert Render(Parts(b, maxValue, false)) == body;
    TrimmedNumberUnit(NatToString(h), " h ");
    assert Label(h * MsPerHour, maxValue, false) == Trim(body);
  }

  /** Trimming a number followed by a unit drops only the unit's trailing
      space. */
  lemma TrimmedNumberUnit(digits: string, unit: string)
    requires |digits| > 0 && digits[0] != ' '
    requires |unit| >= 2 && unit[|unit| - 1] == ' ' && unit[|unit| - 2] != ' '
    ensures Trim(digits + unit) == digits + unit[..|unit| - 1]
  {
    var s := digits + unit;
    assert s[0] == digits[0];
    assert TrimStart(s) == s;
    var r := digits + unit[..|unit| - 1];
    assert s[..|s| - 1] == r;
    assert r[|r| - 1] == unit[|unit| - 2];
    assert s[|s| - 1] == ' ';
    assert TrimEnd(s) == TrimEnd(r);
    assert TrimEnd(r) == r;
  }
}
