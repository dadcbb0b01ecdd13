/** What the order of creation texts has to do with time: the tracker's layout is local time down to
    the millisecond, then the offset from UTC. */
module CreationTime {
  import opened BulkClose

  datatype Local = Local(year: nat, month: nat, day: nat, hour: nat, minute: nat, second: nat, milli: nat)

  /** `offset` is in minutes, positive to the east. */
  datatype Moment = Moment(local: Local, offset: int)

  // ----- The calendar -----

  predicate Leap(year: nat) {
    year % 4 == 0 && (year % 100 != 0 || year % 400 == 0)
  }

  function DaysIn(year: nat, month: nat): nat {
    if month == 2 then if Leap(year) then 29 else 28
    else if month == 4 || month == 6 || month == 9 || month == 11 then 30
    else 31
  }

  /** Days of the year before a month begins. */
  function DaysBefore(year: nat, month: nat): nat {
    if month <= 1 then 0 else DaysBefore(year, month - 1) + DaysIn(year, month - 1)
  }

  /** Days before a year begins. */
  function DaysBeforeYear(year: nat): nat {
    if year == 0 then 0 else DaysBeforeYear(year - 1) + DaysBefore(year - 1, 13)
  }

  predicate Valid(l: Local) {
    && l.year < 10000 && 1 <= l.month <= 12 && 1 <= l.day <= DaysIn(l.year, l.month)
    && l.hour < 24 && l.minute < 60 && l.second < 60 && l.milli < 1000
  }

  function Day(l: Local): nat {
    DaysBeforeYear(l.year) + DaysBefore(l.year, l.month) + l.day
  }

  function Clock(l: Local): nat {
    ((l.hour * 60 + l.minute) * 60 + l.second) * 1000 + l.milli
  }

  function LocalMillis(l: Local): nat {
    Day(l) * 86_400_000 + Clock(l)
  }

  /** Milliseconds in UTC. */
  function Instant(m: Moment): int {
    LocalMillis(m.local) - 60_000 * m.offset
  }

  // ----- The text -----

  function Digits(n: nat, width: nat): (s: string)
    ensures |s| == width
  {
    if width == 0 then "" else Digits(n / 10, width - 1) + [('0' as int + n % 10) as char]
  }

  function Power(width: nat): nat {
    if width == 0 then 1 else 10 * Power(width - 1)
  }

  /** A field's width and what stands behind it. */
  type Field = (nat, string)

  const LAYOUT: seq<Field> := [(4, "-"), (2, "-"), (2, "T"), (2, ":"), (2, ":"), (2, "."), (3, "")]

  function FieldsText(values: seq<nat>, layout: seq<Field>): string
    requires |values| == |layout|
  {
    if values == [] then ""
    else Digits(values[0], layout[0].0) + (layout[0].1 + FieldsText(values[1..], layout[1..]))
  }

  function Fields(l: Local): seq<nat> {
    [l.year, l.month, l.day, l.hour, l.minute, l.second, l.milli]
  }

  function OffsetText(offset: int): string {
    var minutes := if offset < 0 then -offset else offset;
    [if offset < 0 then '-' else '+'] + Digits(minutes / 60, 2) + Digits(minutes % 60, 2)
  }

  function TextOf(m: Moment): string {
    FieldsText(Fields(m.local), LAYOUT) + OffsetText(m.offset)
  }

  // ----- The order of the texts is that of the fields -----

  predicate Less(v: seq<nat>, w: seq<nat>) {
    v != [] && w != [] && (v[0] < w[0] || (v[0] == w[0] && Less(v[1..], w[1..])))
  }

  lemma {:induction false} BeforeAppend(a: string, b: string, x: string, y: string)
    requires |a| == |b|
    ensures Before(a + x, b + y) <==> Before(a, b) || (a == b && Before(x, y))
  {
    if a == "" {
      assert a + x == x && b + y == y;
    } else {
      BeforeAppend(a[1..], b[1..], x, y);
      assert (a + x)[1..] == a[1..] + x && (b + y)[1..] == b[1..] + y;
      assert a == [a[0]] + a[1..] && b == [b[0]] + b[1..];
    }
  }

  lemma {:induction false} DigitsOrder(n: nat, m: nat, width: nat)
    requires n < Power(width) && m < Power(width)
    ensures Before(Digits(n, width), Digits(m, width)) <==> n < m
    ensures Digits(n, width) == Digits(m, width) <==> n == m
  {
    if width > 0 {
      var x, y := [('0' as int + n % 10) as char], [('0' as int + m % 10) as char];
      DigitsOrder(n / 10, m / 10, width - 1);
      BeforeAppend(Digits(n / 10, width - 1), Digits(m / 10, width - 1), x, y);
      assert Before(x, y) <==> n % 10 < m % 10 by {
        assert x[1..] == "" && y[1..] == "";
      }
      assert n == 10 * (n / 10) + n % 10 && m == 10 * (m / 10) + m % 10;
      if Digits(n, width) == Digits(m, width) {
        assert Digits(n, width)[..width - 1] == Digits(n / 10, width - 1);
        assert Digits(m, width)[..width - 1] == Digits(m / 10, width - 1);
        assert Digits(n, width)[width - 1] == x[0] && Digits(m, width)[width - 1] == y[0];
      }
    }
  }

  ghost predicate Fit(values: seq<nat>, layout: seq<Field>) {
    |values| == |layout| && forall i | 0 <= i < |values| :: values[i] < Power(layout[i].0)
  }

  lemma {:induction false} FieldsOrder(v: seq<nat>, w: seq<nat>, layout: seq<Field>, x: string, y: string)
    requires Fit(v, layout) && Fit(w, layout)
    ensures Before(FieldsText(v, layout) + x, FieldsText(w, layout) + y) <==> Less(v, w) || (v == w && Before(x, y))
  {
    if v == [] {
      assert FieldsText(v, layout) + x == x && FieldsText(w, layout) + y == y;
    } else {
      FieldsOrder(v[1..], w[1..], layout[1..], x, y);
      FirstField(v, w, layout, x, y);
      assert v == [v[0]] + v[1..] && w == [w[0]] + w[1..];
    }
  }

  lemma FirstField(v: seq<nat>, w: seq<nat>, layout: seq<Field>, x: string, y: string)
    requires Fit(v, layout) && Fit(w, layout) && v != []
    ensures Before(FieldsText(v, layout) + x, FieldsText(w, layout) + y) <==>
            v[0] < w[0]
            || (v[0] == w[0]
                && Before(FieldsText(v[1..], layout[1..]) + x, FieldsText(w[1..], layout[1..]) + y))
  {
    var a, b := Digits(v[0], layout[0].0), Digits(w[0], layout[0].0);
    var sep := layout[0].1;
    var s, t := FieldsText(v[1..], layout[1..]) + x, FieldsText(w[1..], layout[1..]) + y;
    assert FieldsText(v, layout) + x == a + (sep + s);
    assert FieldsText(w, layout) + y == b + (sep + t);
    DigitsOrder(v[0], w[0], layout[0].0);
    BeforeAppend(a, b, sep + s, sep + t);
    BeforeAppend(sep, sep, s, t);
    BeforeIsIrreflexive(sep);
  }

  // ----- The order of the fields is that of local time -----

  lemma {:induction false} LessAppend(a: seq<nat>, b: seq<nat>, v: seq<nat>, w: seq<nat>)
    requires |a| == |b|
    ensures Less(a + v, b + w) <==> Less(a, b) || (a == b && Less(v, w))
  {
    if a == [] {
      assert a + v == v && b + w == w;
    } else {
      LessAppend(a[1..], b[1..], v, w);
      assert (a + v)[1..] == a[1..] + v && (b + w)[1..] == b[1..] + w;
      assert a == [a[0]] + a[1..] && b == [b[0]] + b[1..];
    }
  }

  lemma {:induction false} MonthsAdd(year: nat, month: nat, later: nat)
    requires 1 <= month < later
    ensures DaysBefore(year, month) + DaysIn(year, month) <= DaysBefore(year, later)
    decreases later
  {
    if month < later - 1 {
      MonthsAdd(year, month, later - 1);
    }
  }

  lemma {:induction false} YearsAdd(year: nat, later: nat)
    requires year < later
    ensures DaysBeforeYear(year) + DaysBefore(year, 13) <= DaysBeforeYear(later)
    decreases later
  {
    if year < later - 1 {
      YearsAdd(year, later - 1);
    }
  }

  /** A later date is a later day. */
  lemma DateGrows(l: Local, m: Local)
    requires Valid(l) && Valid(m)
    requires l.year < m.year || (l.year == m.year && (l.month < m.month || (l.month == m.month && l.day < m.day)))
    ensures Day(l) < Day(m)
  {
    if l.year < m.year {
      MonthsAdd(l.year, l.month, 13);
      YearsAdd(l.year, m.year);
    } else if l.month < m.month {
      MonthsAdd(l.year, l.month, m.month);
    }
  }

  lemma LessOfThree(l: Local, m: Local)
    ensures Less([l.year, l.month, l.day], [m.year, m.month, m.day]) <==>
            l.year < m.year || (l.year == m.year && (l.month < m.month || (l.month == m.month && l.day < m.day)))
  {
    var v, w := [l.year, l.month, l.day], [m.year, m.month, m.day];
    assert v[1..] == [l.month, l.day] && w[1..] == [m.month, m.day];
    assert v[1..][1..] == [l.day] && w[1..][1..] == [m.day];
    assert Less([l.day], [m.day]) <==> l.day < m.day;
    assert Less([l.month, l.day], [m.month, m.day]) <==>
           l.month < m.month || (l.month == m.month && l.day < m.day);
  }

  lemma LessOfFour(l: Local, m: Local)
    requires Valid(l) && Valid(m)
    ensures Less([l.hour, l.minute, l.second, l.milli], [m.hour, m.minute, m.second, m.milli]) <==> Clock(l) < Clock(m)
  {
    var v, w := [l.hour, l.minute, l.second, l.milli], [m.hour, m.minute, m.second, m.milli];
    assert v[1..] == [l.minute, l.second, l.milli] && w[1..] == [m.minute, m.second, m.milli];
    assert v[1..][1..] == [l.second, l.milli] && w[1..][1..] == [m.second, m.milli];
    assert v[1..][1..][1..] == [l.milli] && w[1..][1..][1..] == [m.milli];
    assert Less([l.milli], [m.milli]) <==> l.milli < m.milli;
    assert Less([l.second, l.milli], [m.second, m.milli]) <==>
           l.second < m.second || (l.second == m.second && l.milli < m.milli);
    assert Less(v[1..], w[1..]) <==>
           l.minute < m.minute || (l.minute == m.minute && Less([l.second, l.milli], [m.second, m.milli]));
  }

  lemma LocalOrder(l: Local, m: Local)
    requires Valid(l) && Valid(m)
    ensures Less(Fields(l), Fields(m)) <==> LocalMillis(l) < LocalMillis(m)
  {
    var a, b := [l.year, l.month, l.day], [m.year, m.month, m.day];
    var v, w := [l.hour, l.minute, l.second, l.milli], [m.hour, m.minute, m.second, m.milli];
    assert Fields(l) == a + v && Fields(m) == b + w;
    LessAppend(a, b, v, w);
    LessOfThree(l, m);
    LessOfThree(m, l);
    LessOfFour(l, m);
    assert Clock(l) < 86_400_000 && Clock(m) < 86_400_000;
    if Less(a, b) {
      DateGrows(l, m);
    } else if Less(b, a) {
      DateGrows(m, l);
    } else {
      assert a == b;
    }
  }

  lemma FieldsFit(l: Local)
    requires Valid(l)
    ensures Fit(Fields(l), LAYOUT)
  {
    assert Power(2) == 10 * Power(1) && Power(3) == 10 * Power(2) && Power(4) == 10 * Power(3);
  }

  // ----- Text order and time order -----

  /** For texts with one offset the order of the texts is the order in time. */
  lemma SameOffsetSameOrder(l: Local, m: Local, offset: int)
    requires Valid(l) && Valid(m)
    ensures Before(TextOf(Moment(l, offset)), TextOf(Moment(m, offset))) <==>
            Instant(Moment(l, offset)) < Instant(Moment(m, offset))
  {
    FieldsFit(l);
    FieldsFit(m);
    FieldsOrder(Fields(l), Fields(m), LAYOUT, OffsetText(offset), OffsetText(offset));
    BeforeIsIrreflexive(OffsetText(offset));
    LocalOrder(l, m);
  }

  const MIDNIGHT := Local(2026, 1, 1, 0, 0, 0, 0)
  const AFTER_MIDNIGHT := Local(2026, 1, 1, 0, 0, 0, 1)

  /** A millisecond in the text, against at least a minute in the offsets. */
  lemma OffsetsDisagree(west: int, east: int)
    requires west < east
    ensures Valid(MIDNIGHT) && Valid(AFTER_MIDNIGHT)
    ensures Before(TextOf(Moment(MIDNIGHT, west)), TextOf(Moment(AFTER_MIDNIGHT, east)))
    ensures !Before(TextOf(Moment(AFTER_MIDNIGHT, east)), TextOf(Moment(MIDNIGHT, west)))
    ensures Instant(Moment(AFTER_MIDNIGHT, east)) < Instant(Moment(MIDNIGHT, west))
  {
    FieldsFit(MIDNIGHT);
    FieldsFit(AFTER_MIDNIGHT);
    LocalOrder(MIDNIGHT, AFTER_MIDNIGHT);
    assert LocalMillis(AFTER_MIDNIGHT) == LocalMillis(MIDNIGHT) + 1;
    FieldsOrder(Fields(MIDNIGHT), Fields(AFTER_MIDNIGHT), LAYOUT, OffsetText(west), OffsetText(east));
    BeforeIsOneWay(TextOf(Moment(MIDNIGHT, west)), TextOf(Moment(AFTER_MIDNIGHT, east)));
  }

  /** Text order is time order, for all local times, if and only if the offsets agree. */
  lemma TextOrderIsTimeOrderExactly(a: int, b: int)
    ensures (forall l, m | Valid(l) && Valid(m) ::
               Before(TextOf(Moment(l, a)), TextOf(Moment(m, b))) <==> Instant(Moment(l, a)) < Instant(Moment(m, b)))
            <==> a == b
  {
    if a == b {
      forall l, m | Valid(l) && Valid(m)
        ensures Before(TextOf(Moment(l, a)), TextOf(Moment(m, b))) <==> Instant(Moment(l, a)) < Instant(Moment(m, b))
      {
        SameOffsetSameOrder(l, m, a);
      }
    } else if a < b {
      OffsetsDisagree(a, b);
    } else {
      OffsetsDisagree(b, a);
    }
  }

  // ----- The newest by text, in time -----

  /** `read` reads every creation text, and finds one of these offsets in it. */
  ghost predicate Readable(issues: seq<Issue>, read: string -> Moment, offsets: set<int>) {
    forall iss <- issues ::
      && Valid(read(iss.created).local) && read(iss.created).offset in offsets
      && iss.created == TextOf(read(iss.created))
  }

  /** The issue that stays of a type is, in time, no older than any of the type. */
  ghost predicate StaysNewest(issues: seq<Issue>, read: string -> Moment, ftype: string)
    requires Select(issues, Finding(ftype)) != []
  {
    forall iss <- issues | KindOf(iss) == Finding(ftype) ::
      Instant(read(iss.created)) <= Instant(read(Newest(issues, ftype)[0].created))
  }

  lemma OneOffsetStaysNewest(issues: seq<Issue>, read: string -> Moment, offset: int, ftype: string)
    requires Readable(issues, read, {offset}) && Select(issues, Finding(ftype)) != []
    ensures StaysNewest(issues, read, ftype)
  {
    NewestIsNewest(issues, ftype);
    var first := Newest(issues, ftype)[0];
    forall iss <- issues | KindOf(iss) == Finding(ftype)
      ensures Instant(read(iss.created)) <= Instant(read(first.created))
    {
      SameOffsetSameOrder(read(first.created).local, read(iss.created).local, offset);
    }
  }

  /** Of two findings of one type the one with the larger text stays, older or not. */
  lemma LargerTextStays(late: Moment, early: Moment)
    returns (issues: seq<Issue>, read: string -> Moment, ftype: string)
    requires Valid(late.local) && Valid(early.local)
    requires Before(TextOf(late), TextOf(early)) && !Before(TextOf(early), TextOf(late))
    requires Instant(early) < Instant(late)
    ensures Readable(issues, read, {late.offset, early.offset})
    ensures Select(issues, Finding(ftype)) != [] && !StaysNewest(issues, read, ftype)
  {
    BeforeIsIrreflexive(TextOf(late));
    read := text => if text == TextOf(late) then late else early;
    var closed, kept := Issue("ZB-1", "", {"finding"}, TextOf(late)), Issue("ZB-2", "", {"finding"}, TextOf(early));
    issues, ftype := [closed, kept], TypeOf("", PREFIXES);
    LargerTextIsNewest(issues, closed, kept, ftype);
    assert closed in issues;
  }

  lemma LargerTextIsNewest(issues: seq<Issue>, closed: Issue, kept: Issue, ftype: string)
    requires issues == [closed, kept] && KindOf(closed) == KindOf(kept) == Finding(ftype)
    requires Before(closed.created, kept.created)
    ensures Select(issues, Finding(ftype)) != [] && Newest(issues, ftype)[0] == kept
  {
    SelectCount(issues, Finding(ftype), kept);
    assert kept in issues && multiset(issues)[kept] > 0;
    assert multiset(Select(issues, Finding(ftype)))[kept] > 0;
    NewestIsNewest(issues, ftype);
  }

  /** With two offsets about, there is a backlog of which the older issue stays. */
  lemma OlderStays(west: int, east: int) returns (issues: seq<Issue>, read: string -> Moment, ftype: string)
    requires west < east
    ensures Readable(issues, read, {west, east})
    ensures Select(issues, Finding(ftype)) != [] && !StaysNewest(issues, read, ftype)
  {
    OffsetsDisagree(west, east);
    issues, read, ftype := LargerTextStays(Moment(MIDNIGHT, west), Moment(AFTER_MIDNIGHT, east));
  }

  /** Whatever the backlog, the issue that stays is the newest of its type in time, if and only if all
      creation texts have one offset. */
  lemma StaysNewestExactly(offsets: set<int>)
    ensures (forall issues, read, ftype | Readable(issues, read, offsets) && Select(issues, Finding(ftype)) != [] ::
               StaysNewest(issues, read, ftype))
            <==> (forall a, b | a in offsets && b in offsets :: a == b)
  {
    if a, b :| a in offsets && b in offsets && a < b {
      var issues, read, ftype := OlderStays(a, b);
      assert Readable(issues, read, offsets);
    } else {
      forall issues, read, ftype | Readable(issues, read, offsets) && Select(issues, Finding(ftype)) != []
        ensures StaysNewest(issues, read, ftype)
      {
        NewestIsNewest(issues, ftype);
        var offset := read(Newest(issues, ftype)[0].created).offset;
        assert Readable(issues, read, {offset});
        OneOffsetStaysNewest(issues, read, offset, ftype);
      }
    }
  }
}
