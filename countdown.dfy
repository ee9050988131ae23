/** The two countdown timers (index.tsx lines 297-342 and 345-380): each tick
    splits the milliseconds left into days, hours, minutes and seconds, shows
    each with `padStart(2, '0')`, and once the target has passed stops and
    replaces the timer with a message. Timestamps are integers of
    milliseconds. */
module Countdown {
  import opened Text

  const MS_PER_SECOND: nat := 1000
  const MS_PER_MINUTE: nat := 1000 * 60
  const MS_PER_HOUR: nat := 1000 * 60 * 60
  const MS_PER_DAY: nat := 1000 * 60 * 60 * 24

  const EVENT_STARTED := "The event has started!"
  const EARLY_BIRD_ENDED := "The early bird offer has ended!"

  datatype Parts = Parts(days: nat, hours: nat, minutes: nat, seconds: nat)

  /** The milliseconds a split accounts for. */
  function Recompose(p: Parts): nat {
    p.days * MS_PER_DAY + p.hours * MS_PER_HOUR + p.minutes * MS_PER_MINUTE + p.seconds * MS_PER_SECOND
  }

  predicate Bounded(p: Parts) {
    p.hours < 24 && p.minutes < 60 && p.seconds < 60
  }

  /** The split of one tick: the clock fields stay in range and account for
      the distance down to the last whole second. */
  function SplitDistance(d: nat): (p: Parts)
    ensures Bounded(p)
    ensures Recompose(p) <= d < Recompose(p) + MS_PER_SECOND
  {
    var p := Parts(d / MS_PER_DAY, (d % MS_PER_DAY) / MS_PER_HOUR,
                   (d % MS_PER_HOUR) / MS_PER_MINUTE, (d % MS_PER_MINUTE) / MS_PER_SECOND);
    SplitAccounts(d);
    p
  }

  lemma SplitAccounts(d: nat)
    ensures var days, h, m, s := d / MS_PER_DAY, (d % MS_PER_DAY) / MS_PER_HOUR,
                     (d % MS_PER_HOUR) / MS_PER_MINUTE, (d % MS_PER_MINUTE) / MS_PER_SECOND;
      h < 24 && m < 60 && s < 60 &&
      days * MS_PER_DAY + h * MS_PER_HOUR + m * MS_PER_MINUTE + s * MS_PER_SECOND <= d <
      days * MS_PER_DAY + h * MS_PER_HOUR + m * MS_PER_MINUTE + s * MS_PER_SECOND + MS_PER_SECOND
  {
    DayThenHour(d);
    HourThenMinute(d);
    var rd, rh, rm := d % 86400000, d % 3600000, d % 60000;
    assert d == (d / 86400000) * 86400000 + rd;
    assert rd == (rd / 3600000) * 3600000 + rh;
    assert rh == (rh / 60000) * 60000 + rm;
    assert rm == (rm / 1000) * 1000 + rm % 1000;
  }

  /** The remainder within the day, taken by the hour, is the remainder by
      the hour. */
  lemma DayThenHour(d: nat)
    ensures (d % 86400000) % 3600000 == d % 3600000
  {
    var q, rd := d / 86400000, d % 86400000;
    var h, t := rd / 3600000, rd % 3600000;
    assert d == q * 86400000 + rd;
    assert rd == h * 3600000 + t;
    assert d == (q * 24 + h) * 3600000 + t;
    ModHour(d, q * 24 + h, t);
  }

  lemma HourThenMinute(d: nat)
    ensures (d % 3600000) % 60000 == d % 60000
  {
    var q, rh := d / 3600000, d % 3600000;
    var m, t := rh / 60000, rh % 60000;
    assert d == q * 3600000 + rh;
    assert rh == m * 60000 + t;
    assert d == (q * 60 + m) * 60000 + t;
    ModMinute(d, q * 60 + m, t);
  }

  lemma ModHour(n: int, k: int, t: int)
    requires n == k * 3600000 + t && 0 <= t < 3600000
    ensures n % 3600000 == t
  {
  }

  lemma ModMinute(n: int, k: int, t: int)
    requires n == k * 60000 + t && 0 <= t < 60000
    ensures n % 60000 == t
  {
  }

  /** A bounded split is the only one that accounts for the distance, so the
      split recovers the fields it was built from. */
  lemma SplitUnique(d: nat, p: Parts)
    requires Bounded(p) && Recompose(p) <= d < Recompose(p) + MS_PER_SECOND
    ensures SplitDistance(d) == p
  {
    var t := d - Recompose(p);
    var rs := p.seconds * 1000 + t;
    var rm := p.minutes * 60000 + rs;
    var rh := p.hours * 3600000 + rm;
    assert d == p.days * 86400000 + rh;
    ByDay(d, p.days, rh);
    ByHour(rh, p.hours, rm);
    ByHour(d, p.days * 24 + p.hours, rm);
    ByMinute(rm, p.minutes, rs);
    ByMinute(d, (p.days * 24 + p.hours) * 60 + p.minutes, rs);
    BySecond(rs, p.seconds, t);
  }

  lemma ByDay(n: int, q: int, r: int)
    requires n == q * 86400000 + r && 0 <= r < 86400000
    ensures n / 86400000 == q && n % 86400000 == r
  {
  }

  lemma ByHour(n: int, q: int, r: int)
    requires n == q * 3600000 + r && 0 <= r < 3600000
    ensures n / 3600000 == q && n % 3600000 == r
  {
  }

  lemma ByMinute(n: int, q: int, r: int)
    requires n == q * 60000 + r && 0 <= r < 60000
    ensures n / 60000 == q && n % 60000 == r
  {
  }

  lemma BySecond(n: int, q: int, r: int)
    requires n == q * 1000 + r && 0 <= r < 1000
    ensures n / 1000 == q && n % 1000 == r
  {
  }

  /** Splitting what a bounded split accounts for gives the split back. */
  lemma RecomposeSplit(p: Parts)
    requires Bounded(p)
    ensures SplitDistance(Recompose(p)) == p
  {
    SplitUnique(Recompose(p), p);
  }

  /** The four texts a tick writes. */
  datatype Texts = Texts(days: string, hours: string, minutes: string, seconds: string)

  function Render(p: Parts): Texts {
    Texts(Pad2(p.days), Pad2(p.hours), Pad2(p.minutes), Pad2(p.seconds))
  }

  /** Each text is the number in decimal, at least two digits; the clock
      fields are exactly two. */
  lemma RenderShowsParts(d: nat)
    ensures var p := SplitDistance(d); var t := Render(p);
      AllDigits(t.days) && |t.days| >= 2 && DecimalValue(t.days) == p.days &&
      AllDigits(t.hours) && |t.hours| == 2 && DecimalValue(t.hours) == p.hours &&
      AllDigits(t.minutes) && |t.minutes| == 2 && DecimalValue(t.minutes) == p.minutes &&
      AllDigits(t.seconds) && |t.seconds| == 2 && DecimalValue(t.seconds) == p.seconds
  {
  }

  /** One timer. `ended` holds the heading that replaced the timer once the
      target passed. */
  class Timer {
    const target: int
    const endedMessage: string
    var running: bool
    var texts: Texts
    var ended: string

    constructor (t: int, message: string, initial: Texts)
      ensures target == t && endedMessage == message && running && texts == initial && ended == ""
    {
      target := t;
      endedMessage := message;
      running := true;
      texts := initial;
      ended := "";
    }

    /** The interval callback at time `now`. */
    method Tick(now: int)
      requires running
      modifies this
      ensures target - now < 0 ==> !running && ended == "<h4>" + endedMessage + "</h4>" && texts == old(texts)
      ensures target - now >= 0 ==> running && ended == old(ended) && texts == Render(SplitDistance(target - now))
    {
      var distance := target - now;
      if distance < 0 {
        running := false;
        ended := "<h4>" + endedMessage + "</h4>";
        return;
      }
      var days := Pad2(distance / MS_PER_DAY);
      var hours := Pad2((distance % MS_PER_DAY) / MS_PER_HOUR);
      var minutes := Pad2((distance % MS_PER_HOUR) / MS_PER_MINUTE);
      var seconds := Pad2((distance % MS_PER_MINUTE) / MS_PER_SECOND);
      texts := Texts(days, hours, minutes, seconds);
    }
  }
}
