/** formatTimeAgo: the relative age label shown on every card of the feed.
    Times are whole milliseconds since the epoch; the caller passes "now". */
module TimeAgo {

  /** What a label says, independently of how it is spelled. */
  datatype Label = JustNow | MinutesAgo(minutes: nat) | HoursAgo(hours: nat) | DaysAgo(days: nat)

  /** The digit character for d. */
  function Digit(d: nat): (c: char)
    requires d < 10
    ensures '0' <= c <= '9' && c as int - '0' as int == d
  {
    "0123456789"[d]
  }

  predicate IsDigits(s: string) {
    forall i :: 0 <= i < |s| ==> '0' <= s[i] <= '9'
  }

  /** The decimal numeral of n, as JavaScript's Number-to-string gives it for a
      non-negative integer below 10^21. */
  function DecimalString(n: nat): (r: string)
    ensures |r| >= 1 && IsDigits(r)
    ensures |r| > 1 ==> r[0] != '0'
  {
    if n < 10 then [Digit(n)] else DecimalString(n / 10) + [Digit(n % 10)]
  }

  /** The number a string of digits denotes. */
  function DecimalValue(s: string): nat
    requires IsDigits(s)
  {
    if s == [] then 0 else 10 * DecimalValue(s[..|s| - 1]) + (s[|s| - 1] as int - '0' as int)
  }

  lemma {:induction false} DecimalRoundTrip(n: nat)
    ensures DecimalValue(DecimalString(n)) == n
  {
    if n >= 10 {
      DecimalRoundTrip(n / 10);
      var s := DecimalString(n);
      assert s[..|s| - 1] == DecimalString(n / 10);
    }
  }

  lemma DecimalStringInjective(a: nat, b: nat)
    requires DecimalString(a) == DecimalString(b)
    ensures a == b
  {
    DecimalRoundTrip(a);
    DecimalRoundTrip(b);
  }

  /** Whole seconds elapsed, floored: Math.floor((now - timestamp) / 1000).
      Dafny's division by a positive constant is the floor, also for a
      timestamp in the future. */
  function ElapsedSeconds(timestamp: int, now: int): int {
    (now - timestamp) / 1000
  }

  /** formatTimeAgo as written: chained floors of seconds, minutes and hours.
      It renders exactly the label the single-floor reference chooses. */
  function FormatTimeAgo(timestamp: int, now: int): (r: string)
    ensures r == Render(Classify(ElapsedSeconds(timestamp, now)))
  {
    var seconds := ElapsedSeconds(timestamp, now);
    ChainedFloors(seconds);
    if seconds < 60 then "just now"
    else
      var minutes := seconds / 60;
      if minutes < 60 then DecimalString(minutes) + "m ago"
      else
        var hours := minutes / 60;
        if hours < 24 then DecimalString(hours) + "h ago"
        else DecimalString(hours / 24) + "d ago"
  }

  /** Reference definition: each unit is a single floor of the elapsed seconds. */
  function Classify(seconds: int): (l: Label)
    ensures l.JustNow? <==> seconds < 60
    ensures l.MinutesAgo? <==> 60 <= seconds < 3600
    ensures l.HoursAgo? <==> 3600 <= seconds < 86400
    ensures l.DaysAgo? <==> 86400 <= seconds
    ensures l.MinutesAgo? ==> 1 <= l.minutes <= 59 && 60 * l.minutes <= seconds < 60 * (l.minutes + 1)
    ensures l.HoursAgo? ==> 1 <= l.hours <= 23 && 3600 * l.hours <= seconds < 3600 * (l.hours + 1)
    ensures l.DaysAgo? ==> 1 <= l.days && 86400 * l.days <= seconds < 86400 * (l.days + 1)
  {
    if seconds < 60 then JustNow
    else if seconds < 3600 then MinutesAgo(seconds / 60)
    else if seconds < 86400 then HoursAgo(seconds / 3600)
    else DaysAgo(seconds / 86400)
  }

  /** How a label is spelled on the card. */
  function Render(l: Label): string {
    match l
    case JustNow => "just now"
    case MinutesAgo(m) => DecimalString(m) + "m ago"
    case HoursAgo(h) => DecimalString(h) + "h ago"
    case DaysAgo(d) => DecimalString(d) + "d ago"
  }

  /** Different labels are spelled differently, so the text determines the label. */
  lemma RenderInjective(a: Label, b: Label)
    requires Render(a) == Render(b)
    ensures a == b
  {
    var r := Render(a);
    // the unit letter sits five characters from the end; "just now" ends in 'w'
    assert r[|r| - 1] == (if a.JustNow? then 'w' else 'o');
    assert r[|r| - 1] == (if b.JustNow? then 'w' else 'o');
    if !a.JustNow? {
      var n := |r| - 5;
      var da := match a
        case MinutesAgo(m) => DecimalString(m)
        case HoursAgo(h) => DecimalString(h)
        case DaysAgo(d) => DecimalString(d);
      var db := match b
        case MinutesAgo(m) => DecimalString(m)
        case HoursAgo(h) => DecimalString(h)
        case DaysAgo(d) => DecimalString(d)
        case JustNow => "";
      assert r[..n] == da && r[..n] == db;
      assert r[n] == (match a case MinutesAgo(_) => 'm' case HoursAgo(_) => 'h' case DaysAgo(_) => 'd');
      assert r[n] == (match b case MinutesAgo(_) => 'm' case HoursAgo(_) => 'h' case DaysAgo(_) => 'd' case JustNow => 'w');
      match a {
        case MinutesAgo(m) => DecimalStringInjective(m, b.minutes);
        case HoursAgo(h) => DecimalStringInjective(h, b.hours);
        case DaysAgo(d) => DecimalStringInjective(d, b.days);
      }
    }
  }

  /** Floor of a floor is the floor of the product: (s/60)/60 == s/3600 and
      (s/3600)/24 == s/86400, for every integer s. */
  lemma ChainedFloors(s: int)
    ensures (s / 60) / 60 == s / 3600
    ensures (s / 3600) / 24 == s / 86400
  {
    var q1, r1 := s / 60, s % 60;
    var q2, r2 := q1 / 60, q1 % 60;
    assert s == 3600 * q2 + (60 * r2 + r1);
    FloorUnique(s, 3600, q2, 60 * r2 + r1);
    var q3, r3 := q2 / 24, q2 % 24;
    assert s == 86400 * q3 + (3600 * r3 + 60 * r2 + r1);
    FloorUnique(s, 86400, q3, 3600 * r3 + 60 * r2 + r1);
  }

  lemma FloorUnique(n: int, d: int, q: int, r: int)
    requires d > 0 && n == d * q + r && 0 <= r < d
    ensures n / d == q
  {
    var q' := n / d;
    if q' < q {
      MulMonotone(d, q' + 1, q);
    } else if q < q' {
      MulMonotone(d, q + 1, q');
    }
  }

  lemma MulMonotone(d: int, a: int, b: int)
    requires d > 0 && a <= b
    ensures d * a <= d * b
  {
    assert d * b - d * a == d * (b - a);
  }

  /** "just now" exactly when fewer than 60 whole seconds have passed, which
      includes every timestamp in the future. */
  lemma JustNowIff(timestamp: int, now: int)
    ensures FormatTimeAgo(timestamp, now) == "just now" <==> ElapsedSeconds(timestamp, now) < 60
  {
    var l := Classify(ElapsedSeconds(timestamp, now));
    if Render(l) == "just now" {
      RenderInjective(l, JustNow);
    }
  }

  /** The unit and number formatTimeAgo shows, for every elapsed time. */
  lemma FormatTimeAgoCases(timestamp: int, now: int)
    ensures var s := ElapsedSeconds(timestamp, now);
      && (s < 60 ==> FormatTimeAgo(timestamp, now) == "just now")
      && (60 <= s < 3600 ==> 1 <= s / 60 <= 59 && FormatTimeAgo(timestamp, now) == DecimalString(s / 60) + "m ago")
      && (3600 <= s < 86400 ==> 1 <= s / 3600 <= 23 && FormatTimeAgo(timestamp, now) == DecimalString(s / 3600) + "h ago")
      && (86400 <= s ==> 1 <= s / 86400 && FormatTimeAgo(timestamp, now) == DecimalString(s / 86400) + "d ago")
  {
  }

  /** The worked values: 30 s, 90 s, 3700 s and 90000 s ago. */
  lemma FormatTimeAgoExamples(now: int)
    ensures FormatTimeAgo(now - 30000, now) == "just now"
    ensures FormatTimeAgo(now - 90000, now) == "1m ago"
    ensures FormatTimeAgo(now - 3700000, now) == "1h ago"
    ensures FormatTimeAgo(now - 90000000, now) == "1d ago"
  {
  }
}
