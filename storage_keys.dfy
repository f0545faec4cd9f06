/**
 * Storage keys and the clock.
 *
 * Time is a count of milliseconds. A calendar day is the day number
 * `now / DayMs`, and the date text the script puts into a daily key is
 * modelled as the decimal numeral of that day number, so that reading the
 * date back out of a key is `ParseNat` and can fail on text that is not a
 * numeral (the browser's "Invalid Date").
 */
module StorageKeys {
  import opened Options

  const MinuteMs: nat := 60 * 1000
  const DayMs: nat := 24 * 60 * MinuteMs
  /** A visit within this many milliseconds of the last one is a repeat. */
  const RecentWindowMs: nat := 30 * MinuteMs
  /** Daily visitor lists older than this many days are deleted. */
  const RetentionDays: nat := 30

  const TotalKey: string := "totalVisitors"
  const HistoryKey: string := "visitHistory"
  const DailyPrefix: string := "dailyVisitors_"
  const SectionPrefix: string := "section_"
  const SessionKey: string := "currentSession"
  const SectionViewsKey: string := "sectionViews"

  /** The day number `now` falls in. */
  function Today(now: nat): nat {
    now / DayMs
  }

  function DigitChar(d: nat): (c: char)
    requires d < 10
    ensures '0' <= c <= '9' && (c as int) - ('0' as int) == d
  {
    "0123456789"[d]
  }

  function DigitValue(c: char): (r: Option<nat>)
    ensures r.Some? <==> '0' <= c <= '9'
    ensures r.Some? ==> r.value < 10 && DigitChar(r.value) == c
  {
    if '0' <= c <= '9' then Some((c as int - '0' as int) as nat) else None
  }

  /** Decimal numeral of `n`, most significant digit first, no leading zeros. */
  function NatToString(n: nat): (s: string)
    ensures |s| >= 1
    decreases n
  {
    if n < 10 then [DigitChar(n)] else NatToString(n / 10) + [DigitChar(n % 10)]
  }

  /** Reads a non-empty string of decimal digits; None for anything else. */
  function ParseNat(s: string): (r: Option<nat>)
    ensures r.Some? <==> s != [] && forall i :: 0 <= i < |s| ==> '0' <= s[i] <= '9'
    decreases |s|
  {
    if s == [] then None
    else
      match DigitValue(s[|s| - 1])
      case None => None
      case Some(d) =>
        if |s| == 1 then Some(d)
        else
          match ParseNat(s[..|s| - 1])
          case None => None
          case Some(high) => Some(high * 10 + d)
  }

  lemma {:induction false} ParseNatToString(n: nat)
    ensures ParseNat(NatToString(n)) == Some(n)
    decreases n
  {
    var s := NatToString(n);
    if n >= 10 {
      ParseNatToString(n / 10);
      assert s[..|s| - 1] == NatToString(n / 10);
    }
  }

  /** `dailyVisitors_<date>`: the key of one day's visitor list. */
  function DailyKey(day: nat): (k: string)
    ensures DailyPrefix <= k && |k| > |DailyPrefix|
  {
    DailyPrefix + NatToString(day)
  }

  /** `section_<id>`: the key of one section's view counter. */
  function SectionKey(id: string): (k: string)
    ensures SectionPrefix <= k && k[|SectionPrefix|..] == id
  {
    SectionPrefix + id
  }

  /** The date a daily key names, once the prefix is stripped; None when `key`
      is not a daily key or its date text does not parse. */
  function KeyDay(key: string): (r: Option<nat>)
    ensures r.Some? ==> DailyPrefix <= key
  {
    if DailyPrefix <= key then ParseNat(key[|DailyPrefix|..]) else None
  }

  lemma KeyDayOfDailyKey(day: nat)
    ensures KeyDay(DailyKey(day)) == Some(day)
  {
    ParseNatToString(day);
    assert DailyKey(day)[|DailyPrefix|..] == NatToString(day);
  }

  lemma DailyKeyInjective(a: nat, b: nat)
    ensures DailyKey(a) == DailyKey(b) <==> a == b
  {
    KeyDayOfDailyKey(a);
    KeyDayOfDailyKey(b);
  }

  /** A daily key whose date lies more than `RetentionDays` before `now`:
      the day's midnight is earlier than the same time of day thirty days ago. */
  predicate Expired(key: string, now: nat)
    ensures Expired(key, now) ==> DailyPrefix <= key && KeyDay(key).Some?
  {
    match KeyDay(key)
    case None => false
    case Some(day) => day * DayMs < now - RetentionDays * DayMs
  }

  lemma TodayNeverExpired(now: nat)
    ensures !Expired(DailyKey(Today(now)), now)
  {
    KeyDayOfDailyKey(Today(now));
  }
}
