/**
 * The robbery window engine: gang schedules written as `ДН HH:MM+O`
 * tokens and the bank's daily hours written as `HH:MM+O` are moved onto a
 * three-day timeline of minutes in the bank's zone, turned into two
 * occupancy signals by difference arrays and prefix sums, and scanned for
 * runs of `duration` minutes in which the whole gang is free and the bank
 * is open. The result is a cursor over the window starts that can be
 * queried, rendered and advanced.
 */
module Robbery {
  import opened Wrappers
  import opened Text
  import opened Numerals

  const MinutesInDay := 1440
  /** The timeline covers Monday to Wednesday. */
  const TimelineLength := 3 * MinutesInDay
  /** The gang signal value of a minute in which nobody is busy. */
  const Free := 0
  /** The bank signal value of a minute in which the bank is open. */
  const Busy := 1
  /** The zone argument meaning "read a bank token": no weekday, no zone shift. */
  const NoZone := -1

  // ---------------------------------------------------------------------
  // timeToMinutes

  /** The three weekday names the timeline knows. */
  predicate IsWeekDay(name: string)
  {
    name == "ПН" || name == "ВТ" || name == "СР"
  }

  /** Minutes from Monday 00:00 to the start of the named day. */
  function DayStart(name: string): (m: nat)
    requires IsWeekDay(name)
    ensures m % MinutesInDay == 0 && m < TimelineLength
  {
    if name == "ПН" then 0 else if name == "ВТ" then MinutesInDay else 2 * MinutesInDay
  }

  /** A non-empty string of decimal digits, which `parseInt` reads exactly. */
  predicate IsNumeral(s: string)
  {
    |s| >= 1 && AllDigitsIn(s, 10)
  }

  /**
   * Every piece of `time` that `timeToMinutes` hands to `parseInt` or to
   * the weekday table is well formed for the given zone argument.
   */
  predicate Readable(time: string, bankZone: int)
  {
    var beforeOffset := Split(time, '+')[0];
    |Split(beforeOffset, ':')| >= 2 && IsNumeral(Split(beforeOffset, ':')[1]) &&
    if bankZone != NoZone then
      var words := Split(time, ' ');
      |words| >= 2 && IsWeekDay(words[0]) && IsNumeral(Split(words[1], ':')[0]) &&
      |Split(time, '+')| >= 2 && IsNumeral(Split(time, '+')[1])
    else
      IsNumeral(Split(time, ':')[0])
  }

  /**
   * `timeToMinutes`: a gang token `ДН HH:MM+O` read in the bank's zone, or
   * (with `NoZone`) a bank token `HH:MM+O` read as minutes of the day.
   */
  function TimeToMinutes(time: string, bankZone: int): (minutes: int)
    requires Readable(time, bankZone)
    ensures bankZone == NoZone ==> minutes >= 0
  {
    var minutes := ParseDecimal(Split(Split(time, '+')[0], ':')[1]);
    if bankZone != NoZone then
      var words := Split(time, ' ');
      DayStart(words[0]) + ParseDecimal(Split(words[1], ':')[0]) * 60 + minutes
        + (bankZone - ParseDecimal(Split(time, '+')[1])) * 60
    else
      ParseDecimal(Split(time, ':')[0]) * 60 + minutes
  }

  lemma NumeralHasNo(s: string, c: char)
    requires IsNumeral(s) && DigitValue(c) >= 10
    ensures c !in s
  {
  }

  /** The token a gang schedule uses: weekday, space, clock, plus sign, zone. */
  function GangToken(day: string, hh: string, mm: string, zone: string): string
  {
    day + " " + hh + ":" + mm + "+" + zone
  }

  /** The token the bank's hours use: clock, plus sign, zone. */
  function BankToken(hh: string, mm: string, zone: string): string
  {
    hh + ":" + mm + "+" + zone
  }

  /** A gang token cut at the space: the weekday and the clock. */
  lemma GangTokenWords(day: string, hh: string, mm: string, zone: string)
    requires IsWeekDay(day) && IsNumeral(hh) && IsNumeral(mm) && IsNumeral(zone)
    ensures Split(GangToken(day, hh, mm, zone), ' ') == [day, hh + ":" + mm + "+" + zone]
  {
    var clock := hh + ":" + mm + "+" + zone;
    NumeralHasNo(hh, ' '); NumeralHasNo(mm, ' '); NumeralHasNo(zone, ' ');
    assert GangToken(day, hh, mm, zone) == Join([day, clock], ' ');
    SplitJoin([day, clock], ' ');
  }

  /** A gang token cut at the plus sign: everything before the zone, and the zone. */
  lemma GangTokenOffset(day: string, hh: string, mm: string, zone: string)
    requires IsWeekDay(day) && IsNumeral(hh) && IsNumeral(mm) && IsNumeral(zone)
    ensures Split(GangToken(day, hh, mm, zone), '+') == [day + " " + hh + ":" + mm, zone]
  {
    var beforeOffset := day + " " + hh + ":" + mm;
    NumeralHasNo(hh, '+'); NumeralHasNo(mm, '+'); NumeralHasNo(zone, '+');
    assert GangToken(day, hh, mm, zone) == Join([beforeOffset, zone], '+');
    SplitJoin([beforeOffset, zone], '+');
  }

  /** The part before the zone cut at the colon: the minutes come second. */
  lemma GangTokenMinutesPart(day: string, hh: string, mm: string)
    requires IsWeekDay(day) && IsNumeral(hh) && IsNumeral(mm)
    ensures Split(day + " " + hh + ":" + mm, ':') == [day + " " + hh, mm]
  {
    var beforeMinutes := day + " " + hh;
    NumeralHasNo(hh, ':'); NumeralHasNo(mm, ':');
    assert day + " " + hh + ":" + mm == Join([beforeMinutes, mm], ':');
    SplitJoin([beforeMinutes, mm], ':');
  }

  /** The clock cut at the colon: the hours come first. */
  lemma GangTokenHoursPart(hh: string, mm: string, zone: string)
    requires IsNumeral(hh) && IsNumeral(mm) && IsNumeral(zone)
    ensures Split(hh + ":" + mm + "+" + zone, ':') == [hh, mm + "+" + zone]
  {
    NumeralHasNo(hh, ':'); NumeralHasNo(mm, ':'); NumeralHasNo(zone, ':');
    assert hh + ":" + mm + "+" + zone == Join([hh, mm + "+" + zone], ':');
    SplitJoin([hh, mm + "+" + zone], ':');
  }

  /**
   * A gang token is read as the start of its day plus its clock time,
   * shifted by the difference between the bank's zone and its own.
   */
  lemma GangTokenMinutes(day: string, hh: string, mm: string, zone: string, bankZone: int)
    requires IsWeekDay(day) && IsNumeral(hh) && IsNumeral(mm) && IsNumeral(zone)
    requires bankZone != NoZone
    ensures Readable(GangToken(day, hh, mm, zone), bankZone)
    ensures TimeToMinutes(GangToken(day, hh, mm, zone), bankZone)
      == DayStart(day) + 60 * ParseDecimal(hh) + ParseDecimal(mm) + 60 * (bankZone - ParseDecimal(zone))
  {
    GangTokenWords(day, hh, mm, zone);
    GangTokenOffset(day, hh, mm, zone);
    GangTokenMinutesPart(day, hh, mm);
    GangTokenHoursPart(hh, mm, zone);
  }

  /** A bank token is read as its clock time; its zone is not consulted. */
  lemma BankTokenMinutes(hh: string, mm: string, zone: string)
    requires IsNumeral(hh) && IsNumeral(mm)
    ensures Readable(BankToken(hh, mm, zone), NoZone)
    ensures TimeToMinutes(BankToken(hh, mm, zone), NoZone) == 60 * ParseDecimal(hh) + ParseDecimal(mm)
  {
    var time := BankToken(hh, mm, zone);
    NumeralHasNo(hh, '+'); NumeralHasNo(mm, '+');
    NumeralHasNo(hh, ':'); NumeralHasNo(mm, ':');
    var beforeOffset := hh + ":" + mm;
    var offsetParts := Split(time, '+');
    assert time == beforeOffset + ['+'] + zone;
    SplitAt(beforeOffset, '+', zone);
    assert beforeOffset == Join([hh, mm], ':');
    SplitJoin([hh, mm], ':');
    assert time == hh + [':'] + (mm + "+" + zone);
    SplitAt(hh, ':', mm + "+" + zone);
  }

  // ---------------------------------------------------------------------
  // Schedules and their normalisation

  /** An interval end as the schedule holds it: a token, or minutes once normalised. */
  datatype Endpoint = Token(text: string) | Minutes(m: int)

  /** One busy interval `[from, to)` of a gang member, overwritten in place by normalisation. */
  datatype Span = Span(from: Endpoint, to: Endpoint)

  /** One entry of the schedule object: a member's name and the array of their intervals. */
  datatype Member = Member(name: string, spans: array<Span>)

  /** An interval in minutes of the timeline, half-open. */
  datatype Interval = Interval(from: int, to: int)

  /** The name under which the bank's own hours join the schedule entries. */
  const BankName := "Bank"

  /** Normalisation can read this span: when both ends are tokens, both are readable. */
  predicate Normalizable(sp: Span, bankZone: int)
  {
    sp.from.Token? && sp.to.Token? ==> Readable(sp.from.text, bankZone) && Readable(sp.to.text, bankZone)
  }

  /**
   * What normalisation makes of one span: both ends re-read in the bank's
   * zone when both are tokens; any other span is left exactly as it is.
   */
  function NormalizeSpan(sp: Span, bankZone: int): Span
    requires Normalizable(sp, bankZone)
  {
    if sp.from.Token? && sp.to.Token? then
      Span(Minutes(TimeToMinutes(sp.from.text, bankZone)), Minutes(TimeToMinutes(sp.to.text, bankZone)))
    else sp
  }

  /** A second normalisation pass changes nothing. */
  lemma NormalizeTwice(sp: Span, bankZone: int)
    requires Normalizable(sp, bankZone)
    ensures Normalizable(NormalizeSpan(sp, bankZone), bankZone)
    ensures NormalizeSpan(NormalizeSpan(sp, bankZone), bankZone) == NormalizeSpan(sp, bankZone)
  {
  }

  /**
   * Spans normalised once already (`seen`) or not at all can be normalised
   * again, with the same result as normalising the originals once.
   */
  lemma NormalizeAgain(original: seq<Span>, current: seq<Span>, seen: bool, bankZone: int)
    requires forall j :: 0 <= j < |original| ==> Normalizable(original[j], bankZone)
    requires |current| == |original|
    requires forall j :: 0 <= j < |original| ==>
      current[j] == if seen then NormalizeSpan(original[j], bankZone) else original[j]
    ensures forall j :: 0 <= j < |current| ==> Normalizable(current[j], bankZone)
    ensures NormalizedSpans(current, bankZone) == NormalizedSpans(original, bankZone)
  {
    forall j | 0 <= j < |original|
      ensures Normalizable(current[j], bankZone)
      ensures NormalizeSpan(current[j], bankZone) == NormalizeSpan(original[j], bankZone)
    {
      NormalizeTwice(original[j], bankZone);
    }
  }

  function Members(schedule: seq<Member>): set<array<Span>>
  {
    set k | 0 <= k < |schedule| :: schedule[k].spans
  }

  /** The intervals the schedule holds, member by member. */
  ghost function Snapshot(schedule: seq<Member>): seq<seq<Span>>
    reads Members(schedule)
  {
    seq(|schedule|, k requires 0 <= k < |schedule| reads Members(schedule) => schedule[k].spans[..])
  }

  ghost predicate ScheduleNormalizable(schedule: seq<Member>, bankZone: int)
    reads Members(schedule)
  {
    forall k, j :: 0 <= k < |schedule| && 0 <= j < schedule[k].spans.Length ==>
      Normalizable(schedule[k].spans[j], bankZone)
  }

  /** The inner loop of the normalisation: every span of one member, in place. */
  method NormalizeSpans(a: array<Span>, bankZone: int)
    requires forall j :: 0 <= j < a.Length ==> Normalizable(a[j], bankZone)
    modifies a
    ensures a[..] == NormalizedSpans(old(a[..]), bankZone)
  {
    ghost var target := NormalizedSpans(a[..], bankZone);
    for j := 0 to a.Length
      invariant forall j' :: 0 <= j' < j ==> a[j'] == target[j']
      invariant forall j' :: j <= j' < a.Length ==> a[j'] == old(a[j'])
    {
      a[j] := NormalizeSpan(a[j], bankZone);
    }
  }

  /**
   * The first loop of `getAppropriateMoment`: every interval of every
   * member is normalised in place. Members that share one array are
   * harmless, since a second pass changes nothing.
   */
  method Normalize(schedule: seq<Member>, bankZone: int)
    requires ScheduleNormalizable(schedule, bankZone)
    modifies Members(schedule)
    ensures forall k, j :: 0 <= k < |schedule| && 0 <= j < schedule[k].spans.Length ==>
      old(Normalizable(schedule[k].spans[j], bankZone)) &&
      schedule[k].spans[j] == NormalizeSpan(old(schedule[k].spans[j]), bankZone)
  {
    for k := 0 to |schedule|
      invariant forall k', j :: 0 <= k' < |schedule| && 0 <= j < schedule[k'].spans.Length ==>
        schedule[k'].spans[j] == (if schedule[k'].spans in Members(schedule[..k])
                                  then NormalizeSpan(old(schedule[k'].spans[j]), bankZone)
                                  else old(schedule[k'].spans[j]))
    {
      var a := schedule[k].spans;
      ghost var seen := a in Members(schedule[..k]);
      ghost var original, before := old(a[..]), a[..];
      assert forall j :: 0 <= j < |original| ==> Normalizable(original[j], bankZone);
      assert forall j :: 0 <= j < |original| ==>
        before[j] == if seen then NormalizeSpan(original[j], bankZone) else original[j];
      NormalizeAgain(original, before, seen, bankZone);
      NormalizeSpans(a, bankZone);
      assert forall j :: 0 <= j < a.Length ==> a[j] == NormalizeSpan(original[j], bankZone);
      assert Members(schedule[..k + 1]) == Members(schedule[..k]) + {a} by {
        assert forall k' :: 0 <= k' < k ==> schedule[..k + 1][k'] == schedule[..k][k'];
      }
    }
    assert schedule[..|schedule|] == schedule;
  }

  // ---------------------------------------------------------------------
  // Difference arrays and occupancy signals

  /** Both ends are minutes inside the timeline. */
  predicate OnTimeline(sp: Span)
  {
    sp.from.Minutes? && sp.to.Minutes? &&
    0 <= sp.from.m < TimelineLength && 0 <= sp.to.m < TimelineLength
  }

  predicate IntervalsOnTimeline(ivs: seq<Interval>)
  {
    forall k :: 0 <= k < |ivs| ==> 0 <= ivs[k].from < TimelineLength && 0 <= ivs[k].to < TimelineLength
  }

  /** The intervals of normalised spans. */
  function Intervals(spans: seq<Span>): (ivs: seq<Interval>)
    requires forall j :: 0 <= j < |spans| ==> OnTimeline(spans[j])
    ensures |ivs| == |spans| && IntervalsOnTimeline(ivs)
    ensures forall j :: 0 <= j < |spans| ==> Minutes(ivs[j].from) == spans[j].from && Minutes(ivs[j].to) == spans[j].to
  {
    seq(|spans|, j requires 0 <= j < |spans| && OnTimeline(spans[j]) => Interval(spans[j].from.m, spans[j].to.m))
  }

  /** What the +1 / -1 pass adds at minute `k`: interval starts there minus interval ends there. */
  function Delta(ivs: seq<Interval>, k: int): int
  {
    if |ivs| == 0 then 0
    else
      var last := ivs[|ivs| - 1];
      Delta(ivs[..|ivs| - 1], k) + (if last.from == k then 1 else 0) - (if last.to == k then 1 else 0)
  }

  /** The signed count at minute `m`: intervals begun by `m` minus intervals ended by `m`. */
  function Coverage(ivs: seq<Interval>, m: int): int
  {
    if |ivs| == 0 then 0
    else
      var last := ivs[|ivs| - 1];
      Coverage(ivs[..|ivs| - 1], m) + (if last.from <= m then 1 else 0) - (if last.to <= m then 1 else 0)
  }

  /** The number of intervals with `from <= m < to`. */
  function Covering(ivs: seq<Interval>, m: int): nat
  {
    if |ivs| == 0 then 0
    else
      var last := ivs[|ivs| - 1];
      Covering(ivs[..|ivs| - 1], m) + (if last.from <= m < last.to then 1 else 0)
  }

  predicate Ordered(ivs: seq<Interval>)
  {
    forall k :: 0 <= k < |ivs| ==> ivs[k].from <= ivs[k].to
  }

  /** For intervals with `from <= to` the signed count is the number of intervals covering `m`. */
  lemma {:induction false} CoverageCounts(ivs: seq<Interval>, m: int)
    requires Ordered(ivs)
    ensures Coverage(ivs, m) == Covering(ivs, m)
  {
    if |ivs| > 0 {
      CoverageCounts(ivs[..|ivs| - 1], m);
    }
  }

  lemma {:induction false} DeltaAppend(a: seq<Interval>, b: seq<Interval>, k: int)
    ensures Delta(a + b, k) == Delta(a, k) + Delta(b, k)
  {
    if |b| > 0 {
      DeltaAppend(a, b[..|b| - 1], k);
      assert (a + b)[..|a + b| - 1] == a + b[..|b| - 1];
    } else {
      assert a + b == a;
    }
  }

  lemma {:induction false} CoverageAppend(a: seq<Interval>, b: seq<Interval>, m: int)
    ensures Coverage(a + b, m) == Coverage(a, m) + Coverage(b, m)
  {
    if |b| > 0 {
      CoverageAppend(a, b[..|b| - 1], m);
      assert (a + b)[..|a + b| - 1] == a + b[..|b| - 1];
    } else {
      assert a + b == a;
    }
  }

  /** Moving one minute on, the count changes by what the difference array holds there. */
  lemma {:induction false} CoverageStep(ivs: seq<Interval>, m: int)
    ensures Coverage(ivs, m) == Coverage(ivs, m - 1) + Delta(ivs, m)
  {
    if |ivs| > 0 {
      CoverageStep(ivs[..|ivs| - 1], m);
    }
  }

  /** Before the timeline starts nothing is counted. */
  lemma {:induction false} CoverageBeforeStart(ivs: seq<Interval>)
    requires IntervalsOnTimeline(ivs)
    ensures Coverage(ivs, -1) == 0
  {
    if |ivs| > 0 {
      CoverageBeforeStart(ivs[..|ivs| - 1]);
    }
  }

  /** The sum `s[0] + ... + s[m]`. */
  function RunningSum(s: seq<int>, m: nat): int
    requires m < |s|
  {
    if m == 0 then s[0] else RunningSum(s, m - 1) + s[m]
  }

  /**
   * The difference-array principle: summing the +1 / -1 marks up to minute
   * `m` gives the signed count of intervals at `m`.
   */
  lemma {:induction false} PrefixSumIsCoverage(marks: seq<int>, ivs: seq<Interval>, m: nat)
    requires IntervalsOnTimeline(ivs)
    requires m < |marks|
    requires forall k :: 0 <= k < |marks| ==> marks[k] == Delta(ivs, k)
    ensures RunningSum(marks, m) == Coverage(ivs, m)
  {
    CoverageStep(ivs, m);
    if m == 0 {
      CoverageBeforeStart(ivs);
    } else {
      PrefixSumIsCoverage(marks, ivs, m - 1);
    }
  }

  /** The `+1` at `from` and the `-1` at `to` of every interval, added to `timeline`. */
  method Mark(timeline: array<int>, ivs: seq<Interval>)
    requires timeline.Length == TimelineLength && IntervalsOnTimeline(ivs)
    modifies timeline
    ensures forall k :: 0 <= k < TimelineLength ==> timeline[k] == old(timeline[k]) + Delta(ivs, k)
  {
    for day := 0 to |ivs|
      invariant forall k :: 0 <= k < TimelineLength ==> timeline[k] == old(timeline[k]) + Delta(ivs[..day], k)
    {
      timeline[ivs[day].from] := timeline[ivs[day].from] + 1;
      timeline[ivs[day].to] := timeline[ivs[day].to] - 1;
      assert ivs[..day + 1][..day] == ivs[..day];
    }
    assert ivs[..|ivs|] == ivs;
  }

  /** The in-place running sums of both timelines, in one pass as the source does it. */
  method PrefixSums(gang: array<int>, bank: array<int>)
    requires gang.Length == TimelineLength && bank.Length == TimelineLength && gang != bank
    modifies gang, bank
    ensures forall m :: 0 <= m < TimelineLength ==>
      gang[m] == RunningSum(old(gang[..]), m) && bank[m] == RunningSum(old(bank[..]), m)
  {
    ghost var g, b := gang[..], bank[..];
    for i := 1 to TimelineLength
      invariant forall m :: 0 <= m < i ==> gang[m] == RunningSum(g, m) && bank[m] == RunningSum(b, m)
      invariant forall m :: i <= m < TimelineLength ==> gang[m] == g[m] && bank[m] == b[m]
    {
      gang[i] := gang[i - 1] + gang[i];
      bank[i] := bank[i - 1] + bank[i];
    }
  }

  // ---------------------------------------------------------------------
  // The window scan

  /** The last index of the timeline; the scan stops on reaching it without examining it. */
  const LastMinute := TimelineLength - 1

  predicate IsSignal(s: seq<int>)
  {
    |s| == TimelineLength
  }

  /** Minute `m` suits a robbery: nobody in the gang is busy and the bank is open. */
  predicate Good(gang: seq<int>, bank: seq<int>, m: int)
    requires IsSignal(gang) && IsSignal(bank) && 0 <= m < TimelineLength
  {
    gang[m] == Free && bank[m] == Busy
  }

  /** The `duration` minutes from `s` all suit, and all lie before the unexamined last minute. */
  predicate GoodRun(gang: seq<int>, bank: seq<int>, duration: nat, s: int)
    requires IsSignal(gang) && IsSignal(bank)
  {
    0 <= s && s + duration <= LastMinute &&
    forall m :: s <= m < s + duration ==> Good(gang, bank, m)
  }

  /** The earliest suitable run starting at `lo` or later. */
  function FirstRun(gang: seq<int>, bank: seq<int>, duration: nat, lo: nat): (r: Option<nat>)
    requires IsSignal(gang) && IsSignal(bank)
    ensures r.Some? ==> lo <= r.value && GoodRun(gang, bank, duration, r.value)
    ensures r.Some? ==> forall t :: lo <= t < r.value ==> !GoodRun(gang, bank, duration, t)
    ensures r.None? ==> forall t :: lo <= t ==> !GoodRun(gang, bank, duration, t)
    decreases LastMinute - lo
  {
    if lo + duration > LastMinute then None
    else if GoodRun(gang, bank, duration, lo) then Some(lo)
    else FirstRun(gang, bank, duration, lo + 1)
  }

  /**
   * The windows the scan reports from `lo` on, defined greedily: the
   * earliest suitable run, then the earliest one starting at least 30
   * minutes after it, and so on. A run starting within 30 minutes of a
   * reported one is passed over even when it does not overlap it.
   */
  function Greedy(gang: seq<int>, bank: seq<int>, duration: nat, lo: nat): seq<nat>
    requires IsSignal(gang) && IsSignal(bank)
    decreases LastMinute + 30 - lo
  {
    match FirstRun(gang, bank, duration, lo)
    case None => []
    case Some(s) => [s] + Greedy(gang, bank, duration, s + 30)
  }

  /** Every reported window is a suitable run, and each starts at least 30 minutes after the one before. */
  lemma {:induction false} GreedySound(gang: seq<int>, bank: seq<int>, duration: nat, lo: nat)
    requires IsSignal(gang) && IsSignal(bank)
    ensures forall k :: 0 <= k < |Greedy(gang, bank, duration, lo)| ==>
      lo <= Greedy(gang, bank, duration, lo)[k] &&
      GoodRun(gang, bank, duration, Greedy(gang, bank, duration, lo)[k])
    ensures forall k :: 0 <= k < |Greedy(gang, bank, duration, lo)| - 1 ==>
      Greedy(gang, bank, duration, lo)[k] + 30 <= Greedy(gang, bank, duration, lo)[k + 1]
    decreases LastMinute + 30 - lo
  {
    match FirstRun(gang, bank, duration, lo)
    case None =>
    case Some(s) =>
      GreedySound(gang, bank, duration, s + 30);
      var rest := Greedy(gang, bank, duration, s + 30);
      var w := Greedy(gang, bank, duration, lo);
      assert w == [s] + rest;
      forall k | 0 <= k < |w|
        ensures lo <= w[k] && GoodRun(gang, bank, duration, w[k])
      {
        if k > 0 {
          assert w[k] == rest[k - 1];
        }
      }
      forall k | 0 <= k < |w| - 1
        ensures w[k] + 30 <= w[k + 1]
      {
        assert w[k + 1] == rest[k];
        if k > 0 {
          assert w[k] == rest[k - 1];
        }
      }
  }

  /** Every suitable run is reported or starts within 30 minutes after a reported window. */
  lemma {:induction false} GreedyComplete(gang: seq<int>, bank: seq<int>, duration: nat, lo: nat, t: nat)
    requires IsSignal(gang) && IsSignal(bank)
    requires lo <= t && GoodRun(gang, bank, duration, t)
    ensures exists k :: (0 <= k < |Greedy(gang, bank, duration, lo)| &&
      Greedy(gang, bank, duration, lo)[k] <= t < Greedy(gang, bank, duration, lo)[k] + 30)
    decreases LastMinute + 30 - lo
  {
    var w := Greedy(gang, bank, duration, lo);
    var s := FirstRun(gang, bank, duration, lo).value;
    if t < s + 30 {
      assert w[0] <= t < w[0] + 30;
    } else {
      GreedyComplete(gang, bank, duration, s + 30, t);
      var rest := Greedy(gang, bank, duration, s + 30);
      var k :| 0 <= k < |rest| && rest[k] <= t < rest[k] + 30;
      assert w[k + 1] == rest[k];
    }
  }

  /** Windows are reported in increasing order, each at least 30 minutes after the one before. */
  lemma {:induction false} GreedyIncreasing(gang: seq<int>, bank: seq<int>, duration: nat, lo: nat, i: nat, j: nat)
    requires IsSignal(gang) && IsSignal(bank)
    requires i < j < |Greedy(gang, bank, duration, lo)|
    ensures Greedy(gang, bank, duration, lo)[i] + 30 * (j - i) <= Greedy(gang, bank, duration, lo)[j]
    decreases j - i
  {
    GreedySound(gang, bank, duration, lo);
    if j > i + 1 {
      GreedyIncreasing(gang, bank, duration, lo, i, j - 1);
    }
  }

  /** The scan never jumps past the last minute: no window starts in the last 30 minutes it examines. */
  predicate JumpsStayOnTimeline(windows: seq<nat>)
  {
    forall k :: 0 <= k < |windows| ==> windows[k] + 30 <= LastMinute
  }

  /** An unsuitable minute `i` rules out every run that would contain it. */
  lemma RunBroken(gang: seq<int>, bank: seq<int>, duration: nat, from: int, i: int)
    requires IsSignal(gang) && IsSignal(bank) && 0 <= i < TimelineLength
    requires i - duration < from <= i && !Good(gang, bank, i)
    ensures forall t :: from <= t <= i ==> !GoodRun(gang, bank, duration, t)
  {
  }

  /** A suitable run preceded by no other suitable run since `lo` is the first one. */
  lemma RunFound(gang: seq<int>, bank: seq<int>, duration: nat, lo: nat, s: nat)
    requires IsSignal(gang) && IsSignal(bank)
    requires lo <= s && GoodRun(gang, bank, duration, s)
    requires forall t :: lo <= t < s ==> !GoodRun(gang, bank, duration, t)
    ensures FirstRun(gang, bank, duration, lo) == Some(s)
  {
  }

  /** `duration` suitable minutes in a row, ending before the last minute, make a suitable run. */
  lemma RunComplete(gang: seq<int>, bank: seq<int>, duration: nat, from: int, i: int)
    requires IsSignal(gang) && IsSignal(bank) && 0 <= from && i < LastMinute
    requires i - from + 1 == duration
    requires forall m :: from <= m <= i ==> Good(gang, bank, m)
    ensures GoodRun(gang, bank, duration, from)
  {
  }

  /** Recording the first run since `lo` extends the reported prefix by one window. */
  lemma WindowFound(gang: seq<int>, bank: seq<int>, duration: nat, lo: nat, s: nat, windows: seq<nat>,
                    next: seq<nat>, resume: nat)
    requires IsSignal(gang) && IsSignal(bank)
    requires next == windows + [s] && resume == s + 30
    requires lo <= s && GoodRun(gang, bank, duration, s)
    requires forall t :: lo <= t < s ==> !GoodRun(gang, bank, duration, t)
    requires windows + Greedy(gang, bank, duration, lo) == Greedy(gang, bank, duration, 0)
    requires JumpsStayOnTimeline(Greedy(gang, bank, duration, 0))
    ensures next + Greedy(gang, bank, duration, resume) == Greedy(gang, bank, duration, 0)
    ensures resume <= LastMinute
  {
    RunFound(gang, bank, duration, lo, s);
    GreedyStep(gang, bank, duration, lo, s);
    MovePast(windows, Greedy(gang, bank, duration, lo), Greedy(gang, bank, duration, 0), s,
      Greedy(gang, bank, duration, resume), next);
  }

  /** Moving one element from the front of the rest to the end of the prefix keeps the whole. */
  lemma MovePast(windows: seq<nat>, rest: seq<nat>, all: seq<nat>, s: nat, tail: seq<nat>, next: seq<nat>)
    requires windows + rest == all && rest == [s] + tail && next == windows + [s]
    ensures next + tail == all && |windows| < |all| && all[|windows|] == s
  {
    assert next + tail == windows + ([s] + tail);
  }

  /** Once the first suitable run from `lo` is known, the greedy sequence continues 30 minutes later. */
  lemma GreedyStep(gang: seq<int>, bank: seq<int>, duration: nat, lo: nat, s: nat)
    requires IsSignal(gang) && IsSignal(bank)
    requires FirstRun(gang, bank, duration, lo) == Some(s)
    ensures Greedy(gang, bank, duration, lo) == [s] + Greedy(gang, bank, duration, s + 30)
  {
  }

  /** With no suitable run left to find, nothing more is reported. */
  lemma NoWindowLeft(gang: seq<int>, bank: seq<int>, duration: nat, lo: nat, from: int)
    requires IsSignal(gang) && IsSignal(bank)
    requires lo <= from && LastMinute - duration < from
    requires forall t :: lo <= t < from ==> !GoodRun(gang, bank, duration, t)
    ensures Greedy(gang, bank, duration, lo) == []
  {
    assert FirstRun(gang, bank, duration, lo) == None;
  }

  /**
   * The scan of `getAppropriateMoment`: counts the run of suitable minutes
   * in `series`, records the run's start when it reaches `duration`, and
   * resumes at that start plus 30 minutes.
   */
  method FindWindows(gang: array<int>, bank: array<int>, duration: int) returns (windows: seq<nat>)
    requires gang.Length == TimelineLength && bank.Length == TimelineLength
    requires duration >= 1
    requires JumpsStayOnTimeline(Greedy(gang[..], bank[..], duration, 0))
    ensures windows == Greedy(gang[..], bank[..], duration, 0)
  {
    ghost var g, b := gang[..], bank[..];
    ghost var all := Greedy(g, b, duration, 0);
    ghost var lo: nat := 0;
    windows := [];
    var i, series := 0, 0;
    while i != LastMinute
      invariant 0 <= lo <= i - series && 0 <= series < duration && i <= LastMinute
      invariant forall m :: i - series <= m < i ==> Good(g, b, m)
      invariant forall t :: lo <= t < i - series ==> !GoodRun(g, b, duration, t)
      invariant windows + Greedy(g, b, duration, lo) == all
      decreases TimelineLength - (i - series), LastMinute - i
    {
      assert gang[i] == g[i] && bank[i] == b[i];
      if gang[i] == Free && bank[i] == Busy {
        series := series + 1;
      } else {
        RunBroken(g, b, duration, i - series, i);
        series := 0;
      }
      if series == duration {
        var robberyTime := i - duration + 1;
        RunComplete(g, b, duration, robberyTime, i);
        ghost var before, from := windows, lo;
        windows := windows + [robberyTime];
        i := robberyTime + 30;
        series := 0;
        lo := i;
        WindowFound(g, b, duration, from, robberyTime, before, windows, lo);
      } else {
        i := i + 1;
      }
    }
    NoWindowLeft(g, b, duration, lo, i - series);
    assert windows + [] == windows;
  }

  // ---------------------------------------------------------------------
  // The bank's hours

  /** The three daily intervals of the bank's hours, Monday to Wednesday, in the bank's own clock. */
  method WorkingHoursOfBank(from: string, to: string) returns (hours: seq<Interval>)
    requires Readable(from, NoZone) && Readable(to, NoZone)
    ensures |hours| == 3
    ensures forall i :: 0 <= i < 3 ==>
      hours[i] == Interval(TimeToMinutes(from, NoZone) + i * MinutesInDay, TimeToMinutes(to, NoZone) + i * MinutesInDay)
  {
    hours := [];
    for i := 0 to 3
      invariant |hours| == i
      invariant forall i' :: 0 <= i' < i ==>
        hours[i'] == Interval(TimeToMinutes(from, NoZone) + i' * MinutesInDay, TimeToMinutes(to, NoZone) + i' * MinutesInDay)
    {
      hours := hours + [Interval(TimeToMinutes(from, NoZone) + i * MinutesInDay, TimeToMinutes(to, NoZone) + i * MinutesInDay)];
    }
  }

  /** The daily intervals from `open` to `close`, as `WorkingHoursOfBank` builds them. */
  function DailyHours(open: int, close: int): seq<Interval>
  {
    [Interval(open, close), Interval(open + MinutesInDay, close + MinutesInDay),
     Interval(open + 2 * MinutesInDay, close + 2 * MinutesInDay)]
  }

  /** Three intervals, one a day apart from the next, are the bank's daily hours. */
  lemma IsDailyHours(hours: seq<Interval>, open: int, close: int)
    requires |hours| == 3
    requires forall i :: 0 <= i < 3 ==> hours[i] == Interval(open + i * MinutesInDay, close + i * MinutesInDay)
    ensures hours == DailyHours(open, close)
  {
    assert hours[0] == Interval(open, close);
    assert hours[1] == Interval(open + MinutesInDay, close + MinutesInDay);
    assert hours[2] == Interval(open + 2 * MinutesInDay, close + 2 * MinutesInDay);
  }

  /**
   * Over the three days the bank's intervals cover minute `m` exactly once
   * when its time of day lies in `[open, close)`, and not at all otherwise.
   */
  lemma BankHoursCover(open: int, close: int, m: int)
    requires 0 <= open && close <= MinutesInDay && 0 <= m < TimelineLength
    ensures Covering(DailyHours(open, close), m) == if open <= m % MinutesInDay < close then 1 else 0
  {
    var h := DailyHours(open, close);
    var c0 := if open <= m < close then 1 else 0;
    var c1 := if open + MinutesInDay <= m < close + MinutesInDay then 1 else 0;
    var c2 := if open + 2 * MinutesInDay <= m < close + 2 * MinutesInDay then 1 else 0;
    assert h[..2][..1] == [h[0]] && h[..2] == [h[0], h[1]] && h[..|h| - 1] == h[..2];
    assert [h[0]][..0] == [];
    assert Covering([h[0]], m) == c0;
    assert Covering(h[..2], m) == c0 + c1;
    assert Covering(h, m) == c0 + c1 + c2;
    var d, r := m / MinutesInDay, m % MinutesInDay;
    assert m == d * MinutesInDay + r && 0 <= r < MinutesInDay;
    if d == 0 {
      assert c1 == 0 && c2 == 0 && c0 == (if open <= r < close then 1 else 0);
    } else if d == 1 {
      assert c0 == 0 && c2 == 0 && c1 == (if open <= r < close then 1 else 0);
    } else {
      assert d == 2;
      assert c0 == 0 && c1 == 0 && c2 == (if open <= r < close then 1 else 0);
    }
  }

  // ---------------------------------------------------------------------
  // Assembling the timelines

  /** One schedule entry once normalised: a name and its intervals in minutes. */
  datatype Entry = Entry(name: string, intervals: seq<Interval>)

  /**
   * The intervals that go onto the bank timeline (`toBank`) or onto the
   * gang timeline: an entry goes to the bank exactly when it is named
   * `Bank`, which holds for a gang member of that name as well.
   */
  function Routed(entries: seq<Entry>, toBank: bool): seq<Interval>
  {
    if |entries| == 0 then []
    else
      var last := entries[|entries| - 1];
      Routed(entries[..|entries| - 1], toBank) + (if (last.name == BankName) == toBank then last.intervals else [])
  }

  /** Every interval of every entry goes to exactly one of the two timelines. */
  lemma {:induction false} RoutedSplits(entries: seq<Entry>, m: int)
    ensures Covering(Routed(entries, false), m) + Covering(Routed(entries, true), m) == CoveringAll(entries, m)
  {
    if |entries| > 0 {
      var init, last := entries[..|entries| - 1], entries[|entries| - 1];
      RoutedSplits(init, m);
      CoveringAppend(Routed(init, false), if last.name == BankName then [] else last.intervals, m);
      CoveringAppend(Routed(init, true), if last.name == BankName then last.intervals else [], m);
      assert Covering([], m) == 0;
    }
  }

  /** The number of intervals, over all entries, that cover minute `m`. */
  function CoveringAll(entries: seq<Entry>, m: int): nat
  {
    if |entries| == 0 then 0 else CoveringAll(entries[..|entries| - 1], m) + Covering(entries[|entries| - 1].intervals, m)
  }

  lemma {:induction false} CoveringAppend(a: seq<Interval>, b: seq<Interval>, m: int)
    ensures Covering(a + b, m) == Covering(a, m) + Covering(b, m)
  {
    if |b| > 0 {
      CoveringAppend(a, b[..|b| - 1], m);
      assert (a + b)[..|a + b| - 1] == a + b[..|b| - 1];
    } else {
      assert a + b == a;
    }
  }

  /** No interval covers `m` exactly when the count is zero. */
  lemma {:induction false} CoveringZero(ivs: seq<Interval>, m: int)
    ensures Covering(ivs, m) == 0 <==> forall k :: 0 <= k < |ivs| ==> !(ivs[k].from <= m < ivs[k].to)
  {
    if |ivs| > 0 {
      var init := ivs[..|ivs| - 1];
      CoveringZero(init, m);
      assert forall k :: 0 <= k < |init| ==> init[k] == ivs[k];
    }
  }

  /** The occupancy signal of a list of intervals: its signed count at every minute. */
  function Signal(ivs: seq<Interval>): (s: seq<int>)
    ensures IsSignal(s)
  {
    seq(TimelineLength, m => Coverage(ivs, m))
  }

  /** Every span of the schedule, normalised, lies on the timeline. */
  ghost predicate NormalizesOntoTimeline(schedule: seq<Member>, bankZone: int)
    reads Members(schedule)
  {
    ScheduleNormalizable(schedule, bankZone) &&
    forall k, j :: 0 <= k < |schedule| && 0 <= j < schedule[k].spans.Length ==>
      OnTimeline(NormalizeSpan(schedule[k].spans[j], bankZone))
  }

  /** The spans of one member after normalisation. */
  function NormalizedSpans(spans: seq<Span>, bankZone: int): (r: seq<Span>)
    requires forall j :: 0 <= j < |spans| ==> Normalizable(spans[j], bankZone)
    ensures |r| == |spans| && forall j :: 0 <= j < |spans| ==> r[j] == NormalizeSpan(spans[j], bankZone)
  {
    seq(|spans|, j requires 0 <= j < |spans| && Normalizable(spans[j], bankZone) => NormalizeSpan(spans[j], bankZone))
  }

  /** The entries the schedule will hold once normalised, read before normalisation. */
  ghost function NormalizedEntries(schedule: seq<Member>, bankZone: int): seq<Entry>
    requires NormalizesOntoTimeline(schedule, bankZone)
    reads Members(schedule)
  {
    seq(|schedule|, k requires 0 <= k < |schedule| && NormalizesOntoTimeline(schedule, bankZone) reads Members(schedule) =>
      Entry(schedule[k].name, Intervals(NormalizedSpans(schedule[k].spans[..], bankZone))))
  }

  /** The schedule entries followed by the bank's own entry, as the source appends it. */
  function WithBank(entries: seq<Entry>, open: int, close: int): seq<Entry>
  {
    entries + [Entry(BankName, DailyHours(open, close))]
  }

  /** The window starts the scan reports for these entries and bank hours. */
  function Windows(entries: seq<Entry>, open: int, close: int, duration: nat): seq<nat>
  {
    ScanEntries(WithBank(entries, open, close), duration)
  }

  // ---------------------------------------------------------------------
  // The moment: a cursor over the window starts

  /** The zone of the bank, the number after `+` in its opening time. */
  predicate HasZone(time: string)
  {
    |Split(time, '+')| >= 2 && IsNumeral(Split(time, '+')[1])
  }

  function BankZone(time: string): nat
    requires HasZone(time)
  {
    ParseDecimal(Split(time, '+')[1])
  }

  /** The bank's opening and closing times, as `HH:MM+O` tokens. */
  datatype WorkingHours = WorkingHours(from: string, to: string)

  /** The weekday name of day `d` of the timeline. */
  function DayName(d: nat): (name: string)
    requires d < 3
    ensures IsWeekDay(name) && DayStart(name) == d * MinutesInDay
  {
    if d == 0 then "ПН" else if d == 1 then "ВТ" else "СР"
  }

  /** ASCII upper-casing, which is all the case-insensitive placeholders need. */
  function UpperAscii(c: char): char
  {
    if 'a' <= c <= 'z' then (c as int - 32) as char else c
  }

  /** `%` followed twice by `letter` in either case. */
  predicate IsPlaceholder(s: string, letter: char)
  {
    |s| == 3 && s[0] == '%' && UpperAscii(s[1]) == letter && UpperAscii(s[2]) == letter
  }

  /**
   * A global case-insensitive replacement of `%` + `letter` + `letter`,
   * scanning left to right and resuming after each replacement.
   */
  function Substitute(s: string, letter: char, text: string): (r: string)
    ensures '%' !in s ==> r == s
    decreases |s|
  {
    if |s| < 3 then s
    else if IsPlaceholder(s[..3], letter) then text + Substitute(s[3..], letter, text)
    else
      assert '%' !in s ==> '%' !in s[1..];
      [s[0]] + Substitute(s[1..], letter, text)
  }

  /** Text without `%` passes through unchanged and does not affect what follows. */
  lemma {:induction false} SubstituteSkips(a: string, b: string, letter: char, text: string)
    requires '%' !in a
    ensures Substitute(a + b, letter, text) == a + Substitute(b, letter, text)
    decreases |a|
  {
    if |a| > 0 {
      var s := a + b;
      if |s| >= 3 {
        assert s[0] == a[0] && !IsPlaceholder(s[..3], letter);
        assert s[1..] == a[1..] + b;
      }
      SubstituteSkips(a[1..], b, letter, text);
      assert a == [a[0]] + a[1..];
    } else {
      assert a + b == b;
    }
  }

  /** The hour of the day of minute `t`, unpadded in the rendering. */
  function Hour(t: nat): nat
  {
    (t % MinutesInDay) / 60
  }

  /** The minute of the hour of minute `t`. */
  function Minute(t: nat): (m: nat)
    ensures m < 60
  {
    (t % MinutesInDay) % 60
  }

  /** What `format` makes of `template` for the window starting at minute `t`. */
  function Render(template: string, t: nat): string
    requires t < TimelineLength
  {
    var withHours := Substitute(template, 'H', Decimal(Hour(t)));
    var withMinutes := Substitute(withHours, 'M', Pad2(Minute(t)));
    Substitute(withMinutes, 'D', DayName(t / MinutesInDay))
  }

  /** A decimal numeral holds no `%`. */
  lemma DigitsHaveNoPercent(s: string)
    requires AllDigitsIn(s, 10)
    ensures '%' !in s
  {
    forall k | 0 <= k < |s|
      ensures s[k] != '%'
    {
      assert IsDigitIn(s[k], 10);
    }
  }

  /** A placeholder for `letter` is replaced, and the scan resumes after it. */
  lemma SubstituteHit(b: string, letter: char, text: string)
    requires 'A' <= letter <= 'Z'
    ensures Substitute(['%', letter, letter] + b, letter, text) == text + Substitute(b, letter, text)
  {
    var s := ['%', letter, letter] + b;
    assert s[..3] == ['%', letter, letter] && s[3..] == b;
  }

  /** A placeholder for another letter is kept as it is. */
  lemma SubstituteOther(other: char, b: string, letter: char, text: string)
    requires other != '%' && UpperAscii(other) != letter
    ensures Substitute(['%', other, other] + b, letter, text) == ['%', other, other] + Substitute(b, letter, text)
  {
    var s := ['%', other, other] + b;
    assert s[..3] == ['%', other, other];
    assert !IsPlaceholder(s[..3], letter);
    assert Substitute(s, letter, text) == [s[0]] + Substitute(s[1..], letter, text);
    assert s[1..] == [other, other] + b;
    SubstituteSkips([other, other], b, letter, text);
  }

  /** The placeholder `%` + `letter` + `letter`, in upper case. */
  function Placeholder(letter: char): string
  {
    ['%', letter, letter]
  }

  /** The template `%DD %HH:%MM`, piece by piece. */
  lemma ClockTemplate()
    ensures "%DD %HH:%MM" == Placeholder('D') + (" " + (Placeholder('H') + (":" + Placeholder('M'))))
  {
  }

  lemma SubstituteHours(hh: string)
    requires '%' !in hh
    ensures Substitute(Placeholder('D') + (" " + (Placeholder('H') + (":" + Placeholder('M')))), 'H', hh)
      == Placeholder('D') + (" " + (hh + (":" + Placeholder('M'))))
  {
    var tail := ":" + Placeholder('M');
    assert Substitute(tail, 'H', hh) == tail by {
      SubstituteSkips(":", Placeholder('M'), 'H', hh);
      SubstituteOther('M', [], 'H', hh);
      assert Placeholder('M') + [] == Placeholder('M');
    }
    SubstituteHit(tail, 'H', hh);
    SubstituteSkips(" ", Placeholder('H') + tail, 'H', hh);
    SubstituteOther('D', " " + (Placeholder('H') + tail), 'H', hh);
  }

  lemma SubstituteMinutes(hh: string, mm: string)
    requires '%' !in hh
    ensures Substitute(Placeholder('D') + (" " + (hh + (":" + Placeholder('M')))), 'M', mm)
      == Placeholder('D') + ((" " + (hh + ":")) + mm)
  {
    var clock := " " + (hh + ":");
    assert Substitute(Placeholder('M'), 'M', mm) == mm by {
      SubstituteHit([], 'M', mm);
      assert Placeholder('M') + [] == Placeholder('M');
    }
    SubstituteSkips(clock, Placeholder('M'), 'M', mm);
    assert " " + (hh + (":" + Placeholder('M'))) == clock + Placeholder('M');
    SubstituteOther('D', clock + Placeholder('M'), 'M', mm);
  }

  lemma SubstituteDay(rest: string, day: string)
    requires '%' !in rest
    ensures Substitute(Placeholder('D') + rest, 'D', day) == day + rest
  {
    SubstituteHit(rest, 'D', day);
    SubstituteSkips(rest, [], 'D', day);
    assert rest + [] == rest;
  }

  /** The clock template renders as weekday, space, unpadded hour, colon and padded minute. */
  lemma RenderClock(t: nat)
    requires t < TimelineLength
    ensures Render("%DD %HH:%MM", t)
      == DayName(t / MinutesInDay) + " " + Decimal(Hour(t)) + ":" + Pad2(Minute(t))
  {
    var hh, mm, day := Decimal(Hour(t)), Pad2(Minute(t)), DayName(t / MinutesInDay);
    DigitsHaveNoPercent(hh);
    DigitsHaveNoPercent(mm);
    ClockTemplate();
    SubstituteHours(hh);
    SubstituteMinutes(hh, mm);
    assert '%' !in (" " + (hh + ":")) + mm;
    SubstituteDay((" " + (hh + ":")) + mm, day);
    Regroup(day, hh, mm);
  }

  lemma Regroup(day: string, hh: string, mm: string)
    ensures day + ((" " + (hh + ":")) + mm) == day + " " + hh + ":" + mm
  {
  }

  /**
   * Rendered as `%DD %HH:%MM` and followed by the bank's `+O`, a window
   * start reads back, in the bank's zone, as the same minute.
   */
  lemma FormatReadsBack(t: nat, zone: nat)
    requires t < TimelineLength
    ensures Readable(Render("%DD %HH:%MM", t) + "+" + Decimal(zone), zone)
    ensures TimeToMinutes(Render("%DD %HH:%MM", t) + "+" + Decimal(zone), zone) == t
  {
    var hh, mm, day, z := Decimal(Hour(t)), Pad2(Minute(t)), DayName(t / MinutesInDay), Decimal(zone);
    RenderedToken(t, zone);
    GangTokenMinutes(day, hh, mm, z, zone);
    FromToBase(Hour(t), 10);
    FromToBase(zone, 10);
    ClockArithmetic(t);
  }

  /** The rendered clock followed by the zone is a gang token. */
  lemma RenderedToken(t: nat, zone: nat)
    requires t < TimelineLength
    ensures Render("%DD %HH:%MM", t) + "+" + Decimal(zone)
      == GangToken(DayName(t / MinutesInDay), Decimal(Hour(t)), Pad2(Minute(t)), Decimal(zone))
  {
    var hh, mm, day, z := Decimal(Hour(t)), Pad2(Minute(t)), DayName(t / MinutesInDay), Decimal(zone);
    RenderClock(t);
  }

  /** Day, hour and minute of a minute of the timeline add back up to it. */
  lemma ClockArithmetic(t: nat)
    requires t < TimelineLength
    ensures DayStart(DayName(t / MinutesInDay)) + 60 * Hour(t) + Minute(t) == t
  {
    var d, r := t / MinutesInDay, t % MinutesInDay;
    assert t == d * MinutesInDay + r;
    assert r == Hour(t) * 60 + Minute(t);
  }

  /**
   * The object `getAppropriateMoment` returns: the window starts found,
   * consumed from the front by `tryLater`.
   */
  class Moment {
    var windows: seq<nat>

    /** Every start lies on the timeline. */
    ghost predicate Valid()
      reads this
    {
      forall k :: 0 <= k < |windows| ==> windows[k] < TimelineLength
    }

    constructor (windows: seq<nat>)
      ensures this.windows == windows
    {
      this.windows := windows;
    }

    /** `exists`: whether any window was found. */
    method Exists() returns (found: bool)
      ensures found <==> |windows| != 0
    {
      found := |windows| != 0;
    }

    /** `format`: the empty string without a window, else the template rendered for the first window. */
    method Format(template: string) returns (text: string)
      requires Valid()
      ensures |windows| == 0 ==> text == ""
      ensures |windows| != 0 ==> text == Render(template, windows[0])
    {
      if |windows| == 0 {
        return "";
      }
      var time := windows[0];
      var dayOfWeek := DayName(time / MinutesInDay);
      var hours := (time % MinutesInDay) / 60;
      var minutes := (time % MinutesInDay) % 60;
      var minutesText := Decimal(minutes);
      if minutes < 10 {
        minutesText := "0" + Decimal(minutes);
      }
      assert minutesText == Pad2(Minute(time));
      text := Substitute(Substitute(Substitute(template, 'H', Decimal(hours)), 'M', minutesText), 'D', dayOfWeek);
    }

    /** `tryLater`: drops the first window when another one follows it. */
    method TryLater() returns (moved: bool)
      modifies this
      ensures moved <==> |old(windows)| > 1
      ensures windows == if moved then old(windows)[1..] else old(windows)
      ensures old(Valid()) ==> Valid()
    {
      if |windows| > 1 {
        windows := windows[1..];
        return true;
      }
      return false;
    }
  }

  // ---------------------------------------------------------------------
  // getAppropriateMoment

  /** Routing keeps every interval on the timeline. */
  lemma {:induction false} RoutedOnTimeline(entries: seq<Entry>, toBank: bool)
    requires forall k :: 0 <= k < |entries| ==> IntervalsOnTimeline(entries[k].intervals)
    ensures IntervalsOnTimeline(Routed(entries, toBank))
  {
    if |entries| > 0 {
      var init := entries[..|entries| - 1];
      assert forall k :: 0 <= k < |init| ==> init[k] == entries[k];
      RoutedOnTimeline(init, toBank);
    }
  }

  /** Routing the first `k + 1` entries adds the marks of entry `k` to one of the two timelines. */
  lemma RoutedStep(entries: seq<Entry>, k: nat, toBank: bool, m: int)
    requires k < |entries|
    ensures Delta(Routed(entries[..k + 1], toBank), m) == Delta(Routed(entries[..k], toBank), m)
      + (if (entries[k].name == BankName) == toBank then Delta(entries[k].intervals, m) else 0)
  {
    assert entries[..k + 1][..k] == entries[..k];
    var extra := if (entries[k].name == BankName) == toBank then entries[k].intervals else [];
    DeltaAppend(Routed(entries[..k], toBank), extra, m);
  }

  /** The signals after the marking pass and the running sums are those of the routed intervals. */
  lemma SignalOfMarks(before: seq<int>, after: seq<int>, ivs: seq<Interval>)
    requires |before| == TimelineLength && |after| == TimelineLength && IntervalsOnTimeline(ivs)
    requires forall m :: 0 <= m < TimelineLength ==> before[m] == Delta(ivs, m)
    requires forall m :: 0 <= m < TimelineLength ==> after[m] == RunningSum(before, m)
    ensures after == Signal(ivs)
  {
    forall m | 0 <= m < TimelineLength
      ensures after[m] == Signal(ivs)[m]
    {
      PrefixSumIsCoverage(before, ivs, m);
    }
  }

  /** Every span of the schedule is in minutes on the timeline. */
  ghost predicate ScheduleOnTimeline(schedule: seq<Member>)
    reads Members(schedule)
  {
    forall k, j :: 0 <= k < |schedule| && 0 <= j < schedule[k].spans.Length ==> OnTimeline(schedule[k].spans[j])
  }

  /** The entries the schedule holds now. */
  ghost function CurrentEntries(schedule: seq<Member>): (entries: seq<Entry>)
    requires ScheduleOnTimeline(schedule)
    reads Members(schedule)
    ensures |entries| == |schedule|
    ensures forall k :: 0 <= k < |schedule| ==> IntervalsOnTimeline(entries[k].intervals)
  {
    seq(|schedule|, k requires 0 <= k < |schedule| && ScheduleOnTimeline(schedule) reads Members(schedule) =>
      Entry(schedule[k].name, Intervals(schedule[k].spans[..])))
  }

  /**
   * The marking pass over the schedule entries followed by the bank's own
   * entry: each entry's intervals go to the bank timeline when it is named
   * `Bank`, and to the gang timeline otherwise.
   */
  method MarkTimelines(schedule: seq<Member>, hours: seq<Interval>, gang: array<int>, bank: array<int>,
                       ghost entries: seq<Entry>)
    requires ScheduleOnTimeline(schedule) && IntervalsOnTimeline(hours)
    requires entries == CurrentEntries(schedule) + [Entry(BankName, hours)]
    requires gang.Length == TimelineLength && bank.Length == TimelineLength && gang != bank
    modifies gang, bank
    ensures forall m :: 0 <= m < TimelineLength ==>
      gang[m] == old(gang[m]) + Delta(Routed(entries, false), m) &&
      bank[m] == old(bank[m]) + Delta(Routed(entries, true), m)
  {
    var count := |schedule| + 1;
    for k := 0 to count
      invariant forall m :: 0 <= m < TimelineLength ==>
        gang[m] == old(gang[m]) + Delta(Routed(entries[..k], false), m) &&
        bank[m] == old(bank[m]) + Delta(Routed(entries[..k], true), m)
    {
      var name, ivs := BankName, hours;
      if k < |schedule| {
        name, ivs := schedule[k].name, Intervals(schedule[k].spans[..]);
      }
      assert entries[k] == Entry(name, ivs);
      if name == BankName {
        Mark(bank, ivs);
      } else {
        Mark(gang, ivs);
      }
      forall m | 0 <= m < TimelineLength
        ensures gang[m] == old(gang[m]) + Delta(Routed(entries[..k + 1], false), m)
        ensures bank[m] == old(bank[m]) + Delta(Routed(entries[..k + 1], true), m)
      {
        RoutedStep(entries, k, false, m);
        RoutedStep(entries, k, true, m);
      }
    }
    assert entries[..count] == entries;
  }

  /** The windows of the normalised schedule entries followed by the bank's own entry. */
  function ScanEntries(all: seq<Entry>, duration: nat): seq<nat>
  {
    Greedy(Signal(Routed(all, false)), Signal(Routed(all, true)), duration, 0)
  }

  /**
   * The second half of `getAppropriateMoment`: two timelines filled with
   * zeros, the marking pass, the running sums and the scan.
   */
  method ScanSchedule(schedule: seq<Member>, hours: seq<Interval>, duration: int, ghost all: seq<Entry>)
    returns (windows: seq<nat>)
    requires ScheduleOnTimeline(schedule) && IntervalsOnTimeline(hours) && duration >= 1
    requires all == CurrentEntries(schedule) + [Entry(BankName, hours)]
    requires JumpsStayOnTimeline(ScanEntries(all, duration))
    ensures windows == ScanEntries(all, duration)
  {
    var gangTimeLine := new int[TimelineLength](_ => Free);
    var bankTimeLine := new int[TimelineLength](_ => Free);
    MarkTimelines(schedule, hours, gangTimeLine, bankTimeLine, all);
    ghost var gangIvs, bankIvs := Routed(all, false), Routed(all, true);
    assert forall k :: 0 <= k < |all| ==> IntervalsOnTimeline(all[k].intervals);
    RoutedOnTimeline(all, false);
    RoutedOnTimeline(all, true);
    ghost var gangMarks, bankMarks := gangTimeLine[..], bankTimeLine[..];
    assert forall m :: 0 <= m < TimelineLength ==> gangMarks[m] == Delta(gangIvs, m) && bankMarks[m] == Delta(bankIvs, m);
    PrefixSums(gangTimeLine, bankTimeLine);
    SignalOfMarks(gangMarks, gangTimeLine[..], gangIvs);
    SignalOfMarks(bankMarks, bankTimeLine[..], bankIvs);
    windows := FindWindows(gangTimeLine, bankTimeLine, duration);
  }

  /** Both of the bank's times are readable, the opening time carries a zone, and both fall within a day. */
  predicate HoursReadable(working: WorkingHours)
  {
    HasZone(working.from) && Readable(working.from, NoZone) && Readable(working.to, NoZone) &&
    TimeToMinutes(working.from, NoZone) < MinutesInDay && TimeToMinutes(working.to, NoZone) < MinutesInDay
  }

  /** The inputs `getAppropriateMoment` can process without leaving the timeline. */
  ghost predicate MomentInputs(schedule: seq<Member>, duration: int, working: WorkingHours)
    reads Members(schedule)
  {
    HoursReadable(working) && NormalizesOntoTimeline(schedule, BankZone(working.from)) && duration >= 1
  }

  /** The windows `getAppropriateMoment` should find, read from the schedule before normalisation. */
  ghost function ExpectedWindows(schedule: seq<Member>, duration: int, working: WorkingHours): seq<nat>
    requires MomentInputs(schedule, duration, working)
    reads Members(schedule)
  {
    Windows(NormalizedEntries(schedule, BankZone(working.from)),
      TimeToMinutes(working.from, NoZone), TimeToMinutes(working.to, NoZone), duration)
  }

  /**
   * `getAppropriateMoment`: normalises the schedule in place, adds the
   * bank's daily hours under the name `Bank`, marks every entry's
   * intervals on the gang or the bank timeline, sums both timelines and
   * scans them. The windows found are those of the greedy definition.
   */
  method GetAppropriateMoment(schedule: seq<Member>, duration: int, working: WorkingHours) returns (moment: Moment)
    requires MomentInputs(schedule, duration, working)
    requires JumpsStayOnTimeline(ExpectedWindows(schedule, duration, working))
    modifies Members(schedule)
    ensures forall k, j :: 0 <= k < |schedule| && 0 <= j < schedule[k].spans.Length ==>
      schedule[k].spans[j] == NormalizeSpan(old(schedule[k].spans[j]), BankZone(working.from))
    ensures fresh(moment) && moment.Valid()
    ensures moment.windows == old(ExpectedWindows(schedule, duration, working))
  {
    var bankTimeZone := ParseDecimal(Split(working.from, '+')[1]);
    ghost var entries := NormalizedEntries(schedule, bankTimeZone);
    ghost var expected := ExpectedWindows(schedule, duration, working);
    Normalize(schedule, bankTimeZone);
    assert ScheduleOnTimeline(schedule);
    assert CurrentEntries(schedule) == entries by {
      forall k | 0 <= k < |schedule|
        ensures schedule[k].spans[..] == NormalizedSpans(old(schedule[k].spans[..]), bankTimeZone)
      {
      }
    }
    var workingHoursOfBank := WorkingHoursOfBank(working.from, working.to);
    ghost var open, close := TimeToMinutes(working.from, NoZone), TimeToMinutes(working.to, NoZone);
    IsDailyHours(workingHoursOfBank, open, close);
    ghost var all := WithBank(entries, open, close);
    var windows := ScanSchedule(schedule, workingHoursOfBank, duration, all);
    GreedySound(Signal(Routed(all, false)), Signal(Routed(all, true)), duration, 0);
    moment := new Moment(windows);
  }
}
