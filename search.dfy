/** The search over a week of hourly candidate windows, anchored in Shanghai
    time, ranked by how many participants they suit. */
module MeetingSearch {
  import opened TimezoneRegistry
  import opened TimeConversion
  import opened MeetingEvaluation
  import opened StableRanking

  /** Every candidate is expressed in this zone. */
  const AnchorZone: string := "Asia/Shanghai"
  /** Days searched, starting tomorrow. */
  const Days: nat := 7
  /** Start hours 8 through 20, one per hour. */
  const FirstHour: nat := 8
  const LastHour: nat := 20
  /** LastHour - FirstHour + 1 start hours a day. */
  const SlotsPerDay: nat := 13
  /** Days * SlotsPerDay candidates in all. */
  const CandidateCount: nat := 91
  /** How many ranked options are returned. */
  const ResultCount: nat := 10

  /** A candidate window with its per-participant evaluation. Its score
      `WorkingPercentage(workingHoursCount, |participantTimes|)` is a
      function of the count, so the count is what is stored and ranked. */
  datatype MeetingOption = MeetingOption(
    startTime: int,
    endTime: int,
    participantTimes: seq<ParticipantTime>,
    workingHoursCount: nat)

  /** Midnight at the start of the day after `now`. */
  function Tomorrow(now: int): (r: int)
    ensures r % DayMs == 0
    ensures now < r <= now + DayMs
  {
    (now / DayMs + 1) * DayMs
  }

  /** `hour` o'clock sharp on day `day` after the midnight `base`. */
  function SlotStart(base: int, day: int, hour: int): int {
    base + day * DayMs + hour * HourMs
  }

  /** The end of a window of `duration` minutes starting at `start`. */
  function WindowEnd(start: int, duration: int): int {
    start + duration * MinuteMs
  }

  /** The candidate starting at `hour` o'clock on day `day` after `base`. */
  function CandidateAt(duration: int, ps: seq<Participant>, base: int, day: int, hour: int): MeetingOption {
    var start := SlotStart(base, day, hour);
    var end := WindowEnd(start, duration);
    var pts := ParticipantTimes(start, end, AnchorZone, ps);
    MeetingOption(start, end, pts, CountWorking(pts))
  }

  /** The candidates of day `day`, hour by hour. */
  function DayCandidates(duration: int, ps: seq<Participant>, base: int, day: int): (r: seq<MeetingOption>)
    ensures |r| == SlotsPerDay
  {
    seq(SlotsPerDay, h requires 0 <= h < SlotsPerDay => CandidateAt(duration, ps, base, day, FirstHour + h))
  }

  /** The candidates of the first `days` days, day by day. */
  function WeekCandidates(duration: int, ps: seq<Participant>, base: int, days: nat): (r: seq<MeetingOption>)
    ensures |r| == days * SlotsPerDay
  {
    if days == 0 then []
    else WeekCandidates(duration, ps, base, days - 1) + DayCandidates(duration, ps, base, days - 1)
  }

  /** All candidates in generation order, starting tomorrow. */
  function Candidates(duration: int, ps: seq<Participant>, now: int): (r: seq<MeetingOption>)
    ensures |r| == CandidateCount
  {
    WeekCandidates(duration, ps, Tomorrow(now), Days)
  }

  /** The sort key: the number of participants in working hours. */
  function Score(o: MeetingOption): int {
    o.workingHoursCount
  }

  /** Generation order is start-time order. */
  function StartOf(o: MeetingOption): int {
    o.startTime
  }

  /** Converts one window for every participant and counts those for whom
      it lies in working hours, as the search's inner loop does. */
  method EvaluateSlot(start: int, end: int, ps: seq<Participant>) returns (pts: seq<ParticipantTime>, count: nat)
    ensures pts == ParticipantTimes(start, end, AnchorZone, ps)
    ensures count == CountWorking(pts)
  {
    pts, count := [], 0;
    var i := 0;
    while i < |ps|
      invariant 0 <= i <= |ps|
      invariant |pts| == i
      invariant forall j :: 0 <= j < i ==> pts[j] == ParticipantTimeFor(start, end, AnchorZone, ps[j])
      invariant count == CountWorking(pts)
    {
      var convertedStart := ConvertToTimezone(start, AnchorZone, ps[i].timezone);
      var convertedEnd := ConvertToTimezone(end, AnchorZone, ps[i].timezone);
      var isWorking := IsWorkingHours(convertedStart) && IsWorkingHours(convertedEnd);
      var entry := ParticipantTime(ps[i], convertedStart, convertedEnd, isWorking);
      CountAppend(pts, entry);
      if isWorking {
        count := count + 1;
      }
      pts := pts + [entry];
      i := i + 1;
    }
    var spec := ParticipantTimes(start, end, AnchorZone, ps);
    assert forall j :: 0 <= j < |ps| ==> pts[j] == spec[j];
  }

  /** One step of the search's inner loop: the window starting at `hour`
      o'clock on day `day` after `base`, evaluated for every participant. */
  method EvaluateCandidate(duration: int, ps: seq<Participant>, base: int, day: int, hour: int)
    returns (option: MeetingOption)
    ensures option == CandidateAt(duration, ps, base, day, hour)
  {
    var currentDate := SlotStart(base, day, hour);
    var endTime := WindowEnd(currentDate, duration);
    var participantTimes, workingHoursCount := EvaluateSlot(currentDate, endTime, ps);
    option := MeetingOption(currentDate, endTime, participantTimes, workingHoursCount);
  }

  /** The search's inner loop: the candidates of day `day`, hour by hour. */
  method DayOptions(duration: int, ps: seq<Participant>, base: int, day: int)
    returns (options: seq<MeetingOption>)
    ensures options == DayCandidates(duration, ps, base, day)
  {
    options := [];
    ghost var today := DayCandidates(duration, ps, base, day);
    var hour := FirstHour;
    while hour <= LastHour
      invariant FirstHour <= hour <= LastHour + 1
      invariant options == today[..hour - FirstHour]
    {
      var option := EvaluateCandidate(duration, ps, base, day, hour);
      DaySlot(duration, ps, base, day, hour - FirstHour);
      assert FirstHour + (hour - FirstHour) == hour;
      PrefixStep(today, hour - FirstHour, option);
      options := options + [option];
      hour := hour + 1;
    }
    assert today[..SlotsPerDay] == today;
  }

  /** Builds every candidate, sorts them stably by descending score and keeps
      the first ten. `now` is the caller's current time. */
  method GenerateMeetingTimeOptions(duration: int, participants: seq<Participant>, now: int)
    returns (result: seq<MeetingOption>)
    ensures result == SortByKeyDesc(Candidates(duration, participants, now), Score)[..ResultCount]
    ensures |result| == ResultCount
    ensures SortedDesc(result, Score)
    ensures Ranked(result, Score, StartOf)
    ensures multiset(result) <= multiset(Candidates(duration, participants, now))
    ensures forall c :: c in Candidates(duration, participants, now) && c !in result ==>
      Score(c) <= Score(result[ResultCount - 1])
    ensures forall c :: c in Candidates(duration, participants, now) ==> Score(c) <= Score(result[0])
  {
    var options: seq<MeetingOption> := [];
    var baseDate := Tomorrow(now);
    var day := 0;
    while day < Days
      invariant 0 <= day <= Days
      invariant options == WeekCandidates(duration, participants, baseDate, day)
    {
      var todays := DayOptions(duration, participants, baseDate, day);
      options := options + todays;
      day := day + 1;
    }
    assert options == Candidates(duration, participants, now);
    var sorted := SortByKeyDesc(options, Score);
    result := sorted[..ResultCount];
    TopOptions(duration, participants, now);
  }

  /** What the ranking promises about the first ten of the sorted candidates. */
  lemma TopOptions(duration: int, ps: seq<Participant>, now: int)
    ensures var candidates := Candidates(duration, ps, now);
      var top := SortByKeyDesc(candidates, Score)[..ResultCount];
      |top| == ResultCount &&
      SortedDesc(top, Score) && Ranked(top, Score, StartOf) &&
      multiset(top) <= multiset(candidates) &&
      (forall c :: c in candidates && c !in top ==> Score(c) <= Score(top[ResultCount - 1])) &&
      forall c :: c in candidates ==> Score(c) <= Score(top[0])
  {
    CandidatesIncreasing(duration, ps, now);
    SortedTop(Candidates(duration, ps, now), Score, StartOf, ResultCount);
  }

  /** Extending a prefix by the next element gives the next prefix. */
  lemma PrefixStep<T>(s: seq<T>, k: nat, x: T)
    requires k < |s| && s[k] == x
    ensures s[..k + 1] == s[..k] + [x]
  {
  }

  lemma DaySlot(duration: int, ps: seq<Participant>, base: int, day: int, h: nat)
    requires h < SlotsPerDay
    ensures DayCandidates(duration, ps, base, day)[h] == CandidateAt(duration, ps, base, day, FirstHour + h)
  {
  }

  /** Slot `h` of day `d` sits at index `d * 13 + h` of the week. */
  lemma {:induction false} WeekIndex(duration: int, ps: seq<Participant>, base: int, days: nat, d: nat, h: nat)
    requires d < days && h < SlotsPerDay
    ensures WeekCandidates(duration, ps, base, days)[d * SlotsPerDay + h] == CandidateAt(duration, ps, base, d, FirstHour + h)
  {
    var prev := WeekCandidates(duration, ps, base, days - 1);
    var last := DayCandidates(duration, ps, base, days - 1);
    var i := d * SlotsPerDay + h;
    assert WeekCandidates(duration, ps, base, days) == prev + last;
    if d < days - 1 {
      WeekIndex(duration, ps, base, days - 1, d, h);
      assert i < |prev| by {
        assert (d + 1) * SlotsPerDay <= (days - 1) * SlotsPerDay;
      }
      assert (prev + last)[i] == prev[i];
    } else {
      DaySlot(duration, ps, base, d, h);
      assert i == |prev| + h;
      assert (prev + last)[i] == last[h];
    }
  }

  /** The candidate for `hour` o'clock on day `day` (0 is tomorrow) sits at
      index `day * 13 + hour - 8`; it starts at that hour of that day, lasts
      `duration` minutes, and carries exactly the evaluation of that window
      anchored in Shanghai. */
  lemma CandidateShape(duration: int, ps: seq<Participant>, now: int, day: nat, hour: nat)
    requires day < Days && FirstHour <= hour <= LastHour
    ensures var c := Candidates(duration, ps, now)[day * SlotsPerDay + hour - FirstHour];
      var eval := FindOptimalMeetingTime(c.startTime, c.endTime, AnchorZone, ps);
      c.startTime == Tomorrow(now) + day * DayMs + hour * HourMs &&
      Hour(c.startTime) == hour &&
      c.endTime - c.startTime == duration * MinuteMs &&
      c.participantTimes == eval.participantTimes &&
      c.workingHoursCount == eval.workingHoursCount
  {
    var base := Tomorrow(now);
    CandidateIndex(duration, ps, now, day, hour);
    CandidateEvaluation(duration, ps, base, day, hour);
    MidnightHour(base, day, hour);
  }

  /** The candidate for `hour` o'clock on day `day` sits at index `day * 13 + hour - 8`. */
  lemma CandidateIndex(duration: int, ps: seq<Participant>, now: int, day: nat, hour: nat)
    requires day < Days && FirstHour <= hour <= LastHour
    ensures Candidates(duration, ps, now)[day * SlotsPerDay + hour - FirstHour]
         == CandidateAt(duration, ps, Tomorrow(now), day, hour)
  {
    WeekIndex(duration, ps, Tomorrow(now), Days, day, hour - FirstHour);
    assert FirstHour + (hour - FirstHour) == hour;
  }

  /** The candidate at a slot carries the evaluation of its own window. */
  lemma CandidateEvaluation(duration: int, ps: seq<Participant>, base: int, day: int, hour: int)
    ensures var c := CandidateAt(duration, ps, base, day, hour);
      var eval := FindOptimalMeetingTime(c.startTime, c.endTime, AnchorZone, ps);
      c.startTime == base + day * DayMs + hour * HourMs &&
      c.endTime - c.startTime == duration * MinuteMs &&
      c.participantTimes == eval.participantTimes &&
      c.workingHoursCount == eval.workingHoursCount
  {
  }

  /** On a midnight `base`, `hour` o'clock `day` days later has hour `hour`. */
  lemma MidnightHour(base: int, day: int, hour: int)
    requires base % DayMs == 0 && 0 <= hour < 24
    ensures Hour(base + day * DayMs + hour * HourMs) == hour
  {
    var m := base / DayMs;
    assert base == m * DayMs;
    assert (m + day) * DayMs == m * DayMs + day * DayMs;
    HourOfDay(m + day, hour, 0);
  }

  /** Candidates come in strictly increasing start time. */
  lemma CandidatesIncreasing(duration: int, ps: seq<Participant>, now: int)
    ensures var cs := Candidates(duration, ps, now);
      forall i, j :: 0 <= i < j < |cs| ==> StartOf(cs[i]) < StartOf(cs[j])
  {
    var cs, base := Candidates(duration, ps, now), Tomorrow(now);
    forall i, j | 0 <= i < j < |cs| ensures StartOf(cs[i]) < StartOf(cs[j]) {
      WeekIndex(duration, ps, base, Days, i / SlotsPerDay, i % SlotsPerDay);
      WeekIndex(duration, ps, base, Days, j / SlotsPerDay, j % SlotsPerDay);
      SlotOrder(i, j);
    }
  }

  /** Slot offsets from tomorrow's midnight grow with the index. */
  lemma SlotOrder(i: nat, j: nat)
    requires i < j
    ensures (i / SlotsPerDay) * DayMs + (i % SlotsPerDay) * HourMs < (j / SlotsPerDay) * DayMs + (j % SlotsPerDay) * HourMs
  {
    var di, dj := i / SlotsPerDay, j / SlotsPerDay;
    if di < dj {
      assert (dj - di) * DayMs >= DayMs;
      assert dj * DayMs - di * DayMs == (dj - di) * DayMs;
    }
  }
}
