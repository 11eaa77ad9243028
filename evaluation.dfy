/** Evaluation of one meeting window against a participant list. */
module MeetingEvaluation {
  import opened TimezoneRegistry
  import opened TimeConversion

  datatype Participant = Participant(id: int, name: string, timezone: string)

  /** A participant together with the meeting window in their own zone. */
  datatype ParticipantTime = ParticipantTime(
    participant: Participant,
    startTime: int,
    endTime: int,
    isWorkingHours: bool)

  /** The outcome of evaluating a window. The percentage the code also
      returns is `WorkingPercentage(workingHoursCount, |participantTimes|)`. */
  datatype Evaluation = Evaluation(
    participantTimes: seq<ParticipantTime>,
    workingHoursCount: nat,
    isOptimal: bool)

  /** One participant's entry: the window converted from the meeting zone to
      theirs, flagged when both ends fall in working hours. */
  function ParticipantTimeFor(start: int, end: int, zone: string, p: Participant): ParticipantTime {
    var convertedStart := ConvertToTimezone(start, zone, p.timezone);
    var convertedEnd := ConvertToTimezone(end, zone, p.timezone);
    ParticipantTime(p, convertedStart, convertedEnd,
                    IsWorkingHours(convertedStart) && IsWorkingHours(convertedEnd))
  }

  /** The `map` over the participants. */
  function ParticipantTimes(start: int, end: int, zone: string, ps: seq<Participant>): (r: seq<ParticipantTime>)
    ensures |r| == |ps|
  {
    seq(|ps|, i requires 0 <= i < |ps| => ParticipantTimeFor(start, end, zone, ps[i]))
  }

  /** Entry `i` belongs to participant `i`, carries the window converted into
      that participant's zone, and is flagged exactly when both converted ends
      fall in working hours. */
  lemma ParticipantTimesSpec(start: int, end: int, zone: string, ps: seq<Participant>)
    ensures var r := ParticipantTimes(start, end, zone, ps);
      forall i :: 0 <= i < |ps| ==>
        r[i].participant == ps[i] &&
        r[i].startTime == ConvertToTimezone(start, zone, ps[i].timezone) &&
        r[i].endTime == ConvertToTimezone(end, zone, ps[i].timezone) &&
        (r[i].isWorkingHours <==> IsWorkingHours(r[i].startTime) && IsWorkingHours(r[i].endTime))
  {
  }

  /** The `filter` keeping the entries flagged as in working hours, in order. */
  function WorkingEntries(pts: seq<ParticipantTime>): (r: seq<ParticipantTime>)
    ensures |r| <= |pts|
    ensures forall e :: e in r ==> e in pts && e.isWorkingHours
    ensures forall i :: 0 <= i < |pts| && pts[i].isWorkingHours ==> pts[i] in r
  {
    if |pts| == 0 then []
    else
      var rest := WorkingEntries(pts[..|pts| - 1]);
      var last := pts[|pts| - 1];
      assert forall i :: 0 <= i < |pts| - 1 ==> pts[i] == pts[..|pts| - 1][i];
      if last.isWorkingHours then rest + [last] else rest
  }

  /** The number of participants whose window lies in their working hours. */
  function CountWorking(pts: seq<ParticipantTime>): nat {
    |WorkingEntries(pts)|
  }

  /** The 70% threshold on counts: at least seven in ten participants, with
      no participants never optimal (the percentage is then not a number). */
  predicate MeetsThreshold(count: nat, n: nat) {
    n > 0 && 10 * count >= 7 * n
  }

  /** The percentage of working participants, as an exact fraction. */
  function WorkingPercentage(count: nat, n: nat): (r: real)
    requires n > 0
    ensures count <= n ==> 0.0 <= r <= 100.0
  {
    (count as real / n as real) * 100.0
  }

  function FindOptimalMeetingTime(start: int, end: int, zone: string, ps: seq<Participant>): (r: Evaluation)
    ensures |r.participantTimes| == |ps|
    ensures r.workingHoursCount <= |ps|
    ensures r.isOptimal <==> |ps| > 0 && WorkingPercentage(r.workingHoursCount, |ps|) >= 70.0
  {
    var pts := ParticipantTimes(start, end, zone, ps);
    var count := CountWorking(pts);
    if |ps| > 0 then ThresholdIsPercentage(count, |ps|); Evaluation(pts, count, MeetsThreshold(count, |ps|))
    else Evaluation(pts, count, false)
  }

  /** The integer test agrees with the percentage test on exact fractions. */
  lemma ThresholdIsPercentage(count: nat, n: nat)
    requires n > 0
    ensures MeetsThreshold(count, n) <==> WorkingPercentage(count, n) >= 70.0
  {
    PercentageScaled(count, n);
    ThresholdOfScaled(WorkingPercentage(count, n), count, n);
  }

  lemma ThresholdOfScaled(p: real, count: nat, n: nat)
    requires n > 0
    requires p * (n as real) == (count as real) * 100.0
    ensures p >= 70.0 <==> 10 * count >= 7 * n
  {
    var nr, cr := n as real, count as real;
    ScaleMonotone(70.0, p, nr);
    assert 70.0 <= p <==> 70.0 * nr <= cr * 100.0;
    assert 70.0 * nr <= cr * 100.0 <==> 7.0 * nr <= cr * 10.0;
    assert 7.0 * nr == (7 * n) as real;
    assert cr * 10.0 == (10 * count) as real;
  }

  /** The percentage times the participant count is 100 times the working count. */
  lemma PercentageScaled(count: nat, n: nat)
    requires n > 0
    ensures WorkingPercentage(count, n) * (n as real) == (count as real) * 100.0
  {
  }

  lemma ScaleMonotone(x: real, y: real, k: real)
    requires k > 0.0
    ensures x <= y <==> x * k <= y * k
  {
    if x <= y {
      assert (y - x) * k >= 0.0;
    } else {
      assert (x - y) * k > 0.0;
    }
  }

  /** For a fixed participant count, the percentage orders windows the same
      way the working count does. */
  lemma PercentageOrder(c1: nat, c2: nat, n: nat)
    requires n > 0
    ensures WorkingPercentage(c1, n) <= WorkingPercentage(c2, n) <==> c1 <= c2
  {
    var p1, p2 := WorkingPercentage(c1, n), WorkingPercentage(c2, n);
    assert p1 * (n as real) == (c1 as real) * 100.0;
    assert p2 * (n as real) == (c2 as real) * 100.0;
  }

  /** Everyone is counted exactly when every entry is flagged, and no one
      exactly when no entry is. */
  lemma {:induction false} CountExtremes(pts: seq<ParticipantTime>)
    ensures CountWorking(pts) == |pts| <==> forall i :: 0 <= i < |pts| ==> pts[i].isWorkingHours
    ensures CountWorking(pts) == 0 <==> forall i :: 0 <= i < |pts| ==> !pts[i].isWorkingHours
  {
    if |pts| > 0 {
      var init := pts[..|pts| - 1];
      CountExtremes(init);
      assert forall i :: 0 <= i < |pts| - 1 ==> pts[i] == init[i];
      if !pts[|pts| - 1].isWorkingHours {
        assert CountWorking(pts) == CountWorking(init) <= |init| < |pts|;
      }
    }
  }

  /** The positions of the flagged entries. */
  function FlaggedPositions(pts: seq<ParticipantTime>): set<int> {
    set i | 0 <= i < |pts| && pts[i].isWorkingHours
  }

  /** The count is exactly the number of flagged entries. */
  lemma {:induction false} CountIsFlagged(pts: seq<ParticipantTime>)
    ensures CountWorking(pts) == |FlaggedPositions(pts)|
  {
    if |pts| > 0 {
      var init, e := pts[..|pts| - 1], pts[|pts| - 1];
      CountIsFlagged(init);
      assert init + [e] == pts;
      CountAppend(init, e);
      FlaggedAppend(init, e);
    }
  }

  lemma FlaggedAppend(pts: seq<ParticipantTime>, e: ParticipantTime)
    ensures |FlaggedPositions(pts + [e])| == |FlaggedPositions(pts)| + (if e.isWorkingHours then 1 else 0)
  {
    var before, after := FlaggedPositions(pts), FlaggedPositions(pts + [e]);
    assert forall i :: 0 <= i < |pts| ==> (pts + [e])[i] == pts[i];
    if e.isWorkingHours {
      assert after == before + {|pts|};
      assert |pts| !in before;
    } else {
      assert after == before;
    }
  }

  /** Counting after appending one entry adds one exactly when it is flagged;
      this is what the counter in the search loop relies on. */
  lemma CountAppend(pts: seq<ParticipantTime>, e: ParticipantTime)
    ensures CountWorking(pts + [e]) == CountWorking(pts) + (if e.isWorkingHours then 1 else 0)
  {
    assert (pts + [e])[..|pts|] == pts;
  }

  /** Participants sharing a zone always get the same window and the same flag. */
  lemma SameZoneSameFlag(start: int, end: int, zone: string, ps: seq<Participant>, i: nat, j: nat)
    requires i < |ps| && j < |ps|
    requires ps[i].timezone == ps[j].timezone
    ensures var pts := FindOptimalMeetingTime(start, end, zone, ps).participantTimes;
      pts[i].startTime == pts[j].startTime && pts[i].endTime == pts[j].endTime &&
      pts[i].isWorkingHours == pts[j].isWorkingHours
  {
  }

  /** A participant in the meeting's own zone sees the window unchanged. */
  lemma MeetingZoneUnchanged(start: int, end: int, zone: string, ps: seq<Participant>, i: nat)
    requires i < |ps| && ps[i].timezone == zone
    ensures var e := FindOptimalMeetingTime(start, end, zone, ps).participantTimes[i];
      e.startTime == start && e.endTime == end &&
      (e.isWorkingHours <==> IsWorkingHours(start) && IsWorkingHours(end))
  {
  }

  /** 09:00-10:00 in Shanghai is 20:00-21:00 of the day before in New York,
      which is in working hours there. */
  lemma ShanghaiMorningInNewYork(day: int, p: Participant)
    requires p.timezone == "America/New_York"
    ensures var start := day * DayMs + 9 * HourMs;
      var e := FindOptimalMeetingTime(start, start + HourMs, "Asia/Shanghai", [p]).participantTimes[0];
      e.startTime == (day - 1) * DayMs + 20 * HourMs &&
      e.endTime == (day - 1) * DayMs + 21 * HourMs &&
      Hour(e.startTime) == 20 && Hour(e.endTime) == 21 && e.isWorkingHours
  {
    var start := day * DayMs + 9 * HourMs;
    NewYorkHour(day, 9);
    NewYorkHour(day, 10);
    HourOfDay(day - 1, 20, 0);
    HourOfDay(day - 1, 21, 0);
    assert start + HourMs == day * DayMs + 10 * HourMs;
  }

  /** A morning hour on `day` in Shanghai is eleven hours later on the day
      before in New York. */
  lemma NewYorkHour(day: int, hour: int)
    requires 0 <= hour < 13
    ensures ConvertToTimezone(day * DayMs + hour * HourMs, "Asia/Shanghai", "America/New_York")
         == (day - 1) * DayMs + (hour + 11) * HourMs
  {
    SampleConversions(day * DayMs + hour * HourMs);
  }

  /** The 70% threshold at sample participant counts. */
  lemma ThresholdSamples()
    ensures MeetsThreshold(5, 7)
    ensures !MeetsThreshold(6, 10)
    ensures MeetsThreshold(7, 10)
    ensures !MeetsThreshold(0, 0)
  {
  }
}
