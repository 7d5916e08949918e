/**
 The array groups of HID reports (section 6.2.2.5 of HID 1.11): a report lists the usages that are active, and the
 driver turns successive reports into down and up events.  Reading the bits of a report is not part of this model:
 a report is the sequence of its values.
 */
module HidArray {
  const WORD := 0x1_0000_0000

  datatype UsageEvent = Down(usage: int) | Up(usage: int)

  /** The usages that a report says are active. */
  function Active(report: seq<int>): (usages: set<int>) {
    set v | v in report && v != 0
  }

  /** The active usages after some events. */
  function Replay(events: seq<UsageEvent>, active: set<int>): (usages: set<int>) {
    if events == [] then active
    else
      var before := Replay(events[..|events| - 1], active);
      match events[|events| - 1]
      case Down(usage) => before + {usage}
      case Up(usage) => before - {usage}
  }

  function DownEvent(was: seq<int>, value: int): seq<UsageEvent> {
    if value != 0 && value !in was then [Down(value)] else []
  }

  function UpEvent(value: int, now: seq<int>): seq<UsageEvent> {
    if value != 0 && value !in now then [Up(value)] else []
  }

  /** The events for values of `now` that are not in `was`. */
  function Downs(was: seq<int>, now: seq<int>): seq<UsageEvent> {
    if now == [] then [] else Downs(was, now[..|now| - 1]) + DownEvent(was, now[|now| - 1])
  }

  /** The events for values of `was` that are not in `now`. */
  function Ups(was: seq<int>, now: seq<int>): seq<UsageEvent> {
    if was == [] then [] else Ups(was[..|was| - 1], now) + UpEvent(was[|was| - 1], now)
  }

  function Difference(was: seq<int>, now: seq<int>): seq<UsageEvent> {
    Downs(was, now) + Ups(was, now)
  }

  // ----- replaying the events gives the report -----------------------------------------------

  lemma {:induction false} ReplayConcat(a: seq<UsageEvent>, b: seq<UsageEvent>, active: set<int>)
    ensures Replay(a + b, active) == Replay(b, Replay(a, active))
    decreases |b|
  {
    if b == [] {
      assert a + b == a;
    } else {
      assert (a + b)[..|a + b| - 1] == a + b[..|b| - 1];
      ReplayConcat(a, b[..|b| - 1], active);
    }
  }

  lemma ActiveOfLast(report: seq<int>)
    requires report != []
    ensures Active(report) == Active(report[..|report| - 1])
                            + if report[|report| - 1] != 0 then {report[|report| - 1]} else {}
  {
    assert report == report[..|report| - 1] + [report[|report| - 1]];
  }

  lemma {:induction false} ReplayDowns(was: seq<int>, now: seq<int>)
    ensures Replay(Downs(was, now), Active(was)) == Active(was) + Active(now)
  {
    if now != [] {
      var rest, last := now[..|now| - 1], now[|now| - 1];
      ReplayDowns(was, rest);
      ReplayConcat(Downs(was, rest), DownEvent(was, last), Active(was));
      ReplayOne(DownEvent(was, last), Active(was) + Active(rest));
      ActiveOfLast(now);
    }
  }

  lemma ReplayOne(events: seq<UsageEvent>, active: set<int>)
    requires |events| <= 1
    ensures Replay(events, active)
         == if events == [] then active
            else if events[0].Down? then active + {events[0].usage}
            else active - {events[0].usage}
  {
    if events != [] {
      assert events[..0] == [];
    }
  }

  lemma {:induction false} ReplayUps(was: seq<int>, now: seq<int>, active: set<int>)
    ensures Replay(Ups(was, now), active) == active - (Active(was) - Active(now))
  {
    if was != [] {
      var rest, last := was[..|was| - 1], was[|was| - 1];
      ReplayUps(rest, now, active);
      ReplayConcat(Ups(rest, now), UpEvent(last, now), active);
      ReplayOne(UpEvent(last, now), active - (Active(rest) - Active(now)));
      ActiveOfLast(was);
    }
  }

  /** The events between two reports lead from the usages of the one to exactly those of the other. */
  lemma ReplayDifference(was: seq<int>, now: seq<int>)
    ensures Replay(Difference(was, now), Active(was)) == Active(now)
  {
    ReplayConcat(Downs(was, now), Ups(was, now), Active(was));
    ReplayDowns(was, now);
    ReplayUps(was, now, Active(was) + Active(now));
    assert (Active(was) + Active(now)) - (Active(was) - Active(now)) == Active(now);
  }

  /** Every event is a change: only usages that become active go down, and only ones that stop go up. */
  lemma EventsAreChanges(was: seq<int>, now: seq<int>)
    ensures forall e :: e in Downs(was, now) <==> e.Down? && e.usage in Active(now) - Active(was)
    ensures forall e :: e in Ups(was, now) <==> e.Up? && e.usage in Active(was) - Active(now)
  {
    EventsAreChangesDown(was, now);
    EventsAreChangesUp(was, now);
  }

  lemma {:induction false} EventsAreChangesDown(was: seq<int>, now: seq<int>)
    ensures forall e :: e in Downs(was, now) <==> e.Down? && e.usage in Active(now) - Active(was)
  {
    if now != [] {
      var rest, last := now[..|now| - 1], now[|now| - 1];
      EventsAreChangesDown(was, rest);
      assert now == rest + [last];
      assert Active(now) == Active(rest) + Active([last]);
    }
  }

  lemma {:induction false} EventsAreChangesUp(was: seq<int>, now: seq<int>)
    ensures forall e :: e in Ups(was, now) <==> e.Up? && e.usage in Active(was) - Active(now)
  {
    if was != [] {
      var rest, last := was[..|was| - 1], was[|was| - 1];
      EventsAreChangesUp(rest, now);
      assert was == rest + [last];
      assert Active(was) == Active(rest) + Active([last]);
    }
  }

  // ----- every sequence of reports -----------------------------------------------------------

  /** All events after the first `n` reports. */
  function Emitted(reports: seq<seq<int>>, n: nat): seq<UsageEvent>
    requires n <= |reports|
  {
    if n == 0 then [] else Emitted(reports, n - 1) + Difference(if n == 1 then [] else reports[n - 2], reports[n - 1])
  }

  /** After every report of every sequence, replaying all events from nothing gives exactly the usages of that
      report. */
  lemma {:induction false} ReplayGivesLastReport(reports: seq<seq<int>>, n: nat)
    requires 0 < n <= |reports|
    ensures Replay(Emitted(reports, n), {}) == Active(reports[n - 1])
  {
    var was := if n == 1 then [] else reports[n - 2];
    if n > 1 {
      ReplayGivesLastReport(reports, n - 1);
    }
    assert Active([]) == {};
    ReplayConcat(Emitted(reports, n - 1), Difference(was, reports[n - 1]), {});
    ReplayDifference(was, reports[n - 1]);
  }

  // ----- in place ----------------------------------------------------------------------------

  /** The search loops of `handleArrayGroup`. */
  method Contains(a: array<int>, value: int) returns (found: bool)
    ensures found <==> value in a[..]
  {
    for i := 0 to a.Length
      invariant value !in a[..i]
    {
      if a[i] == value {
        return true;
      }
    }
    assert a[..a.Length] == a[..];
    return false;
  }

  class ArrayGroup {
    /** The previous state of each reader. */
    const readers: array<int>
    const oldStates: array<int>

    /** The calls of `handleUsage` so far. */
    var events: seq<UsageEvent>

    /** Replaying the events gives the usages of the last report. */
    ghost predicate Valid()
      reads this, readers, oldStates
    {
      && readers != oldStates && readers.Length <= oldStates.Length
      && (forall i | readers.Length <= i < oldStates.Length :: oldStates[i] == 0)
      && Replay(events, {}) == Active(oldStates[..])
    }

    constructor (readerCount: nat, count: nat)
      requires readerCount <= count
      ensures Valid() && readers.Length == readerCount && events == []
      ensures fresh(readers) && fresh(oldStates)
    {
      readers := new int[readerCount](_ => 0);
      oldStates := new int[count](_ => 0);
      events := [];
    }

    /** Down events for the values that were not there before. */
    method EmitDowns()
      requires Valid()
      modifies `events
      ensures events == old(events) + Downs(oldStates[..], readers[..])
    {
      for i := 0 to readers.Length
        invariant events == old(events) + Downs(oldStates[..], readers[..i])
      {
        assert readers[..i + 1][..i] == readers[..i];
        if readers[i] == 0 {
          continue;
        }
        var alreadyPresent := Contains(oldStates, readers[i]);
        if !alreadyPresent {
          events := events + [Down(readers[i])];
        }
      }
      assert readers[..readers.Length] == readers[..];
    }

    /** Up events for the values that are no longer there. */
    method EmitUps()
      modifies `events
      ensures events == old(events) + Ups(oldStates[..], readers[..])
    {
      for i := 0 to oldStates.Length
        invariant events == old(events) + Ups(oldStates[..i], readers[..])
      {
        assert oldStates[..i + 1][..i] == oldStates[..i];
        if oldStates[i] == 0 {
          continue;
        }
        var alreadyPresent := Contains(readers, oldStates[i]);
        if !alreadyPresent {
          events := events + [Up(oldStates[i])];
        }
      }
      assert oldStates[..oldStates.Length] == oldStates[..];
    }

    /** `handleArrayGroup`: the events tell the previous report from this one. */
    method HandleArrayGroup(report: seq<int>)
      requires Valid() && |report| == readers.Length
      modifies this, readers, oldStates
      ensures Valid()
      ensures events == old(events) + Difference(old(oldStates[..]), report)
      ensures Replay(events, {}) == Active(report)
    {
      FetchValues(report);
      ghost var was, before := oldStates[..], events;
      EmitDowns();
      EmitUps();
      ReplayAppended(before, was, report, events);
      CopyValues(report);
      PaddedActive(report, oldStates[..]);
    }

    method FetchValues(report: seq<int>)
      requires |report| == readers.Length && readers != oldStates
      modifies readers
      ensures readers[..] == report
    {
      for i := 0 to readers.Length
        invariant readers[..i] == report[..i]
      {
        readers[i] := report[i];
      }
    }

    method CopyValues(report: seq<int>)
      requires readers[..] == report && readers != oldStates && readers.Length <= oldStates.Length
      modifies oldStates
      ensures oldStates[..|report|] == report
      ensures forall j | readers.Length <= j < oldStates.Length :: oldStates[j] == old(oldStates[j])
    {
      for i := 0 to readers.Length
        invariant readers[..] == report && oldStates[..i] == report[..i]
        invariant forall j | readers.Length <= j < oldStates.Length :: oldStates[j] == old(oldStates[j])
      {
        oldStates[i] := readers[i];
      }
    }
  }

  lemma Regroup(a: seq<UsageEvent>, b: seq<UsageEvent>, c: seq<UsageEvent>)
    ensures a + b + c == a + (b + c)
  {
  }

  lemma ReplayAppended(before: seq<UsageEvent>, was: seq<int>, now: seq<int>, after: seq<UsageEvent>)
    requires Replay(before, {}) == Active(was) && after == before + Downs(was, now) + Ups(was, now)
    ensures after == before + Difference(was, now) && Replay(after, {}) == Active(now)
  {
    Regroup(before, Downs(was, now), Ups(was, now));
    ReplayConcat(before, Difference(was, now), {});
    ReplayDifference(was, now);
  }

  /** Trailing zeros are no usages. */
  lemma PaddedActive(report: seq<int>, padded: seq<int>)
    requires |report| <= |padded| && padded[..|report|] == report
    requires forall i | |report| <= i < |padded| :: padded[i] == 0
    ensures Active(padded) == Active(report)
  {
    forall v | v in padded && v != 0 ensures v in report {
      var i :| 0 <= i < |padded| && padded[i] == v;
      assert padded[..|report|][i] == v;
    }
    forall v | v in report ensures v in padded {
      var i :| 0 <= i < |report| && report[i] == v;
      assert padded[i] == padded[..|report|][i];
    }
  }

  // ----- readers -----------------------------------------------------------------------------

  /** The usages of the readers that `input` appends to a group. */
  function ReaderUsages(usages: seq<nat>, usageMin: nat, usageMax: nat, reportCount: nat): seq<nat> {
    if |usages| == 1 then seq(reportCount, _ => usages[0])
    else if |usages| == reportCount then usages
    else if |usages| == 0 && (usageMax - usageMin + 1) % WORD == reportCount then
      if usageMin <= usageMax then seq(usageMax - usageMin + 1, i requires i >= 0 => usageMin + i) else []
    else seq(reportCount, i requires i >= 0 => i)
  }

  /** The loop over a usage range up to 2^32 - 1 never ends, since every 32-bit usage is at most that. */
  predicate Endless(usages: seq<nat>, usageMin: nat, usageMax: nat, reportCount: nat) {
    usages == [] && reportCount != 0 && (usageMax - usageMin + 1) % WORD == reportCount && usageMax == WORD - 1
  }

  /** A group has `reportCount` readers exactly unless the usage range is inverted and matches the report count by
      wrap-around; then it has none.  Either way every reader has its place in `oldStates`. */
  lemma ReaderCount(usages: seq<nat>, usageMin: nat, usageMax: nat, reportCount: nat)
    requires usageMin < 0x1_0000_0000 && usageMax < 0x1_0000_0000 && reportCount < 0x1_0000_0000
    requires !Endless(usages, usageMin, usageMax, reportCount)
    ensures |ReaderUsages(usages, usageMin, usageMax, reportCount)| == reportCount
       <==> !(usages == [] && reportCount > 0 && usageMin == usageMax + 1 + 0x1_0000_0000 - reportCount)
    ensures |ReaderUsages(usages, usageMin, usageMax, reportCount)| <= reportCount
  {
  }

  /** Which usages the readers have: the one usage that was listed, the listed usages in order, the usages of the range
      from its start on, or else the numbers from 0 on. */
  lemma ReadersHaveUsages(usages: seq<nat>, usageMin: nat, usageMax: nat, reportCount: nat, k: nat)
    requires usageMin < WORD && usageMax < WORD && reportCount < WORD
    requires !Endless(usages, usageMin, usageMax, reportCount)
    requires k < |ReaderUsages(usages, usageMin, usageMax, reportCount)|
    ensures var usage := ReaderUsages(usages, usageMin, usageMax, reportCount)[k];
            && (|usages| == 1 ==> usage == usages[0])
            && (|usages| == reportCount ==> usage == usages[k])
            && (|usages| == 0 && usageMin + reportCount == usageMax + 1 ==> usage == usageMin + k <= usageMax)
            && (|usages| >= 2 && |usages| != reportCount ==> usage == k)
            && (|usages| == 0 && usageMin + reportCount != usageMax + 1 ==> usage == k)
  {
  }

  /** The reader loops of `input`. */
  method BuildReaders(usages: seq<nat>, usageMin: nat, usageMax: nat, reportCount: nat) returns (readers: seq<nat>)
    requires usageMin < WORD && usageMax < WORD && reportCount < WORD
    requires !Endless(usages, usageMin, usageMax, reportCount)
    ensures readers == ReaderUsages(usages, usageMin, usageMax, reportCount)
  {
    readers := [];
    if |usages| == 1 {
      for i := 0 to reportCount
        invariant readers == seq(i, _ => usages[0])
      {
        readers := readers + [usages[0]];
      }
    } else if |usages| == reportCount {
      for i := 0 to |usages|
        invariant readers == usages[..i]
      {
        readers := readers + [usages[i]];
      }
    } else if |usages| == 0 && (usageMax - usageMin + 1) % WORD == reportCount {
      var usage := usageMin;
      while usage <= usageMax
        invariant usage == usageMin + |readers| && (usageMin <= usageMax + 1 ==> usage <= usageMax + 1)
        invariant forall i | 0 <= i < |readers| :: readers[i] == usageMin + i
        invariant usageMin > usageMax ==> readers == []
      {
        readers := readers + [usage];
        usage := usage + 1;
      }
    } else {
      for i := 0 to reportCount
        invariant |readers| == i && forall j | 0 <= j < i :: readers[j] == j
      {
        readers := readers + [i];
      }
    }
  }
}
