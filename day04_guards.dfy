/** Day 4, the two passes over the replayed events and the answer: the guard
    on duty is copied onto every event of a shift, each guard's minutes
    asleep are added up and counted minute by minute, and the answer is the
    sleepiest guard's number times the minute that guard slept most often. */
module Day04Guards {
  import opened Results
  import opened JsText
  import opened Keys
  import opened Tallies
  import opened Day04Parse
  import opened Day04Index

  // ---------------------------------------------------------------------
  // The first pass: whose shift each event belongs to

  /** `event.guardID && event.EventType === "ShiftStart"`. */
  predicate OpensShift(e: Event)
  {
    e.kind == Some(ShiftStart) && e.guard.Some? && e.guard.value != 0
  }

  /** The guard of the latest shift start among `events`, if there is one. */
  function ActiveGuard(events: seq<Event>): (g: Option<int>)
    ensures g.Some? ==> g.value != 0
  {
    if events == [] then None
    else
      var last := events[|events| - 1];
      if OpensShift(last) then last.guard else ActiveGuard(events[..|events| - 1])
  }

  /** `ActiveGuard` is none exactly when no event opens a shift, and
      otherwise the guard of the last event that does. */
  lemma ActiveGuardIsLatest(events: seq<Event>)
    ensures ActiveGuard(events).None? <==> forall i | 0 <= i < |events| :: !OpensShift(events[i])
    ensures ActiveGuard(events).Some? ==> exists j | 0 <= j < |events| ::
      (OpensShift(events[j]) && events[j].guard == ActiveGuard(events)
       && forall k | j < k < |events| :: !OpensShift(events[k]))
  {
    ActiveGuardNone(events);
    if ActiveGuard(events).Some? {
      var j := LatestShift(events);
    }
  }

  lemma {:induction false} ActiveGuardNone(events: seq<Event>)
    ensures ActiveGuard(events).None? <==> forall i | 0 <= i < |events| :: !OpensShift(events[i])
  {
    if events != [] {
      var front := events[..|events| - 1];
      ActiveGuardNone(front);
      assert forall i | 0 <= i < |front| :: events[i] == front[i];
    }
  }

  /** The position of the shift start `ActiveGuard` reports. */
  lemma {:induction false} LatestShift(events: seq<Event>) returns (j: nat)
    requires ActiveGuard(events).Some?
    ensures j < |events| && OpensShift(events[j]) && events[j].guard == ActiveGuard(events)
    ensures forall k | j < k < |events| :: !OpensShift(events[k])
  {
    var last := events[|events| - 1];
    if OpensShift(last) {
      j := |events| - 1;
    } else {
      var front := events[..|events| - 1];
      j := LatestShift(front);
      assert forall i | 0 <= i < |front| :: events[i] == front[i];
    }
  }

  /** One event after the first pass: a shift start keeps its guard, any
      other event takes the guard on duty, if there is one. */
  function Filled(e: Event, onDuty: Option<int>): Event
  {
    if OpensShift(e) then e
    else if onDuty.Some? then e.(guard := onDuty)
    else e
  }

  function BackFilled(events: seq<Event>): (r: seq<Event>)
    ensures |r| == |events|
  {
    seq(|events|, i requires 0 <= i < |events| => Filled(events[i], ActiveGuard(events[..i])))
  }

  /** The number of events before the first shift start: the ones the first
      pass reports as having no guard. */
  function BeforeFirstShift(events: seq<Event>): (n: nat)
    ensures n <= |events|
    ensures forall i | 0 <= i < n :: !OpensShift(events[i])
    ensures n < |events| ==> OpensShift(events[n])
  {
    if events == [] || OpensShift(events[0]) then 0
    else 1 + BeforeFirstShift(events[1..])
  }

  /** After the first pass every event carries the guard of the latest shift
      start before it, when there is one, and nothing but the guard changes. */
  lemma BackFilledGuards(events: seq<Event>, i: nat)
    requires i < |events| && !OpensShift(events[i])
    ensures BackFilled(events)[i].time == events[i].time && BackFilled(events)[i].kind == events[i].kind
    ensures (exists j | 0 <= j < i :: OpensShift(events[j])) ==>
      exists j | 0 <= j < i ::
        (OpensShift(events[j]) && BackFilled(events)[i].guard == events[j].guard
         && forall k | j < k < i :: !OpensShift(events[k]))
    ensures (forall j | 0 <= j < i :: !OpensShift(events[j])) ==> BackFilled(events)[i] == events[i]
  {
    var pre := events[..i];
    assert forall j | 0 <= j < i :: pre[j] == events[j];
    var g := ActiveGuard(pre);
    ActiveGuardIsLatest(pre);
    if g.Some? {
      var j :| 0 <= j < |pre| && OpensShift(pre[j]) && pre[j].guard == g
        && forall k | j < k < |pre| :: !OpensShift(pre[k]);
      assert BackFilled(events)[i].guard == events[j].guard;
    }
  }

  /** The guard on duty after one more event. */
  lemma ActiveGuardStep(events: seq<Event>, i: nat)
    requires i < |events|
    ensures ActiveGuard(events[..i + 1]) == if OpensShift(events[i]) then events[i].guard else ActiveGuard(events[..i])
  {
    assert events[..i + 1][..i] == events[..i];
  }

  /** No guard is on duty exactly up to the first shift start. */
  lemma NoGuardBeforeFirstShift(events: seq<Event>, i: nat)
    requires i <= |events|
    ensures ActiveGuard(events[..i]).None? <==> i <= BeforeFirstShift(events)
  {
    var n := BeforeFirstShift(events);
    ActiveGuardIsLatest(events[..i]);
    if i > n {
      assert events[..i][n] == events[n];
    }
  }

  /** The first pass over the replay, assigning `guardID` in place on the
      events it visits. Returns how many events it found no guard for. */
  method Backfill(events: array<Event>) returns (unassigned: nat)
    modifies events
    ensures events[..] == BackFilled(old(events[..]))
    ensures unassigned == BeforeFirstShift(old(events[..]))
  {
    ghost var original := events[..];
    var currentActiveGuard: Option<int> := None;
    unassigned := 0;
    var i := 0;
    while i < events.Length
      invariant 0 <= i <= events.Length
      invariant forall j | 0 <= j < i :: events[j] == Filled(original[j], ActiveGuard(original[..j]))
      invariant forall j | i <= j < events.Length :: events[j] == original[j]
      invariant currentActiveGuard == ActiveGuard(original[..i])
      invariant unassigned == Unassigned(original, i)
    {
      var event := events[i];
      BackfillStep(original, i);
      if OpensShift(event) {
        currentActiveGuard := event.guard;
      } else if currentActiveGuard.Some? {
        // `currentActiveGuard` is never 0: only shift starts with a guard set it.
        events[i] := event.(guard := currentActiveGuard);
      } else {
        unassigned := unassigned + 1;
      }
      i := i + 1;
    }
    assert events[..] == BackFilled(original);
  }

  /** How many of the first `i` events come before the first shift start. */
  function Unassigned(events: seq<Event>, i: nat): nat
  {
    var n := BeforeFirstShift(events);
    if i <= n then i else n
  }

  /** What one iteration of the first pass changes. */
  lemma BackfillStep(events: seq<Event>, i: nat)
    requires i < |events|
    ensures ActiveGuard(events[..i + 1]) == if OpensShift(events[i]) then events[i].guard else ActiveGuard(events[..i])
    ensures Unassigned(events, i + 1)
         == Unassigned(events, i) + if !OpensShift(events[i]) && ActiveGuard(events[..i]).None? then 1 else 0
  {
    ActiveGuardStep(events, i);
    NoGuardBeforeFirstShift(events, i);
  }

  // ---------------------------------------------------------------------
  // The second pass: minutes asleep per guard

  /** What is known about one guard: the total minutes asleep and, for each
      minute of the hour, on how many wake-ups that minute fell within the
      nap. */
  datatype Profile = Profile(minutesSleeping: int, sleepLog: map<int, nat>)

  /** The state of the second pass. `guardsHoursSleep` is keyed by the
      events' guard, `None` standing for the key `"undefined"`;
      `warnings` counts the data integrity errors it logs. */
  datatype Sheet = Sheet(activeGuard: Option<int>, sleepStart: Option<int>,
                         guardsHoursSleep: map<Option<int>, Profile>, warnings: nat)

  const EmptySheet := Sheet(None, None, map[], 0)

  function Count(log: map<int, nat>, m: int): nat
  {
    if m in log then log[m] else 0
  }

  /** The minute counts after a nap from `lo` up to, not including, `hi`. */
  function BumpRange(log: map<int, nat>, lo: int, hi: int): map<int, nat>
    decreases hi - lo
  {
    if hi <= lo then log else Inc(BumpRange(log, lo, hi - 1), hi - 1)
  }

  /** A nap adds the minutes from `lo` up to `hi` to the table, each counted
      once more, and leaves every other count alone. */
  lemma {:induction false} BumpRangeCounts(log: map<int, nat>, lo: int, hi: int)
    ensures forall m :: m in BumpRange(log, lo, hi) <==> m in log || lo <= m < hi
    ensures forall m :: Count(BumpRange(log, lo, hi), m) == Count(log, m) + (if lo <= m < hi then 1 else 0)
    decreases hi - lo
  {
    if lo < hi {
      BumpRangeCounts(log, lo, hi - 1);
    }
  }

  lemma {:induction false} BumpRangeSum(log: map<int, nat>, lo: int, hi: int)
    requires lo <= hi
    ensures SumValues(BumpRange(log, lo, hi)) == SumValues(log) + (hi - lo)
    decreases hi - lo
  {
    if lo < hi {
      BumpRangeSum(log, lo, hi - 1);
      SumValuesInc(BumpRange(log, lo, hi - 1), hi - 1);
    }
  }

  function ProfileOf(guardsHoursSleep: map<Option<int>, Profile>, g: Option<int>): Profile
  {
    if g in guardsHoursSleep then guardsHoursSleep[g] else Profile(0, map[])
  }

  /** One event of the second pass. A wake-up with no sleep start before it
      stops the solver: the code reads the minutes of an undefined date. */
  function Step(sheet: Sheet, e: Event): Result<Sheet, Day4Error>
  {
    var afterShift := if e.kind == Some(ShiftStart) then sheet.(activeGuard := e.guard) else sheet;
    var s := if e.kind == Some(FallAsleep) then afterShift.(sleepStart := Some(e.time.minute)) else afterShift;
    if e.kind != Some(WakeUp) then Ok(s)
    else if s.sleepStart.None? then Err(UnmatchedWake)
    else
      var start := s.sleepStart.value;
      var p := ProfileOf(s.guardsHoursSleep, e.guard);
      var napped := Profile(p.minutesSleeping + (e.time.minute - start),
                            BumpRange(p.sleepLog, start, e.time.minute));
      Ok(s.(guardsHoursSleep := s.guardsHoursSleep[e.guard := napped],
            warnings := s.warnings + if s.activeGuard != e.guard then 1 else 0))
  }

  /** The second pass over the whole replay. */
  function Tally(events: seq<Event>): Result<Sheet, Day4Error>
  {
    if events == [] then Ok(EmptySheet)
    else
      var s :- Tally(events[..|events| - 1]);
      Step(s, events[|events| - 1])
  }

  /** A wake-up changes its own guard's entry and no other: each minute of
      the nap is counted once more and the nap's length is added. */
  lemma StepWake(sheet: Sheet, e: Event)
    requires e.kind == Some(WakeUp) && sheet.sleepStart.Some?
    ensures Step(sheet, e).Ok?
    ensures var r := Step(sheet, e).value.guardsHoursSleep;
      var start := sheet.sleepStart.value;
      && r.Keys == sheet.guardsHoursSleep.Keys + {e.guard}
      && (forall g | g in sheet.guardsHoursSleep && g != e.guard :: r[g] == sheet.guardsHoursSleep[g])
      && r[e.guard].minutesSleeping
         == ProfileOf(sheet.guardsHoursSleep, e.guard).minutesSleeping + (e.time.minute - start)
      && (forall m :: Count(r[e.guard].sleepLog, m)
            == Count(ProfileOf(sheet.guardsHoursSleep, e.guard).sleepLog, m)
               + (if start <= m < e.time.minute then 1 else 0))
  {
    BumpRangeCounts(ProfileOf(sheet.guardsHoursSleep, e.guard).sleepLog, sheet.sleepStart.value, e.time.minute);
  }

  /** The minute of the latest sleep start among `events`. */
  function LastSleep(events: seq<Event>): Option<int>
  {
    if events == [] then None
    else if events[|events| - 1].kind == Some(FallAsleep) then Some(events[|events| - 1].time.minute)
    else LastSleep(events[..|events| - 1])
  }

  /** The second pass fails exactly when some wake-up comes before every
      sleep start. */
  lemma {:induction false} TallyFails(events: seq<Event>)
    ensures Tally(events).Err? <==> exists i | 0 <= i < |events| ::
      (events[i].kind == Some(WakeUp) && LastSleep(events[..i]).None?)
    ensures Tally(events).Err? ==> Tally(events).error == UnmatchedWake
    ensures Tally(events).Ok? ==> Tally(events).value.sleepStart == LastSleep(events)
  {
    if events != [] {
      var front := events[..|events| - 1];
      var e := events[|events| - 1];
      TallyFails(front);
      assert forall i | 0 <= i < |front| :: front[..i] == events[..i] && front[i] == events[i];
      assert events[..|events| - 1] == front;
      if Tally(front).Ok? {
        assert (exists i | 0 <= i < |events| :: events[i].kind == Some(WakeUp) && LastSleep(events[..i]).None?)
           <==> (e.kind == Some(WakeUp) && LastSleep(front).None?);
      } else {
        var i :| 0 <= i < |front| && front[i].kind == Some(WakeUp) && LastSleep(front[..i]).None?;
        assert events[i].kind == Some(WakeUp) && LastSleep(events[..i]).None?;
      }
    }
  }

  /** Every wake-up comes at or after the minute of the sleep start it is
      measured from: what the same-hour assumption of the source gives. */
  ghost predicate WakesAfterSleep(events: seq<Event>)
  {
    forall i | 0 <= i < |events| && events[i].kind == Some(WakeUp) && LastSleep(events[..i]).Some? ::
      LastSleep(events[..i]).value <= events[i].time.minute
  }

  /** Each guard's minute counts add up to the guard's total minutes asleep. */
  ghost predicate LogsMatchTotals(sheet: Sheet)
  {
    forall g | g in sheet.guardsHoursSleep ::
      SumValues(sheet.guardsHoursSleep[g].sleepLog) == sheet.guardsHoursSleep[g].minutesSleeping
  }

  lemma {:induction false} TallyLogsMatchTotals(events: seq<Event>)
    requires WakesAfterSleep(events)
    ensures Tally(events).Ok? ==> LogsMatchTotals(Tally(events).value)
  {
    if events != [] && Tally(events).Ok? {
      var front := events[..|events| - 1];
      var e := events[|events| - 1];
      assert forall i | 0 <= i < |front| :: front[..i] == events[..i] && front[i] == events[i];
      assert WakesAfterSleep(front);
      TallyLogsMatchTotals(front);
      TallyFails(front);
      var s := Tally(front).value;
      if e.kind == Some(WakeUp) {
        var start := s.sleepStart.value;
        assert events[..|events| - 1] == front;
        assert start <= e.time.minute;
        var p := ProfileOf(s.guardsHoursSleep, e.guard);
        BumpRangeSum(p.sleepLog, start, e.time.minute);
        assert SumValues(p.sleepLog) == p.minutesSleeping by {
          if e.guard !in s.guardsHoursSleep {
            assert p.sleepLog == map[];
          }
        }
      }
    }
  }

  /** The events as the first pass leaves them for parsed input: only shift
      starts carry a guard, and theirs is positive. */
  ghost predicate GuardsOnShiftStarts(events: seq<Event>)
  {
    forall i | 0 <= i < |events| ::
      (events[i].guard.Some? <==> events[i].kind == Some(ShiftStart))
      && (events[i].guard.Some? ==> events[i].guard.value > 0)
  }

  /** After the first pass the integrity check of the second never fires: the
      guard on a wake-up is always the guard whose shift it is. */
  lemma {:induction false} NoIntegrityWarnings(events: seq<Event>, n: nat)
    requires GuardsOnShiftStarts(events) && n <= |events|
    ensures var r := Tally(BackFilled(events)[..n]);
      r.Ok? ==> r.value.warnings == 0 && r.value.activeGuard == ActiveGuard(events[..n])
  {
    var filled := BackFilled(events);
    if n > 0 {
      NoIntegrityWarnings(events, n - 1);
      TallySnoc(filled, n);
      ActiveGuardStep(events, n - 1);
      var e := events[n - 1];
      assert filled[n - 1] == Filled(e, ActiveGuard(events[..n - 1]));
      var s := Tally(filled[..n - 1]);
      if s.Ok? {
        NoIntegrityStep(s.value, e, ActiveGuard(events[..n - 1]));
      }
    }
  }

  /** Parsed and stamped log lines are as the first pass expects them: only
      shift starts carry a guard, and it is positive. */
  lemma ParsedGuardsOnShiftStarts(lines: seq<string>)
    requires ParseEvents(lines).Ok? && StampAll(ParseEvents(lines).value).Ok?
    ensures GuardsOnShiftStarts(StampAll(ParseEvents(lines).value).value)
  {
    var parsed := ParseEvents(lines).value;
    var events := StampAll(parsed).value;
    forall i | 0 <= i < |events|
      ensures (events[i].guard.Some? <==> events[i].kind == Some(ShiftStart))
              && (events[i].guard.Some? ==> events[i].guard.value > 0)
    {
      assert GetEventFromEventText(lines[i]) == Ok(parsed[i]);
      assert Stamped(parsed[i]) == Some(events[i]);
    }
  }

  /** Replaying the index yields only events of the input, so it keeps that
      shape. */
  lemma ReplayGuardsOnShiftStarts(events: seq<Event>)
    requires GuardsOnShiftStarts(events)
    ensures GuardsOnShiftStarts(Replay(Indexed(events)))
  {
    ReplayIndexed(events);
    var replayed := Replay(Indexed(events));
    forall i | 0 <= i < |replayed|
      ensures (replayed[i].guard.Some? <==> replayed[i].kind == Some(ShiftStart))
              && (replayed[i].guard.Some? ==> replayed[i].guard.value > 0)
    {
      assert replayed[i] in replayed;
      assert LastAt(events, replayed[i].time) == Some(replayed[i]);
      var j :| 0 <= j < |events| && events[j] == replayed[i];
    }
  }

  /** On the lines of any input, the integrity check of the second pass
      never fires. */
  lemma SolverNoIntegrityWarnings(lines: seq<string>)
    requires ParseEvents(lines).Ok? && StampAll(ParseEvents(lines).value).Ok?
    ensures var replayed := Replay(Indexed(StampAll(ParseEvents(lines).value).value));
      Tally(BackFilled(replayed)).Ok? ==> Tally(BackFilled(replayed)).value.warnings == 0
  {
    var events := StampAll(ParseEvents(lines).value).value;
    var replayed := Replay(Indexed(events));
    ParsedGuardsOnShiftStarts(lines);
    ReplayGuardsOnShiftStarts(events);
    NoIntegrityWarnings(replayed, |replayed|);
    assert BackFilled(replayed)[..|replayed|] == BackFilled(replayed);
  }

  /** The second pass over one more event. */
  lemma TallySnoc(events: seq<Event>, n: nat)
    requires 0 < n <= |events|
    ensures Tally(events[..n]) == if Tally(events[..n - 1]).Err? then Tally(events[..n - 1])
                                  else Step(Tally(events[..n - 1]).value, events[n - 1])
  {
    assert events[..n][..n - 1] == events[..n - 1];
  }

  /** One step of the second pass over a back-filled event: the guard on
      duty follows the shift starts and a wake-up is never a mismatch. */
  lemma NoIntegrityStep(sheet: Sheet, e: Event, onDuty: Option<int>)
    requires sheet.warnings == 0 && sheet.activeGuard == onDuty
    requires e.guard.Some? <==> e.kind == Some(ShiftStart)
    requires e.guard.Some? ==> e.guard.value > 0
    ensures var r := Step(sheet, Filled(e, onDuty));
      r.Ok? ==> r.value.warnings == 0 && r.value.activeGuard == if OpensShift(e) then e.guard else onDuty
  {
    var f := Filled(e, onDuty);
    if e.kind == Some(ShiftStart) {
      assert f.kind == Some(ShiftStart);
      assert f.guard == if OpensShift(e) then e.guard else onDuty;
    } else {
      assert f.guard == onDuty;
    }
  }

  // ---------------------------------------------------------------------
  // Choosing the guard and the minute

  datatype Choice<K> = Choice(best: Option<K>, score: int)

  /** The strict-`>` scan from -1 the solver uses twice: the first key of
      highest score above -1. */
  function FirstMaxOf<K(==)>(keys: seq<K>, score: map<K, int>): (c: Choice<K>)
    requires forall i | 0 <= i < |keys| :: keys[i] in score
    ensures c.best.Some? ==> c.best.value in keys && c.score == score[c.best.value]
  {
    if keys == [] then Choice(None, -1)
    else
      var c := FirstMaxOf(keys[..|keys| - 1], score);
      var k := keys[|keys| - 1];
      if score[k] > c.score then Choice(Some(k), score[k]) else c
  }

  /** The scan finds a key of greatest score, the earliest such key, and none
      when every score is -1 or less. */
  lemma {:induction false} FirstMaxOfIsFirstMax<K>(keys: seq<K>, score: map<K, int>)
    requires forall i | 0 <= i < |keys| :: keys[i] in score
    ensures var c := FirstMaxOf(keys, score);
      && (c.best.None? <==> forall i | 0 <= i < |keys| :: score[keys[i]] <= -1)
      && (c.best.None? ==> c.score == -1)
      && (forall i | 0 <= i < |keys| :: score[keys[i]] <= c.score)
      && (c.best.Some? ==> exists i | 0 <= i < |keys| ::
            (keys[i] == c.best.value && score[keys[i]] == c.score
             && forall j | 0 <= j < i :: score[keys[j]] < c.score))
  {
    if keys != [] {
      var front := keys[..|keys| - 1];
      assert forall i | 0 <= i < |front| :: front[i] == keys[i];
      FirstMaxOfIsFirstMax(front, score);
      var c := FirstMaxOf(front, score);
      var k := keys[|keys| - 1];
      if score[k] > c.score {
        assert keys[|keys| - 1] == k;
      } else if c.best.Some? {
        var i :| 0 <= i < |front| && front[i] == c.best.value && score[front[i]] == c.score
          && forall j | 0 <= j < i :: score[front[j]] < c.score;
        assert keys[i] == c.best.value;
      }
    }
  }

  method FirstMax<K(==)>(keys: seq<K>, score: map<K, int>) returns (best: Option<K>, bestScore: int)
    requires forall i | 0 <= i < |keys| :: keys[i] in score
    ensures Choice(best, bestScore) == FirstMaxOf(keys, score)
  {
    best, bestScore := None, -1;
    for i := 0 to |keys|
      invariant Choice(best, bestScore) == FirstMaxOf(keys[..i], score)
    {
      assert keys[..i + 1][..i] == keys[..i];
      if score[keys[i]] > bestScore {
        best, bestScore := Some(keys[i]), score[keys[i]];
      }
    }
    assert keys[..|keys|] == keys;
  }

  /** The order `for ... in` visits `guardsHoursSleep`: the guard numbers in
      ascending order, then the key `"undefined"`. */
  function GuardOrder(guardsHoursSleep: map<Option<int>, Profile>): (r: seq<Option<int>>)
    ensures forall g :: g in r <==> g in guardsHoursSleep
    ensures forall i, j | 0 <= i < j < |r| && r[j].Some? :: r[i].Some? && r[i].value < r[j].value
  {
    var numbered := Numbered(GuardIds(guardsHoursSleep));
    if None in guardsHoursSleep then
      UndefinedLast(numbered);
      numbered + [None]
    else
      numbered
  }

  /** The key `"undefined"` visited after the guard numbers. */
  lemma UndefinedLast(numbered: seq<Option<int>>)
    requires forall i, j | 0 <= i < j < |numbered| :: numbered[i].Some? && numbered[j].Some? && numbered[i].value < numbered[j].value
    ensures forall g :: g in numbered + [None] <==> g in numbered || g == None
    ensures var r := numbered + [None];
      forall i, j | 0 <= i < j < |r| && r[j].Some? :: r[i].Some? && r[i].value < r[j].value
  {
    var r := numbered + [None];
    forall i, j | 0 <= i < j < |r| && r[j].Some? ensures r[i].Some? && r[i].value < r[j].value {
      assert r[i] == numbered[i] && r[j] == numbered[j];
    }
  }

  /** The guard numbers among the keys. */
  function GuardIds(guardsHoursSleep: map<Option<int>, Profile>): (r: set<int>)
    ensures forall x :: x in r <==> Some(x) in guardsHoursSleep
  {
    set g | g in guardsHoursSleep && g.Some? :: g.value
  }

  /** The numbers of `ids` as keys, in ascending order. */
  function Numbered(ids: set<int>): (r: seq<Option<int>>)
    ensures forall g :: g in r <==> g.Some? && g.value in ids
    ensures forall i, j | 0 <= i < j < |r| :: r[i].Some? && r[j].Some? && r[i].value < r[j].value
  {
    var sorted := SortedKeys(ids);
    var r := seq(|sorted|, i requires 0 <= i < |sorted| => Some(sorted[i]));
    assert forall g: Option<int> | g.Some? && g.value in ids :: g in r by {
      forall g: Option<int> | g.Some? && g.value in ids ensures g in r {
        var i :| 0 <= i < |sorted| && sorted[i] == g.value;
        assert r[i] == g;
      }
    }
    r
  }

  /** Distinct keys: each guard is visited once. */
  lemma GuardOrderDistinct(guardsHoursSleep: map<Option<int>, Profile>)
    ensures var r := GuardOrder(guardsHoursSleep);
      forall i, j | 0 <= i < j < |r| :: r[i] != r[j]
  {
    var r := GuardOrder(guardsHoursSleep);
    forall i, j | 0 <= i < j < |r| ensures r[i] != r[j] {
      if r[j].Some? {
        assert r[i].value < r[j].value;
      }
    }
  }

  function SleepTotals(guardsHoursSleep: map<Option<int>, Profile>): (r: map<Option<int>, int>)
    ensures r.Keys == guardsHoursSleep.Keys
    ensures forall g | g in r :: r[g] == guardsHoursSleep[g].minutesSleeping
  {
    map g | g in guardsHoursSleep :: guardsHoursSleep[g].minutesSleeping
  }

  /** The answer from the second pass's table: the chosen minute times the
      chosen guard's number, NaN when either is undefined, and an error when
      no guard is chosen and there is no `"undefined"` entry to look in. */
  function Answer(guardsHoursSleep: map<Option<int>, Profile>): Result<Num, Day4Error>
  {
    var sleeper := LongestSleeper(guardsHoursSleep);
    var key := if sleeper.best.Some? then sleeper.best.value else None;
    if key !in guardsHoursSleep then Err(NoSleeper)
    else
      var minute := FavouriteMinute(guardsHoursSleep[key].sleepLog);
      if key.None? || minute.best.None? then Ok(NaN)
      else Ok(Int(minute.best.value * key.value))
  }

  /** The scan over the guards by total minutes asleep. */
  function LongestSleeper(guardsHoursSleep: map<Option<int>, Profile>): (c: Choice<Option<int>>)
    ensures c.best.Some? ==> c.best.value in guardsHoursSleep
  {
    TotalsCoverOrder(guardsHoursSleep);
    FirstMaxOf(GuardOrder(guardsHoursSleep), SleepTotals(guardsHoursSleep))
  }

  lemma TotalsCoverOrder(guardsHoursSleep: map<Option<int>, Profile>)
    ensures var order := GuardOrder(guardsHoursSleep);
      forall i | 0 <= i < |order| :: order[i] in SleepTotals(guardsHoursSleep)
  {
    var order := GuardOrder(guardsHoursSleep);
    forall i | 0 <= i < |order| ensures order[i] in SleepTotals(guardsHoursSleep) {
      assert order[i] in guardsHoursSleep;
    }
  }

  /** The scan over one guard's minutes by how often each was slept. */
  function FavouriteMinute(log: map<int, nat>): (c: Choice<int>)
    ensures c.best.Some? ==> c.best.value in log
  {
    CountsCoverMinutes(log);
    FirstMaxOf(SortedKeys(log.Keys), log)
  }

  lemma CountsCoverMinutes(log: map<int, nat>)
    ensures var minutes := SortedKeys(log.Keys);
      forall i | 0 <= i < |minutes| :: minutes[i] in log
  {
    var minutes := SortedKeys(log.Keys);
    forall i | 0 <= i < |minutes| ensures minutes[i] in log {
      assert minutes[i] in log.Keys;
    }
  }

  lemma EarlierInOrder(order: seq<Option<int>>, j: nat, i: nat)
    requires forall a, b | 0 <= a < b < |order| && order[b].Some? :: order[a].Some? && order[a].value < order[b].value
    requires j < |order| && i < |order| && order[i].Some? && order[j].Some?
    requires order[j].value < order[i].value
    ensures j < i
  {
  }

  lemma EarlierInKeys(keys: seq<int>, j: nat, k: nat)
    requires StrictlyIncreasing(keys)
    requires j < |keys| && k < |keys| && keys[j] < keys[k]
    ensures j < k
  {
  }

  /** The guard the scan picks has the greatest total sleep. */
  lemma SleeperIsMax(guardsHoursSleep: map<Option<int>, Profile>)
    requires LongestSleeper(guardsHoursSleep).best.Some?
    ensures var g := LongestSleeper(guardsHoursSleep).best.value;
      && g in guardsHoursSleep
      && forall h | h in guardsHoursSleep ::
           guardsHoursSleep[h].minutesSleeping <= guardsHoursSleep[g].minutesSleeping
  {
    var order := GuardOrder(guardsHoursSleep);
    var totals := SleepTotals(guardsHoursSleep);
    FirstMaxOfIsFirstMax(order, totals);
    var g := LongestSleeper(guardsHoursSleep).best.value;
    forall h | h in guardsHoursSleep
      ensures guardsHoursSleep[h].minutesSleeping <= guardsHoursSleep[g].minutesSleeping
    {
      var j :| 0 <= j < |order| && order[j] == h;
    }
  }

  /** Every guard numbered lower than the one the scan picks has strictly
      less total sleep. */
  lemma SleeperIsLeastNumbered(guardsHoursSleep: map<Option<int>, Profile>)
    requires LongestSleeper(guardsHoursSleep).best.Some?
    ensures var g := LongestSleeper(guardsHoursSleep).best.value;
      forall h | Some(h) in guardsHoursSleep && g.Some? && h < g.value ::
        guardsHoursSleep[Some(h)].minutesSleeping < guardsHoursSleep[g].minutesSleeping
  {
    var order := GuardOrder(guardsHoursSleep);
    var totals := SleepTotals(guardsHoursSleep);
    assert forall i | 0 <= i < |order| :: order[i] in totals by {
      forall i | 0 <= i < |order| ensures order[i] in totals {
        assert order[i] in guardsHoursSleep;
      }
    }
    var sleeper := FirstMaxOf(order, totals);
    var g := sleeper.best.value;
    SleeperIsMax(guardsHoursSleep);
    forall h | Some(h) in guardsHoursSleep && g.Some? && h < g.value
      ensures guardsHoursSleep[Some(h)].minutesSleeping < guardsHoursSleep[g].minutesSleeping
    {
      assert Some(h) in order;
      LowerNumberedScoresLess(order, totals, h);
    }
  }

  /** In a scan over guards in ascending order, a guard numbered below the
      chosen one scores strictly less. */
  lemma LowerNumberedScoresLess(order: seq<Option<int>>, totals: map<Option<int>, int>, h: int)
    requires forall i | 0 <= i < |order| :: order[i] in totals
    requires forall a, b | 0 <= a < b < |order| && order[b].Some? :: order[a].Some? && order[a].value < order[b].value
    requires FirstMaxOf(order, totals).best.Some? && FirstMaxOf(order, totals).best.value.Some?
    requires Some(h) in order && h < FirstMaxOf(order, totals).best.value.value
    ensures totals[Some(h)] < FirstMaxOf(order, totals).score
  {
    var sleeper := FirstMaxOf(order, totals);
    FirstMaxOfIsFirstMax(order, totals);
    var i :| 0 <= i < |order| && order[i] == sleeper.best.value && totals[order[i]] == sleeper.score
      && forall j | 0 <= j < i :: totals[order[j]] < sleeper.score;
    var j :| 0 <= j < |order| && order[j] == Some(h);
    EarlierInOrder(order, j, i);
  }

  /** The minute the scan picks is slept most often, and every earlier
      minute strictly less often. */
  lemma MinuteIsFirstMax(log: map<int, nat>)
    requires FavouriteMinute(log).best.Some?
    ensures SleptMostOften(log, FavouriteMinute(log).best.value)
  {
    CountsCoverMinutes(log);
    AscendingFirstMax(SortedKeys(log.Keys), log);
  }

  /** A scan over ascending keys picks a greatest score whose key is below
      every other key with that score. */
  lemma AscendingFirstMax(keys: seq<int>, score: map<int, int>)
    requires StrictlyIncreasing(keys) && forall i | 0 <= i < |keys| :: keys[i] in score
    requires FirstMaxOf(keys, score).best.Some?
    ensures var m := FirstMaxOf(keys, score).best.value;
      && (forall n | n in keys :: score[n] <= score[m])
      && (forall n | n in keys && n < m :: score[n] < score[m])
  {
    FirstMaxOfIsFirstMax(keys, score);
    var choice := FirstMaxOf(keys, score);
    var m := choice.best.value;
    var k :| 0 <= k < |keys| && keys[k] == m && score[keys[k]] == choice.score
      && forall j | 0 <= j < k :: score[keys[j]] < choice.score;
    forall n | n in keys ensures score[n] <= score[m] {
      var j :| 0 <= j < |keys| && keys[j] == n;
    }
    forall n | n in keys && n < m ensures score[n] < score[m] {
      var j :| 0 <= j < |keys| && keys[j] == n;
      EarlierInKeys(keys, j, k);
    }
  }


  /** Guard `g` has the greatest total sleep, and every guard numbered
      lower strictly less. */
  ghost predicate SleepsLongest(guardsHoursSleep: map<Option<int>, Profile>, g: int)
  {
    && Some(g) in guardsHoursSleep
    && (forall h | h in guardsHoursSleep ::
          guardsHoursSleep[h].minutesSleeping <= guardsHoursSleep[Some(g)].minutesSleeping)
    && (forall h | Some(h) in guardsHoursSleep && h < g ::
          guardsHoursSleep[Some(h)].minutesSleeping < guardsHoursSleep[Some(g)].minutesSleeping)
  }

  /** Minute `m` is slept most often, and every earlier minute strictly less
      often. */
  ghost predicate SleptMostOften(log: map<int, nat>, m: int)
  {
    m in log && (forall n | n in log :: log[n] <= log[m]) && (forall n | n in log && n < m :: log[n] < log[m])
  }

  /** A numeric answer is the product of a guard with the greatest total
      sleep, the least-numbered such, and the earliest of that guard's most
      often slept minutes. */
  lemma AnswerIsProduct(guardsHoursSleep: map<Option<int>, Profile>)
    requires Answer(guardsHoursSleep).Ok? && Answer(guardsHoursSleep).value.Int?
    ensures exists g, m ::
      && SleepsLongest(guardsHoursSleep, g)
      && SleptMostOften(guardsHoursSleep[Some(g)].sleepLog, m)
      && Answer(guardsHoursSleep).value.value == m * g
  {
    var sleeper := LongestSleeper(guardsHoursSleep);
    SleeperIsMax(guardsHoursSleep);
    SleeperIsLeastNumbered(guardsHoursSleep);
    var g := sleeper.best.value.value;
    assert SleepsLongest(guardsHoursSleep, g);
    var log := guardsHoursSleep[Some(g)].sleepLog;
    MinuteIsFirstMax(log);
    var m := FavouriteMinute(log).best.value;
    assert SleptMostOften(log, m);
    assert Answer(guardsHoursSleep).value.value == m * g;
  }

  // ---------------------------------------------------------------------
  // The whole solver

  /** What `day4` computes from the lines of the input file. */
  function Day4Result(lines: seq<string>): Result<Num, Day4Error>
  {
    var parsed :- ParseEvents(lines);
    var events :- StampAll(parsed);
    Solve(events)
  }

  /** What `day4` computes once the lines are read: both passes over the
      replayed index, then the two scans. */
  function Solve(events: seq<Event>): Result<Num, Day4Error>
  {
    var sheet :- Tally(BackFilled(Replay(Indexed(events))));
    Answer(sheet.guardsHoursSleep)
  }

  /** The second pass, over the events the first pass updated. */
  method SleepPass(events: seq<Event>) returns (r: Result<Sheet, Day4Error>)
    ensures r == Tally(events)
  {
    var guardsHoursSleep: map<Option<int>, Profile> := map[];
    var currentActiveGuardID: Option<int> := None;
    var sleepStartDateTime: Option<int> := None;
    var warnings: nat := 0;
    var i := 0;
    while i < |events|
      invariant 0 <= i <= |events|
      invariant Tally(events[..i]) == Ok(Sheet(currentActiveGuardID, sleepStartDateTime, guardsHoursSleep, warnings))
    {
      var event := events[i];
      assert events[..i + 1][..i] == events[..i];
      if event.kind == Some(ShiftStart) {
        currentActiveGuardID := event.guard;
      }
      if event.kind == Some(FallAsleep) {
        sleepStartDateTime := Some(event.time.minute);
      }
      if event.kind == Some(WakeUp) {
        if sleepStartDateTime.None? {
          TallyErrorSticks(events, i + 1);
          return Err(UnmatchedWake);
        }
        var profile := ProfileOf(guardsHoursSleep, event.guard);
        var sleepLog := RecordNap(profile.sleepLog, sleepStartDateTime.value, event.time.minute);
        var minutesSleeping := event.time.minute - sleepStartDateTime.value;
        guardsHoursSleep := guardsHoursSleep[event.guard := Profile(profile.minutesSleeping + minutesSleeping, sleepLog)];
        if currentActiveGuardID != event.guard {
          warnings := warnings + 1;
        }
      }
      i := i + 1;
    }
    assert events[..|events|] == events;
    r := Ok(Sheet(currentActiveGuardID, sleepStartDateTime, guardsHoursSleep, warnings));
  }

  /** Once the second pass has failed, later events do not matter. */
  lemma {:induction false} TallyErrorSticks(events: seq<Event>, n: nat)
    requires n <= |events| && Tally(events[..n]).Err?
    ensures Tally(events) == Tally(events[..n])
    decreases |events| - n
  {
    if n < |events| {
      assert events[..n + 1][..n] == events[..n];
      TallyErrorSticks(events, n + 1);
    } else {
      assert events[..n] == events;
    }
  }

  /** The minute loop of a wake-up: each minute from the sleep start up to
      the wake-up counted once more. */
  method RecordNap(log: map<int, nat>, start: int, wake: int) returns (sleepLog: map<int, nat>)
    ensures sleepLog == BumpRange(log, start, wake)
  {
    sleepLog := log;
    var minute := start;
    while minute < wake
      invariant minute == start || start < minute <= wake
      invariant sleepLog == BumpRange(log, start, minute)
      decreases wake - minute
    {
      sleepLog := Inc(sleepLog, minute);
      minute := minute + 1;
    }
  }

  /** `day4` on the lines of the input file. */
  method Day4(eventsTextArray: seq<string>) returns (finalResult: Result<Num, Day4Error>)
    ensures finalResult == Day4Result(eventsTextArray)
  {
    var parsed := ParseEvents(eventsTextArray);
    if parsed.Err? {
      return Err(parsed.error);
    }
    var stamped := StampAll(parsed.value);
    if stamped.Err? {
      return Err(stamped.error);
    }
    finalResult := SolveEvents(stamped.value);
  }

  /** The body of `day4` after the lines are read. */
  method SolveEvents(stamped: seq<Event>) returns (finalResult: Result<Num, Day4Error>)
    ensures finalResult == Solve(stamped)
  {
    var eventsByDate := BuildIndex(stamped);
    var events := FirstPass(Replay(eventsByDate));
    var sheet := SleepPass(events);
    if sheet.Err? {
      return Err(sheet.error);
    }
    finalResult := ReportSleeper(sheet.value.guardsHoursSleep);
  }

  /** The replay laid out in an array and back-filled in place. */
  method FirstPass(replayed: seq<Event>) returns (onDuty: seq<Event>)
    ensures onDuty == BackFilled(replayed)
  {
    var events := new Event[|replayed|](i requires 0 <= i < |replayed| => replayed[i]);
    assert events[..] == replayed;
    var unassigned := Backfill(events);
    onDuty := events[..];
  }

  /** The two scans at the end of `day4` and the product. */
  method ReportSleeper(guardsHoursSleep: map<Option<int>, Profile>) returns (finalResult: Result<Num, Day4Error>)
    ensures finalResult == Answer(guardsHoursSleep)
  {
    var longest := ScanGuards(guardsHoursSleep);
    var key := if longest.best.Some? then longest.best.value else None;
    if key !in guardsHoursSleep {
      return Err(NoSleeper);
    }
    var minute := ScanMinutes(guardsHoursSleep[key].sleepLog);
    if key.None? || minute.best.None? {
      finalResult := Ok(NaN);
    } else {
      finalResult := Ok(Int(minute.best.value * key.value));
    }
  }

  /** The loop over `guardsHoursSleep` at lines 145-157. */
  method ScanGuards(guardsHoursSleep: map<Option<int>, Profile>) returns (c: Choice<Option<int>>)
    ensures c == LongestSleeper(guardsHoursSleep)
  {
    TotalsCoverOrder(guardsHoursSleep);
    var longest, longestLength := FirstMax(GuardOrder(guardsHoursSleep), SleepTotals(guardsHoursSleep));
    c := Choice(longest, longestLength);
  }

  /** The loop over the chosen guard's `sleepLog` at lines 163-175. */
  method ScanMinutes(sleepLog: map<int, nat>) returns (c: Choice<int>)
    ensures c == FavouriteMinute(sleepLog)
  {
    CountsCoverMinutes(sleepLog);
    var minute, count := FirstMax(SortedKeys(sleepLog.Keys), sleepLog);
    c := Choice(minute, count);
  }
}
