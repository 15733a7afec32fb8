/** Day 1, frequency drift: fold the list of adjustments into running totals,
    register every total in two tables kept in sync, and repeat the fold,
    each pass continuing from the previous final frequency, until some
    frequency has been reached twice or 1000 passes have run. */
module Day01 {
  import opened Results
  import opened JsText

  /** The number of passes after which the loop gives up. */
  const RunawayLimit: nat := 1000

  /** The module-level tables of `registerFrequency`: how often each frequency
      has been seen, and for each count c the frequencies re-seen when their
      count was c. */
  datatype Log = Log(seen: map<int, nat>, repeats: map<nat, set<int>>)

  const EmptyLog := Log(map[], map[])

  /** One call of `registerFrequency(f)`. */
  function Register(log: Log, f: int): (r: Log)
    ensures f in r.seen && r.seen.Keys == log.seen.Keys + {f}
    ensures forall g | g in log.seen && g != f :: r.seen[g] == log.seen[g]
    ensures (f !in log.seen || log.seen[f] == 0) ==> r.seen[f] == 1 && r.repeats == log.repeats
    ensures f in log.seen && log.seen[f] != 0 ==>
      r.seen[f] == log.seen[f] + 1 && log.seen[f] in r.repeats && f in r.repeats[log.seen[f]]
  {
    if f in log.seen && log.seen[f] != 0 then
      var c := log.seen[f];
      var pruned := if c in log.repeats && f in log.repeats[c] then log.repeats[c := log.repeats[c] - {f}] else log.repeats;
      var bucket := if c in pruned then pruned[c] else {};
      Log(log.seen[f := c + 1], pruned[c := bucket + {f}])
    else
      Log(log.seen[f := 1], log.repeats)
  }

  /** The invariant the two tables keep: every frequency seen n times is in
      exactly the buckets 1 .. n-1, and no bucket is empty. */
  ghost predicate Synced(log: Log)
  {
    SeenPositive(log) && BucketsBelow(log) && BucketsCover(log) && BucketsNonEmpty(log)
  }

  ghost predicate SeenPositive(log: Log)
  {
    forall f | f in log.seen :: log.seen[f] >= 1
  }

  /** A frequency in bucket k has been seen more than k times. */
  ghost predicate BucketsBelow(log: Log)
  {
    forall k, f | k in log.repeats && f in log.repeats[k] :: f in log.seen && 1 <= k < log.seen[f]
  }

  /** A frequency seen n times is in every bucket below n. */
  ghost predicate BucketsCover(log: Log)
  {
    forall f, k | f in log.seen && 1 <= k < log.seen[f] :: k in log.repeats && f in log.repeats[k]
  }

  ghost predicate BucketsNonEmpty(log: Log)
  {
    forall k | k in log.repeats :: log.repeats[k] != {}
  }

  /** `registerFrequency` keeps the tables in sync, and the `delete` on its
      re-sighting path never finds anything to remove. */
  lemma RegisterKeepsSynced(log: Log, f: int)
    requires Synced(log)
    ensures Synced(Register(log, f))
    ensures f in log.seen ==> !(log.seen[f] in log.repeats && f in log.repeats[log.seen[f]])
  {
    if f in log.seen {
      var c := log.seen[f];
      if c in log.repeats && f in log.repeats[c] {
        assert false;
      }
      ResightingKeepsBelow(log, f);
      ResightingKeepsCover(log, f);
      ResightingKeepsNonEmpty(log, f);
    } else {
      FirstSightingKeepsSynced(log, f);
    }
  }

  lemma FirstSightingKeepsSynced(log: Log, f: int)
    requires Synced(log) && f !in log.seen
    ensures Synced(Register(log, f))
  {
    var r := Register(log, f);
    assert r == Log(log.seen[f := 1], log.repeats);
    forall k, g | k in r.repeats && g in r.repeats[k]
      ensures g in r.seen && 1 <= k < r.seen[g]
    {
      assert g in log.seen && 1 <= k < log.seen[g];
    }
    forall g, k | g in r.seen && 1 <= k < r.seen[g]
      ensures k in r.repeats && g in r.repeats[k]
    {
      assert g != f;
    }
  }

  /** The re-sighting path of `registerFrequency`, written out. */
  lemma Resighting(log: Log, f: int)
    requires Synced(log) && f in log.seen
    ensures Register(log, f).seen == log.seen[f := log.seen[f] + 1]
    ensures Register(log, f).repeats == log.repeats[log.seen[f] :=
      (if log.seen[f] in log.repeats then log.repeats[log.seen[f]] else {}) + {f}]
  {
    var c := log.seen[f];
    if c in log.repeats && f in log.repeats[c] {
      assert false;
    }
  }

  lemma ResightingKeepsBelow(log: Log, f: int)
    requires Synced(log) && f in log.seen
    ensures SeenPositive(Register(log, f)) && BucketsBelow(Register(log, f))
  {
    var r := Register(log, f);
    var c := log.seen[f];
    Resighting(log, f);
    forall g | g in r.seen ensures r.seen[g] >= 1 {
      if g != f {
        assert g in log.seen;
      }
    }
    forall k, g | k in r.repeats && g in r.repeats[k]
      ensures g in r.seen && 1 <= k < r.seen[g]
    {
      if g != f || k != c {
        assert k in log.repeats && g in log.repeats[k];
      }
    }
  }

  lemma ResightingKeepsCover(log: Log, f: int)
    requires Synced(log) && f in log.seen
    ensures BucketsCover(Register(log, f))
  {
    var r := Register(log, f);
    var c := log.seen[f];
    Resighting(log, f);
    forall g, k | g in r.seen && 1 <= k < r.seen[g]
      ensures k in r.repeats && g in r.repeats[k]
    {
      if g != f || k != c {
        assert g in log.seen && 1 <= k < log.seen[g];
      }
    }
  }

  lemma ResightingKeepsNonEmpty(log: Log, f: int)
    requires Synced(log) && f in log.seen
    ensures BucketsNonEmpty(Register(log, f))
  {
    var r := Register(log, f);
    var c := log.seen[f];
    Resighting(log, f);
    forall k | k in r.repeats ensures r.repeats[k] != {} {
      if k == c {
        assert f in r.repeats[k];
      }
    }
  }

  /** With the tables in sync, a bucket exists exactly when some frequency has
      been seen at least twice: this is what stops the main loop. */
  lemma {:induction false} RepeatsNonEmptyIff(log: Log)
    requires Synced(log)
    ensures log.repeats != map[] <==> exists f :: f in log.seen && log.seen[f] >= 2
  {
    if log.repeats != map[] {
      var k := PickKey(log.repeats);
      var f := PickElement(log.repeats[k]);
      assert f in log.seen && log.seen[f] >= 2;
    }
    if exists f :: f in log.seen && log.seen[f] >= 2 {
      var f :| f in log.seen && log.seen[f] >= 2;
      assert 1 in log.repeats;
    }
  }

  lemma PickKey(m: map<nat, set<int>>) returns (k: nat)
    requires m != map[]
    ensures k in m
  {
    if forall j :: j !in m {
      assert false;
    }
    k :| k in m;
  }

  lemma PickElement(s: set<int>) returns (x: int)
    requires s != {}
    ensures x in s
  {
    if forall y :: y !in s {
      assert false;
    }
    x :| x in s;
  }

  /** `registerFrequency` applied to each frequency in turn. */
  function RegisterAll(log: Log, fs: seq<int>): Log
  {
    if fs == [] then log else Register(RegisterAll(log, fs[..|fs| - 1]), fs[|fs| - 1])
  }

  lemma {:induction false} RegisterAllSynced(log: Log, fs: seq<int>)
    requires Synced(log)
    ensures Synced(RegisterAll(log, fs))
  {
    if fs != [] {
      RegisterAllSynced(log, fs[..|fs| - 1]);
      RegisterKeepsSynced(RegisterAll(log, fs[..|fs| - 1]), fs[|fs| - 1]);
    }
  }

  function Sum(a: seq<int>): int
  {
    if a == [] then 0 else Sum(a[..|a| - 1]) + a[|a| - 1]
  }

  lemma {:induction false} SumCons(x: int, a: seq<int>)
    ensures Sum([x] + a) == x + Sum(a)
  {
    if a != [] {
      assert ([x] + a)[..|a|] == [x] + a[..|a| - 1];
      SumCons(x, a[..|a| - 1]);
    }
  }

  /** The totals `reduce` hands to `registerFrequency`: the first element is
      the seed and is not registered, so there is one total per later
      element, the k-th being the sum of the first k + 2 elements. */
  function RunningTotals(a: seq<int>): (r: seq<int>)
    requires |a| >= 1
    ensures |r| == |a| - 1
    ensures forall k | 0 <= k < |r| :: r[k] == Sum(a[..k + 2])
  {
    if |a| == 1 then []
    else
      var front := RunningTotals(a[..|a| - 1]);
      assert a[..|a|] == a;
      forall k | 0 <= k < |front| ensures front[k] == Sum(a[..k + 2]) {
        assert a[..|a| - 1][..k + 2] == a[..k + 2];
      }
      front + [Sum(a)]
  }

  /** The state of the module-level tables. */
  class FrequencyLog {
    var seen: map<int, nat>
    var repeats: map<nat, set<int>>

    ghost function State(): Log
      reads this
    {
      Log(seen, repeats)
    }

    constructor ()
      ensures State() == EmptyLog
    {
      seen, repeats := map[], map[];
    }

    /** `registerFrequency`, lines 92-133. */
    method RegisterFrequency(f: int)
      modifies this
      ensures State() == Register(old(State()), f)
    {
      if f in seen && seen[f] != 0 {
        var count := seen[f];
        if count in repeats && f in repeats[count] {
          repeats := repeats[count := repeats[count] - {f}];
        }
        seen := seen[f := seen[f] + 1];
        if count !in repeats {
          repeats := repeats[count := {}];
        }
        repeats := repeats[count := repeats[count] + {f}];
      } else {
        seen := seen[f := 1];
      }
    }

    /** `applyPhaseAdjustments`, lines 68-81: `reduce` without a seed value,
        registering each new running total. An empty array makes `reduce`
        throw, reported as None. */
    method ApplyPhaseAdjustments(adjustments: seq<int>) returns (finalPhase: Option<int>)
      modifies this
      ensures adjustments == [] ==> finalPhase == None && State() == old(State())
      ensures adjustments != [] ==> finalPhase == Some(Sum(adjustments))
      ensures adjustments != [] ==> State() == RegisterAll(old(State()), RunningTotals(adjustments))
    {
      if adjustments == [] {
        return None;
      }
      var total := adjustments[0];
      assert adjustments[..1] == [adjustments[0]];
      assert Sum(adjustments[..1]) == adjustments[0] by {
        assert adjustments[..1][..0] == [];
      }
      var i := 1;
      while i < |adjustments|
        invariant 1 <= i <= |adjustments|
        invariant total == Sum(adjustments[..i])
        invariant State() == RegisterAll(old(State()), RunningTotals(adjustments[..i]))
      {
        total := total + adjustments[i];
        assert adjustments[..i + 1][..i] == adjustments[..i];
        assert total == Sum(adjustments[..i + 1]);
        RegisterFrequency(total);
        assert RunningTotals(adjustments[..i + 1]) == RunningTotals(adjustments[..i]) + [total];
        i := i + 1;
      }
      assert adjustments[..i] == adjustments;
      return Some(total);
    }
  }

  /** Where the main loop stands: the last pass's final frequency, the passes
      completed and the tables. */
  datatype Drift = Drift(finalPhase: int, passes: nat, log: Log)

  datatype Day1Error = NotANumber(line: nat) | EmptyInput

  /** The `while` loop of lines 44-54 from the second pass on: each further
      pass folds the previous final frequency followed by the adjustments. */
  function Continue(adjustments: seq<int>, d: Drift): (r: Drift)
    requires d.passes <= RunawayLimit
    ensures d.passes <= r.passes <= RunawayLimit
    ensures r.passes == RunawayLimit || r.log.repeats != map[]
    ensures d.log.repeats != map[] ==> r == d
    decreases RunawayLimit - d.passes
  {
    if d.log.repeats != map[] || d.passes >= RunawayLimit then d
    else Continue(adjustments, Step(adjustments, d))
  }

  /** One further pass: the array is the previous final frequency followed
      by the adjustments. */
  function Step(adjustments: seq<int>, d: Drift): (r: Drift)
  {
    var phases := [d.finalPhase] + adjustments;
    Drift(Sum(phases), d.passes + 1, RegisterAll(d.log, RunningTotals(phases)))
  }

  /** `k` further passes after `d`. */
  function Iterate(adjustments: seq<int>, d: Drift, k: nat): (r: Drift)
    ensures r.passes == d.passes + k
    decreases k
  {
    if k == 0 then d else Iterate(adjustments, Step(adjustments, d), k - 1)
  }

  /** The loop stops at the first pass after which the repeats table is
      non-empty, or at the limit: its result is `d` followed by exactly
      `r.passes - d.passes` passes, and every state before the last one
      had an empty repeats table and was below the limit. */
  lemma {:induction false} ContinueIterates(adjustments: seq<int>, d: Drift)
    requires d.passes <= RunawayLimit
    ensures var r := Continue(adjustments, d);
      r == Iterate(adjustments, d, r.passes - d.passes)
      && forall j | 0 <= j < r.passes - d.passes ::
           Iterate(adjustments, d, j).log.repeats == map[] && Iterate(adjustments, d, j).passes < RunawayLimit
    decreases RunawayLimit - d.passes
  {
    if d.log.repeats == map[] && d.passes < RunawayLimit {
      var next := Step(adjustments, d);
      var r := Continue(adjustments, next);
      assert Continue(adjustments, d) == r;
      ContinueIterates(adjustments, next);
      var k := r.passes - d.passes;
      assert Iterate(adjustments, d, k) == Iterate(adjustments, next, k - 1);
      forall j | 0 <= j < k
        ensures Iterate(adjustments, d, j).log.repeats == map[] && Iterate(adjustments, d, j).passes < RunawayLimit
      {
        if j > 0 {
          assert Iterate(adjustments, d, j) == Iterate(adjustments, next, j - 1);
        }
      }
    }
  }

  /** The whole loop: the first pass folds the adjustments alone; `reduce`
      throws on an empty array. */
  function Drifted(adjustments: seq<int>): Result<Drift, Day1Error>
  {
    if adjustments == [] then Err(EmptyInput)
    else Ok(Continue(adjustments, Drift(Sum(adjustments), 1, RegisterAll(EmptyLog, RunningTotals(adjustments)))))
  }

  /** Every pass continues from the previous final frequency, so after p
      passes the frequency is p times the sum of the adjustments. */
  lemma {:induction false} ContinueFinalPhase(adjustments: seq<int>, d: Drift)
    requires d.passes <= RunawayLimit
    requires d.finalPhase == d.passes * Sum(adjustments)
    ensures Continue(adjustments, d).finalPhase == Continue(adjustments, d).passes * Sum(adjustments)
    decreases RunawayLimit - d.passes
  {
    if d.log.repeats == map[] && d.passes < RunawayLimit {
      var next := Step(adjustments, d);
      SumCons(d.finalPhase, adjustments);
      MulSucc(d.passes, Sum(adjustments));
      assert next.finalPhase == next.passes * Sum(adjustments);
      ContinueFinalPhase(adjustments, next);
      assert Continue(adjustments, d) == Continue(adjustments, next);
    }
  }

  lemma MulSucc(p: int, s: int)
    ensures p * s + s == (p + 1) * s
  {
  }

  lemma DriftedFinalPhase(adjustments: seq<int>)
    requires Drifted(adjustments).Ok?
    ensures Drifted(adjustments).value.finalPhase == Drifted(adjustments).value.passes * Sum(adjustments)
    ensures 1 <= Drifted(adjustments).value.passes <= RunawayLimit
  {
    ContinueFinalPhase(adjustments, Drift(Sum(adjustments), 1, RegisterAll(EmptyLog, RunningTotals(adjustments))));
  }

  /** The tables stay in sync over every pass. */
  lemma {:induction false} ContinueSynced(adjustments: seq<int>, d: Drift)
    requires d.passes <= RunawayLimit && Synced(d.log)
    ensures Synced(Continue(adjustments, d).log)
    decreases RunawayLimit - d.passes
  {
    if d.log.repeats == map[] && d.passes < RunawayLimit {
      var next := Step(adjustments, d);
      assert Continue(adjustments, d) == Continue(adjustments, next);
      RegisterAllSynced(d.log, RunningTotals([d.finalPhase] + adjustments));
      ContinueSynced(adjustments, next);
    }
  }

  /** When the loop stops before the limit, some frequency has been reached
      at least twice. */
  lemma DriftedStopsOnRepeat(adjustments: seq<int>)
    requires Drifted(adjustments).Ok? && Drifted(adjustments).value.passes < RunawayLimit
    ensures exists f :: f in Drifted(adjustments).value.log.seen && Drifted(adjustments).value.log.seen[f] >= 2
  {
    var first := Drift(Sum(adjustments), 1, RegisterAll(EmptyLog, RunningTotals(adjustments)));
    RegisterAllSynced(EmptyLog, RunningTotals(adjustments));
    ContinueSynced(adjustments, first);
    RepeatsNonEmptyIff(Continue(adjustments, first).log);
  }

  /** Line 37: each line read with `parseInt(line, 10)`. */
  function ParseAdjustments(lines: seq<string>): (r: Result<seq<int>, Day1Error>)
    ensures r.Ok? ==> |r.value| == |lines| && forall i | 0 <= i < |lines| :: ParseInt(lines[i]) == Int(r.value[i])
    ensures r.Err? ==> r.error.NotANumber? && r.error.line < |lines| && ParseInt(lines[r.error.line]).NaN?
    ensures r.Err? ==> forall j | 0 <= j < r.error.line :: ParseInt(lines[j]).Int?
  {
    var nums := seq(|lines|, i requires 0 <= i < |lines| => ParseInt(lines[i]));
    assert forall j | 0 <= j < |lines| :: nums[j] == ParseInt(lines[j]);
    NumbersOf(nums)
  }

  /** The numbers read from the lines, or the first line that is not one. */
  function NumbersOf(nums: seq<Num>): (r: Result<seq<int>, Day1Error>)
    ensures r.Ok? ==> |r.value| == |nums| && forall i | 0 <= i < |nums| :: nums[i] == Int(r.value[i])
    ensures r.Err? ==> r.error.NotANumber? && r.error.line < |nums| && nums[r.error.line].NaN?
    ensures r.Err? ==> forall j | 0 <= j < r.error.line :: nums[j].Int?
  {
    if nums == [] then Ok([])
    else
      var n := |nums| - 1;
      var front := NumbersOf(nums[..n]);
      if front.Err? then front
      else if nums[n].NaN? then Err(NotANumber(n))
      else Ok(front.value + [nums[n].value])
  }

  /** Lines 36-54 as a whole: parse, then drift. */
  function FrequencyTask(lines: seq<string>): Result<Drift, Day1Error>
  {
    var adjustments :- ParseAdjustments(lines);
    Drifted(adjustments)
  }

  /** `day1FrequenciesTask`, lines 32-58: the final frequency it prints and
      the number of passes run. */
  method Day1FrequenciesTask(lines: seq<string>) returns (r: Result<int, Day1Error>, passes: nat)
    ensures r.Ok? <==> FrequencyTask(lines).Ok?
    ensures r.Ok? ==> r.value == FrequencyTask(lines).value.finalPhase && passes == FrequencyTask(lines).value.passes
    ensures r.Err? ==> r.error == FrequencyTask(lines).error
  {
    passes := 0;
    var parsed := ParseAdjustments(lines);
    if parsed.Err? {
      return Err(parsed.error), 0;
    }
    var adjustments := parsed.value;
    if adjustments == [] {
      // `reduce` on the first pass throws.
      return Err(EmptyInput), 0;
    }
    var log := new FrequencyLog();
    var phases := adjustments;
    var finalPhase := 0;
    ghost var goal := Drifted(adjustments).value;
    while log.repeats == map[] && passes < RunawayLimit
      invariant passes <= RunawayLimit
      invariant passes == 0 ==> phases == adjustments && log.State() == EmptyLog
      invariant passes > 0 ==> phases == [finalPhase] + adjustments
      invariant passes > 0 ==> Continue(adjustments, Drift(finalPhase, passes, log.State())) == goal
      decreases RunawayLimit - passes
    {
      ghost var d := Drift(finalPhase, passes, log.State());
      var f := log.ApplyPhaseAdjustments(phases);
      finalPhase := f.value;
      if passes > 0 {
        phases := phases[1..];
      }
      phases := [finalPhase] + phases;
      passes := passes + 1;
      if passes == 1 {
        assert Drift(finalPhase, passes, log.State()) == Drift(Sum(adjustments), 1, RegisterAll(EmptyLog, RunningTotals(adjustments)));
      } else {
        assert Drift(finalPhase, passes, log.State()) == Step(adjustments, d);
        ContinueUnfold(adjustments, d);
      }
    }
    assert Continue(adjustments, Drift(finalPhase, passes, log.State())) == Drift(finalPhase, passes, log.State());
    return Ok(finalPhase), passes;
  }

  lemma ContinueUnfold(adjustments: seq<int>, d: Drift)
    requires d.passes < RunawayLimit && d.log.repeats == map[]
    ensures Continue(adjustments, d) == Continue(adjustments, Step(adjustments, d))
  {
  }
}
