/** Day 4, the chronological index: events filed in nested maps by year,
    month, day, hour and minute, and read back with the keys of every level
    in ascending numeric order. */
module Day04Index {
  import opened Results
  import opened Keys
  import opened Day04Parse

  /** The innermost level of the source's nesting is a map holding the one
      event under its own minute; here the minute level holds the event
      directly. */
  type Minutes = map<int, Event>
  type Hours = map<int, Minutes>
  type Days = map<int, Hours>
  type Months = map<int, Days>
  type Years = map<int, Months>

  /** The path of keys an event is filed under. */
  function Key(t: Timestamp): (k: seq<int>)
    ensures |k| == 5
  {
    [t.year, t.month, t.day, t.hour, t.minute]
  }

  lemma KeyInjective(a: Timestamp, b: Timestamp)
    requires Key(a) == Key(b)
    ensures a == b
  {
    assert Key(a)[0] == Key(b)[0] && Key(a)[1] == Key(b)[1] && Key(a)[2] == Key(b)[2];
    assert Key(a)[3] == Key(b)[3] && Key(a)[4] == Key(b)[4];
  }

  function MonthsOf(ix: Years, y: int): Months { if y in ix then ix[y] else map[] }
  function DaysOf(ms: Months, mo: int): Days { if mo in ms then ms[mo] else map[] }
  function HoursOf(ds: Days, d: int): Hours { if d in ds then ds[d] else map[] }
  function MinutesOf(hs: Hours, h: int): Minutes { if h in hs then hs[h] else map[] }

  /** `createNestedMap(eventsByDate, [year, month, day, hour, minute], event)`:
      every missing level is created on the way down and the event is stored
      at the end of the path, replacing any event already there. */
  function Put(ix: Years, t: Timestamp, e: Event): Years
  {
    var ms := MonthsOf(ix, t.year);
    var ds := DaysOf(ms, t.month);
    var hs := HoursOf(ds, t.day);
    var mins := MinutesOf(hs, t.hour);
    ix[t.year := ms[t.month := ds[t.day := hs[t.hour := mins[t.minute := e]]]]]
  }

  /** The event filed under `t`, if any. */
  function Get(ix: Years, t: Timestamp): Option<Event>
  {
    var mins := MinutesOf(HoursOf(DaysOf(MonthsOf(ix, t.year), t.month), t.day), t.hour);
    if t.minute in mins then Some(mins[t.minute]) else None
  }

  /** Storing touches exactly one path. */
  lemma PutGet(ix: Years, t: Timestamp, e: Event, u: Timestamp)
    ensures Get(Put(ix, t, e), u) == if u == t then Some(e) else Get(ix, u)
  {
    if u != t {
      assert Key(u) != Key(t);
    }
  }

  /** The index built by filing the events in order. */
  function Indexed(events: seq<Event>): Years
  {
    if events == [] then map[]
    else var e := events[|events| - 1]; Put(Indexed(events[..|events| - 1]), e.time, e)
  }

  /** The last of the events with timestamp `t`: the one a later event does
      not overwrite. */
  function LastAt(events: seq<Event>, t: Timestamp): (r: Option<Event>)
    ensures r.Some? ==> r.value in events && r.value.time == t
    ensures r.None? <==> forall i | 0 <= i < |events| :: events[i].time != t
    ensures r.Some? ==> exists i | 0 <= i < |events| ::
      (events[i] == r.value && forall j | i < j < |events| :: events[j].time != t)
  {
    if events == [] then None
    else
      var e := events[|events| - 1];
      var front := events[..|events| - 1];
      if e.time == t then Some(e)
      else
        var r := LastAt(front, t);
        assert forall i | 0 <= i < |front| :: events[i] == front[i];
        r
  }

  /** Last write wins: the index holds, for each timestamp, the last event
      carrying it. */
  lemma {:induction false} IndexedGet(events: seq<Event>, t: Timestamp)
    ensures Get(Indexed(events), t) == LastAt(events, t)
  {
    if events != [] {
      var e := events[|events| - 1];
      IndexedGet(events[..|events| - 1], t);
      PutGet(Indexed(events[..|events| - 1]), e.time, e, t);
    }
  }

  /** The loop at lines 46-51: every event filed in turn. */
  method BuildIndex(events: seq<Event>) returns (eventsByDate: Years)
    ensures eventsByDate == Indexed(events)
  {
    eventsByDate := map[];
    var i := 0;
    while i < |events|
      invariant 0 <= i <= |events|
      invariant eventsByDate == Indexed(events[..i])
    {
      var e := events[i];
      assert events[..i + 1][..i] == events[..i];
      eventsByDate := Put(eventsByDate, e.time, e);
      i := i + 1;
    }
    assert events[..|events|] == events;
  }

  // ---------------------------------------------------------------------
  // Replay

  /** The pieces of level `m` taken in the order of `keys`, each read back by
      `f`. */
  function Flatten<V>(m: map<int, V>, keys: seq<int>, f: V -> seq<Event>): seq<Event>
    requires forall i | 0 <= i < |keys| :: keys[i] in m
  {
    if keys == [] then [] else f(m[keys[0]]) + Flatten(m, keys[1..], f)
  }

  function Single(e: Event): seq<Event> { [e] }

  function ReplayMinutes(m: Minutes): seq<Event> { Flatten(m, SortedKeys(m.Keys), Single) }
  function ReplayHours(m: Hours): seq<Event> { Flatten(m, SortedKeys(m.Keys), ReplayMinutes) }
  function ReplayDays(m: Days): seq<Event> { Flatten(m, SortedKeys(m.Keys), ReplayHours) }
  function ReplayMonths(m: Months): seq<Event> { Flatten(m, SortedKeys(m.Keys), ReplayDays) }

  /** `eventsByDateIndexIterator`: the events in the order of their keys. */
  function Replay(ix: Years): seq<Event> { Flatten(ix, SortedKeys(ix.Keys), ReplayMonths) }

  /** Keys compared position by position, the first difference deciding. */
  ghost predicate LexLess(a: seq<int>, b: seq<int>)
  {
    exists i | 0 <= i < |a| && i < |b| :: a[..i] == b[..i] && a[i] < b[i]
  }

  /** Strictly increasing timestamps. */
  ghost predicate Chronological(s: seq<Event>)
  {
    forall i, j | 0 <= i < j < |s| :: LexLess(Key(s[i].time), Key(s[j].time))
  }

  /** Every event's key starts with `p`. */
  ghost predicate UnderPrefix(s: seq<Event>, p: seq<int>)
  {
    |p| <= 5 && forall i | 0 <= i < |s| :: Key(s[i].time)[..|p|] == p
  }

  /** Each key position of an event under `p` gives the next key. */
  ghost predicate NextKeyIn(s: seq<Event>, n: nat, keys: seq<int>)
  {
    n < 5 && forall i | 0 <= i < |s| :: Key(s[i].time)[n] in keys
  }

  /** Pieces that are each chronological and filed under successive keys of
      a strictly increasing run make a chronological whole. */
  lemma {:induction false} FlattenChronological<V>(m: map<int, V>, keys: seq<int>, f: V -> seq<Event>, p: seq<int>)
    requires forall i | 0 <= i < |keys| :: keys[i] in m
    requires StrictlyIncreasing(keys) && |p| < 5
    requires forall i | 0 <= i < |keys| :: Chronological(f(m[keys[i]])) && UnderPrefix(f(m[keys[i]]), p + [keys[i]])
    ensures Chronological(Flatten(m, keys, f)) && UnderPrefix(Flatten(m, keys, f), p)
    ensures NextKeyIn(Flatten(m, keys, f), |p|, keys)
  {
    FlattenUnder(m, keys, f, p);
    if keys != [] {
      var a := f(m[keys[0]]);
      assert forall i | 0 <= i < |keys[1..]| :: keys[1..][i] == keys[i + 1];
      FlattenChronological(m, keys[1..], f, p);
      var b := Flatten(m, keys[1..], f);
      PieceUnder(a, p, keys[0]);
      forall i | 0 <= i < |b| ensures keys[0] < Key(b[i].time)[|p|] {
        var k := Key(b[i].time)[|p|];
        assert k in keys[1..];
        var j :| 0 <= j < |keys[1..]| && keys[1..][j] == k;
        assert keys[j + 1] == k;
      }
      ConcatChronological(a, b, p, keys[0]);
    }
  }

  /** Pieces filed under successive keys below `p` flatten to a run under
      `p` whose next key position takes those keys. */
  lemma {:induction false} FlattenUnder<V>(m: map<int, V>, keys: seq<int>, f: V -> seq<Event>, p: seq<int>)
    requires forall i | 0 <= i < |keys| :: keys[i] in m
    requires |p| < 5
    requires forall i | 0 <= i < |keys| :: UnderPrefix(f(m[keys[i]]), p + [keys[i]])
    ensures UnderPrefix(Flatten(m, keys, f), p) && NextKeyIn(Flatten(m, keys, f), |p|, keys)
  {
    if keys != [] {
      var a := f(m[keys[0]]);
      assert forall i | 0 <= i < |keys[1..]| :: keys[1..][i] == keys[i + 1];
      FlattenUnder(m, keys[1..], f, p);
      var b := Flatten(m, keys[1..], f);
      var s := a + b;
      PieceUnder(a, p, keys[0]);
      forall i | 0 <= i < |s| ensures Key(s[i].time)[..|p|] == p && Key(s[i].time)[|p|] in keys {
        if i < |a| { assert s[i] == a[i]; } else { assert s[i] == b[i - |a|]; }
      }
    }
  }

  /** One piece under `p + [k]`: its keys start with `p`, then `k`. */
  lemma PieceUnder(a: seq<Event>, p: seq<int>, k: int)
    requires |p| < 5 && UnderPrefix(a, p + [k])
    ensures forall i | 0 <= i < |a| :: Key(a[i].time)[..|p|] == p && Key(a[i].time)[|p|] == k
  {
    forall i | 0 <= i < |a| ensures Key(a[i].time)[..|p|] == p && Key(a[i].time)[|p|] == k {
      assert Key(a[i].time)[..|p| + 1] == p + [k];
      assert Key(a[i].time)[..|p|] == Key(a[i].time)[..|p| + 1][..|p|];
    }
  }

  /** A chronological run under key `k` followed by one under greater keys,
      both below the same prefix, is chronological. */
  lemma ConcatChronological(a: seq<Event>, b: seq<Event>, p: seq<int>, k: int)
    requires |p| < 5 && Chronological(a) && Chronological(b)
    requires forall i | 0 <= i < |a| :: Key(a[i].time)[..|p|] == p && Key(a[i].time)[|p|] == k
    requires forall i | 0 <= i < |b| :: Key(b[i].time)[..|p|] == p && k < Key(b[i].time)[|p|]
    ensures Chronological(a + b)
  {
    var s := a + b;
    forall i, j | 0 <= i < j < |s| ensures LexLess(Key(s[i].time), Key(s[j].time)) {
      if j < |a| {
        assert s[i] == a[i] && s[j] == a[j];
      } else if i >= |a| {
        assert s[i] == b[i - |a|] && s[j] == b[j - |a|];
      } else {
        assert s[i] == a[i] && s[j] == b[j - |a|];
        var x, y := Key(a[i].time), Key(b[j - |a|].time);
        assert x[..|p|] == y[..|p|] && x[|p|] < y[|p|];
      }
    }
  }

  /** What a flattened level contains: the contents of its pieces. */
  lemma {:induction false} FlattenHas<V>(m: map<int, V>, keys: seq<int>, f: V -> seq<Event>, e: Event)
    requires forall i | 0 <= i < |keys| :: keys[i] in m
    ensures e in Flatten(m, keys, f) <==> exists i | 0 <= i < |keys| :: e in f(m[keys[i]])
  {
    if keys != [] {
      FlattenHas(m, keys[1..], f, e);
      if exists i | 0 <= i < |keys[1..]| :: e in f(m[keys[1..][i]]) {
        var i :| 0 <= i < |keys[1..]| && e in f(m[keys[1..][i]]);
        assert keys[1..][i] == keys[i + 1];
      }
      if exists i | 0 <= i < |keys| :: e in f(m[keys[i]]) {
        var i :| 0 <= i < |keys| && e in f(m[keys[i]]);
        if i > 0 { assert keys[1..][i - 1] == keys[i]; }
      }
    }
  }

  /** The events of a level sit at the paths they are filed under. */
  ghost predicate WfMinutes(m: Minutes, y: int, mo: int, d: int, h: int)
  {
    forall k | k in m :: m[k].time == Timestamp(y, mo, d, h, k)
  }

  ghost predicate WfHours(m: Hours, y: int, mo: int, d: int)
  {
    forall k | k in m :: WfMinutes(m[k], y, mo, d, k)
  }

  ghost predicate WfDays(m: Days, y: int, mo: int)
  {
    forall k | k in m :: WfHours(m[k], y, mo, k)
  }

  ghost predicate WfMonths(m: Months, y: int)
  {
    forall k | k in m :: WfDays(m[k], y, k)
  }

  ghost predicate Wf(ix: Years)
  {
    forall k | k in ix :: WfMonths(ix[k], k)
  }

  /** One level of the index replays chronologically under `p` when each of
      its entries does under `p` and its own key. */
  lemma LevelChronological<V>(m: map<int, V>, f: V -> seq<Event>, p: seq<int>)
    requires |p| < 5
    requires forall k | k in m :: Chronological(f(m[k])) && UnderPrefix(f(m[k]), p + [k])
    ensures Chronological(Flatten(m, SortedKeys(m.Keys), f)) && UnderPrefix(Flatten(m, SortedKeys(m.Keys), f), p)
  {
    var keys := SortedKeys(m.Keys);
    assert forall i | 0 <= i < |keys| :: keys[i] in m;
    FlattenChronological(m, keys, f, p);
  }

  lemma ChronologicalMinutes(m: Minutes, y: int, mo: int, d: int, h: int)
    requires WfMinutes(m, y, mo, d, h)
    ensures Chronological(ReplayMinutes(m)) && UnderPrefix(ReplayMinutes(m), [y, mo, d, h])
  {
    forall k | k in m
      ensures Chronological(Single(m[k])) && UnderPrefix(Single(m[k]), [y, mo, d, h] + [k])
    {
      SingleUnder(m[k], [y, mo, d, h], k);
    }
    LevelChronological(m, Single, [y, mo, d, h]);
  }

  lemma SingleUnder(e: Event, p: seq<int>, k: int)
    requires Key(e.time) == p + [k]
    ensures Chronological(Single(e)) && UnderPrefix(Single(e), p + [k])
  {
    assert Key(e.time)[..|p| + 1] == Key(e.time);
  }

  lemma ChronologicalHours(m: Hours, y: int, mo: int, d: int)
    requires WfHours(m, y, mo, d)
    ensures Chronological(ReplayHours(m)) && UnderPrefix(ReplayHours(m), [y, mo, d])
  {
    forall k | k in m
      ensures Chronological(ReplayMinutes(m[k])) && UnderPrefix(ReplayMinutes(m[k]), [y, mo, d] + [k])
    {
      assert [y, mo, d] + [k] == [y, mo, d, k];
      ChronologicalMinutes(m[k], y, mo, d, k);
    }
    LevelChronological(m, ReplayMinutes, [y, mo, d]);
  }

  lemma ChronologicalDays(m: Days, y: int, mo: int)
    requires WfDays(m, y, mo)
    ensures Chronological(ReplayDays(m)) && UnderPrefix(ReplayDays(m), [y, mo])
  {
    forall k | k in m
      ensures Chronological(ReplayHours(m[k])) && UnderPrefix(ReplayHours(m[k]), [y, mo] + [k])
    {
      assert [y, mo] + [k] == [y, mo, k];
      ChronologicalHours(m[k], y, mo, k);
    }
    LevelChronological(m, ReplayHours, [y, mo]);
  }

  lemma ChronologicalMonths(m: Months, y: int)
    requires WfMonths(m, y)
    ensures Chronological(ReplayMonths(m)) && UnderPrefix(ReplayMonths(m), [y])
  {
    forall k | k in m
      ensures Chronological(ReplayDays(m[k])) && UnderPrefix(ReplayDays(m[k]), [y] + [k])
    {
      assert [y] + [k] == [y, k];
      ChronologicalDays(m[k], y, k);
    }
    LevelChronological(m, ReplayDays, [y]);
  }

  /** The replay yields the events in strictly increasing timestamp order, so
      none of them twice. */
  lemma ReplayChronological(ix: Years)
    requires Wf(ix)
    ensures Chronological(Replay(ix))
    ensures forall i, j | 0 <= i < j < |Replay(ix)| :: Replay(ix)[i].time != Replay(ix)[j].time
  {
    forall k | k in ix
      ensures Chronological(ReplayMonths(ix[k])) && UnderPrefix(ReplayMonths(ix[k]), [] + [k])
    {
      assert [] + [k] == [k];
      ChronologicalMonths(ix[k], k);
    }
    LevelChronological(ix, ReplayMonths, []);
    var r := Replay(ix);
    forall i, j | 0 <= i < j < |r| ensures r[i].time != r[j].time {
      assert LexLess(Key(r[i].time), Key(r[j].time));
    }
  }

  /** What one level of the index replays: the replays of its entries. */
  lemma LevelHas<V>(m: map<int, V>, f: V -> seq<Event>, e: Event)
    ensures e in Flatten(m, SortedKeys(m.Keys), f) <==> exists k | k in m :: e in f(m[k])
  {
    var keys := SortedKeys(m.Keys);
    assert forall i | 0 <= i < |keys| :: keys[i] in m;
    FlattenHas(m, keys, f, e);
    if exists k | k in m :: e in f(m[k]) {
      var k :| k in m && e in f(m[k]);
      var i :| 0 <= i < |keys| && keys[i] == k;
    }
  }

  lemma MinutesHas(m: Minutes, e: Event)
    ensures e in ReplayMinutes(m) <==> exists k | k in m :: m[k] == e
  {
    LevelHas(m, Single, e);
    SingleHas(m, e);
  }

  lemma SingleHas(m: Minutes, e: Event)
    ensures (exists k | k in m :: e in Single(m[k])) <==> exists k | k in m :: m[k] == e
  {
    if exists k | k in m :: m[k] == e {
      var k :| k in m && m[k] == e;
      assert e in Single(m[k]);
    }
  }

  lemma HoursHas(m: Hours, e: Event)
    ensures e in ReplayHours(m) <==> exists k | k in m :: e in ReplayMinutes(m[k])
  {
    LevelHas(m, ReplayMinutes, e);
  }

  lemma DaysHas(m: Days, e: Event)
    ensures e in ReplayDays(m) <==> exists k | k in m :: e in ReplayHours(m[k])
  {
    LevelHas(m, ReplayHours, e);
  }

  lemma MonthsHas(m: Months, e: Event)
    ensures e in ReplayMonths(m) <==> exists k | k in m :: e in ReplayDays(m[k])
  {
    LevelHas(m, ReplayDays, e);
  }

  lemma YearsHas(ix: Years, e: Event)
    ensures e in Replay(ix) <==> exists k | k in ix :: e in ReplayMonths(ix[k])
  {
    LevelHas(ix, ReplayMonths, e);
  }

  /** Every stored event is yielded, and only stored events are. */
  lemma ReplayHas(ix: Years, e: Event)
    requires Wf(ix)
    ensures e in Replay(ix) <==> Get(ix, e.time) == Some(e)
  {
    if e in Replay(ix) {
      YearsHas(ix, e);
      var y :| y in ix && e in ReplayMonths(ix[y]);
      MonthsStored(ix[y], y, e);
    }
    if Get(ix, e.time) == Some(e) {
      StoredIsReplayed(ix, e);
    }
  }

  lemma MinutesStored(m: Minutes, y: int, mo: int, d: int, h: int, e: Event)
    requires WfMinutes(m, y, mo, d, h) && e in ReplayMinutes(m)
    ensures e.time.year == y && e.time.month == mo && e.time.day == d && e.time.hour == h
    ensures e.time.minute in m && m[e.time.minute] == e
  {
    MinutesHas(m, e);
  }

  lemma HoursStored(m: Hours, y: int, mo: int, d: int, e: Event)
    requires WfHours(m, y, mo, d) && e in ReplayHours(m)
    ensures e.time.year == y && e.time.month == mo && e.time.day == d
    ensures e.time.hour in m && e.time.minute in m[e.time.hour] && m[e.time.hour][e.time.minute] == e
  {
    HoursHas(m, e);
    var k :| k in m && e in ReplayMinutes(m[k]);
    MinutesStored(m[k], y, mo, d, k, e);
  }

  lemma DaysStored(m: Days, y: int, mo: int, e: Event)
    requires WfDays(m, y, mo) && e in ReplayDays(m)
    ensures e.time.year == y && e.time.month == mo
    ensures e.time.day in m && e.time.hour in m[e.time.day]
    ensures e.time.minute in m[e.time.day][e.time.hour] && m[e.time.day][e.time.hour][e.time.minute] == e
  {
    DaysHas(m, e);
    var k :| k in m && e in ReplayHours(m[k]);
    HoursStored(m[k], y, mo, k, e);
  }

  lemma MonthsStored(m: Months, y: int, e: Event)
    requires WfMonths(m, y) && e in ReplayMonths(m)
    ensures e.time.year == y
    ensures e.time.month in m && e.time.day in m[e.time.month] && e.time.hour in m[e.time.month][e.time.day]
    ensures var mins := m[e.time.month][e.time.day][e.time.hour];
      e.time.minute in mins && mins[e.time.minute] == e
  {
    MonthsHas(m, e);
    var k :| k in m && e in ReplayDays(m[k]);
    DaysStored(m[k], y, k, e);
  }

  lemma StoredIsReplayed(ix: Years, e: Event)
    requires Get(ix, e.time) == Some(e)
    ensures e in Replay(ix)
  {
    var t := e.time;
    var mins := ix[t.year][t.month][t.day][t.hour];
    MinutesHas(mins, e);
    HoursHas(ix[t.year][t.month][t.day], e);
    DaysHas(ix[t.year][t.month], e);
    MonthsHas(ix[t.year], e);
    YearsHas(ix, e);
  }

  /** Filing an event at its own timestamp keeps every event at its path. */
  lemma PutWf(ix: Years, e: Event)
    requires Wf(ix)
    ensures Wf(Put(ix, e.time, e))
  {
    var t := e.time;
    var ms := MonthsOf(ix, t.year);
    var ds := DaysOf(ms, t.month);
    var hs := HoursOf(ds, t.day);
    var mins := MinutesOf(hs, t.hour);
    assert WfMinutes(mins[t.minute := e], t.year, t.month, t.day, t.hour);
    assert WfHours(hs[t.hour := mins[t.minute := e]], t.year, t.month, t.day);
    assert WfDays(ds[t.day := hs[t.hour := mins[t.minute := e]]], t.year, t.month);
    assert WfMonths(ms[t.month := ds[t.day := hs[t.hour := mins[t.minute := e]]]], t.year);
  }

  lemma {:induction false} IndexedWf(events: seq<Event>)
    ensures Wf(Indexed(events))
  {
    if events != [] {
      IndexedWf(events[..|events| - 1]);
      PutWf(Indexed(events[..|events| - 1]), events[|events| - 1]);
    }
  }

  /** What the first pass over the index sees: the last event of each
      timestamp, once each, in increasing timestamp order. */
  lemma ReplayIndexed(events: seq<Event>)
    ensures Chronological(Replay(Indexed(events)))
    ensures forall e :: e in Replay(Indexed(events)) <==> LastAt(events, e.time) == Some(e)
    ensures forall i | 0 <= i < |events| ::
      LastAt(events, events[i].time) in set e | e in Replay(Indexed(events)) :: Some(e)
  {
    var ix := Indexed(events);
    IndexedWf(events);
    ReplayChronological(ix);
    forall e ensures e in Replay(ix) <==> LastAt(events, e.time) == Some(e) {
      ReplayHas(ix, e);
      IndexedGet(events, e.time);
    }
    forall i | 0 <= i < |events|
      ensures LastAt(events, events[i].time) in set e | e in Replay(ix) :: Some(e)
    {
      var r := LastAt(events, events[i].time);
      assert r.Some?;
      ReplayHas(ix, r.value);
      IndexedGet(events, r.value.time);
    }
  }
}
