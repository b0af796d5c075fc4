/** parallel_for2d .. parallel_for5d as a step machine: any number of workers
    run their loops over one buffer, interleaved in any way.  A call of func
    reads the cell of its own tuple in one step and writes it in another.  Parts
    are computed in unsigned words of m values. */
module ParallelRun {
  import opened MixedRadix
  import opened ParallelFor
  import opened Sequences
  import Splitter

  datatype Backend = Tbb | TbbAuto | Omp | Sequential

  /** How many workers a parallel_for starts. */
  function Team(backend: Backend, maxThreads: nat, workAmount: nat): nat {
    match backend
    case Tbb => if maxThreads > workAmount then workAmount else maxThreads
    case TbbAuto | Omp => maxThreads
    case Sequential => 1
  }

  datatype Held<V> = Nothing | Value(value: V)

  datatype Worker<V> = Worker(digits: Tuple, iwork: nat, end: nat, held: Held<V>) {
    predicate Busy() {
      iwork < end
    }
  }

  datatype State<V> = State(buffer: map<Tuple, V>, workers: seq<Worker<V>>)

  ghost predicate Covers<V>(buffer: map<Tuple, V>, dims: seq<nat>) {
    forall pos | InBox(pos, dims) :: pos in buffer
  }

  ghost predicate Valid<V>(s: State<V>, dims: seq<nat>) {
    && Covers(s.buffer, dims)
    && forall t | 0 <= t < |s.workers| ::
         if s.workers[t].Busy() then InBox(s.workers[t].digits, dims) else s.workers[t].held.Nothing?
  }

  /** The parts of a team, computed in words of m values. */
  function Parts(work: nat, team: nat, m: nat): seq<(nat, nat)>
    requires work < m && team < m
  {
    seq(team, t requires 0 <= t < team => Splitter.WordPart(work, team, t, m))
  }

  /** A worker about to enter its loop. */
  function NewWorker<V>(dims: seq<nat>, part: (nat, nat)): Worker<V> {
    PositiveVolume(dims);
    Worker(if Volume(dims) == 0 then [] else ItInit(part.0, dims).0, part.0, part.1, Nothing)
  }

  function Start<V>(dims: seq<nat>, parts: seq<(nat, nat)>, buffer: map<Tuple, V>): State<V> {
    State(buffer, seq(|parts|, t requires 0 <= t < |parts| => NewWorker(dims, parts[t])))
  }

  /** The scheduler picks worker t; a worker that is not busy does nothing. */
  ghost function Tick<V(!new)>(s: State<V>, t: nat, dims: seq<nat>, func: (Tuple, V) -> V): (s': State<V>)
    requires Valid(s, dims)
    ensures Valid(s', dims) && |s'.workers| == |s.workers|
  {
    if t >= |s.workers| || !s.workers[t].Busy() then s
    else
      var w := s.workers[t];
      match w.held
      case Nothing =>
        s.(workers := s.workers[t := w.(held := Value(s.buffer[w.digits]))])
      case Value(v) =>
        State(s.buffer[w.digits := func(w.digits, v)],
              s.workers[t := Worker(ItStep(w.digits, dims).0, w.iwork + 1, w.end, Nothing)])
  }

  ghost function Run<V(!new)>(s: State<V>, schedule: seq<nat>, dims: seq<nat>, func: (Tuple, V) -> V): (s': State<V>)
    requires Valid(s, dims)
    ensures Valid(s', dims)
  {
    if schedule == [] then s
    else Tick(Run(s, schedule[..|schedule| - 1], dims, func), schedule[|schedule| - 1], dims, func)
  }

  predicate Finished<V>(s: State<V>) {
    forall t | 0 <= t < |s.workers| :: !s.workers[t].Busy()
  }

  /** The plain loops: one call after the other. */
  ghost function InOrder<V>(calls: seq<Tuple>, buffer: map<Tuple, V>, func: (Tuple, V) -> V): (b: map<Tuple, V>)
    requires forall k | 0 <= k < |calls| :: calls[k] in buffer
    ensures b.Keys == buffer.Keys
  {
    if calls == [] then buffer
    else
      var last := calls[|calls| - 1];
      var b := InOrder(calls[..|calls| - 1], buffer, func);
      b[last := func(last, b[last])]
  }

  lemma {:induction false} InOrderCells<V>(calls: seq<Tuple>, buffer: map<Tuple, V>, func: (Tuple, V) -> V)
    requires Distinct(calls) && forall k | 0 <= k < |calls| :: calls[k] in buffer
    ensures forall k | 0 <= k < |calls| :: InOrder(calls, buffer, func)[calls[k]] == func(calls[k], buffer[calls[k]])
    ensures forall pos | pos in buffer && pos !in calls :: InOrder(calls, buffer, func)[pos] == buffer[pos]
  {
    if calls == [] {
    } else {
      InOrderCells(calls[..|calls| - 1], buffer, func);
    }
  }

  // ---- the invariant of every run ------------------------------------------

  /** Worker t is in step with the calls of its part, and of that part exactly
      the cells before iwork have been called on. */
  ghost predicate InStep<V>(s: State<V>, t: nat, calls: seq<Tuple>, lo: nat, hi: nat,
                            before: map<Tuple, V>, func: (Tuple, V) -> V)
    requires t < |s.workers| && s.buffer.Keys == before.Keys
    requires forall k | 0 <= k < |calls| :: calls[k] in before
  {
    var w := s.workers[t];
    && lo <= w.iwork <= w.end == hi <= |calls|
    && (w.Busy() ==> w.digits == calls[w.iwork])
    && (w.held.Value? ==> w.Busy() && w.held.value == before[w.digits])
    && forall k | lo <= k < hi ::
         s.buffer[calls[k]] == if k < w.iwork then func(calls[k], before[calls[k]]) else before[calls[k]]
  }

  ghost predicate Inv<V>(s: State<V>, dims: seq<nat>, team: nat, before: map<Tuple, V>, func: (Tuple, V) -> V)
    requires Covers(before, dims)
  {
    && |s.workers| == team
    && s.buffer.Keys == before.Keys
    && |NestedLoops(dims)| == Volume(dims) && Distinct(NestedLoops(dims))
    && (forall k | 0 <= k < |NestedLoops(dims)| :: NestedLoops(dims)[k] in before)
    && (forall t: nat | t < team ::
          InStep(s, t, NestedLoops(dims), From(dims, team, t), To(dims, team, t), before, func))
    && (forall pos | pos in before && pos !in NestedLoops(dims) :: s.buffer[pos] == before[pos])
  }

  /** Bounds of the part of worker t. */
  function From(dims: seq<nat>, team: nat, t: nat): nat
    requires t < team
  {
    Splitter.Cut(Volume(dims), team, t)
  }

  function To(dims: seq<nat>, team: nat, t: nat): nat
    requires t < team
  {
    Splitter.Cut(Volume(dims), team, t + 1)
  }

  lemma CallsDistinct(dims: seq<nat>)
    ensures |NestedLoops(dims)| == Volume(dims) && Distinct(NestedLoops(dims))
    ensures forall k | 0 <= k < |NestedLoops(dims)| :: InBox(NestedLoops(dims)[k], dims)
  {
    NestedLoopsLength(dims);
    forall k | 0 <= k < Volume(dims)
      ensures InBox(NestedLoops(dims)[k], dims) && Rank(NestedLoops(dims)[k], dims) == k
    {
      RankAtTime(dims, k);
    }
  }

  /** Without work no part holds any. */
  lemma StartValid<V>(dims: seq<nat>, team: nat, m: nat, buffer: map<Tuple, V>)
    requires team < m && Volume(dims) < m && Covers(buffer, dims)
    ensures Valid(Start(dims, Parts(Volume(dims), team, m), buffer), dims)
  {
    PositiveVolume(dims);
  }

  lemma LoopsCovered<V>(dims: seq<nat>, before: map<Tuple, V>)
    requires Covers(before, dims)
    ensures |NestedLoops(dims)| == Volume(dims) && Distinct(NestedLoops(dims))
    ensures forall k | 0 <= k < |NestedLoops(dims)| :: NestedLoops(dims)[k] in before
  {
    CallsDistinct(dims);
  }

  lemma StartsInStep<V>(dims: seq<nat>, parts: seq<(nat, nat)>, t: nat, before: map<Tuple, V>, func: (Tuple, V) -> V)
    requires t < |parts| && parts[t].0 <= parts[t].1 <= Volume(dims) && Covers(before, dims)
    requires |NestedLoops(dims)| == Volume(dims) && forall k | 0 <= k < Volume(dims) :: NestedLoops(dims)[k] in before
    ensures InStep(Start(dims, parts, before), t, NestedLoops(dims), parts[t].0, parts[t].1, before, func)
  {
    if parts[t].0 < Volume(dims) {
      ItInitAtTime(parts[t].0, dims);
    }
  }

  lemma StartInv<V>(dims: seq<nat>, team: nat, parts: seq<(nat, nat)>, before: map<Tuple, V>, func: (Tuple, V) -> V)
    requires |parts| == team && forall t: nat | t < team :: parts[t] == (From(dims, team, t), To(dims, team, t))
    requires Covers(before, dims)
    ensures Inv(Start(dims, parts, before), dims, team, before, func)
  {
    LoopsCovered(dims, before);
    forall t: nat | t < team
      ensures InStep(Start(dims, parts, before), t, NestedLoops(dims), From(dims, team, t), To(dims, team, t),
                     before, func)
    {
      Splitter.CutMonotone(Volume(dims), team, t, t + 1);
      StartsInStep(dims, parts, t, before, func);
    }
  }

  /** A tick of worker t keeps every other worker in step. */
  lemma TickOther<V(!new)>(s: State<V>, t: nat, u: nat, dims: seq<nat>, team: nat,
                           before: map<Tuple, V>, func: (Tuple, V) -> V)
    requires Valid(s, dims) && Covers(before, dims) && Inv(s, dims, team, before, func)
    requires t < team && u < team && u != t && s.workers[t].Busy()
    ensures Tick(s, t, dims, func).buffer.Keys == before.Keys
    ensures InStep(Tick(s, t, dims, func), u, NestedLoops(dims), From(dims, team, u), To(dims, team, u), before, func)
  {
    assert InStep(s, t, NestedLoops(dims), From(dims, team, t), To(dims, team, t), before, func);
    assert InStep(s, u, NestedLoops(dims), From(dims, team, u), To(dims, team, u), before, func);
    if u < t {
      Splitter.CutMonotone(Volume(dims), team, u + 1, t);
    } else {
      Splitter.CutMonotone(Volume(dims), team, t + 1, u);
    }
  }

  lemma TickSelf<V(!new)>(s: State<V>, t: nat, dims: seq<nat>, team: nat,
                          before: map<Tuple, V>, func: (Tuple, V) -> V)
    requires Valid(s, dims) && Covers(before, dims) && Inv(s, dims, team, before, func)
    requires t < team && s.workers[t].Busy()
    ensures Tick(s, t, dims, func).buffer.Keys == before.Keys
    ensures InStep(Tick(s, t, dims, func), t, NestedLoops(dims), From(dims, team, t), To(dims, team, t), before, func)
  {
    assert InStep(s, t, NestedLoops(dims), From(dims, team, t), To(dims, team, t), before, func);
    if s.workers[t].held.Value? {
      TickWrites(s, t, dims, From(dims, team, t), To(dims, team, t), before, func);
    }
  }

  /** The tick that writes: the cell of call iwork, which comes up once. */
  lemma TickWrites<V(!new)>(s: State<V>, t: nat, dims: seq<nat>, lo: nat, hi: nat,
                            before: map<Tuple, V>, func: (Tuple, V) -> V)
    requires Valid(s, dims) && t < |s.workers| && s.workers[t].Busy() && s.workers[t].held.Value?
    requires s.buffer.Keys == before.Keys && |NestedLoops(dims)| == Volume(dims) && Distinct(NestedLoops(dims))
    requires forall k | 0 <= k < |NestedLoops(dims)| :: NestedLoops(dims)[k] in before
    requires InStep(s, t, NestedLoops(dims), lo, hi, before, func)
    ensures Tick(s, t, dims, func).buffer.Keys == before.Keys
    ensures InStep(Tick(s, t, dims, func), t, NestedLoops(dims), lo, hi, before, func)
  {
    var calls, w := NestedLoops(dims), s.workers[t];
    if w.iwork + 1 < w.end {
      ItStepAtTime(dims, w.iwork);
    }
    var next := Tick(s, t, dims, func);
    assert next.buffer == s.buffer[calls[w.iwork] := func(calls[w.iwork], before[calls[w.iwork]])];
  }

  lemma TickInv<V(!new)>(s: State<V>, t: nat, dims: seq<nat>, team: nat, before: map<Tuple, V>, func: (Tuple, V) -> V)
    requires Valid(s, dims) && Covers(before, dims) && Inv(s, dims, team, before, func)
    ensures Inv(Tick(s, t, dims, func), dims, team, before, func)
  {
    if t < team && s.workers[t].Busy() {
      TickSelf(s, t, dims, team, before, func);
      forall u: nat | u < team
        ensures InStep(Tick(s, t, dims, func), u, NestedLoops(dims), From(dims, team, u), To(dims, team, u),
                       before, func)
      {
        if u != t {
          TickOther(s, t, u, dims, team, before, func);
        }
      }
      assert InStep(s, t, NestedLoops(dims), From(dims, team, t), To(dims, team, t), before, func);
    }
  }

  lemma {:induction false} RunInv<V(!new)>(s: State<V>, schedule: seq<nat>, dims: seq<nat>, team: nat,
                                           before: map<Tuple, V>, func: (Tuple, V) -> V)
    requires Valid(s, dims) && Covers(before, dims) && Inv(s, dims, team, before, func)
    ensures Inv(Run(s, schedule, dims, func), dims, team, before, func)
  {
    if schedule == [] {
    } else {
      var front := schedule[..|schedule| - 1];
      RunInv(s, front, dims, team, before, func);
      TickInv(Run(s, front, dims, func), schedule[|schedule| - 1], dims, team, before, func);
    }
  }

  /** Which part a call belongs to. */
  lemma {:induction false} OwnerOf(work: nat, team: nat, k: nat, upTo: nat) returns (t: nat)
    requires 0 < upTo <= team && k < Splitter.Cut(work, team, upTo)
    ensures t < upTo && Splitter.Cut(work, team, t) <= k < Splitter.Cut(work, team, t + 1)
  {
    Splitter.CutEnds(work, team);
    if k >= Splitter.Cut(work, team, upTo - 1) {
      t := upTo - 1;
    } else {
      t := OwnerOf(work, team, k, upTo - 1);
    }
  }

  /** A finished run of a team whose part arithmetic fits has made all calls. */
  lemma FinishedInStep<V(!new)>(s: State<V>, dims: seq<nat>, team: nat, before: map<Tuple, V>, func: (Tuple, V) -> V)
    requires Covers(before, dims) && Inv(s, dims, team, before, func) && Finished(s)
    requires team == 0 ==> Volume(dims) == 0
    ensures s.buffer == InOrder(NestedLoops(dims), before, func)
  {
    var calls := NestedLoops(dims);
    InOrderCells(calls, before, func);
    forall k | 0 <= k < Volume(dims)
      ensures s.buffer[calls[k]] == func(calls[k], before[calls[k]])
    {
      Splitter.CutEnds(Volume(dims), team);
      var t := OwnerOf(Volume(dims), team, k, team);
      assert !s.workers[t].Busy();
      assert InStep(s, t, calls, From(dims, team, t), To(dims, team, t), before, func);
    }
    forall pos | pos in before
      ensures s.buffer[pos] == InOrder(calls, before, func)[pos]
    {
      if pos in calls {
        var k :| 0 <= k < |calls| && calls[k] == pos;
      }
    }
  }

  // ---- a team whose part arithmetic wraps ------------------------------------

  ghost function BusyWorkers<V>(s: State<V>): set<nat> {
    set t: nat | t < |s.workers| && s.workers[t].Busy()
  }

  /** Worker `one` alone makes calls, n of them from the tuple `first` on: the
      buffer is what its calls so far have made of it. */
  ghost predicate Alone<V>(s: State<V>, one: nat, first: Tuple, n: nat, dims: seq<nat>, before: map<Tuple, V>,
                           func: (Tuple, V) -> V)
    requires Covers(before, dims) && InBox(first, dims)
  {
    && one < |s.workers| && BusyWorkers(s) <= {one}
    && var w := s.workers[one];
       w.iwork <= w.end == n && (w.Busy() ==> w.digits == After(first, dims, w.iwork)) &&
       s.buffer == InOrder(Ticks(first, dims, w.iwork), before, func) &&
       (w.held.Value? ==> w.digits in s.buffer && w.held.value == s.buffer[w.digits])
  }

  lemma OneMoreCall<V>(first: Tuple, dims: seq<nat>, k: nat, before: map<Tuple, V>, func: (Tuple, V) -> V)
    requires Covers(before, dims) && InBox(first, dims)
    ensures var pos, b := After(first, dims, k), InOrder(Ticks(first, dims, k), before, func);
            InOrder(Ticks(first, dims, k + 1), before, func) == b[pos := func(pos, b[pos])]
  {
    assert Ticks(first, dims, k + 1)[..k] == Ticks(first, dims, k);
  }

  lemma TickAlone<V(!new)>(s: State<V>, t: nat, one: nat, first: Tuple, n: nat, dims: seq<nat>,
                           before: map<Tuple, V>, func: (Tuple, V) -> V)
    requires Valid(s, dims) && Covers(before, dims) && InBox(first, dims)
    requires Alone(s, one, first, n, dims, before, func)
    ensures Alone(Tick(s, t, dims, func), one, first, n, dims, before, func)
  {
    assert t in BusyWorkers(s) <==> t < |s.workers| && s.workers[t].Busy();
    assert BusyWorkers(Tick(s, t, dims, func)) <= BusyWorkers(s);
    if t < |s.workers| && s.workers[t].Busy() && s.workers[t].held.Value? {
      AloneWrites(s, one, first, n, dims, before, func);
    }
  }

  lemma AloneWrites<V(!new)>(s: State<V>, one: nat, first: Tuple, n: nat, dims: seq<nat>, before: map<Tuple, V>,
                             func: (Tuple, V) -> V)
    requires Valid(s, dims) && Covers(before, dims) && InBox(first, dims)
    requires Alone(s, one, first, n, dims, before, func) && s.workers[one].Busy() && s.workers[one].held.Value?
    ensures Alone(Tick(s, one, dims, func), one, first, n, dims, before, func)
  {
    assert BusyWorkers(Tick(s, one, dims, func)) <= BusyWorkers(s);
    var w, next := s.workers[one], Tick(s, one, dims, func);
    OneMoreCall(first, dims, w.iwork, before, func);
    assert next.buffer == s.buffer[w.digits := func(w.digits, s.buffer[w.digits])];
  }

  lemma {:induction false} RunAlone<V(!new)>(s: State<V>, schedule: seq<nat>, one: nat, first: Tuple, n: nat,
                                             dims: seq<nat>, before: map<Tuple, V>, func: (Tuple, V) -> V)
    requires Valid(s, dims) && Covers(before, dims) && InBox(first, dims)
    requires Alone(s, one, first, n, dims, before, func)
    ensures Alone(Run(s, schedule, dims, func), one, first, n, dims, before, func)
  {
    if schedule == [] {
    } else {
      var front := schedule[..|schedule| - 1];
      RunAlone(s, front, one, first, n, dims, before, func);
      TickAlone(Run(s, front, dims, func), schedule[|schedule| - 1], one, first, n, dims, before, func);
    }
  }

  lemma FinishedAlone<V>(s: State<V>, one: nat, first: Tuple, n: nat, dims: seq<nat>, before: map<Tuple, V>,
                         func: (Tuple, V) -> V)
    requires Covers(before, dims) && InBox(first, dims) && Alone(s, one, first, n, dims, before, func) && Finished(s)
    ensures s.buffer == InOrder(Ticks(first, dims, n), before, func)
  {
    assert !s.workers[one].Busy();
  }

  /** A run from such a state that has finished has made its n calls. */
  lemma AloneRun<V(!new)>(s: State<V>, schedule: seq<nat>, one: nat, first: Tuple, n: nat, dims: seq<nat>,
                          before: map<Tuple, V>, func: (Tuple, V) -> V)
    requires Valid(s, dims) && Covers(before, dims) && InBox(first, dims)
    requires Alone(s, one, first, n, dims, before, func) && Finished(Run(s, schedule, dims, func))
    ensures Run(s, schedule, dims, func).buffer == InOrder(Ticks(first, dims, n), before, func)
  {
    RunAlone(s, schedule, one, first, n, dims, before, func);
    FinishedAlone(Run(s, schedule, dims, func), one, first, n, dims, before, func);
  }

  lemma StartAlone<V>(dims: seq<nat>, parts: seq<(nat, nat)>, one: nat, n: nat, before: map<Tuple, V>,
                      func: (Tuple, V) -> V)
    requires one < |parts| && parts[one] == (0, n) && Covers(before, dims) && Volume(dims) > 0
    requires forall t: nat | t < |parts| && t != one :: parts[t].1 <= parts[t].0
    ensures |NestedLoops(dims)| == Volume(dims) && InBox(NestedLoops(dims)[0], dims)
    ensures Alone(Start(dims, parts, before), one, NestedLoops(dims)[0], n, dims, before, func)
  {
    RankAtTime(dims, 0);
    ItInitAtTime(0, dims);
  }

  lemma WrappingParts(work: nat, team: nat, m: nat)
    requires team < m && work < m <= work + team - 1
    ensures var parts, one := Parts(work, team, m), work + team - m;
            one < team && parts[one] == (0, m - 1) && forall t: nat | t < team && t != one :: parts[t].1 <= parts[t].0
  {
    forall t: nat | t < team
      ensures var part := Splitter.WordPart(work, team, t, m);
              if t == work + team - m then part == (0, m - 1) else part.1 <= part.0
    {
      Splitter.PartWhenItWraps(work, team, t, m);
    }
  }

  // ---- every finished run --------------------------------------------------

  lemma FittingRun<V(!new)>(dims: seq<nat>, team: nat, parts: seq<(nat, nat)>, schedule: seq<nat>,
                            buffer: map<Tuple, V>, func: (Tuple, V) -> V)
    requires |parts| == team && forall t: nat | t < team :: parts[t] == (From(dims, team, t), To(dims, team, t))
    requires Covers(buffer, dims) && Valid(Start(dims, parts, buffer), dims) && (team == 0 ==> Volume(dims) == 0)
    requires Finished(Run(Start(dims, parts, buffer), schedule, dims, func))
    ensures forall k | 0 <= k < |NestedLoops(dims)| :: NestedLoops(dims)[k] in buffer
    ensures Run(Start(dims, parts, buffer), schedule, dims, func).buffer == InOrder(NestedLoops(dims), buffer, func)
  {
    StartInv(dims, team, parts, buffer, func);
    RunInv(Start(dims, parts, buffer), schedule, dims, team, buffer, func);
    FinishedInStep(Run(Start(dims, parts, buffer), schedule, dims, func), dims, team, buffer, func);
  }

  lemma LoneRun<V(!new)>(dims: seq<nat>, parts: seq<(nat, nat)>, one: nat, n: nat, schedule: seq<nat>,
                         buffer: map<Tuple, V>, func: (Tuple, V) -> V)
    requires one < |parts| && parts[one] == (0, n) && Volume(dims) > 0
    requires forall t: nat | t < |parts| && t != one :: parts[t].1 <= parts[t].0
    requires Covers(buffer, dims) && Valid(Start(dims, parts, buffer), dims)
    requires Finished(Run(Start(dims, parts, buffer), schedule, dims, func))
    ensures |NestedLoops(dims)| == Volume(dims) && InBox(NestedLoops(dims)[0], dims)
    ensures Run(Start(dims, parts, buffer), schedule, dims, func).buffer ==
            InOrder(Ticks(NestedLoops(dims)[0], dims, n), buffer, func)
  {
    StartAlone(dims, parts, one, n, buffer, func);
    AloneRun(Start(dims, parts, buffer), schedule, one, NestedLoops(dims)[0], n, dims, buffer, func);
  }

  lemma FittingTeamCalls(dims: seq<nat>, team: nat, m: nat)
    requires team < m && Volume(dims) < m && (team == 0 ==> Volume(dims) == 0)
    requires Volume(dims) + team - 1 < m || Volume(dims) == m - 1
    ensures TeamWordCalls(dims, team, team, m) == NestedLoops(dims) && |NestedLoops(dims)| == Volume(dims)
  {
    NestedLoopsLength(dims);
    if team > 0 {
      CoveredExactly(dims, team, m);
    }
  }

  lemma FittingParts(dims: seq<nat>, team: nat, m: nat)
    requires team < m && Volume(dims) < m && Volume(dims) + team - 1 < m
    ensures forall t: nat | t < team ::
              Parts(Volume(dims), team, m)[t] == (From(dims, team, t), To(dims, team, t))
  {
    forall t: nat | t < team
      ensures Splitter.WordPart(Volume(dims), team, t, m) == (From(dims, team, t), To(dims, team, t))
    {
      Splitter.ExactWhenItFits(Volume(dims), team, t, m);
    }
  }

  /** Every run of every team that has finished left the buffer that the calls of
      its threads leave one after the other, however the workers were
      interleaved. */
  lemma FinishedIsInOrder<V(!new)>(dims: seq<nat>, team: nat, m: nat, parts: seq<(nat, nat)>, schedule: seq<nat>,
                                   buffer: map<Tuple, V>, func: (Tuple, V) -> V)
    requires team < m && Volume(dims) < m && (team == 0 ==> Volume(dims) == 0) && Covers(buffer, dims)
    requires parts == Parts(Volume(dims), team, m) && Valid(Start(dims, parts, buffer), dims)
    requires Finished(Run(Start(dims, parts, buffer), schedule, dims, func))
    ensures forall k | 0 <= k < |TeamWordCalls(dims, team, team, m)| :: TeamWordCalls(dims, team, team, m)[k] in buffer
    ensures Run(Start(dims, parts, buffer), schedule, dims, func).buffer ==
            InOrder(TeamWordCalls(dims, team, team, m), buffer, func)
  {
    if Volume(dims) + team - 1 < m {
      FittingParts(dims, team, m);
      FittingRun(dims, team, parts, schedule, buffer, func);
      FittingTeamCalls(dims, team, m);
    } else {
      WrappingParts(Volume(dims), team, m);
      LoneRun(dims, parts, Volume(dims) + team - m, m - 1, schedule, buffer, func);
      WrappingTeam(dims, team, m);
    }
  }

  /** ... which is the buffer of the plain nested loops whenever the part
      arithmetic fits its word, or the work is the largest value of the word. */
  lemma ParallelEqualsSequential<V(!new)>(dims: seq<nat>, backend: Backend, maxThreads: nat, m: nat,
                                          schedule: seq<nat>, buffer: map<Tuple, V>, func: (Tuple, V) -> V)
    requires 0 < maxThreads < m && Volume(dims) < m && Covers(buffer, dims)
    ensures forall k | 0 <= k < |NestedLoops(dims)| :: InBox(NestedLoops(dims)[k], dims)
    ensures var team := Team(backend, maxThreads, Volume(dims));
            forall k | 0 <= k < |TeamWordCalls(dims, team, team, m)| ::
              InBox(TeamWordCalls(dims, team, team, m)[k], dims)
    ensures var team := Team(backend, maxThreads, Volume(dims));
            var start := Start(dims, Parts(Volume(dims), team, m), buffer);
            Valid(start, dims) &&
            var end := Run(start, schedule, dims, func);
            (Finished(end) ==> end.buffer == InOrder(TeamWordCalls(dims, team, team, m), buffer, func)) &&
            (Finished(end) && (Volume(dims) + team - 1 < m || Volume(dims) == m - 1) ==>
             end.buffer == InOrder(NestedLoops(dims), buffer, func))
  {
    var team := Team(backend, maxThreads, Volume(dims));
    CallsDistinct(dims);
    StartValid(dims, team, m, buffer);
    TeamCallsInBox(dims, team, team, m);
    if Volume(dims) + team - 1 < m || Volume(dims) == m - 1 {
      FittingTeamCalls(dims, team, m);
    }
    var parts := Parts(Volume(dims), team, m);
    if Finished(Run(Start(dims, parts, buffer), schedule, dims, func)) {
      FinishedIsInOrder(dims, team, m, parts, schedule, buffer, func);
    }
  }

  // ---- progress --------------------------------------------------------------

  /** Ticks a team still has to make: two for each call, one if already read. */
  function Remaining<V>(workers: seq<Worker<V>>): int {
    if workers == [] then 0
    else
      var w := workers[|workers| - 1];
      Remaining(workers[..|workers| - 1]) +
      if w.Busy() then 2 * (w.end - w.iwork) - (if w.held.Value? then 1 else 0) else 0
  }

  /** Entries of the schedule that picked a busy worker. */
  ghost function UsefulTicks<V(!new)>(s: State<V>, schedule: seq<nat>, dims: seq<nat>, func: (Tuple, V) -> V): nat
    requires Valid(s, dims)
  {
    if schedule == [] then 0
    else
      var front, t := schedule[..|schedule| - 1], schedule[|schedule| - 1];
      var mid := Run(s, front, dims, func);
      UsefulTicks(s, front, dims, func) + if t < |mid.workers| && mid.workers[t].Busy() then 1 else 0
  }

  lemma {:induction false} RemainingUpdate<V>(workers: seq<Worker<V>>, t: nat, w: Worker<V>)
    requires t < |workers|
    ensures Remaining(workers[t := w]) == Remaining(workers) - Remaining([workers[t]]) + Remaining([w])
  {
    var n := |workers| - 1;
    assert Remaining([w]) == Remaining<V>([]) + Remaining([w]) && [w][..0] == [];
    assert [workers[t]][..0] == [];
    if t < n {
      RemainingUpdate(workers[..n], t, w);
      assert workers[t := w][..n] == workers[..n][t := w];
    } else {
      assert workers[t := w][..n] == workers[..n];
    }
  }

  lemma {:induction false} RemainingZero<V>(workers: seq<Worker<V>>)
    requires forall t | 0 <= t < |workers| :: workers[t].held.Value? ==> workers[t].Busy()
    ensures Remaining(workers) >= 0
    ensures Remaining(workers) == 0 <==> forall t | 0 <= t < |workers| :: !workers[t].Busy()
  {
    if workers == [] {
    } else {
      RemainingZero(workers[..|workers| - 1]);
      assert Remaining(workers) == 0 ==> !workers[|workers| - 1].Busy();
      assert forall t | 0 <= t < |workers| - 1 :: workers[t] == workers[..|workers| - 1][t];
    }
  }

  /** How many calls the parts hold. */
  function Calls(parts: seq<(nat, nat)>): nat {
    if parts == [] then 0
    else
      var (start, end) := parts[|parts| - 1];
      Calls(parts[..|parts| - 1]) + if start < end then end - start else 0
  }

  lemma {:induction false} RemainingAtStart<V>(dims: seq<nat>, parts: seq<(nat, nat)>, buffer: map<Tuple, V>)
    ensures Remaining(Start(dims, parts, buffer).workers) == 2 * Calls(parts)
  {
    if parts == [] {
    } else {
      var front, workers := parts[..|parts| - 1], Start(dims, parts, buffer).workers;
      RemainingAtStart(dims, front, buffer);
      assert workers[..|parts| - 1] == Start(dims, front, buffer).workers;
    }
  }

  lemma {:induction false} CallsOfTeam(dims: seq<nat>, team: nat, m: nat, t: nat)
    requires t <= team < m && Volume(dims) < m
    ensures Calls(Parts(Volume(dims), team, m)[..t]) == |TeamWordCalls(dims, team, t, m)|
  {
    if t == 0 {
    } else {
      var parts := Parts(Volume(dims), team, m);
      CallsOfTeam(dims, team, m, t - 1);
      assert parts[..t][..t - 1] == parts[..t - 1];
      assert parts[t - 1] == Splitter.WordPart(Volume(dims), team, t - 1, m);
    }
  }

  lemma TickRemaining<V(!new)>(s: State<V>, t: nat, dims: seq<nat>, func: (Tuple, V) -> V)
    requires Valid(s, dims) && t < |s.workers| && s.workers[t].Busy()
    ensures Remaining(Tick(s, t, dims, func).workers) == Remaining(s.workers) - 1
  {
    var w, s' := s.workers[t], Tick(s, t, dims, func);
    RemainingUpdate(s.workers, t, s'.workers[t]);
    assert s'.workers == s.workers[t := s'.workers[t]];
    assert [w][..0] == [] && [s'.workers[t]][..0] == [];
  }

  lemma {:induction false} TicksConserved<V(!new)>(s: State<V>, schedule: seq<nat>, dims: seq<nat>,
                                                   func: (Tuple, V) -> V)
    requires Valid(s, dims)
    ensures UsefulTicks(s, schedule, dims, func) + Remaining(Run(s, schedule, dims, func).workers) ==
            Remaining(s.workers)
  {
    if schedule == [] {
    } else {
      var front, t := schedule[..|schedule| - 1], schedule[|schedule| - 1];
      TicksConserved(s, front, dims, func);
      var mid := Run(s, front, dims, func);
      if t < |mid.workers| && mid.workers[t].Busy() {
        TickRemaining(mid, t, dims, func);
      }
    }
  }

  /** A run is finished exactly when its schedule has picked busy workers twice
      per call, which is twice per tuple of the box when the part arithmetic fits
      or the work is the largest value of the word: no run gets stuck and none
      goes on for ever. */
  lemma FinishedAfterTwoTicksPerCall<V(!new)>(dims: seq<nat>, backend: Backend, maxThreads: nat, m: nat,
                                              schedule: seq<nat>, buffer: map<Tuple, V>, func: (Tuple, V) -> V)
    requires 0 < maxThreads < m && Volume(dims) < m && Covers(buffer, dims)
    ensures var team := Team(backend, maxThreads, Volume(dims));
            var start := Start(dims, Parts(Volume(dims), team, m), buffer);
            var calls := TeamWordCalls(dims, team, team, m);
            Valid(start, dims) &&
            UsefulTicks(start, schedule, dims, func) <= 2 * |calls| &&
            (Finished(Run(start, schedule, dims, func)) <==>
             UsefulTicks(start, schedule, dims, func) == 2 * |calls|) &&
            (Volume(dims) + team - 1 < m || Volume(dims) == m - 1 ==> |calls| == Volume(dims))
  {
    var team := Team(backend, maxThreads, Volume(dims));
    var parts := Parts(Volume(dims), team, m);
    var start := Start(dims, parts, buffer);
    StartValid(dims, team, m, buffer);
    RemainingZero(Run(start, schedule, dims, func).workers);
    TicksConserved(start, schedule, dims, func);
    RemainingAtStart(dims, parts, buffer);
    CallsOfTeam(dims, team, m, team);
    assert parts[..team] == parts;
    if Volume(dims) + team - 1 < m || Volume(dims) == m - 1 {
      FittingTeamCalls(dims, team, m);
    }
  }

  /** The static TBB back end starts as many workers as it may and none without
      work: every part holds an item, and just one if there are workers to spare. */
  lemma NobodyIdle(maxThreads: nat, work: nat, t: nat)
    requires work > 0 && t < Team(Tbb, maxThreads, work)
    ensures var team := Team(Tbb, maxThreads, work);
            team <= maxThreads && Splitter.Cut(work, team, t) < Splitter.Cut(work, team, t + 1) &&
            (team < maxThreads ==> Splitter.Cut(work, team, t + 1) == Splitter.Cut(work, team, t) + 1)
  {
    var team := Team(Tbb, maxThreads, work);
    Splitter.ShareStep(work / team, work % team, t);
  }
}
