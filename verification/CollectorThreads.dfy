/** Any number of threads reporting races, and resolving, through one collector: the
    limit is checked before the lock is taken. Every sequence of actions is a run. */
module CollectorThreads {
  import opened Wrappers
  import opened Races
  import opened RaceCollector

  datatype Thread =
    | Idle
    | Passed(rep: Report)         // saw the count within the limit, waits for the lock
    | Adding(rep: Report)         // has the lock
    | AwaitResolve
    | Resolving(next: nat, done: nat, began: State)  // has the lock, at this list position

  /** What was done under the lock. */
  datatype Entry = Added(t: nat, rep: Report) | Resolved(t: nat)

  /** The history: the calls of every thread that went past the check or asked for a resolution,
      and what was done under the lock, in the order in which it was released. Of a resolution,
      `done` is how many races it has dealt with and `began` the collector it found. */
  datatype System = System(
    coll: State, holder: Option<nat>, threads: seq<Thread>, calls: seq<seq<Entry>>, log: seq<Entry>)

  /** A thread reports a race, asks for resolution, or takes its next step. */
  datatype Action = CallAdd(t: nat, rep: Report) | CallResolve(t: nat) | Step(t: nat)

  function Init(threads: nat): System {
    System(EMPTY, None, seq(threads, _ => Idle), seq(threads, _ => []), [])
  }

  function At(s: System, t: nat, pc: Thread): System
    requires t < |s.threads|
  {
    s.(threads := s.threads[t := pc])
  }

  /** Thread t makes a call. */
  function Called(s: System, t: nat, pc: Thread, e: Entry): System
    requires t < |s.threads| == |s.calls|
  {
    At(s, t, pc).(calls := s.calls[t := s.calls[t] + [e]])
  }

  /** One round of the erase loop. */
  function ResolveOne(cfg: Config, coll: State, i: nat): (State, nat)
    requires i < |coll.races|
  {
    var d := Resolve(cfg.syms, coll.races[i]);
    if cfg.suppress(d) then
      (coll.(races := coll.races[..i] + coll.races[i + 1..], count := CountDown(cfg.ulong, coll.count, 1)), i)
    else (coll.(races := coll.races[i := d]), i + 1)
  }

  function Perform(cfg: Config, s: System, a: Action): System {
    if a.t >= |s.threads| || |s.calls| != |s.threads| then s
    else
      match a
      case CallAdd(t, rep) =>
        if !s.threads[t].Idle? || s.coll.count > MAX || !HasStacks(rep.race) then s
        else Called(s, t, Passed(rep), Added(t, rep))
      case CallResolve(t) => if s.threads[t].Idle? then Called(s, t, AwaitResolve, Resolved(t)) else s
      case Step(t) =>
        match s.threads[t]
        case Idle => s
        case Passed(rep) => if s.holder == None then At(s, t, Adding(rep)).(holder := Some(t)) else s
        case Adding(rep) =>
          At(s, t, Idle).(holder := None, coll := AddLocked(cfg, s.coll, rep), log := s.log + [Added(t, rep)])
        case AwaitResolve => if s.holder == None then At(s, t, Resolving(0, 0, s.coll)).(holder := Some(t)) else s
        case Resolving(i, done, began) =>
          if i >= |s.coll.races| then At(s, t, Idle).(holder := None, log := s.log + [Resolved(t)])
          else
            var (coll, next) := ResolveOne(cfg, s.coll, i);
            At(s, t, Resolving(next, done + 1, began)).(coll := coll)
  }

  function Run(cfg: Config, s: System, actions: seq<Action>): System
    decreases |actions|
  {
    if actions == [] then s else Run(cfg, Perform(cfg, s, actions[0]), actions[1..])
  }

  function Weight(pc: Thread): nat {
    if pc.Passed? || pc.Adding? then 1 else 0
  }

  /** How many threads are past the check with their race not yet in. */
  function Pending(threads: seq<Thread>): nat {
    if threads == [] then 0 else Weight(threads[0]) + Pending(threads[1..])
  }

  lemma {:induction false} PendingUpdate(threads: seq<Thread>, t: nat, pc: Thread)
    requires t < |threads|
    ensures Pending(threads[t := pc]) == Pending(threads) - Weight(threads[t]) + Weight(pc)
    ensures Pending(threads) <= |threads| - (1 - Weight(threads[t]))
  {
    if t == 0 {
      assert threads[0 := pc][1..] == threads[1..];
      PendingBound(threads[1..]);
    } else {
      assert threads[t := pc][1..] == threads[1..][t - 1 := pc];
      PendingUpdate(threads[1..], t - 1, pc);
    }
  }

  lemma PendingBound(threads: seq<Thread>)
    ensures Pending(threads) <= |threads|
  {
  }

  lemma {:induction false} NonePending(n: nat)
    ensures Pending(seq(n, _ => Idle)) == 0
  {
    if n > 0 {
      assert seq(n, _ => Idle)[1..] == seq(n - 1, _ => Idle);
      NonePending(n - 1);
    }
  }

  /** One thread at a time holds the lock and changes the collector. */
  ghost predicate Locked(s: System) {
    forall t | 0 <= t < |s.threads| ::
      (s.threads[t].Adding? || s.threads[t].Resolving?) <==> s.holder == Some(t)
  }

  /** Some race that is reported and collected is suppressed once it is resolved. */
  ghost predicate SuppressesSome(cfg: Config) {
    exists rep: Report :: SuppressedReport(cfg, rep)
  }

  predicate SuppressedReport(cfg: Config, rep: Report) {
    && HasStacks(rep.race) && !Implausible(cfg, rep.race)
    && cfg.suppress(Resolve(cfg.syms, Decorated(rep.race, rep.elapsed, None)))
  }

  /** The modes of use in which the erase loop never takes off what was not counted. */
  ghost predicate Countable(cfg: Config) {
    cfg.delayed || !SuppressesSome(cfg)
  }

  predicate Stacked(pc: Thread) {
    pc.Passed? || pc.Adding? ==> HasStacks(pc.rep.race)
  }

  ghost predicate Inv(cfg: Config, s: System) {
    && Locked(s)
    && s.coll.count < cfg.ulong
    && (forall t | 0 <= t < |s.threads| :: Stacked(s.threads[t]))
    && (Countable(cfg) && MAX + |s.threads| < cfg.ulong ==>
          && s.coll.count + Pending(s.threads) <= MAX + |s.threads|
          && (cfg.delayed ==> s.coll.count == |s.coll.races|))
    && (Countable(cfg) && !cfg.delayed ==> s.coll.races == [])
    && (cfg.level != 0 ==> DistinctKeys(s.coll))
  }

  lemma ResolveOneKeeps(cfg: Config, coll: State, i: nat)
    requires i < |coll.races|
    ensures var c := ResolveOne(cfg, coll, i).0;
            && (coll.count < cfg.ulong ==> c.count < cfg.ulong)
            && (coll.count == |coll.races| ==> c.count == |c.races| <= coll.count)
            && (DistinctKeys(coll) ==> DistinctKeys(c))
  {
    hide Key, Resolve;
    ResolvedRace(cfg.syms, coll.races[i]);
    assert CountDown(cfg.ulong, coll.count, 1) == if coll.count == 0 then cfg.ulong - 1 else coll.count - 1 by {
      assert CountDown(cfg.ulong, coll.count, 0) == coll.count;
    }
  }

  lemma AddCounts(cfg: Config, coll: State, rep: Report)
    requires HasStacks(rep.race) && coll.count < cfg.ulong
    ensures var c := AddLocked(cfg, coll, rep);
            && c.count < cfg.ulong
            && (c.count == coll.count || c.count == CountUp(cfg.ulong, coll.count))
            && (cfg.delayed && coll.count == |coll.races| && coll.count + 1 < cfg.ulong ==> c.count == |c.races|)
            && (!cfg.delayed && Countable(cfg) && coll.races == [] ==> c.races == [])
            && (cfg.level != 0 && DistinctKeys(coll) ==> DistinctKeys(c))
  {
    if cfg.level != 0 && DistinctKeys(coll) {
      AddKeepsDistinct(cfg, coll, rep);
    }
    hide DistinctKeys, Resolve, Implausible, Duplicate;
    assert SuppressedReport(cfg, rep) ==> SuppressesSome(cfg);
  }

  lemma PerformKeeps(cfg: Config, s: System, a: Action)
    requires Inv(cfg, s)
    ensures Inv(cfg, Perform(cfg, s, a))
  {
    hide DistinctKeys, AddLocked, ResolveOne, Pending, Countable, HasStacks;
    var s' := Perform(cfg, s, a);
    if a.t < |s.threads| {
      PendingUpdate(s.threads, a.t, s'.threads[a.t]);
      assert s'.threads == s.threads[a.t := s'.threads[a.t]];
      assert Stacked(s.threads[a.t]);
      match s.threads[a.t]
      case Adding(rep) => AddCounts(cfg, s.coll, rep);
      case Resolving(i, _, _) =>
        if i < |s.coll.races| {
          ResolveOneKeeps(cfg, s.coll, i);
          assert Countable(cfg) ==> cfg.delayed;
        }
      case _ =>
    }
  }

  lemma {:induction false} RunKeeps(cfg: Config, s: System, actions: seq<Action>)
    requires Inv(cfg, s)
    ensures Inv(cfg, Run(cfg, s, actions))
    ensures |Run(cfg, s, actions).threads| == |s.threads|
    decreases |actions|
  {
    if actions != [] {
      PerformKeeps(cfg, s, actions[0]);
      RunKeeps(cfg, Perform(cfg, s, actions[0]), actions[1..]);
    }
  }

  /** In every run of N threads, in delayed mode or where nothing that is collected is
      suppressed: at most MAX + N races are counted, and a delayed collector's count is the
      length of its list, also between two rounds of the erase loop. In every run whatever,
      with suppression on no two races in the list share a key. */
  lemma ReportingBound(cfg: Config, threads: nat, actions: seq<Action>)
    ensures var coll := Run(cfg, Init(threads), actions).coll;
            && (Countable(cfg) ==> coll.count <= MAX + threads)
            && (cfg.delayed && MAX + threads < cfg.ulong ==> coll.count == |coll.races|)
            && (cfg.level != 0 ==> DistinctKeys(coll))
  {
    hide DistinctKeys;
    NonePending(threads);
    EmptyInv(cfg, threads);
    RunKeeps(cfg, Init(threads), actions);
  }

  lemma EmptyInv(cfg: Config, threads: nat)
    requires Pending(Init(threads).threads) == 0
    ensures Inv(cfg, Init(threads))
  {
  }

  // ---------------------------------------------------------------- one after the other

  function Apply(cfg: Config, coll: State, e: Entry): State {
    match e
    case Added(_, rep) => AddLocked(cfg, coll, rep)
    case Resolved(_) => ResolveAll(cfg, coll)
  }

  /** The collector after the same work by one thread alone. */
  function Replay(cfg: Config, log: seq<Entry>): State {
    if log == [] then EMPTY else Apply(cfg, Replay(cfg, log[..|log| - 1]), log[|log| - 1])
  }

  /** A resolution has dealt with the first `done` races of those it found and kept i of them. */
  ghost predicate Midway(cfg: Config, coll: State, i: nat, done: nat, began: State) {
    && i <= done <= |began.races| && i <= |coll.races|
    && coll.races[..i] == Kept(cfg, began.races[..done]) && coll.races[i..] == began.races[done..]
    && coll == began.(races := coll.races, count := CountDown(cfg.ulong, began.count, done - i))
  }

  /** The collector is what one thread alone would have made of it, up to the rounds done by a
      resolution that is under way. */
  ghost predicate Linear(cfg: Config, s: System) {
    && Locked(s)
    && (s.holder.Some? ==> s.holder.value < |s.threads|)
    && match if s.holder.Some? then s.threads[s.holder.value] else Idle
       case Resolving(i, done, began) => began == Replay(cfg, s.log) && Midway(cfg, s.coll, i, done, began)
       case _ => s.coll == Replay(cfg, s.log)
  }

  /** What thread t did under the lock, in order. */
  function DoneBy(t: nat, log: seq<Entry>): seq<Entry> {
    if log == [] then []
    else DoneBy(t, log[..|log| - 1]) + if log[|log| - 1].t == t then [log[|log| - 1]] else []
  }

  /** The call a thread is in. */
  function Current(t: nat, pc: Thread): seq<Entry> {
    match pc
    case Idle => []
    case Passed(rep) => [Added(t, rep)]
    case Adding(rep) => [Added(t, rep)]
    case _ => [Resolved(t)]
  }

  /** Every thread's calls are done, once each and in its order, or the last is under way. */
  ghost predicate AllDone(s: System) {
    |s.calls| == |s.threads| &&
    forall t | 0 <= t < |s.threads| :: s.calls[t] == DoneBy(t, s.log) + Current(t, s.threads[t])
  }

  lemma DoneNext(t: nat, log: seq<Entry>, e: Entry)
    ensures DoneBy(t, log + [e]) == DoneBy(t, log) + if e.t == t then [e] else []
  {
    assert (log + [e])[..|log|] == log;
  }

  lemma PerformDone(cfg: Config, s: System, a: Action)
    requires AllDone(s)
    ensures AllDone(Perform(cfg, s, a))
  {
    hide DoneBy, AddLocked, ResolveOne, HasStacks;
    var s' := Perform(cfg, s, a);
    if a.t < |s.threads| {
      var e := if s.threads[a.t].Adding? then Added(a.t, s.threads[a.t].rep) else Resolved(a.t);
      forall t | 0 <= t < |s.threads| ensures s'.calls[t] == DoneBy(t, s'.log) + Current(t, s'.threads[t]) {
        DoneNext(t, s.log, e);
      }
    }
  }

  lemma {:induction false} RunDone(cfg: Config, s: System, actions: seq<Action>)
    requires AllDone(s)
    ensures AllDone(Run(cfg, s, actions))
    decreases |actions|
  {
    if actions != [] {
      PerformDone(cfg, s, actions[0]);
      RunDone(cfg, Perform(cfg, s, actions[0]), actions[1..]);
    }
  }

  lemma ReplayNext(cfg: Config, log: seq<Entry>, e: Entry)
    ensures Replay(cfg, log + [e]) == Apply(cfg, Replay(cfg, log), e)
  {
    assert (log + [e])[..|log|] == log;
  }

  lemma MidwayBegins(cfg: Config, coll: State)
    ensures Midway(cfg, coll, 0, 0, coll)
  {
  }

  lemma MidwayGoesOn(cfg: Config, coll: State, i: nat, done: nat, began: State)
    requires Midway(cfg, coll, i, done, began) && i < |coll.races|
    ensures var (coll', i') := ResolveOne(cfg, coll, i); Midway(cfg, coll', i', done + 1, began)
  {
    hide Kept, Resolve, CountDown;
    assert done < |began.races| && coll.races[i] == coll.races[i..][0] == began.races[done];
    EraseStep(cfg, began.races, done, coll.races, i);
    CountDownNext(cfg.ulong, began.count);
    CountDownNext(cfg.ulong, coll.count);
    assert done + 1 - i == (done - i) + 1;
    assert CountDown(cfg.ulong, coll.count, 0 + 1) == CountDown(cfg.ulong, coll.count, 1);
  }

  lemma MidwayEnds(cfg: Config, coll: State, i: nat, done: nat, began: State)
    requires Midway(cfg, coll, i, done, began) && i >= |coll.races|
    ensures coll == ResolveAll(cfg, began)
  {
    hide Kept, CountDown;
    assert began.races[..done] == began.races && coll.races[..i] == coll.races;
    CountKept(cfg, began.races);
  }

  lemma PerformLinear(cfg: Config, s: System, a: Action)
    requires Linear(cfg, s)
    ensures Linear(cfg, Perform(cfg, s, a))
  {
    hide Midway, Replay, AddLocked, ResolveOne, ResolveAll, HasStacks;
    if a.t < |s.threads| {
      match (a, s.threads[a.t])
      case (Step(t), Adding(rep)) => ReplayNext(cfg, s.log, Added(t, rep));
      case (Step(t), AwaitResolve) => MidwayBegins(cfg, s.coll);
      case (Step(t), Resolving(i, done, began)) =>
        if i >= |s.coll.races| {
          MidwayEnds(cfg, s.coll, i, done, began);
          ReplayNext(cfg, s.log, Resolved(t));
        } else {
          MidwayGoesOn(cfg, s.coll, i, done, began);
        }
      case _ =>
    }
  }

  lemma {:induction false} RunLinear(cfg: Config, s: System, actions: seq<Action>)
    requires Linear(cfg, s)
    ensures Linear(cfg, Run(cfg, s, actions))
    decreases |actions|
  {
    if actions != [] {
      PerformLinear(cfg, s, actions[0]);
      RunLinear(cfg, Perform(cfg, s, actions[0]), actions[1..]);
    }
  }

  /** Whatever the interleaving of checks, reports and rounds of the erase loop of any number of
      threads: while no resolution is under way the collector is what one thread alone would
      have made of the same reports and resolutions, in the order of the lock, every thread's in
      the order of its calls; and the step that ends a resolution leaves of the list it found
      exactly the races that are not suppressed. */
  lemma OneAfterTheOther(cfg: Config, threads: nat, actions: seq<Action>)
    ensures var s := Run(cfg, Init(threads), actions);
            && (s.holder == None ==> s.coll == Replay(cfg, s.log))
            && AllDone(s)
            && (forall t | 0 <= t < |s.threads| && s.threads[t].Resolving? ::
                  s.threads[t].next >= |s.coll.races| ==> s.coll == ResolveAll(cfg, s.threads[t].began))
  {
    hide Midway, Replay, ResolveAll, Run, DoneBy, AllDone;
    EmptyDone(threads);
    RunDone(cfg, Init(threads), actions);
    var s := Run(cfg, Init(threads), actions);
    EmptyLinear(cfg, threads);
    RunLinear(cfg, Init(threads), actions);
    forall t | 0 <= t < |s.threads| && s.threads[t].Resolving? && s.threads[t].next >= |s.coll.races|
      ensures s.coll == ResolveAll(cfg, s.threads[t].began)
    {
      MidwayEnds(cfg, s.coll, s.threads[t].next, s.threads[t].done, s.threads[t].began);
    }
  }

  lemma EmptyDone(threads: nat)
    ensures AllDone(Init(threads))
  {
  }

  lemma EmptyLinear(cfg: Config, threads: nat)
    ensures Linear(cfg, Init(threads))
  {
  }

  // ---------------------------------------------------------------- the bound is reached

  lemma {:induction false} RunAppend(cfg: Config, s: System, a: seq<Action>, b: seq<Action>)
    ensures Run(cfg, s, a + b) == Run(cfg, Run(cfg, s, a), b)
    decreases |a|
  {
    if a == [] {
      assert a + b == b;
    } else {
      assert (a + b)[1..] == a[1..] + b;
      RunAppend(cfg, Perform(cfg, s, a[0]), a[1..], b);
    }
  }

  /** Nobody has the lock; the threads from `from` to `to` wait for it with this report, the
      others are idle; so many races are counted. */
  ghost predicate Waiting(s: System, rep: Report, from: nat, to: nat, count: nat) {
    && s.holder == None && s.coll.count == count && from <= to <= |s.threads| == |s.calls|
    && forall t | 0 <= t < |s.threads| :: s.threads[t] == if from <= t < to then Passed(rep) else Idle
  }

  /** One more thread passes the check. */
  lemma OnePasses(cfg: Config, s: System, rep: Report, from: nat, to: nat, count: nat)
    requires Waiting(s, rep, from, to, count) && to < |s.threads| && count <= MAX && HasStacks(rep.race)
    ensures Waiting(Run(cfg, s, [CallAdd(to, rep)]), rep, from, to + 1, count)
    ensures |Run(cfg, s, [CallAdd(to, rep)]).threads| == |s.threads|
  {
    assert Run(cfg, s, [CallAdd(to, rep)]) == Perform(cfg, s, CallAdd(to, rep));
  }

  /** The first waiting thread takes the lock and adds its race. */
  lemma OneAdds(cfg: Config, s: System, rep: Report, from: nat, to: nat, count: nat)
    requires cfg.delayed && cfg.level == 0 && HasStacks(rep.race) && !Implausible(cfg, rep.race)
    requires Waiting(s, rep, from, to, count) && from < to && count + 1 < cfg.ulong
    ensures var s' := Run(cfg, s, [Step(from), Step(from)]);
            Waiting(s', rep, from + 1, to, count + 1) && |s'.threads| == |s.threads|
  {
    var s1 := Perform(cfg, s, Step(from));
    var s2 := Perform(cfg, s1, Step(from));
    assert Run(cfg, s, [Step(from), Step(from)]) == s2 by {
      assert [Step(from), Step(from)][1..] == [Step(from)];
      assert Run(cfg, s1, [Step(from)]) == s2;
    }
    hide Implausible;
    assert s1.threads[from] == Adding(rep);
    assert s2.coll == AddLocked(cfg, s.coll, rep);
  }

  /** A run that ends with n races counted, for n up to MAX + 1, and everybody idle. */
  lemma {:induction false} FillRun(cfg: Config, threads: nat, rep: Report, n: nat) returns (acts: seq<Action>)
    requires cfg.delayed && cfg.level == 0 && HasStacks(rep.race) && !Implausible(cfg, rep.race)
    requires threads > 0 && n <= MAX + 1
    ensures var s := Run(cfg, Init(threads), acts); Waiting(s, rep, 0, 0, n) && |s.threads| == threads
  {
    hide Run;
    if n == 0 {
      acts := [];
      assert Run(cfg, Init(threads), acts) == Init(threads) by { EmptyRun(cfg, Init(threads)); }
    } else {
      var before := FillRun(cfg, threads, rep, n - 1);
      var s := Run(cfg, Init(threads), before);
      OnePasses(cfg, s, rep, 0, 0, n - 1);
      OneAdds(cfg, Run(cfg, s, [CallAdd(0, rep)]), rep, 0, 1, n - 1);
      RunAppend(cfg, Init(threads), before, [CallAdd(0, rep)]);
      RunAppend(cfg, Init(threads), before + [CallAdd(0, rep)], [Step(0), Step(0)]);
      acts := before + [CallAdd(0, rep)] + [Step(0), Step(0)];
    }
  }

  lemma EmptyRun(cfg: Config, s: System)
    ensures Run(cfg, s, []) == s
  {
  }

  /** From MAX races on: the first n threads pass the check before any of them has the lock. */
  lemma {:induction false} PassRun(cfg: Config, threads: nat, rep: Report, n: nat) returns (acts: seq<Action>)
    requires cfg.delayed && cfg.level == 0 && HasStacks(rep.race) && !Implausible(cfg, rep.race)
    requires n <= threads && threads > 0
    ensures var s := Run(cfg, Init(threads), acts); Waiting(s, rep, 0, n, MAX) && |s.threads| == threads
  {
    hide Run;
    if n == 0 {
      acts := FillRun(cfg, threads, rep, MAX);
    } else {
      var before := PassRun(cfg, threads, rep, n - 1);
      OnePasses(cfg, Run(cfg, Init(threads), before), rep, 0, n - 1, MAX);
      RunAppend(cfg, Init(threads), before, [CallAdd(n - 1, rep)]);
      acts := before + [CallAdd(n - 1, rep)];
    }
  }

  lemma {:induction false} AddRun(cfg: Config, threads: nat, rep: Report, n: nat) returns (acts: seq<Action>)
    requires cfg.delayed && cfg.level == 0 && HasStacks(rep.race) && !Implausible(cfg, rep.race)
    requires n <= threads && threads > 0
    requires MAX + threads < cfg.ulong
    ensures var s := Run(cfg, Init(threads), acts); Waiting(s, rep, n, threads, MAX + n) && |s.threads| == threads
  {
    hide Run;
    if n == 0 {
      acts := PassRun(cfg, threads, rep, threads);
    } else {
      var before := AddRun(cfg, threads, rep, n - 1);
      OneAdds(cfg, Run(cfg, Init(threads), before), rep, n - 1, threads, MAX + n - 1);
      RunAppend(cfg, Init(threads), before, [Step(n - 1), Step(n - 1)]);
      acts := before + [Step(n - 1), Step(n - 1)];
    }
  }

  /** The bound is exact: for any number of threads, as long as the count can hold it, some run counts MAX + N races. */
  lemma BoundReached(cfg: Config, threads: nat, rep: Report) returns (acts: seq<Action>)
    requires cfg.delayed && cfg.level == 0 && HasStacks(rep.race) && !Implausible(cfg, rep.race) && threads > 0
    requires MAX + threads < cfg.ulong
    ensures Run(cfg, Init(threads), acts).coll.count == MAX + threads
  {
    acts := AddRun(cfg, threads, rep, threads);
  }

  // ---------------------------------------------------------------- where the bound fails

  /** Nobody is past the check, the list is empty and the count is above the limit. */
  ghost predicate Closed(s: System) {
    && s.coll.count > MAX && s.coll.races == []
    && forall t | 0 <= t < |s.threads| :: !s.threads[t].Passed? && !s.threads[t].Adding?
  }

  /** Then the collector never takes a report again. */
  lemma {:induction false} ClosedForever(cfg: Config, s: System, actions: seq<Action>)
    requires Closed(s)
    ensures Run(cfg, s, actions).coll == s.coll
    decreases |actions|
  {
    if actions != [] {
      ClosedForever(cfg, Perform(cfg, s, actions[0]), actions[1..]);
    }
  }

  /** One suppressed report and one resolution in streaming mode: the count wraps around to
      the largest value, and in every continuation nothing is ever counted or forwarded. */
  lemma WrapCloses(cfg: Config, threads: nat, rep: Report) returns (acts: seq<Action>)
    requires !cfg.delayed && SuppressedReport(cfg, rep) && threads > 0
    ensures forall more: seq<Action> ::
              var coll := Run(cfg, Init(threads), acts + more).coll;
              coll.count == cfg.ulong - 1 && coll.forwarded == [] && coll.races == []
  {
    var s0 := Init(threads);
    var s1 := Perform(cfg, s0, CallAdd(0, rep));
    var s2 := Perform(cfg, s1, Step(0));
    var s3 := Perform(cfg, s2, Step(0));
    var s4 := Perform(cfg, s3, CallResolve(0));
    var s5 := Perform(cfg, s4, Step(0));
    var s6 := Perform(cfg, s5, Step(0));
    SuppressedAdd(cfg, rep);
    assert s3.coll.races == [Resolve(cfg.syms, Decorated(rep.race, rep.elapsed, None))] && s3.coll.count == 0;
    SuppressedErased(cfg, s3.coll);
    assert Closed(s6);
    acts := [CallAdd(0, rep), Step(0), Step(0), CallResolve(0), Step(0), Step(0)];
    SixActions(cfg, s0, acts);
    forall more: seq<Action>
      ensures var coll := Run(cfg, Init(threads), acts + more).coll;
              coll.count == cfg.ulong - 1 && coll.forwarded == [] && coll.races == []
    {
      RunAppend(cfg, s0, acts, more);
      ClosedForever(cfg, s6, more);
    }
  }

  lemma SuppressedAdd(cfg: Config, rep: Report)
    requires !cfg.delayed && SuppressedReport(cfg, rep)
    ensures var c := AddLocked(cfg, EMPTY, rep);
            && c.races == [Resolve(cfg.syms, Decorated(rep.race, rep.elapsed, None))]
            && c.count == 0 && c.forwarded == []
  {
    hide Resolve, Implausible, Key;
  }

  lemma SuppressedErased(cfg: Config, coll: State)
    requires |coll.races| == 1 && coll.count == 0 && cfg.suppress(Resolve(cfg.syms, coll.races[0]))
    ensures var c := ResolveOne(cfg, coll, 0).0;
            c.races == [] && c.count == cfg.ulong - 1 && c.forwarded == coll.forwarded
  {
    hide Resolve;
    assert CountDown(cfg.ulong, 0, 0) == 0;
  }

  lemma SixActions(cfg: Config, s: System, acts: seq<Action>)
    requires |acts| == 6
    ensures Run(cfg, s, acts) ==
            var s3 := Perform(cfg, Perform(cfg, Perform(cfg, s, acts[0]), acts[1]), acts[2]);
            Perform(cfg, Perform(cfg, Perform(cfg, s3, acts[3]), acts[4]), acts[5])
  {
    hide Perform;
    var s1 := Perform(cfg, s, acts[0]);
    var s2 := Perform(cfg, s1, acts[1]);
    var s3 := Perform(cfg, s2, acts[2]);
    var s4 := Perform(cfg, s3, acts[3]);
    var s5 := Perform(cfg, s4, acts[4]);
    assert Run(cfg, s5, acts[5..]) == Perform(cfg, s5, acts[5]);
    assert acts[4..][1..] == acts[5..] && acts[3..][1..] == acts[4..] && acts[2..][1..] == acts[3..];
    assert acts[1..][1..] == acts[2..];
    assert Run(cfg, s4, acts[4..]) == Run(cfg, s5, acts[5..]);
    assert Run(cfg, s3, acts[3..]) == Run(cfg, s4, acts[4..]);
    assert Run(cfg, s2, acts[2..]) == Run(cfg, s3, acts[3..]);
    assert Run(cfg, s1, acts[1..]) == Run(cfg, s2, acts[2..]);
  }

  /** The stored count stays within MAX + N in every run if and only if the collector is delayed,
      or suppresses nothing it collects, or there is no thread, or no count can be larger. */
  lemma BoundIff(cfg: Config, threads: nat)
    ensures (forall acts: seq<Action> :: Run(cfg, Init(threads), acts).coll.count <= MAX + threads) <==>
            Countable(cfg) || threads == 0 || MAX + threads >= cfg.ulong - 1
  {
    hide Run, DistinctKeys, SuppressedReport;
    if Countable(cfg) || threads == 0 || MAX + threads >= cfg.ulong - 1 {
      forall acts: seq<Action> ensures Run(cfg, Init(threads), acts).coll.count <= MAX + threads {
        if threads == 0 {
          NoThreads(cfg, acts);
        } else {
          CountFits(cfg, threads, acts);
          ReportingBound(cfg, threads, acts);
        }
      }
    } else {
      var rep :| SuppressedReport(cfg, rep);
      var acts := WrapCloses(cfg, threads, rep);
      assert Run(cfg, Init(threads), acts + []).coll.count == cfg.ulong - 1;
    }
  }

  lemma CountFits(cfg: Config, threads: nat, acts: seq<Action>)
    ensures Run(cfg, Init(threads), acts).coll.count < cfg.ulong
  {
    NonePending(threads);
    EmptyInv(cfg, threads);
    RunKeeps(cfg, Init(threads), acts);
  }

  lemma {:induction false} NoThreads(cfg: Config, acts: seq<Action>)
    ensures Run(cfg, Init(0), acts) == Init(0)
    decreases |acts|
  {
    if acts != [] {
      NoThreads(cfg, acts[1..]);
    }
  }
}
