/** The race collector: duplicates, limit, streaming and delayed symbol resolution. */
module RaceCollector {
  import opened Wrappers
  import opened Races
  import opened Words
  import Filter = RaceFilter

  /** Maximum number of races to collect. */
  const MAX: nat := 200

  /** How many values an unsigned long has; 2 to the 32 or more. */
  type Width = n: nat | n >= 0x1_0000_0000 witness 0x1_0000_0000

  /** What a collector is given: its mode, the suppression level, the symbol table, the
      modules that are not instrumented, and the filter's verdict on resolved races. */
  datatype Config = Config(
    delayed: bool, level: nat, syms: Symbols, silent: nat -> bool, suppress: Decorated -> bool, ulong: Width)

  datatype State = State(races: seq<Decorated>, count: nat, racyStacks: set<bv64>, forwarded: seq<Decorated>)

  const EMPTY: State := State([], 0, {}, [])

  datatype Report = Report(race: Race, elapsed: nat)

  /** The detector reports races with both stacks. */
  predicate HasStacks(r: Race) {
    r.first.stackSize > 0 && r.second.stackSize > 0
  }

  function Key(r: Race): bv64 {
    Hash(r.first.trace[0], r.second.trace[0])
  }

  function Implausible(cfg: Config, r: Race): bool {
    StackImplausible(r) || cfg.silent(r.first.memory)
  }

  function Duplicate(cfg: Config, s: State, r: Race): bool {
    cfg.level != 0 && Key(r) in s.racyStacks
  }

  /** The count is an unsigned long: it wraps around at both ends. */
  function CountUp(ulong: Width, count: nat): nat {
    if count + 1 == ulong then 0 else count + 1
  }

  function CountDown(ulong: Width, count: nat, k: nat): nat {
    if k == 0 then count
    else
      var c := CountDown(ulong, count, k - 1);
      if c == 0 then ulong - 1 else c - 1
  }

  lemma {:induction false} CountDownIs(ulong: Width, count: nat, k: nat)
    ensures k <= count ==> CountDown(ulong, count, k) == count - k
    ensures count < k <= count + ulong ==> CountDown(ulong, count, k) == count + ulong - k
  {
    if k > 0 {
      CountDownIs(ulong, count, k - 1);
    }
  }

  lemma CountDownNext(ulong: Width, count: nat)
    ensures CountDown(ulong, count, 0) == count
    ensures forall k: nat :: CountDown(ulong, count, k + 1) ==
              if CountDown(ulong, count, k) == 0 then ulong - 1 else CountDown(ulong, count, k) - 1
  {
  }

  /** What add_race does once it holds the lock. In streaming mode a suppressed race is
      left in the list: the early return skips the removal. */
  function AddLocked(cfg: Config, s: State, rep: Report): State {
    if Duplicate(cfg, s, rep.race) then s
    else
      var s1 := if cfg.level != 0 then s.(racyStacks := s.racyStacks + {Key(rep.race)}) else s;
      var d := Decorated(rep.race, rep.elapsed, None);
      if Implausible(cfg, rep.race) then s1
      else if cfg.delayed then
        s1.(races := s.races + [d], forwarded := s.forwarded + [d], count := CountUp(cfg.ulong, s.count))
      else if cfg.suppress(Resolve(cfg.syms, d)) then
        s1.(races := s.races + [Resolve(cfg.syms, d)])
      else
        s1.(forwarded := s.forwarded + [Resolve(cfg.syms, d)], count := CountUp(cfg.ulong, s.count))
  }

  function Add(cfg: Config, s: State, rep: Report): State {
    if s.count > MAX then s else AddLocked(cfg, s, rep)
  }

  function AddAll(cfg: Config, reps: seq<Report>): State {
    if reps == [] then EMPTY else Add(cfg, AddAll(cfg, reps[..|reps| - 1]), reps[|reps| - 1])
  }

  /** The races that are kept, resolved. */
  function Kept(cfg: Config, races: seq<Decorated>): seq<Decorated> {
    if races == [] then []
    else
      var d := Resolve(cfg.syms, races[|races| - 1]);
      Kept(cfg, races[..|races| - 1]) + if cfg.suppress(d) then [] else [d]
  }

  function Dropped(cfg: Config, races: seq<Decorated>): seq<Decorated> {
    if races == [] then []
    else
      var d := Resolve(cfg.syms, races[|races| - 1]);
      Dropped(cfg, races[..|races| - 1]) + if cfg.suppress(d) then [d] else []
  }

  lemma {:induction false} CountKept(cfg: Config, races: seq<Decorated>)
    ensures |Kept(cfg, races)| + |Dropped(cfg, races)| == |races|
  {
    if races != [] {
      CountKept(cfg, races[..|races| - 1]);
    }
  }

  function ResolveAll(cfg: Config, s: State): State {
    CountKept(cfg, s.races);
    s.(races := Kept(cfg, s.races), count := CountDown(cfg.ulong, s.count, |s.races| - |Kept(cfg, s.races)|))
  }

  // ---------------------------------------------------------------- delayed and streaming

  /** The collector took every report into consideration. */
  predicate NeverRefused(cfg: Config, reps: seq<Report>) {
    reps == [] || (AddAll(cfg, reps[..|reps| - 1]).count <= MAX && NeverRefused(cfg, reps[..|reps| - 1]))
  }

  lemma KeptSnoc(cfg: Config, races: seq<Decorated>, x: Decorated)
    ensures var d := Resolve(cfg.syms, x);
            && Kept(cfg, races + [x]) == Kept(cfg, races) + (if cfg.suppress(d) then [] else [d])
            && Dropped(cfg, races + [x]) == Dropped(cfg, races) + (if cfg.suppress(d) then [d] else [])
  {
    assert (races + [x])[..|races|] == races;
  }

  /** How the delayed collector a and the streaming collector b compare. */
  ghost predicate InStep(d: Config, a: State, b: State) {
    && a.count == |a.races| && a.forwarded == a.races
    && b.count == |b.forwarded| <= a.count
    && b.racyStacks == a.racyStacks
    && b.forwarded == Kept(d, a.races)
    && b.races == Dropped(d, a.races)
    && forall r | r in a.races :: r.resolved == None
  }

  lemma AddInStep(d: Config, s: Config, a: State, b: State, rep: Report)
    requires d.delayed && s == d.(delayed := false) && InStep(d, a, b) && a.count <= MAX
    ensures InStep(d, Add(d, a, rep), Add(s, b, rep))
  {
    hide Kept, Dropped, Resolve, StackImplausible, Hash, Key;
    KeptSnoc(d, a.races, Decorated(rep.race, rep.elapsed, None));
  }

  /** The same collector in the two modes, as long as the delayed one refuses nothing. */
  lemma {:induction false} ModesInStep(d: Config, s: Config, reps: seq<Report>)
    requires d.delayed && s == d.(delayed := false)
    requires NeverRefused(d, reps)
    ensures InStep(d, AddAll(d, reps), AddAll(s, reps))
  {
    if reps != [] {
      hide Add, InStep;
      var before, last := reps[..|reps| - 1], reps[|reps| - 1];
      ModesInStep(d, s, before);
      assert AddAll(d, before).count <= MAX;
      AddInStep(d, s, AddAll(d, before), AddAll(s, before), last);
    }
  }

  /** Delayed and streaming collection agree: if the delayed collector refuses nothing,
      what it holds after resolving is, in order, what the streaming one forwarded. */
  lemma DelayedIsStreaming(d: Config, s: Config, reps: seq<Report>)
    requires d.delayed && s == d.(delayed := false) && NeverRefused(d, reps)
    ensures ResolveAll(d, AddAll(d, reps)).races == AddAll(s, reps).forwarded
    ensures ResolveAll(d, AddAll(d, reps)).count == AddAll(s, reps).count
  {
    ModesInStep(d, s, reps);
    var races := AddAll(d, reps).races;
    CountKept(d, races);
    CountDownIs(d.ulong, |races|, |races| - |Kept(d, races)|);
  }

  /** Once full, the delayed collector stays as it is. */
  lemma {:induction false} FullStays(d: Config, reps: seq<Report>, more: seq<Report>)
    requires AddAll(d, reps).count > MAX
    ensures AddAll(d, reps + more) == AddAll(d, reps)
  {
    if more == [] {
      assert reps + more == reps;
    } else {
      assert (reps + more)[..|reps + more| - 1] == reps + more[..|more| - 1];
      FullStays(d, reps, more[..|more| - 1]);
    }
  }

  lemma {:induction false} ForwardedGrows(s: Config, reps: seq<Report>, more: seq<Report>)
    requires !s.delayed
    ensures AddAll(s, reps).forwarded <= AddAll(s, reps + more).forwarded
  {
    if more == [] {
      assert reps + more == reps;
    } else {
      assert (reps + more)[..|reps + more| - 1] == reps + more[..|more| - 1];
      ForwardedGrows(s, reps, more[..|more| - 1]);
    }
  }

  /** The longest beginning of the reports that the delayed collector takes. */
  lemma {:induction false} TakenPart(d: Config, reps: seq<Report>) returns (k: nat)
    ensures k <= |reps| && NeverRefused(d, reps[..k])
    ensures k < |reps| ==> AddAll(d, reps[..k]).count > MAX
  {
    if reps == [] {
      k := 0;
    } else {
      var before := reps[..|reps| - 1];
      k := TakenPart(d, before);
      assert before[..k] == reps[..k];
      if k == |before| && AddAll(d, before).count <= MAX {
        assert before[..k] == before && reps[..|reps|] == reps;
        k := |reps|;
      }
    }
  }

  /** With the limit in play: what the delayed collector reports is a beginning of what
      the streaming one does, and they differ only if the delayed one became full. */
  lemma DelayedIsPrefix(d: Config, s: Config, reps: seq<Report>)
    requires d.delayed && s == d.(delayed := false)
    ensures ResolveAll(d, AddAll(d, reps)).races <= AddAll(s, reps).forwarded
    ensures ResolveAll(d, AddAll(d, reps)).races != AddAll(s, reps).forwarded ==> AddAll(d, reps).count > MAX
  {
    hide AddAll, Add, Kept, NeverRefused;
    var k := TakenPart(d, reps);
    DelayedIsStreaming(d, s, reps[..k]);
    assert reps == reps[..k] + reps[k..];
    ForwardedGrows(s, reps[..k], reps[k..]);
    if k < |reps| {
      FullStays(d, reps[..k], reps[k..]);
    } else {
      assert reps[..k] == reps;
    }
  }

  // ---------------------------------------------------------------- what is left in the list

  /** The reports a collector takes: not refused, not a duplicate and plausible. */
  function Taken(cfg: Config, reps: seq<Report>): seq<Decorated> {
    if reps == [] then []
    else
      var before, last := reps[..|reps| - 1], reps[|reps| - 1];
      var s := AddAll(cfg, before);
      Taken(cfg, before) +
      if s.count > MAX || Duplicate(cfg, s, last.race) || Implausible(cfg, last.race) then []
      else [Decorated(last.race, last.elapsed, None)]
  }

  /** The list and what was forwarded, in both modes: of the reports taken, a delayed collector
      keeps and forwards all; a streaming one forwards those that are not suppressed and is
      left with those that are. */
  lemma {:induction false} TakenExact(cfg: Config, reps: seq<Report>)
    ensures var s, taken := AddAll(cfg, reps), Taken(cfg, reps);
            && s.races == (if cfg.delayed then taken else Dropped(cfg, taken))
            && s.forwarded == (if cfg.delayed then taken else Kept(cfg, taken))
            && s.count == |s.forwarded| <= MAX + 1
  {
    if reps != [] {
      hide Add, Kept, Dropped, Duplicate, Implausible;
      var before, last := reps[..|reps| - 1], reps[|reps| - 1];
      TakenExact(cfg, before);
      AddTakes(cfg, AddAll(cfg, before), Taken(cfg, before), last);
    }
  }

  lemma AddTakes(cfg: Config, s: State, taken: seq<Decorated>, rep: Report)
    requires s.races == if cfg.delayed then taken else Dropped(cfg, taken)
    requires s.forwarded == if cfg.delayed then taken else Kept(cfg, taken)
    requires s.count == |s.forwarded| <= MAX + 1
    ensures var s' := Add(cfg, s, rep);
            var taken' := taken +
              if s.count > MAX || Duplicate(cfg, s, rep.race) || Implausible(cfg, rep.race) then []
              else [Decorated(rep.race, rep.elapsed, None)];
            && s'.races == (if cfg.delayed then taken' else Dropped(cfg, taken'))
            && s'.forwarded == (if cfg.delayed then taken' else Kept(cfg, taken'))
            && s'.count == |s'.forwarded| <= MAX + 1
  {
    hide Kept, Dropped, Resolve, Duplicate, Implausible;
    KeptSnoc(cfg, taken, Decorated(rep.race, rep.elapsed, None));
    assert taken + [] == taken;
  }

  /** In streaming mode the list is documented to be empty. It holds, in order, the resolved
      reports that were taken and suppressed, so it is empty exactly when there was none.
      Resolving removes all of them and takes each off a count it was never added to: with
      more of them than races were counted the count wraps around, and from then on every
      report is refused. */
  lemma StreamingLeftovers(cfg: Config, reps: seq<Report>)
    requires !cfg.delayed
    ensures var s := AddAll(cfg, reps);
            var s' := ResolveAll(cfg, s);
            && s.races == Dropped(cfg, Taken(cfg, reps))
            && (s.races == [] <==> forall r | r in Taken(cfg, reps) :: !cfg.suppress(Resolve(cfg.syms, r)))
            && s'.races == []
            && (|s.races| <= s.count ==> s'.count == s.count - |s.races|)
            && (s.count < |s.races| < cfg.ulong - MAX ==>
                  && s'.count == s.count + cfg.ulong - |s.races| > MAX
                  && forall rep :: Add(cfg, s', rep) == s')
  {
    hide Add, AddAll, Taken, Kept, Dropped, Resolve, CountDown;
    TakenExact(cfg, reps);
    var s := AddAll(cfg, reps);
    DroppedEmpty(cfg, Taken(cfg, reps));
    DroppedAgain(cfg, Taken(cfg, reps));
    CountDownIs(cfg.ulong, s.count, |s.races|);
    forall rep | ResolveAll(cfg, s).count > MAX ensures Add(cfg, ResolveAll(cfg, s), rep) == ResolveAll(cfg, s) {
      Refuses(cfg, ResolveAll(cfg, s), rep);
    }
  }

  lemma Refuses(cfg: Config, s: State, rep: Report)
    requires s.count > MAX
    ensures Add(cfg, s, rep) == s
  {
  }

  lemma {:induction false} DroppedEmpty(cfg: Config, races: seq<Decorated>)
    ensures Dropped(cfg, races) == [] <==> forall r | r in races :: !cfg.suppress(Resolve(cfg.syms, r))
  {
    if races != [] {
      var before, last := races[..|races| - 1], races[|races| - 1];
      DroppedEmpty(cfg, before);
      assert races == before + [last];
      assert forall r :: r in races <==> r in before || r == last;
    }
  }

  lemma {:induction false} DroppedAgain(cfg: Config, races: seq<Decorated>)
    ensures Kept(cfg, Dropped(cfg, races)) == []
  {
    if races != [] {
      var before, d := races[..|races| - 1], Resolve(cfg.syms, races[|races| - 1]);
      DroppedAgain(cfg, before);
      assert Resolve(cfg.syms, d) == d;
      var gone := Dropped(cfg, before);
      if cfg.suppress(d) {
        assert (gone + [d])[..|gone|] == gone;
      } else {
        assert Dropped(cfg, races) == gone + [] == gone;
      }
    }
  }

  // ---------------------------------------------------------------- which names

  /** What is kept are races of the list with the right names. */
  lemma {:induction false} KeptNamed(cfg: Config, races: seq<Decorated>)
    ensures forall d | d in Kept(cfg, races) :: exists r | r in races :: Renamed(cfg.syms, r, d)
  {
    if races != [] {
      hide Renamed, Resolve;
      var before, last := races[..|races| - 1], races[|races| - 1];
      KeptNamed(cfg, before);
      ResolveNames(cfg.syms, last);
      assert races == before + [last];
      assert forall r :: r in races <==> r in before || r == last;
    }
  }

  /** What is kept are exactly the resolved races that the filter does not suppress, and what is
      dropped the others. */
  lemma {:induction false} KeptExact(cfg: Config, races: seq<Decorated>, d: Decorated)
    ensures d in Kept(cfg, races) <==> !cfg.suppress(d) && exists r | r in races :: d == Resolve(cfg.syms, r)
    ensures d in Dropped(cfg, races) <==> cfg.suppress(d) && exists r | r in races :: d == Resolve(cfg.syms, r)
  {
    if races != [] {
      hide Resolve;
      var before, last := races[..|races| - 1], races[|races| - 1];
      KeptExact(cfg, before, d);
      assert races == before + [last];
      assert forall r :: r in races <==> r in before || r == last;
    }
  }

  /** Whatever was reported: a resolution leaves every race in the list with the table's names of
      its address and of every frame of both stacks, and so is every race forwarded in streaming
      mode. */
  lemma {:induction false} NamesExact(cfg: Config, reps: seq<Report>)
    ensures forall d | d in ResolveAll(cfg, AddAll(cfg, reps)).races :: NamedRight(cfg.syms, d)
    ensures !cfg.delayed ==> forall d | d in AddAll(cfg, reps).forwarded :: NamedRight(cfg.syms, d)
  {
    hide AddAll, Taken, Kept, Dropped, Resolve, NamedRight, CountDown;
    var s, taken := AddAll(cfg, reps), Taken(cfg, reps);
    TakenExact(cfg, reps);
    TakenUnnamed(cfg, reps);
    KeptNamed(cfg, taken);
    DroppedAgain(cfg, taken);
  }

  lemma {:induction false} TakenUnnamed(cfg: Config, reps: seq<Report>)
    ensures forall d | d in Taken(cfg, reps) :: d.resolved == None
  {
    if reps != [] {
      hide AddAll, Duplicate, Implausible;
      TakenUnnamed(cfg, reps[..|reps| - 1]);
    }
  }

  // ---------------------------------------------------------------- which reports are taken

  /** The reports that the collector looked at: it was not full. */
  function LookedAt(cfg: Config, reps: seq<Report>): seq<Report> {
    if reps == [] then []
    else
      var before := reps[..|reps| - 1];
      LookedAt(cfg, before) + if AddAll(cfg, before).count <= 200 then [reps[|reps| - 1]] else []
  }

  /** Between the two reports the same bits of the first stack's first word change as of the
      second one's, doubled. */
  predicate Alike(r: Race, q: Race) {
    Xor(r.first.trace[0], q.first.trace[0]) == Xor(Doubled(r.second.trace[0]), Doubled(q.second.trace[0]))
  }

  lemma KeysAlike(r: Race, q: Race)
    ensures Key(r) == Key(q) <==> Alike(r, q)
  {
    hide Hash, Xor, Doubled;
    HashesAlike(r.first.trace[0], r.second.trace[0], q.first.trace[0], q.second.trace[0]);
  }

  lemma {:induction false} StacksEntered(cfg: Config, reps: seq<Report>)
    requires cfg.level != 0
    ensures AddAll(cfg, reps).racyStacks == set rep | rep in LookedAt(cfg, reps) :: Key(rep.race)
  {
    if reps != [] {
      hide Hash, Key, Resolve, Implausible;
      var before, last := reps[..|reps| - 1], reps[|reps| - 1];
      StacksEntered(cfg, before);
      assert forall rep :: rep in LookedAt(cfg, before) + [last] <==> rep in LookedAt(cfg, before) || rep == last;
    }
  }

  /** Of any reports, the next one is taken if and only if no more than 200 races are counted, no
      report looked at before is alike, as far as suppression is on, no stack has a null address
      on top, as far as both have a top, and its memory is not in a silent module. */
  lemma TakenMeaning(cfg: Config, reps: seq<Report>, rep: Report)
    ensures var r := rep.race;
            Taken(cfg, reps + [rep]) == Taken(cfg, reps) +
              if && AddAll(cfg, reps).count <= 200
                 && (cfg.level != 0 ==> forall e | e in LookedAt(cfg, reps) :: !Alike(e.race, r))
                 && (r.first.stackSize != 0 && r.second.stackSize != 0 ==>
                       r.first.trace[r.first.stackSize - 1] != 0 && r.second.trace[r.second.stackSize - 1] != 0)
                 && !cfg.silent(r.first.memory)
              then [Decorated(r, rep.elapsed, None)] else []
  {
    hide Hash, Key, Alike, AddAll, LookedAt;
    assert (reps + [rep])[..|reps|] == reps;
    if cfg.level != 0 {
      StacksEntered(cfg, reps);
      forall e | e in LookedAt(cfg, reps) ensures Key(e.race) == Key(rep.race) <==> Alike(e.race, rep.race) {
        KeysAlike(e.race, rep.race);
      }
    }
  }

  /** Of two plausible reports that differ in one of the two words alone, the second is dropped
      exactly if they agree in the whole first word and in the low 63 bits of the second. */
  lemma TwoReports(cfg: Config, a: Report, b: Report)
    requires cfg.level != 0 && !Implausible(cfg, a.race) && !Implausible(cfg, b.race)
    requires a.race.first.trace[0] == b.race.first.trace[0] || a.race.second.trace[0] == b.race.second.trace[0]
    ensures |Taken(cfg, [a, b])| ==
            if && a.race.first.trace[0] == b.race.first.trace[0]
               && Low(a.race.second.trace[0]) == Low(b.race.second.trace[0])
            then 1 else 2
  {
    hide Hash, Xor, Doubled, Low, AddAll, Taken, LookedAt, CountUp;
    assert [] + [a] == [a] && [a] + [b] == [a, b];
    TakenMeaning(cfg, [], a);
    TakenMeaning(cfg, [a], b);
    FirstLookedAt(cfg, a);
    KeysAlike(a.race, b.race);
    HashesOfOne(a.race.first.trace[0], a.race.second.trace[0], b.race.first.trace[0], b.race.second.trace[0]);
  }

  lemma FirstLookedAt(cfg: Config, a: Report)
    ensures LookedAt(cfg, []) == [] && LookedAt(cfg, [a]) == [a] && Taken(cfg, []) == []
    ensures AddAll(cfg, []).count == 0 && AddAll(cfg, [a]).count <= 1
  {
    hide Hash, Key, Resolve, Implausible;
    assert [a][..0] == [] && [] + [a] == [a];
    assert LookedAt(cfg, [a]) == LookedAt(cfg, []) + [a];
  }

  // ---------------------------------------------------------------- duplicates

  /** Every race of the list was entered under its key, and no two share one. */
  ghost predicate Entered(races: seq<Decorated>, stacks: set<bv64>) {
    && (forall r | r in races :: Key(r.race) in stacks)
    && (forall i, j | 0 <= i < j < |races| :: Key(races[i].race) != Key(races[j].race))
  }

  /** Neither in the list nor among the races given to the sinks. */
  ghost predicate DistinctKeys(s: State) {
    Entered(s.races, s.racyStacks) && Entered(s.forwarded, s.racyStacks)
  }

  lemma AddKeepsDistinct(cfg: Config, s: State, rep: Report)
    requires cfg.level != 0 && DistinctKeys(s)
    ensures DistinctKeys(AddLocked(cfg, s, rep))
  {
    if !Duplicate(cfg, s, rep.race) {
      hide Hash, Key, Resolve, Implausible;
      var d := Decorated(rep.race, rep.elapsed, None);
      ResolvedRace(cfg.syms, d);
      EnteredSnoc(s.races, s.racyStacks, d);
      EnteredSnoc(s.races, s.racyStacks, Resolve(cfg.syms, d));
      EnteredSnoc(s.forwarded, s.racyStacks, d);
      EnteredSnoc(s.forwarded, s.racyStacks, Resolve(cfg.syms, d));
      hide Entered;
    }
  }

  lemma ResolvedRace(syms: Symbols, d: Decorated)
    ensures Resolve(syms, d).race == d.race
  {
  }

  lemma EnteredSnoc(races: seq<Decorated>, stacks: set<bv64>, d: Decorated)
    requires Entered(races, stacks) && Key(d.race) !in stacks
    ensures Entered(races, stacks + {Key(d.race)}) && Entered(races + [d], stacks + {Key(d.race)})
  {
    hide Hash, Key;
  }

  lemma ResolvedNamed(syms: Symbols, d: Decorated)
    requires d.resolved.Some? ==> Filter.Named(d)
    ensures Filter.Named(Resolve(syms, d))
  {
  }

  lemma KeptNone(cfg: Config)
    ensures Kept(cfg, []) == []
  {
  }

  /** One round of the erase loop: `done` races of `was` are done, i of them kept. */
  lemma EraseStep(cfg: Config, was: seq<Decorated>, done: nat, races: seq<Decorated>, i: nat)
    requires done < |was| && i < |races|
    requires races[..i] == Kept(cfg, was[..done]) && races[i..] == was[done..]
    ensures var d := Resolve(cfg.syms, was[done]);
            var races1 := races[i := d];
            if cfg.suppress(d) then
              var races2 := races1[..i] + races1[i + 1..];
              races2[..i] == Kept(cfg, was[..done + 1]) && races2[i..] == was[done + 1..]
            else races1[..i + 1] == Kept(cfg, was[..done + 1]) && races1[i + 1..] == was[done + 1..]
  {
    hide Kept, Resolve;
    var d := Resolve(cfg.syms, was[done]);
    assert was[..done + 1] == was[..done] + [was[done]];
    KeptSnoc(cfg, was[..done], was[done]);
    assert races[i := d][i + 1..] == races[i..][1..] == was[done..][1..] == was[done + 1..];
    assert races[i := d][..i] == races[..i] && races[i := d][..i + 1] == races[..i] + [d];
  }

  /** The class that does it: collector and filter are objects, the lock is held. */
  class RaceCollector {
    var races: seq<Decorated>
    var raceCount: nat
    var racyStacks: set<bv64>
    var sunk: seq<Decorated>          // what the sinks were given
    const delayedLookup: bool
    const level: nat
    const syms: Symbols
    const silent: nat -> bool
    const ulong: Width
    const filter: Filter.RaceFilter

    ghost function Cfg(): Config
      reads filter
    {
      var lines, ranges := filter.lines, filter.ranges;
      Config(delayedLookup, level, syms, silent,
             d => Filter.Named(d) && Filter.Suppresses(lines, ranges, d), ulong)
    }

    ghost function Value(): State
      reads this
    {
      State(races, raceCount, racyStacks, sunk)
    }

    ghost predicate Valid()
      reads this, filter
    {
      filter.Valid() && forall d | d in races :: d.resolved.Some? ==> Filter.Named(d)
    }

    constructor (delayed: bool, level: nat, syms: Symbols, silent: nat -> bool, ulong: Width, filter: Filter.RaceFilter)
      requires filter.Valid()
      ensures Valid() && Value() == EMPTY && this.filter == filter
      ensures delayedLookup == delayed && this.level == level && this.syms == syms
      ensures this.silent == silent && this.ulong == ulong
    {
      delayedLookup, this.level, this.syms, this.silent := delayed, level, syms, silent;
      this.ulong, this.filter := ulong, filter;
      races, raceCount, racyStacks, sunk := [], 0, {}, [];
    }

    method FilterDuplicates(r: Race) returns (duplicate: bool)
      modifies `racyStacks
      ensures duplicate == Duplicate(Cfg(), old(Value()), r)
      ensures racyStacks == if level != 0 then old(racyStacks) + {Key(r)} else old(racyStacks)
    {
      if level == 0 {
        return false;
      }
      var hash := Key(r);
      if hash !in racyStacks {
        racyStacks := racyStacks + {hash};
        return false;
      }
      return true;
    }

    method AddRace(r: Race, elapsed: nat)
      requires Valid() && HasStacks(r)
      modifies this
      ensures Valid() && Value() == Add(Cfg(), old(Value()), Report(r, elapsed))
      ensures !delayedLookup && sunk != old(sunk) ==>
                exists d :: sunk == old(sunk) + [d] && d.race == r && NamedRight(syms, d)
    {
      hide Filter.Suppresses, Filter.Named, Resolve, StackImplausible, Hash, Key, NamedRight;
      ResolveNames(syms, Decorated(r, elapsed, None));
      if raceCount > MAX {
        return;
      }
      ghost var d0 := Decorated(r, elapsed, None);
      ResolvedNamed(syms, d0);
      var duplicate := FilterDuplicates(r);
      if duplicate || StackImplausible(r) || silent(r.first.memory) {
        return;
      }
      races := races + [Decorated(r, elapsed, None)];
      if !delayedLookup {
        var d := Resolve(syms, races[|races| - 1]);
        races := races[|races| - 1 := d];
        var suppressed := filter.CheckSuppress(d);
        if suppressed {
          return;
        }
      }
      sunk := sunk + [races[|races| - 1]];
      if !delayedLookup {
        races := races[..|races| - 1];
      }
      raceCount := CountUp(ulong, raceCount);
    }

    /** The erase loop over the list. */
    method ResolveAllRaces()
      requires Valid()
      modifies `races, `raceCount
      ensures Valid() && Value() == ResolveAll(Cfg(), old(Value()))
      ensures forall d | d in races :: exists r | r in old(races) :: Renamed(syms, r, d)
    {
      hide Filter.Suppresses, Filter.Named, Resolve, Kept, CountDown, Renamed;
      KeptNone(Cfg());
      KeptNamed(Cfg(), races);
      CountDownNext(ulong, raceCount);
      var i := 0;
      ghost var was := races;
      ghost var done := 0;
      while i < |races|
        invariant filter.Valid() && i <= |races| && done <= |was|
        invariant races[..i] == Kept(Cfg(), was[..done]) && races[i..] == was[done..]
        invariant i <= done && raceCount == CountDown(ulong, old(raceCount), done - i)
        invariant forall d | d in races :: d.resolved.Some? ==> Filter.Named(d)
        decreases |races| - i
      {
        assert races[i] == races[i..][0] == was[done..][0] == was[done];
        ghost var before := races;
        ResolvedNamed(syms, races[i]);
        var d := Resolve(syms, races[i]);
        races := races[i := d];
        var suppressed := filter.CheckSuppress(d);
        EraseStep(Cfg(), was, done, before, i);
        if suppressed {
          raceCount := if raceCount == 0 then ulong - 1 else raceCount - 1;
          races := races[..i] + races[i + 1..];
        } else {
          i := i + 1;
        }
        done := done + 1;
      }
      assert races == races[..i] && was == was[..done] && races[i..] == [];
    }
  }
}
