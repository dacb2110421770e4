/** The memory-reference buffer of one thread: recording, flushing, exclusion scopes and
    sampling switches. The class works in place; `Thread` is its value. */
module MemoryTracker {
  import opened Arithmetic
  import opened Wrappers
  import Sampling

  /** Maximum number of references between flushes. */
  const MAX_REFS: nat := 64
  const ADDR_LIMIT: nat := 0x00007FFF_FFFFFFFF
  /** Added to the size of a write. */
  const WRITE_TAG: bv32 := 0x4000_0000
  /** The bit of the exclusion counter that says "sampled out". */
  const FLAG: nat := 0x8000_0000_0000_0000

  datatype MemRef = MemRef(addr: nat, pc: nat, size: bv32)
  /** A call of the detector's read or write. */
  datatype Event = Event(write: bool, pc: nat, addr: nat, size: bv32)

  datatype Config = Config(exclStack: bool, stackBeg: nat, stackEnd: nat)

  /** buf_ptr and buf_ptr_stored are positions in the buffer, None for null. `recorded` is
      what was put into the buffer since the thread was initialised. */
  datatype Thread = Thread(
    mem: seq<MemRef>, ptr: Option<nat>, stored: Option<nat>, cnt: nat,
    delivered: seq<Event>, procRefs: nat, totalRefs: nat, flushes: nat, recorded: seq<MemRef>)

  datatype Op =
    | Record(r: MemRef)
    | Analyze
    | Flush
    | DisableScope
    | EnableScope
    | Switch(sampled: bool)

  predicate IsWrite(r: MemRef) {
    r.size & WRITE_TAG != 0
  }

  predicate Filtered(cfg: Config, r: MemRef) {
    (cfg.exclStack && cfg.stackBeg < r.addr < cfg.stackEnd) || r.addr > ADDR_LIMIT
  }

  /** The detector calls for the references that are not filtered, in order. */
  function Events(cfg: Config, refs: seq<MemRef>): seq<Event> {
    if refs == [] then []
    else
      var r := refs[|refs| - 1];
      Events(cfg, refs[..|refs| - 1]) + if Filtered(cfg, r) then [] else [Event(IsWrite(r), r.pc, r.addr, r.size)]
  }

  predicate Shape(s: Thread) {
    && |s.mem| == MAX_REFS
    && (s.ptr.Some? ==> s.ptr.value < MAX_REFS)
    && (s.stored.Some? ==> s.stored.value < MAX_REFS)
  }

  /** A thread just initialised while enabled: `lost` references were dropped, and the stored
      pointer is where recording was last switched off before, at first the buffer's start. */
  function Fresh(mem: seq<MemRef>, stale: nat, lost: nat): Thread {
    Thread(mem, Some(0), Some(stale), 0, [], lost, 0, 1, [])
  }

  /** The thread as event_thread_init leaves it. */
  function Created(mem: seq<MemRef>, excluded: bool): Thread {
    var s := Thread(mem, Some(0), Some(0), 0, [], 0, 0, 0, []);
    if excluded then Disabled(s).(cnt := 1) else s
  }

  /** Drops what is in the buffer, counting it as processed, and arms the buffer pointer even
      where recording was off; a null pointer counts as `nullDistance` references. */
  function Cleared(s: Thread, nullDistance: nat): Thread {
    s.(ptr := Some(0), procRefs := s.procRefs + (if s.ptr.Some? then s.ptr.value else nullDistance),
       flushes := s.flushes + 1)
  }

  function Analyzed(cfg: Config, s: Thread): Thread
    requires Shape(s) || (|s.mem| == MAX_REFS && s.ptr == Some(MAX_REFS))
  {
    if s.ptr == None then s
    else
      var out := Events(cfg, s.mem[..s.ptr.value]);
      s.(ptr := Some(0), delivered := s.delivered + out, procRefs := s.procRefs + |out|,
         totalRefs := s.totalRefs + s.ptr.value)
  }

  function Processed(cfg: Config, s: Thread): Thread
    requires Shape(s) || (|s.mem| == MAX_REFS && s.ptr == Some(MAX_REFS))
  {
    var s1 := Analyzed(cfg, s);
    s1.(flushes := s1.flushes + 1)
  }

  function Enabled(s: Thread): Thread {
    s.(ptr := s.stored)
  }

  function Disabled(s: Thread): Thread {
    s.(stored := s.ptr, ptr := None)
  }

  function SetFlag(cnt: nat): nat {
    if cnt < FLAG then cnt + FLAG else cnt
  }

  function ClearFlag(cnt: nat): nat {
    if cnt < FLAG then cnt else cnt - FLAG
  }

  function Stored(s: Thread, r: MemRef): Thread
    requires Shape(s) && s.ptr.Some?
  {
    s.(mem := s.mem[s.ptr.value := r], ptr := Some(s.ptr.value + 1), recorded := s.recorded + [r])
  }

  function Perform(cfg: Config, s: Thread, op: Op): (s': Thread)
    requires Shape(s)
    ensures Shape(s')
  {
    match op
    case Record(r) =>
      if s.ptr == None then s
      else
        var s1 := Stored(s, r);
        if s1.ptr.value == MAX_REFS then Processed(cfg, s1) else s1
    case Analyze => Analyzed(cfg, s)
    case Flush => Processed(cfg, s)
    case DisableScope => Disabled(s).(cnt := (s.cnt + 1) % (2 * FLAG))
    case EnableScope =>
      var s1 := s.(cnt := (s.cnt - 1) % (2 * FLAG));
      if s1.cnt == 0 then Enabled(s1) else s1
    case Switch(sampled) =>
      if !sampled then Disabled(s).(cnt := SetFlag(s.cnt))
      else
        var s1 := s.(cnt := ClearFlag(s.cnt));
        if s1.cnt == 0 then Enabled(s1) else s1
  }

  function Run(cfg: Config, s: Thread, ops: seq<Op>): (s': Thread)
    requires Shape(s)
    ensures Shape(s')
  {
    if ops == [] then s else Perform(cfg, Run(cfg, s, ops[..|ops| - 1]), ops[|ops| - 1])
  }

  // ---------------------------------------------------------------- when recording is on

  /** Exclusion scopes open after these operations. */
  function Depth(ops: seq<Op>): int {
    if ops == [] then 0
    else
      Depth(ops[..|ops| - 1]) +
      match ops[|ops| - 1] case DisableScope => 1 case EnableScope => -1 case _ => 0
  }

  function SampledOut(ops: seq<Op>): bool {
    if ops == [] then false
    else match ops[|ops| - 1] case Switch(sampled) => !sampled case _ => SampledOut(ops[..|ops| - 1])
  }

  /** Every scope that is closed was opened, and the counter stays below its flag. */
  predicate Balanced(ops: seq<Op>) {
    ops == [] || (Balanced(ops[..|ops| - 1]) && 0 <= Depth(ops) < FLAG)
  }

  /** Somewhere an exclusion, of either kind, began while one was in force. */
  predicate Overlapped(ops: seq<Op>) {
    ops != [] &&
    var before := ops[..|ops| - 1];
    || Overlapped(before)
    || ((ops[|ops| - 1] == DisableScope || ops[|ops| - 1] == Switch(false)) &&
        (Depth(before) > 0 || SampledOut(before)))
  }

  /** What the counter and the two pointers say after the operations `ops`. */
  ghost predicate Exact(s: Thread, ops: seq<Op>)
    requires Shape(s)
  {
    && s.cnt == Depth(ops) + (if SampledOut(ops) then FLAG else 0)
    && (s.ptr.Some? <==> Depth(ops) == 0 && !SampledOut(ops) && !Overlapped(ops))
    && (s.stored.Some? <==> !Overlapped(ops))
  }

  /** One operation, by its effect on the depth, the sampling flag and the overlap. */
  lemma ExactStep(cfg: Config, s: Thread, op: Op, depth: nat, out: bool, overlap: bool)
    requires Shape(s) && depth < FLAG
    requires s.cnt == depth + (if out then FLAG else 0)
    requires s.ptr.Some? <==> depth == 0 && !out && !overlap
    requires s.stored.Some? <==> !overlap
    requires op == EnableScope ==> depth > 0
    requires op == DisableScope ==> depth + 1 < FLAG
    ensures var s' := Perform(cfg, s, op);
            var depth' := depth + match op case DisableScope => 1 case EnableScope => -1 case _ => 0;
            var out' := match op case Switch(sampled) => !sampled case _ => out;
            var overlap' := overlap || ((op == DisableScope || op == Switch(false)) && (depth > 0 || out));
            && s'.cnt == depth' + (if out' then FLAG else 0)
            && (s'.ptr.Some? <==> depth' == 0 && !out' && !overlap')
            && (s'.stored.Some? <==> !overlap')
  {
    hide Events;
    match op
    case DisableScope => assert (s.cnt + 1) % (2 * FLAG) == s.cnt + 1;
    case EnableScope => assert (s.cnt - 1) % (2 * FLAG) == s.cnt - 1;
    case _ =>
  }

  /** In every balanced run of a thread initialised while enabled: the low bits of the
      counter are the exclusion depth and its top bit says sampled out; and recording is
      on exactly when no scope is open, the thread is not sampled out, and no exclusion
      ever began inside another. After an overlap it never comes back. */
  lemma {:induction false} RecordingExact(cfg: Config, mem: seq<MemRef>, stale: nat, lost: nat, ops: seq<Op>)
    requires |mem| == MAX_REFS && stale < MAX_REFS && Balanced(ops)
    ensures Exact(Run(cfg, Fresh(mem, stale, lost), ops), ops)
    decreases |ops|
  {
    if ops != [] {
      hide Perform;
      var before := ops[..|ops| - 1];
      RecordingExact(cfg, mem, stale, lost, before);
      assert Balanced(before);
      BalancedDepth(before);
      ExactStep(cfg, Run(cfg, Fresh(mem, stale, lost), before), ops[|ops| - 1],
                Depth(before), SampledOut(before), Overlapped(before));
    }
  }

  lemma BalancedDepth(ops: seq<Op>)
    requires Balanced(ops)
    ensures 0 <= Depth(ops) < FLAG
  {
  }

  // ---------------------------------------------------------------- conservation

  /** What is in the buffer for the next flush, also while recording is off. */
  function PendingRefs(s: Thread): seq<MemRef>
    requires Shape(s)
  {
    if s.ptr.Some? then s.mem[..s.ptr.value]
    else if s.stored.Some? then s.mem[..s.stored.value]
    else []
  }

  /** Nothing recorded is lost, repeated or reordered. */
  ghost predicate Conserved(cfg: Config, s: Thread, lost: nat)
    requires Shape(s)
  {
    && s.delivered + Events(cfg, PendingRefs(s)) == Events(cfg, s.recorded)
    && s.totalRefs + |PendingRefs(s)| == |s.recorded|
    && s.procRefs == lost + |s.delivered|
  }

  /** Disabling while disabled forgets what is pending; enabling while enabled takes the
      position from the last time recording was disabled. */
  predicate Harmless(s: Thread, op: Op)
    requires Shape(s)
  {
    match op
    case DisableScope => s.ptr.Some? || PendingRefs(s) == []
    case Switch(sampled) =>
      if sampled then
        s.ptr.Some? && ClearFlag(s.cnt) == 0 ==> s.stored == s.ptr || (s.stored == None && PendingRefs(s) == [])
      else s.ptr.Some? || PendingRefs(s) == []
    case EnableScope =>
      s.ptr.Some? && (s.cnt - 1) % (2 * FLAG) == 0 ==> s.stored == s.ptr || (s.stored == None && PendingRefs(s) == [])
    case _ => true
  }

  lemma {:induction false} EventsAppend(cfg: Config, a: seq<MemRef>, b: seq<MemRef>)
    ensures Events(cfg, a + b) == Events(cfg, a) + Events(cfg, b)
  {
    if b == [] {
      assert a + b == a;
    } else {
      assert (a + b)[..|a + b| - 1] == a + b[..|b| - 1];
      EventsAppend(cfg, a, b[..|b| - 1]);
    }
  }

  /** The events of one more reference. */
  lemma EventsStep(cfg: Config, refs: seq<MemRef>, i: nat)
    requires i < |refs|
    ensures var r := refs[i];
            Events(cfg, refs[..i + 1]) ==
              Events(cfg, refs[..i]) + if Filtered(cfg, r) then [] else [Event(IsWrite(r), r.pc, r.addr, r.size)]
  {
    assert refs[..i + 1][..i] == refs[..i];
  }

  lemma EventsNone(cfg: Config, refs: seq<MemRef>)
    ensures Events(cfg, refs[..0]) == []
  {
  }

  lemma AnalyzeConserves(cfg: Config, s: Thread, lost: nat)
    requires Shape(s) && Conserved(cfg, s, lost)
    ensures Conserved(cfg, Analyzed(cfg, s), lost)
  {
    hide Events;
    EventsNone(cfg, s.mem);
  }

  lemma StoredEvents(cfg: Config, s: Thread, r: MemRef)
    requires Shape(s) && s.ptr.Some?
    requires s.delivered + Events(cfg, s.mem[..s.ptr.value]) == Events(cfg, s.recorded)
    ensures var s' := Stored(s, r);
            s.delivered + Events(cfg, s'.mem[..s'.ptr.value]) == Events(cfg, s'.recorded)
  {
    hide Events;
    var p := s.ptr.value;
    var mem := s.mem[p := r];
    assert mem[..p + 1] == s.mem[..p] + [r];
    EventsAppend(cfg, s.mem[..p], [r]);
    EventsAppend(cfg, s.recorded, [r]);
    Reassociate(s.delivered, Events(cfg, s.mem[..p]), Events(cfg, [r]));
  }

  lemma Reassociate<T>(a: seq<T>, b: seq<T>, c: seq<T>)
    ensures a + (b + c) == (a + b) + c
  {
  }

  lemma RecordConserves(cfg: Config, s: Thread, r: MemRef, lost: nat)
    requires Shape(s) && Conserved(cfg, s, lost)
    ensures Conserved(cfg, Perform(cfg, s, Record(r)), lost)
  {
    hide Events;
    if s.ptr.Some? {
      StoredEvents(cfg, s, r);
      var s1 := Stored(s, r);
      EventsNone(cfg, s1.mem);
      assert s1.delivered + Events(cfg, s1.mem[..s1.ptr.value]) + [] == Events(cfg, s1.recorded);
    }
  }

  /** One step conserves the references if and only if it is harmless. */
  lemma StepConserves(cfg: Config, s: Thread, op: Op, lost: nat)
    requires Shape(s) && Conserved(cfg, s, lost)
    ensures Conserved(cfg, Perform(cfg, s, op), lost) <==> Harmless(s, op)
  {
    match op
    case Record(r) => RecordConserves(cfg, s, r, lost);
    case Analyze => AnalyzeConserves(cfg, s, lost);
    case Flush => AnalyzeConserves(cfg, s, lost);
    case _ =>
      hide Events;
      var s' := Perform(cfg, s, op);
      assert s'.recorded == s.recorded && s'.totalRefs == s.totalRefs && s'.delivered == s.delivered;
      assert |PendingRefs(s')| == |PendingRefs(s)| ==> PendingRefs(s') == PendingRefs(s);
  }

  /** Every operation was harmless when it was performed. */
  predicate AllHarmless(cfg: Config, s: Thread, ops: seq<Op>)
    requires Shape(s)
  {
    ops == [] ||
    (AllHarmless(cfg, s, ops[..|ops| - 1]) && Harmless(Run(cfg, s, ops[..|ops| - 1]), ops[|ops| - 1]))
  }

  lemma {:induction false} RunConserves(cfg: Config, mem: seq<MemRef>, stale: nat, lost: nat, ops: seq<Op>)
    requires |mem| == MAX_REFS && stale < MAX_REFS && AllHarmless(cfg, Fresh(mem, stale, lost), ops)
    ensures Conserved(cfg, Run(cfg, Fresh(mem, stale, lost), ops), lost)
    decreases |ops|
  {
    var s := Fresh(mem, stale, lost);
    if ops == [] {
      assert mem[..0] == [];
    } else {
      RunConserves(cfg, mem, stale, lost, ops[..|ops| - 1]);
      StepConserves(cfg, Run(cfg, s, ops[..|ops| - 1]), ops[|ops| - 1], lost);
    }
  }

  /** Recording, flushing and scopes that do not nest. */
  predicate Simple(ops: seq<Op>) {
    ops == [] ||
    (Simple(ops[..|ops| - 1]) && !ops[|ops| - 1].Switch? && 0 <= Depth(ops) <= 1)
  }

  /** Conservation of references over any mix of recording, flushing and non-nested
      exclusion: what the detector was given, followed by what is pending, is what was
      recorded, filtered, in order; the counters agree. */
  lemma SimpleRunsConserve(cfg: Config, mem: seq<MemRef>, stale: nat, lost: nat, ops: seq<Op>)
    requires |mem| == MAX_REFS && stale < MAX_REFS && Simple(ops)
    ensures Conserved(cfg, Run(cfg, Fresh(mem, stale, lost), ops), lost)
  {
    SimpleHarmless(cfg, mem, stale, lost, ops);
    RunConserves(cfg, mem, stale, lost, ops);
  }

  lemma {:induction false} SimpleHarmless(cfg: Config, mem: seq<MemRef>, stale: nat, lost: nat, ops: seq<Op>)
    requires |mem| == MAX_REFS && stale < MAX_REFS && Simple(ops)
    ensures AllHarmless(cfg, Fresh(mem, stale, lost), ops)
    ensures var s := Run(cfg, Fresh(mem, stale, lost), ops);
            s.cnt == Depth(ops) && (s.ptr.Some? <==> Depth(ops) == 0) && s.stored.Some?
    decreases |ops|
  {
    if ops != [] {
      hide Events, Perform;
      var before := ops[..|ops| - 1];
      SimpleHarmless(cfg, mem, stale, lost, before);
      SimpleDepth(before);
      ExactStep(cfg, Run(cfg, Fresh(mem, stale, lost), before), ops[|ops| - 1], Depth(before), false, false);
    }
  }

  lemma SimpleDepth(ops: seq<Op>)
    requires Simple(ops)
    ensures 0 <= Depth(ops) <= 1
  {
  }

  // ---------------------------------------------------------------- what one reference becomes

  /** As the instrumentation records an access of n bytes. */
  function Access(write: bool, pc: nat, addr: nat, n: bv32): MemRef {
    MemRef(addr, pc, if write then n + 0x4000_0000 else n)
  }

  /** Recorded by any thread that records, at any fill of the buffer, and analysed, an access
      adds to what is delivered without it one call of the detector: a write for a write, a read
      for a read, with its pc, its address and the size as recorded. It adds nothing if and only
      if the address is not below the limit of user space, or is inside the stack while that is
      excluded. */
  lemma AccessDelivered(cfg: Config, s: Thread, write: bool, pc: nat, addr: nat, n: bv32)
    requires Shape(s) && s.ptr.Some? && n < 0x4000_0000
    ensures var s1 := Perform(cfg, s, Record(Access(write, pc, addr, n)));
            Perform(cfg, s1, Analyze).delivered ==
            Perform(cfg, s, Analyze).delivered +
              if addr >= 0x0000_8000_0000_0000 || (cfg.exclStack && cfg.stackBeg < addr && addr < cfg.stackEnd) then []
              else [Event(write, pc, addr, if write then n + 0x4000_0000 else n)]
  {
    var r, p := Access(write, pc, addr, n), s.ptr.value;
    TagTells(n);
    OneMoreEvent(cfg, s.mem[..p], r);
    assert s.mem[p := r][..p + 1] == s.mem[..p] + [r];
    hide Events, Filtered, IsWrite;
    EventsNone(cfg, s.mem[p := r]);
    Reassociate(s.delivered, Events(cfg, s.mem[..p]),
                if Filtered(cfg, r) then [] else [Event(IsWrite(r), r.pc, r.addr, r.size)]);
  }

  lemma TagTells(n: bv32)
    requires n < 0x4000_0000
    ensures n & 0x4000_0000 == 0 && (n + 0x4000_0000) & 0x4000_0000 != 0
  {
  }

  lemma OneMoreEvent(cfg: Config, refs: seq<MemRef>, r: MemRef)
    ensures Events(cfg, refs + [r]) ==
            Events(cfg, refs) + if Filtered(cfg, r) then [] else [Event(IsWrite(r), r.pc, r.addr, r.size)]
  {
    assert (refs + [r])[..|refs|] == refs;
  }

  /** A thread that only records flushes after every 64 references, and the others are pending. */
  lemma {:induction false} FlushesWhenFull(cfg: Config, mem: seq<MemRef>, stale: nat, lost: nat, ops: seq<Op>)
    requires |mem| == MAX_REFS && stale < MAX_REFS && forall i :: 0 <= i < |ops| ==> ops[i].Record?
    ensures var s := Run(cfg, Fresh(mem, stale, lost), ops);
            s.ptr == Some(|ops| % 64) && s.flushes == 1 + |ops| / 64
    decreases |ops|
  {
    if ops != [] {
      hide Perform;
      var before := ops[..|ops| - 1];
      FlushesWhenFull(cfg, mem, stale, lost, before);
      RecordCounts(cfg, Run(cfg, Fresh(mem, stale, lost), before), ops[|ops| - 1].r, |before|);
    }
  }

  lemma RecordCounts(cfg: Config, s: Thread, r: MemRef, n: nat)
    requires Shape(s) && s.ptr == Some(n % 64) && s.flushes == 1 + n / 64
    ensures var s' := Perform(cfg, s, Record(r)); s'.ptr == Some((n + 1) % 64) && s'.flushes == 1 + (n + 1) / 64
  {
    hide Events;
  }

  // ---------------------------------------------------------------- where it fails

  /** A flushed and sampled function call of a recording thread conserves the references
      exactly when the stored pointer is null or at the start of the buffer. */
  lemma CallConserves(cfg: Config, s: Thread, lost: nat)
    requires Shape(s) && Conserved(cfg, s, lost) && s.ptr.Some? && s.cnt == 0
    ensures var s' := Perform(cfg, Perform(cfg, s, Analyze), Switch(true));
            Conserved(cfg, s', lost) <==> s.stored == None || s.stored == Some(0)
  {
    StepConserves(cfg, s, Analyze, lost);
    StepConserves(cfg, Perform(cfg, s, Analyze), Switch(true), lost);
  }

  /** One reference, one scope around nothing and two sampled function calls: the detector
      gets the reference twice. */
  lemma CallReplays(cfg: Config, mem: seq<MemRef>, stale: nat, lost: nat, r: MemRef)
    requires |mem| == MAX_REFS && stale < MAX_REFS && !Filtered(cfg, r)
    ensures var e := Event(IsWrite(r), r.pc, r.addr, r.size);
            var s1 := Perform(cfg, Fresh(mem, stale, lost), Record(r));
            var s2 := Perform(cfg, Perform(cfg, s1, DisableScope), EnableScope);
            var s3 := Perform(cfg, Perform(cfg, s2, Analyze), Switch(true));
            var s4 := Perform(cfg, s3, Analyze);
            s4.recorded == [r] && s4.delivered == [e, e]
  {
    OneEvent(cfg, r);
    hide Events, Filtered, Perform, IsWrite;
    var s := Fresh(mem, stale, lost);
    var s1 := Perform(cfg, s, Record(r));
    RecordFirst(cfg, s, r);
    ScopeStores(cfg, s1);
    var s2 := s1.(stored := Some(1));
    CallRewinds(cfg, s2);
    var s3 := Perform(cfg, Perform(cfg, s2, Analyze), Switch(true));
    AnalyzeDelivers(cfg, s3);
    TwoAfterNone(Event(IsWrite(r), r.pc, r.addr, r.size));
  }

  lemma TwoAfterNone<T>(e: T)
    ensures ([] + [e]) + [e] == [e, e]
  {
  }

  lemma OneEvent(cfg: Config, r: MemRef)
    requires !Filtered(cfg, r)
    ensures Events(cfg, [r]) == [Event(IsWrite(r), r.pc, r.addr, r.size)]
  {
    hide Filtered, IsWrite;
    assert Events(cfg, [r][..0]) == [];
  }

  /** The first reference into an empty buffer. */
  lemma RecordFirst(cfg: Config, s: Thread, r: MemRef)
    requires Shape(s) && s.ptr == Some(0) && s.recorded == []
    ensures var s' := Perform(cfg, s, Record(r));
            && s'.ptr == Some(1) && s'.mem[..1] == [r] && s'.recorded == [r]
            && s'.cnt == s.cnt && s'.stored == s.stored && s'.delivered == s.delivered
  {
    hide Events;
    assert [] + [r] == [r];
  }

  /** A scope around nothing stores the position. */
  lemma ScopeStores(cfg: Config, s: Thread)
    requires Shape(s) && s.ptr.Some? && s.cnt == 0
    ensures Perform(cfg, Perform(cfg, s, DisableScope), EnableScope) == s.(stored := s.ptr)
  {
    hide Events;
  }

  /** A sampled function call delivers what is pending and goes back to the stored position. */
  lemma CallRewinds(cfg: Config, s: Thread)
    requires Shape(s) && s.ptr.Some? && s.cnt == 0
    ensures var s' := Perform(cfg, Perform(cfg, s, Analyze), Switch(true));
            && s'.ptr == s.stored && s'.mem == s.mem && s'.recorded == s.recorded
            && s'.delivered == s.delivered + Events(cfg, s.mem[..s.ptr.value])
  {
    hide Events;
  }

  lemma AnalyzeDelivers(cfg: Config, s: Thread)
    requires Shape(s) && s.ptr.Some?
    ensures Perform(cfg, s, Analyze).delivered == s.delivered + Events(cfg, s.mem[..s.ptr.value])
    ensures Perform(cfg, s, Analyze).recorded == s.recorded
  {
    hide Events;
  }

  // ---------------------------------------------------------------- delayed initialisation

  /** With `depth` scopes open already: every scope that is closed was opened, and the counter
      stays below its flag. */
  predicate BalancedFrom(depth: nat, ops: seq<Op>) {
    ops == [] || (BalancedFrom(depth, ops[..|ops| - 1]) && 0 <= depth + Depth(ops) < FLAG)
  }

  /** The counter has its range, its low bits are the depth, and recording is on only at 0. */
  ghost predicate OnlyAtZero(s: Thread, depth: int)
    requires Shape(s)
  {
    s.cnt < 2 * FLAG && ClearFlag(s.cnt) == depth && RespectsExclusion(s)
  }

  lemma OnlyAtZeroStep(cfg: Config, s: Thread, op: Op, depth: nat)
    requires Shape(s) && OnlyAtZero(s, depth)
    requires op == EnableScope ==> depth > 0
    requires op == DisableScope ==> depth + 1 < FLAG
    ensures OnlyAtZero(Perform(cfg, s, op), depth + match op case DisableScope => 1 case EnableScope => -1 case _ => 0)
  {
    hide Events;
    match op
    case DisableScope => CountsUp(s.cnt);
    case EnableScope => CountsDown(s.cnt);
    case Switch(sampled) =>
    case _ => KeepsOn(cfg, s, op);
  }

  /** Below the wrap-around the counter counts, and its low bits with it. */
  lemma CountsUp(cnt: nat)
    requires cnt < 2 * FLAG && ClearFlag(cnt) + 1 < FLAG
    ensures (cnt + 1) % (2 * FLAG) == cnt + 1 && ClearFlag(cnt + 1) == ClearFlag(cnt) + 1
  {
    RemainderUnique(cnt + 1, 2 * FLAG, 0, cnt + 1);
  }

  lemma CountsDown(cnt: nat)
    requires cnt < 2 * FLAG && ClearFlag(cnt) > 0
    ensures (cnt - 1) % (2 * FLAG) == cnt - 1 && ClearFlag(cnt - 1) == ClearFlag(cnt) - 1
  {
    RemainderUnique(cnt - 1, 2 * FLAG, 0, cnt - 1);
  }

  /** Recording and flushing leave counter and stored pointer, and recording on or off. */
  lemma KeepsOn(cfg: Config, s: Thread, op: Op)
    requires Shape(s) && (op.Record? || op == Analyze || op == Flush)
    ensures var s' := Perform(cfg, s, op);
            && s'.cnt == s.cnt && s'.stored == s.stored && (s'.ptr.Some? <==> s.ptr.Some?)
            && s'.recorded == if op.Record? && s.ptr.Some? then s.recorded + [op.r] else s.recorded
  {
    hide Events;
  }

  lemma {:induction false} OnlyAtZeroRun(cfg: Config, s: Thread, ops: seq<Op>)
    requires Shape(s) && OnlyAtZero(s, ClearFlag(s.cnt)) && BalancedFrom(ClearFlag(s.cnt), ops)
    ensures OnlyAtZero(Run(cfg, s, ops), ClearFlag(s.cnt) + Depth(ops))
    decreases |ops|
  {
    if ops != [] {
      hide Perform;
      var before, depth := ops[..|ops| - 1], ClearFlag(s.cnt);
      OnlyAtZeroRun(cfg, s, before);
      BalancedFromDepth(depth, before);
      OnlyAtZeroStep(cfg, Run(cfg, s, before), ops[|ops| - 1], depth + Depth(before));
    }
  }

  lemma BalancedFromDepth(depth: nat, ops: seq<Op>)
    requires BalancedFrom(depth, ops) && depth < FLAG
    ensures 0 <= depth + Depth(ops) < FLAG
  {
  }

  predicate RespectsExclusion(s: Thread) {
    s.ptr.Some? ==> s.cnt == 0
  }

  /** In every balanced run from here recording is on only while the counter is 0. */
  ghost predicate AlwaysRespects(cfg: Config, s: Thread)
    requires Shape(s)
  {
    forall ops: seq<Op> :: BalancedFrom(ClearFlag(s.cnt), ops) ==> RespectsExclusion(Run(cfg, s, ops))
  }

  /** Any thread, at its delayed initialisation: in every later balanced run recording is on only
      while the exclusion counter is 0, if and only if the counter was 0 at the initialisation.
      Otherwise the initialisation itself arms the excluded thread. */
  lemma InitialisationExact(cfg: Config, s: Thread, nullDistance: nat)
    requires Shape(s) && s.cnt < 2 * FLAG
    ensures AlwaysRespects(cfg, Cleared(s, nullDistance)) <==> s.cnt == 0
  {
    var s1 := Cleared(s, nullDistance);
    if s.cnt == 0 {
      forall ops: seq<Op> | BalancedFrom(0, ops)
        ensures RespectsExclusion(Run(cfg, s1, ops))
      {
        OnlyAtZeroRun(cfg, s1, ops);
      }
    } else {
      assert BalancedFrom(ClearFlag(s.cnt), []) && !RespectsExclusion(Run(cfg, s1, []));
    }
  }

  /** A thread initialised while excluded goes on recording, through any recording and flushing,
      with the counter as it was; every reference it records is delivered or pending. */
  lemma {:induction false} ExcludedStillRecords(cfg: Config, s: Thread, nullDistance: nat, ops: seq<Op>)
    requires Shape(s) && s.recorded == [] && s.delivered == [] && s.totalRefs == 0
    requires forall i :: 0 <= i < |ops| ==> ops[i].Record? || ops[i] == Analyze || ops[i] == Flush
    ensures var s1 := Cleared(s, nullDistance);
            var s' := Run(cfg, s1, ops);
            && s'.ptr.Some? && s'.cnt == s.cnt
            && Conserved(cfg, s', s1.procRefs)
            && |s'.recorded| == Records(ops)
    decreases |ops|
  {
    var s1 := Cleared(s, nullDistance);
    if ops == [] {
      EventsNone(cfg, s1.mem);
    } else {
      hide Events, Conserved, Perform;
      var before := ops[..|ops| - 1];
      ExcludedStillRecords(cfg, s, nullDistance, before);
      KeepsOn(cfg, Run(cfg, s1, before), ops[|ops| - 1]);
      StepConserves(cfg, Run(cfg, s1, before), ops[|ops| - 1], s1.procRefs);
    }
  }

  function Records(ops: seq<Op>): nat {
    if ops == [] then 0 else Records(ops[..|ops| - 1]) + if ops[|ops| - 1].Record? then 1 else 0
  }

  // ---------------------------------------------------------------- in place

  /** The tracker's sampling parameters. */
  class Tracker {
    var rate: nat
    var minPeriod: nat
    var maxPeriod: nat

    ghost predicate Valid()
      reads this
    {
      && 1 <= rate && rate + Sampling.Delta(rate) < Sampling.UINT
      && Sampling.Period(minPeriod, maxPeriod) == Sampling.PeriodOf(rate)
    }

    constructor (samplingRate: nat)
      requires 1 <= samplingRate && samplingRate + Sampling.Delta(samplingRate) < Sampling.UINT
      ensures Valid() && rate == samplingRate
    {
      rate, minPeriod, maxPeriod := samplingRate, 1, 1;
      new;
      UpdateSampling();
    }

    method UpdateSampling()
      requires rate < Sampling.UINT
      modifies `minPeriod, `maxPeriod
      ensures Sampling.Period(minPeriod, maxPeriod) == Sampling.PeriodOf(rate)
    {
      var delta := 1;
      if rate >= 10 {
        delta := rate / 10;
      }
      var low := (rate - delta) % Sampling.UINT;
      minPeriod := if low < 1 then 1 else low;
      maxPeriod := (rate + delta) % Sampling.UINT;
    }
  }

  /** The tracking state of one thread; `delivered` is what the detector was called with. */
  class ThreadState {
    const cfg: Config
    const nullDistance: nat
    const mem: array<MemRef>
    var bufPtr: Option<nat>
    var bufPtrStored: Option<nat>
    var eventCnt: nat
    var samplingPos: nat
    var initialised: bool
    var delivered: seq<Event>
    var procRefs: nat
    var totalRefs: nat
    var flushes: nat
    ghost var recorded: seq<MemRef>

    ghost function State(): Thread
      reads this, mem
    {
      Thread(mem[..], bufPtr, bufPtrStored, eventCnt, delivered, procRefs, totalRefs, flushes, recorded)
    }

    ghost predicate Valid()
      reads this, mem
    {
      Shape(State()) && eventCnt < 2 * FLAG && samplingPos < Sampling.UINT
    }

    /** As Valid, for a full buffer. */
    ghost predicate FullValid()
      reads this, mem
    {
      && mem.Length == MAX_REFS && (bufPtrStored.Some? ==> bufPtrStored.value < MAX_REFS)
      && eventCnt < 2 * FLAG && samplingPos < Sampling.UINT
    }

    /** The state an analysis starts from: the first one of a thread initialises it. */
    ghost function Initialised(): Thread
      reads this, mem
    {
      if initialised then State() else Cleared(State(), nullDistance)
    }

    constructor (cfg: Config, nullDistance: nat, buffer: seq<MemRef>, tracker: Tracker, excluded: bool)
      requires |buffer| == MAX_REFS && tracker.Valid()
      ensures Valid() && fresh(mem) && this.cfg == cfg && this.nullDistance == nullDistance && !initialised
      ensures State() == Created(buffer, excluded) && samplingPos == tracker.rate
    {
      this.cfg, this.nullDistance := cfg, nullDistance;
      mem := new MemRef[MAX_REFS](i requires 0 <= i < MAX_REFS => buffer[i]);
      bufPtr, bufPtrStored := Some(0), Some(0);
      eventCnt, samplingPos, initialised := 0, tracker.rate, false;
      delivered, procRefs, totalRefs, flushes, recorded := [], 0, 0, 0, [];
      new;
      assert mem[..] == buffer;
      if excluded {
        DisableScope();
      }
    }

    method Enable()
      modifies `bufPtr
      ensures bufPtr == bufPtrStored
    {
      bufPtr := bufPtrStored;
    }

    method Disable()
      modifies `bufPtr, `bufPtrStored
      ensures bufPtrStored == old(bufPtr) && bufPtr == None
    {
      bufPtrStored := bufPtr;
      bufPtr := None;
    }

    method EnableScope()
      requires Valid()
      modifies this
      ensures Valid() && State() == Perform(cfg, old(State()), Op.EnableScope)
      ensures samplingPos == old(samplingPos) && initialised == old(initialised)
    {
      eventCnt := (eventCnt - 1) % (2 * FLAG);
      if eventCnt <= 0 {
        Enable();
      }
    }

    method DisableScope()
      requires Valid()
      modifies this
      ensures Valid() && State() == Perform(cfg, old(State()), Op.DisableScope)
      ensures samplingPos == old(samplingPos) && initialised == old(initialised)
    {
      Disable();
      eventCnt := (eventCnt + 1) % (2 * FLAG);
    }

    method SampleRef(tracker: Tracker, draw: nat) returns (sampled: bool)
      requires Valid() && tracker.Valid() && tracker.minPeriod <= draw <= tracker.maxPeriod
      modifies `samplingPos
      ensures (samplingPos, sampled) == Sampling.Countdown(tracker.rate, old(samplingPos), draw)
      ensures Valid()
    {
      samplingPos := (samplingPos - 1) % Sampling.UINT;
      if tracker.rate == 1 {
        return true;
      }
      if samplingPos == 0 {
        samplingPos := draw;
        return true;
      }
      return false;
    }

    method SwitchSampling(tracker: Tracker, draw: nat)
      requires Valid() && tracker.Valid() && tracker.minPeriod <= draw <= tracker.maxPeriod
      modifies this
      ensures var (pos, sampled) := Sampling.Countdown(tracker.rate, old(samplingPos), draw);
              samplingPos == pos && State() == Perform(cfg, old(State()), Switch(sampled))
      ensures Valid() && initialised == old(initialised)
    {
      var sampled := SampleRef(tracker, draw);
      if !sampled {
        Disable();
        eventCnt := SetFlag(eventCnt);
      } else {
        eventCnt := ClearFlag(eventCnt);
        if eventCnt == 0 {
          Enable();
        }
      }
    }

    method ClearBuffer()
      requires |mem[..]| == MAX_REFS
      modifies `bufPtr, `procRefs, `flushes
      ensures State() == Cleared(old(State()), nullDistance)
    {
      var numRefs := if bufPtr.Some? then bufPtr.value else nullDistance;
      procRefs := procRefs + numRefs;
      flushes := flushes + 1;
      bufPtr := Some(0);
    }

    /** The loop over the buffered references: one detector call for each that is not filtered. */
    method DeliverRefs(numRefs: nat)
      requires numRefs <= mem.Length
      modifies `delivered, `procRefs
      ensures var out := Events(cfg, mem[..numRefs]);
              delivered == old(delivered) + out && procRefs == old(procRefs) + |out|
    {
      hide Events, Filtered, IsWrite;
      EventsNone(cfg, mem[..]);
      for i := 0 to numRefs
        invariant delivered == old(delivered) + Events(cfg, mem[..][..i])
        invariant procRefs == old(procRefs) + |Events(cfg, mem[..][..i])|
      {
        var r := mem[i];
        EventsStep(cfg, mem[..], i);
        if !Filtered(cfg, r) {
          Reassociate(old(delivered), Events(cfg, mem[..][..i]), [Event(IsWrite(r), r.pc, r.addr, r.size)]);
          delivered := delivered + [Event(IsWrite(r), r.pc, r.addr, r.size)];
          procRefs := procRefs + 1;
        }
      }
      assert mem[..][..numRefs] == mem[..numRefs];
    }

    /** Also called with a full buffer. */
    method AnalyzeAccess()
      requires Valid() || (bufPtr == Some(MAX_REFS) && FullValid())
      modifies `initialised, `bufPtr, `procRefs, `totalRefs, `flushes, `delivered
      ensures initialised && Valid()
      ensures State() == Analyzed(cfg, old(Initialised()))
    {
      if !initialised {
        initialised := true;
        ClearBuffer();
      }
      if bufPtr != None {
        DeliverRefs(bufPtr.value);
        totalRefs := totalRefs + bufPtr.value;
        bufPtr := Some(0);
      }
    }

    method ProcessBufferCtx()
      requires Valid() || (bufPtr == Some(MAX_REFS) && FullValid())
      modifies `initialised, `bufPtr, `procRefs, `totalRefs, `flushes, `delivered
      ensures initialised && Valid()
      ensures State() == Processed(cfg, old(Initialised()))
    {
      AnalyzeAccess();
      flushes := flushes + 1;
    }

    /** What the instrumentation does for one reference: nothing with a null pointer, else
        store, advance, and flush a full buffer. */
    method Record(r: MemRef)
      requires Valid()
      modifies this, mem
      ensures Valid() && samplingPos == old(samplingPos)
      ensures State() == if !old(initialised) && old(bufPtr) == Some(MAX_REFS - 1)
                         then Processed(cfg, Cleared(Stored(old(State()), r), nullDistance))
                         else Perform(cfg, old(State()), Op.Record(r))
    {
      if bufPtr != None {
        mem[bufPtr.value] := r;
        bufPtr := Some(bufPtr.value + 1);
        recorded := recorded + [r];
        if bufPtr.value == MAX_REFS {
          ProcessBufferCtx();
        }
      }
    }
  }
}
