/** Recording detector calls to a binary trace and replaying the trace into another detector. */
module Trace {
  import opened Wrappers

  /** Values of the 32-bit thread ids of the trace. */
  const UINT: nat := 0x1_0000_0000

  /** What a thread does. */
  datatype Action =
    | FuncEnter(pc: nat)
    | FuncExit
    | Acquire(mutex: nat, recursive: int, write: bool)
    | Release(mutex: nat, write: bool)
    | HappensBefore(id: nat)
    | HappensAfter(id: nat)
    | Read(pc: nat, addr: nat, size: nat)
    | Write(pc: nat, addr: nat, size: nat)
    | Allocate(pc: nat, addr: nat, size: nat)
    | Deallocate(addr: nat)
    | Detach(thread: nat)
    | Finish(thread: nat)

  /** A call of a detector. A thread is named by the token its fork returned; the recorder
      returns the thread id itself. */
  datatype Call<T> =
    | Use(tls: T, action: Action)
    | Fork(parent: nat, child: nat)
    | Join(parent: nat, child: nat)

  /** An entry of the trace. A finish entry holds the thread id alone, but the decoder also
      reads the word behind it, where a join has its child. */
  datatype Entry =
    | MEMREAD(thread: nat, pc: nat, addr: nat, size: nat)
    | MEMWRITE(thread: nat, pc: nat, addr: nat, size: nat)
    | ACQUIRE(thread: nat, addr: nat, recursive: int, write: bool)
    | RELEASE(thread: nat, addr: nat, write: bool)
    | HAPPENSBEFORE(thread: nat, id: nat)
    | HAPPENSAFTER(thread: nat, id: nat)
    | ALLOCATION(thread: nat, pc: nat, addr: nat, size: nat)
    | FREE(thread: nat, addr: nat)
    | FORK(parent: nat, child: nat)
    | JOIN(parent: nat, child: nat)
    | DETACH(thread: nat)
    | FINISH(thread: nat, word: nat)
    | FUNCENTER(thread: nat, pc: nat)
    | FUNCEXIT(thread: nat)

  /** The entry recorded for a call; `word` is what stands behind the thread id of a finish
      entry, which the recorder does not set. */
  function Encode(call: Call<nat>, word: nat): Entry {
    match call
    case Fork(parent, child) => FORK(parent % UINT, child % UINT)
    case Join(parent, child) => JOIN(parent % UINT, child % UINT)
    case Use(tls, action) =>
      var t := tls % UINT;
      match action
      case FuncEnter(pc) => FUNCENTER(t, pc)
      case FuncExit => FUNCEXIT(t)
      case Acquire(mutex, recursive, write) => ACQUIRE(t, mutex, recursive, write)
      case Release(mutex, write) => RELEASE(t, mutex, write)
      case HappensBefore(id) => HAPPENSBEFORE(t, id)
      case HappensAfter(id) => HAPPENSAFTER(t, id)
      case Read(pc, addr, size) => MEMREAD(t, pc, addr, size)
      case Write(pc, addr, size) => MEMWRITE(t, pc, addr, size)
      case Allocate(pc, addr, size) => ALLOCATION(t, pc, addr, size)
      case Deallocate(addr) => FREE(t, addr)
      case Detach(_) => DETACH(t)
      case Finish(_) => FINISH(t, word)
  }

  function EncodeAll(calls: seq<Call<nat>>, words: nat -> nat): (trace: seq<Entry>)
    ensures |trace| == |calls|
    ensures forall i :: 0 <= i < |calls| ==> trace[i] == Encode(calls[i], words(i))
  {
    seq(|calls|, i requires 0 <= i < |calls| => Encode(calls[i], words(i)))
  }

  /** The decoder: the token behind every slot of its thread table, how many slots it has
      allocated and freed, the calls its detector got, and whether it dereferenced a slot
      that is not there, which ends it. */
  datatype Decoder<T> = Decoder(
    tls: map<nat, T>, created: nat, freed: nat, calls: seq<Call<T>>, crashed: bool)

  function Start<T>(): Decoder<T> {
    Decoder(map[], 0, 0, [], false)
  }

  function UseSlot<T>(s: Decoder<T>, thread: nat, action: Action): Decoder<T> {
    if thread in s.tls then s.(calls := s.calls + [Use(s.tls[thread], action)]) else s.(crashed := true)
  }

  function Erase<T>(s: Decoder<T>, thread: nat): Decoder<T> {
    if thread in s.tls then s.(tls := s.tls - {thread}, freed := s.freed + 1) else s
  }

  /** One entry; the replaying detector answers fork number k with `backend(k)`. A fork always
      allocates, but keeps a slot that is already in the table. */
  function Step<T>(backend: nat -> T, s: Decoder<T>, e: Entry): Decoder<T> {
    if s.crashed then s
    else
      match e
      case MEMREAD(t, pc, addr, size) => UseSlot(s, t, Read(pc, addr, size))
      case MEMWRITE(t, pc, addr, size) => UseSlot(s, t, Write(pc, addr, size))
      case ACQUIRE(t, addr, recursive, write) => UseSlot(s, t, Acquire(addr, recursive, write))
      case RELEASE(t, addr, write) => UseSlot(s, t, Release(addr, write))
      case HAPPENSBEFORE(t, id) => UseSlot(s, t, HappensBefore(id))
      case HAPPENSAFTER(t, id) => UseSlot(s, t, HappensAfter(id))
      case ALLOCATION(t, pc, addr, size) => UseSlot(s, t, Allocate(pc, addr, size))
      case FREE(t, addr) => UseSlot(s, t, Deallocate(addr))
      case FUNCENTER(t, pc) => UseSlot(s, t, FuncEnter(pc))
      case FUNCEXIT(t) => UseSlot(s, t, FuncExit)
      case DETACH(t) => UseSlot(s, t, Detach(t))
      case FINISH(t, word) =>
        var s1 := UseSlot(s, t, Finish(t));
        if s1.crashed then s1 else Erase(s1, word)
      case FORK(parent, child) =>
        s.(tls := if child in s.tls then s.tls else s.tls[child := backend(s.created)],
           created := s.created + 1, calls := s.calls + [Fork(parent, child)])
      case JOIN(parent, child) => Erase(s.(calls := s.calls + [Join(parent, child)]), child)
  }

  function Replay<T>(backend: nat -> T, trace: seq<Entry>): Decoder<T> {
    if trace == [] then Start()
    else Step(backend, Replay(backend, trace[..|trace| - 1]), trace[|trace| - 1])
  }

  // ---------------------------------------------------------------- what replay should give

  function Forks(calls: seq<Call<nat>>): nat {
    if calls == [] then 0 else Forks(calls[..|calls| - 1]) + if calls[|calls| - 1].Fork? then 1 else 0
  }

  function Joins(calls: seq<Call<nat>>): nat {
    if calls == [] then 0 else Joins(calls[..|calls| - 1]) + if calls[|calls| - 1].Join? then 1 else 0
  }

  /** The number of the latest fork of a thread. */
  function LatestFork(calls: seq<Call<nat>>, thread: nat): Option<nat> {
    if calls == [] then None
    else
      var before, last := calls[..|calls| - 1], calls[|calls| - 1];
      if last.Fork? && last.child == thread then Some(Forks(before)) else LatestFork(before, thread)
  }

  /** The replayed calls are the recorded ones, with the token of the thread's latest fork. */
  ghost predicate Reproduced<T>(backend: nat -> T, calls: seq<Call<nat>>, replayed: seq<Call<T>>)
    decreases |calls|
  {
    && |replayed| == |calls|
    && (calls != [] ==>
          var n := |calls| - 1;
          && Reproduced(backend, calls[..n], replayed[..n])
          && match calls[n]
             case Fork(parent, child) => replayed[n] == Fork(parent, child)
             case Join(parent, child) => replayed[n] == Join(parent, child)
             case Use(thread, action) =>
               LatestFork(calls[..n], thread).Some? &&
               replayed[n] == Use(backend(LatestFork(calls[..n], thread).value), action))
  }

  /** The threads the decoder still knows: forked and not joined; the finish at position i takes out
      thread words(i). */
  function Live(calls: seq<Call<nat>>, words: nat -> nat): set<nat> {
    if calls == [] then {}
    else
      var before := Live(calls[..|calls| - 1], words);
      match calls[|calls| - 1]
      case Fork(_, child) => before + {child}
      case Join(_, child) => before - {child}
      case Use(_, action) => if action.Finish? then before - {words(|calls| - 1)} else before
  }

  /** The live threads that were forked again while live. */
  function Stale(calls: seq<Call<nat>>, words: nat -> nat): set<nat> {
    if calls == [] then {}
    else
      var before := Stale(calls[..|calls| - 1], words);
      match calls[|calls| - 1]
      case Fork(_, child) => if child in Live(calls[..|calls| - 1], words) then before + {child} else before
      case Join(_, child) => before - {child}
      case Use(_, action) => if action.Finish? then before - {words(|calls| - 1)} else before
  }

  /** Every call is made by a thread that is live and was not forked again since. */
  predicate UsesFresh(calls: seq<Call<nat>>, words: nat -> nat) {
    calls == [] ||
    var before := calls[..|calls| - 1];
    && UsesFresh(before, words)
    && (calls[|calls| - 1].Use? ==>
          calls[|calls| - 1].tls in Live(before, words) && calls[|calls| - 1].tls !in Stale(before, words))
  }

  /** Thread ids fit the trace, and a thread detaches or finishes itself. */
  predicate Plain(call: Call<nat>) {
    match call
    case Use(thread, action) =>
      && thread < UINT
      && (action.Detach? || action.Finish? ==> action.thread == thread)
    case Fork(parent, child) => parent < UINT && child < UINT
    case Join(parent, child) => parent < UINT && child < UINT
  }

  predicate AllPlain(calls: seq<Call<nat>>) {
    forall i :: 0 <= i < |calls| ==> Plain(calls[i])
  }

  ghost predicate Injective<T>(backend: nat -> T) {
    forall j: nat, k: nat :: backend(j) == backend(k) ==> j == k
  }

  // ---------------------------------------------------------------- one entry

  /** An entry does what its call says, with the token of the thread's slot. */
  lemma StepOfCall<T>(backend: nat -> T, s: Decoder<T>, call: Call<nat>, word: nat)
    requires Plain(call) && !s.crashed
    ensures var s' := Step(backend, s, Encode(call, word));
            match call
            case Use(t, action) =>
              && s'.crashed == (t !in s.tls)
              && (t in s.tls ==>
                    && s'.calls == s.calls + [Use(s.tls[t], action)]
                    && s'.tls == if action.Finish? then s.tls - {word} else s.tls)
              && s'.created == s.created
              && s'.freed == s.freed + if t in s.tls && action.Finish? && word in s.tls then 1 else 0
            case Fork(parent, child) =>
              && !s'.crashed && s'.created == s.created + 1 && s'.freed == s.freed
              && s'.calls == s.calls + [Fork(parent, child)]
              && s'.tls == if child in s.tls then s.tls else s.tls[child := backend(s.created)]
            case Join(parent, child) =>
              && !s'.crashed && s'.created == s.created
              && s'.freed == s.freed + (if child in s.tls then 1 else 0)
              && s'.calls == s.calls + [Join(parent, child)]
              && s'.tls == s.tls - {child}
  {
    match call
    case Use(t, action) =>
      assert t % UINT == t;
    case Fork(parent, child) =>
      assert parent % UINT == parent && child % UINT == child;
    case Join(parent, child) =>
      assert parent % UINT == parent && child % UINT == child;
  }

  // ---------------------------------------------------------------- whole traces

  /** What the decoder holds after the calls: live threads only, each with the token of a fork
      of it: the latest, or an earlier one where it was forked again while live. */
  ghost predicate Holds<T>(backend: nat -> T, calls: seq<Call<nat>>, words: nat -> nat, s: Decoder<T>) {
    && !s.crashed
    && Reproduced(backend, calls, s.calls)
    && s.created == Forks(calls)
    && s.tls.Keys == Live(calls, words)
    && (forall t :: t in s.tls ==> TokenOf(backend, calls, words, t, s.tls[t]))
  }

  ghost predicate TokenOf<T>(backend: nat -> T, calls: seq<Call<nat>>, words: nat -> nat, t: nat, token: T) {
    && LatestFork(calls, t).Some?
    && LatestFork(calls, t).value < Forks(calls)
    && (t !in Stale(calls, words) ==> token == backend(LatestFork(calls, t).value))
    && (t in Stale(calls, words) ==> exists k: nat :: k < LatestFork(calls, t).value && token == backend(k))
  }

  lemma TokensKept<T>(backend: nat -> T, calls: seq<Call<nat>>, call: Call<nat>, words: nat -> nat, t: nat, token: T)
    requires TokenOf(backend, calls, words, t, token)
    requires match call
             case Fork(_, child) => t != child
             case Join(_, child) => t != child
             case Use(_, action) => action.Finish? ==> t != words(|calls|)
    ensures TokenOf(backend, calls + [call], words, t, token)
  {
    assert (calls + [call])[..|calls|] == calls;
  }

  lemma ForkTokens<T>(backend: nat -> T, calls: seq<Call<nat>>, words: nat -> nat, s: Decoder<T>,
                      parent: nat, child: nat)
    requires Holds(backend, calls, words, s)
    ensures var calls' := calls + [Call.Fork(parent, child)];
            var token := if child in s.tls then s.tls[child] else backend(Forks(calls));
            TokenOf(backend, calls', words, child, token)
  {
    var calls' := calls + [Call.Fork(parent, child)];
    assert calls'[..|calls|] == calls;
    assert LatestFork(calls', child) == Some(Forks(calls));
    assert Forks(calls') == Forks(calls) + 1;
    if child in s.tls {
      assert TokenOf(backend, calls, words, child, s.tls[child]);
    } else {
      StaleLive(calls, words);
    }
  }

  lemma {:induction false} StaleLive(calls: seq<Call<nat>>, words: nat -> nat)
    ensures Stale(calls, words) <= Live(calls, words)
    decreases |calls|
  {
    if calls != [] {
      StaleLive(calls[..|calls| - 1], words);
    }
  }

  lemma HoldsStep<T>(backend: nat -> T, calls: seq<Call<nat>>, call: Call<nat>, words: nat -> nat, s: Decoder<T>)
    requires Plain(call) && Holds(backend, calls, words, s)
    requires call.Use? ==> call.tls in Live(calls, words) && call.tls !in Stale(calls, words)
    ensures Holds(backend, calls + [call], words, Step(backend, s, Encode(call, words(|calls|))))
  {
    hide Step, Encode;
    var s' := Step(backend, s, Encode(call, words(|calls|)));
    var calls' := calls + [call];
    assert calls'[..|calls|] == calls;
    StepOfCall(backend, s, call, words(|calls|));
    assert s'.calls[..|calls|] == s.calls;
    assert call.Use? ==> TokenOf(backend, calls, words, call.tls, s.tls[call.tls]);
    assert s'.tls.Keys == Live(calls', words);
    forall t | t in s'.tls ensures TokenOf(backend, calls', words, t, s'.tls[t]) {
      if call.Fork? && t == call.child {
        ForkTokens(backend, calls, words, s, call.parent, call.child);
      } else {
        assert TokenOf(backend, calls, words, t, s.tls[t]);
        TokensKept(backend, calls, call, words, t, s.tls[t]);
      }
    }
  }

  lemma StaleUseDiffers<T>(backend: nat -> T, calls: seq<Call<nat>>, call: Call<nat>, words: nat -> nat, s: Decoder<T>)
    requires Injective(backend) && Plain(call) && Holds(backend, calls, words, s)
    requires call.Use? && (call.tls !in Live(calls, words) || call.tls in Stale(calls, words))
    ensures var s' := Step(backend, s, Encode(call, words(|calls|)));
            s'.crashed || !Reproduced(backend, calls + [call], s'.calls)
  {
    hide Step, Encode;
    var calls' := calls + [call];
    assert calls'[..|calls|] == calls;
    StepOfCall(backend, s, call, words(|calls|));
    if call.tls in s.tls {
      assert TokenOf(backend, calls, words, call.tls, s.tls[call.tls]);
    }
  }

  /** A replay that went wrong stays wrong. */
  lemma WrongStays<T>(backend: nat -> T, calls: seq<Call<nat>>, call: Call<nat>, words: nat -> nat, s: Decoder<T>)
    requires Plain(call) && (s.crashed || !Reproduced(backend, calls, s.calls))
    ensures var s' := Step(backend, s, Encode(call, words(|calls|)));
            s'.crashed || !Reproduced(backend, calls + [call], s'.calls)
  {
    hide Step, Encode;
    if s.crashed {
      CrashStays(backend, s, Encode(call, words(|calls|)));
    } else {
      var s' := Step(backend, s, Encode(call, words(|calls|)));
      var calls' := calls + [call];
      assert calls'[..|calls|] == calls;
      StepOfCall(backend, s, call, words(|calls|));
      if !s'.crashed && |s'.calls| == |calls'| {
        assert s'.calls[..|calls|] == s.calls;
      }
    }
  }

  lemma CrashStays<T>(backend: nat -> T, s: Decoder<T>, e: Entry)
    requires s.crashed
    ensures Step(backend, s, e) == s
  {
  }

  lemma {:induction false} ReplayHolds<T>(backend: nat -> T, calls: seq<Call<nat>>, words: nat -> nat)
    requires AllPlain(calls) && UsesFresh(calls, words)
    ensures Holds(backend, calls, words, Replay(backend, EncodeAll(calls, words)))
    decreases |calls|
  {
    hide Step, Encode;
    if calls != [] {
      var n := |calls| - 1;
      ReplayHolds(backend, calls[..n], words);
      assert EncodeAll(calls, words)[..n] == EncodeAll(calls[..n], words);
      assert calls == calls[..n] + [calls[n]];
      HoldsStep(backend, calls[..n], calls[n], words, Replay(backend, EncodeAll(calls[..n], words)));
    }
  }

  /** Where tokens tell forks apart: replaying a recorded trace reproduces the calls, each with
      the token of its thread's latest fork and without touching an absent slot, if and only
      if every call is made by a thread that is live and was not forked again while live. */
  lemma {:induction false} ReplayExact<T>(backend: nat -> T, calls: seq<Call<nat>>, words: nat -> nat)
    requires Injective(backend) && AllPlain(calls)
    ensures var s := Replay(backend, EncodeAll(calls, words));
            !s.crashed && Reproduced(backend, calls, s.calls) <==> UsesFresh(calls, words)
    decreases |calls|
  {
    hide Step, Encode;
    if UsesFresh(calls, words) {
      ReplayHolds(backend, calls, words);
    } else {
      var n := |calls| - 1;
      var before, call := calls[..n], calls[n];
      ReplayExact(backend, before, words);
      assert EncodeAll(calls, words)[..n] == EncodeAll(before, words);
      assert calls == before + [call];
      var s := Replay(backend, EncodeAll(before, words));
      if UsesFresh(before, words) {
        ReplayHolds(backend, before, words);
        StaleUseDiffers(backend, before, call, words, s);
      } else {
        WrongStays(backend, before, call, words, s);
      }
    }
  }

  /** A thread that finishes leaves the table exactly if the unset word behind the thread id is
      the thread itself; with the word zero, thread 0 is thrown out instead. */
  lemma FinishErases<T>(backend: nat -> T, s: Decoder<T>, thread: nat, word: nat)
    requires !s.crashed && thread in s.tls && thread < UINT
    ensures var s' := Step(backend, s, Encode(Use(thread, Finish(thread)), word));
            && (s'.tls == s.tls - {thread} <==> word == thread)
            && (0 in s.tls && word == 0 ==> forall action: Action :: !action.Finish? ==>
                  Step(backend, s', Encode(Use(0, action), word)).crashed)
  {
    StepOfCall(backend, s, Use(thread, Finish(thread)), word);
    assert word != thread ==> thread in s.tls - {word};
  }

  // ---------------------------------------------------------------- well-formed traces

  /** The threads that are forked and not yet joined. */
  function Forked(calls: seq<Call<nat>>): set<nat> {
    if calls == [] then {}
    else
      var before := Forked(calls[..|calls| - 1]);
      match calls[|calls| - 1]
      case Fork(_, child) => before + {child}
      case Join(_, child) => before - {child}
      case Use(_, _) => before
  }

  /** No finish, threads are forked before use, not forked again while live, and joined once
      per fork. */
  predicate WellFormed(calls: seq<Call<nat>>) {
    calls == [] ||
    var before, last := calls[..|calls| - 1], calls[|calls| - 1];
    && WellFormed(before)
    && match last
       case Use(t, action) => t in Forked(before) && !action.Finish?
       case Fork(_, child) => child !in Forked(before)
       case Join(_, child) => child in Forked(before)
  }

  lemma {:induction false} WellFormedFresh(calls: seq<Call<nat>>, words: nat -> nat)
    requires WellFormed(calls)
    ensures UsesFresh(calls, words) && Stale(calls, words) == {} && Live(calls, words) == Forked(calls)
    decreases |calls|
  {
    if calls != [] {
      WellFormedFresh(calls[..|calls| - 1], words);
    }
  }

  lemma ReplayLast<T>(backend: nat -> T, calls: seq<Call<nat>>, words: nat -> nat)
    requires calls != []
    ensures var n := |calls| - 1;
            Replay(backend, EncodeAll(calls, words)) ==
            Step(backend, Replay(backend, EncodeAll(calls[..n], words)), Encode(calls[n], words(n)))
  {
    hide Step, Encode;
    var n := |calls| - 1;
    assert EncodeAll(calls, words)[..n] == EncodeAll(calls[..n], words);
  }

  lemma WellFormedReplay<T>(backend: nat -> T, calls: seq<Call<nat>>, words: nat -> nat)
    requires AllPlain(calls) && WellFormed(calls)
    ensures var s := Replay(backend, EncodeAll(calls, words));
            && !s.crashed && s.tls.Keys == Forked(calls) && s.created == Forks(calls)
            && Reproduced(backend, calls, s.calls)
  {
    hide Replay, EncodeAll, Forks, Forked, Live, Reproduced, TokenOf;
    WellFormedFresh(calls, words);
    ReplayHolds(backend, calls, words);
  }

  lemma {:induction false} SlotsBalance<T>(backend: nat -> T, calls: seq<Call<nat>>, words: nat -> nat)
    requires AllPlain(calls) && WellFormed(calls)
    ensures var s := Replay(backend, EncodeAll(calls, words));
            s.freed == Joins(calls) && |s.tls| == Forks(calls) - Joins(calls)
    decreases |calls|
  {
    if calls == [] {
    } else {
      hide Step, Encode, Replay, EncodeAll, Forked, Reproduced;
      var before, call := calls[..|calls| - 1], calls[|calls| - 1];
      SlotsBalance(backend, before, words);
      WellFormedReplay(backend, before, words);
      ReplayLast(backend, calls, words);
      BalanceStep(backend, Replay(backend, EncodeAll(before, words)), call, words(|before|));
    }
  }

  lemma BalanceStep<T>(backend: nat -> T, s: Decoder<T>, call: Call<nat>, word: nat)
    requires Plain(call) && !s.crashed
    requires match call
             case Use(t, action) => t in s.tls && !action.Finish?
             case Fork(_, child) => child !in s.tls
             case Join(_, child) => child in s.tls
    ensures var s' := Step(backend, s, Encode(call, word));
            && |s'.tls| == |s.tls| + (if call.Fork? then 1 else if call.Join? then -1 else 0)
            && s'.freed == s.freed + (if call.Join? then 1 else 0)
  {
    hide Step, Encode;
    StepOfCall(backend, s, call, word);
    if call.Join? {
      assert (s.tls - {call.child}).Keys == s.tls.Keys - {call.child};
    }
  }

  /** A well-formed trace is reproduced call by call; no absent slot is dereferenced; and the
      slots in the table are the ones allocated and not freed: forks minus joins. */
  lemma ReplayReproduces<T>(backend: nat -> T, calls: seq<Call<nat>>, words: nat -> nat)
    requires AllPlain(calls) && WellFormed(calls)
    ensures var s := Replay(backend, EncodeAll(calls, words));
            && !s.crashed
            && Reproduced(backend, calls, s.calls)
            && |s.tls| == s.created - s.freed == Forks(calls) - Joins(calls)
  {
    hide Replay, EncodeAll, Forks, Joins, Reproduced;
    WellFormedReplay(backend, calls, words);
    SlotsBalance(backend, calls, words);
  }

  // ---------------------------------------------------------------- in place

  /** The recorder: a detector that writes down its calls. `file` is the trace. */
  class TraceBinary {
    const words: nat -> nat
    var file: seq<Entry>

    /** `words(i)` is what stands behind the thread id of entry i. */
    constructor (words: nat -> nat)
      ensures file == [] && this.words == words
    {
      this.words := words;
      file := [];
    }

    /** Under the I/O lock. */
    method WriteLogSync(event: Entry)
      modifies this
      ensures file == old(file) + [event]
    {
      file := file + [event];
    }

    /** Any call of a thread: the entry has the fields of the call. */
    method Use(tls: nat, action: Action)
      modifies this
      ensures file == old(file) + [Encode(Call.Use(tls, action), words(|old(file)|))]
    {
      var thread := tls % UINT;
      match action {
        case FuncEnter(pc) => WriteLogSync(FUNCENTER(thread, pc));
        case FuncExit => WriteLogSync(FUNCEXIT(thread));
        case Acquire(mutex, recursive, write) => WriteLogSync(ACQUIRE(thread, mutex, recursive, write));
        case Release(mutex, write) => WriteLogSync(RELEASE(thread, mutex, write));
        case HappensBefore(id) => WriteLogSync(HAPPENSBEFORE(thread, id));
        case HappensAfter(id) => WriteLogSync(HAPPENSAFTER(thread, id));
        case Read(pc, addr, size) => WriteLogSync(MEMREAD(thread, pc, addr, size));
        case Write(pc, addr, size) => WriteLogSync(MEMWRITE(thread, pc, addr, size));
        case Allocate(pc, addr, size) => WriteLogSync(ALLOCATION(thread, pc, addr, size));
        case Deallocate(addr) => WriteLogSync(FREE(thread, addr));
        case Detach(_) => WriteLogSync(DETACH(thread));
        case Finish(_) => WriteLogSync(FINISH(thread, words(|file|)));
      }
    }

    method Fork(parent: nat, child: nat) returns (tls: nat)
      modifies this
      ensures tls == child
      ensures file == old(file) + [Encode(Call.Fork(parent, child), words(|old(file)|))]
    {
      tls := child;
      WriteLogSync(FORK(parent % UINT, child % UINT));
    }

    method Join(parent: nat, child: nat)
      modifies this
      ensures file == old(file) + [Encode(Call.Join(parent, child), words(|old(file)|))]
    {
      WriteLogSync(JOIN(parent % UINT, child % UINT));
    }

    /** Any sequence of calls: the file is their encoding. */
    method RecordAll(calls: seq<Call<nat>>)
      requires file == []
      modifies this
      ensures file == EncodeAll(calls, words)
    {
      for i := 0 to |calls|
        invariant file == EncodeAll(calls[..i], words)
      {
        assert calls[..i + 1][..i] == calls[..i];
        assert EncodeAll(calls[..i + 1], words) == EncodeAll(calls[..i], words) + [Encode(calls[i], words(i))];
        match calls[i] {
          case Use(tls, action) => Use(tls, action);
          case Fork(parent, child) => var _ := Fork(parent, child);
          case Join(parent, child) => Join(parent, child);
        }
      }
      assert calls[..|calls|] == calls;
    }
  }

  /** The decoder, driving a detector; `calls` is what the detector got. */
  class DetectorOutput<T> {
    const backend: nat -> T
    var tls: map<nat, T>
    var created: nat
    var freed: nat
    var calls: seq<Call<T>>
    var crashed: bool

    ghost function State(): Decoder<T>
      reads this
    {
      Decoder(tls, created, freed, calls, crashed)
    }

    constructor (backend: nat -> T)
      ensures State() == Start() && this.backend == backend
    {
      this.backend := backend;
      tls, created, freed, calls, crashed := map[], 0, 0, [], false;
    }

    /** A slot for the thread, unless it has one; the token is stored in the new slot. */
    method Fork(parent: nat, child: nat)
      requires !crashed
      modifies this
      ensures State() == Step(backend, old(State()), FORK(parent, child))
    {
      var token := backend(created);
      created := created + 1;
      if child !in tls {
        tls := tls[child := token];
      }
      calls := calls + [Call.Fork(parent, child)];
    }

    method Dispatch(thread: nat, action: Action)
      requires !crashed
      modifies this
      ensures State() == UseSlot(old(State()), thread, action)
    {
      if thread in tls {
        calls := calls + [Use(tls[thread], action)];
      } else {
        crashed := true;
      }
    }

    method Release(thread: nat)
      requires !crashed
      modifies this
      ensures State() == Erase(old(State()), thread)
    {
      if thread in tls {
        tls := tls - {thread};
        freed := freed + 1;
      }
    }

    method MakeOutput(buf: Entry)
      requires !crashed
      modifies this
      ensures State() == Step(backend, old(State()), buf)
    {
      match buf {
        case FUNCENTER(t, pc) => Dispatch(t, FuncEnter(pc));
        case FUNCEXIT(t) => Dispatch(t, FuncExit);
        case MEMREAD(t, pc, addr, size) => Dispatch(t, Read(pc, addr, size));
        case MEMWRITE(t, pc, addr, size) => Dispatch(t, Write(pc, addr, size));
        case ACQUIRE(t, addr, recursive, write) => Dispatch(t, Acquire(addr, recursive, write));
        case RELEASE(t, addr, write) => Dispatch(t, Action.Release(addr, write));
        case HAPPENSBEFORE(t, id) => Dispatch(t, HappensBefore(id));
        case HAPPENSAFTER(t, id) => Dispatch(t, HappensAfter(id));
        case ALLOCATION(t, pc, addr, size) => Dispatch(t, Allocate(pc, addr, size));
        case FREE(t, addr) => Dispatch(t, Deallocate(addr));
        case DETACH(t) => Dispatch(t, Detach(t));
        case FORK(parent, child) => Fork(parent, child);
        case JOIN(parent, child) =>
          calls := calls + [Join(parent, child)];
          Release(child);
        case FINISH(t, word) =>
          Dispatch(t, Finish(t));
          if !crashed {
            Release(word);
          }
      }
    }

    /** A whole trace, up to the point where the decoder is ended by an absent slot. */
    method Decode(trace: seq<Entry>)
      requires State() == Start()
      modifies this
      ensures State() == Replay(backend, trace)
    {
      var i := 0;
      while i < |trace| && !crashed
        invariant 0 <= i <= |trace|
        invariant State() == Replay(backend, trace[..i])
      {
        MakeOutput(trace[i]);
        assert trace[..i + 1][..i] == trace[..i];
        i := i + 1;
      }
      assert trace[..|trace|] == trace;
      if crashed {
        CrashedPrefix(backend, trace, i);
      }
    }
  }

  lemma {:induction false} CrashedPrefix<T>(backend: nat -> T, trace: seq<Entry>, n: nat)
    requires n <= |trace| && Replay(backend, trace[..n]).crashed
    ensures Replay(backend, trace) == Replay(backend, trace[..n])
    decreases |trace|
  {
    if n == |trace| {
      assert trace[..n] == trace;
    } else {
      var before := trace[..|trace| - 1];
      assert before[..n] == trace[..n];
      CrashedPrefix(backend, before, n);
    }
  }

  /** Recording into a file and decoding the file: the detector behind the decoder gets the
      calls of a well-formed run. */
  method RoundTrip<T>(backend: nat -> T, calls: seq<Call<nat>>, words: nat -> nat) returns (replayed: seq<Call<T>>)
    requires AllPlain(calls) && WellFormed(calls)
    ensures Reproduced(backend, calls, replayed)
  {
    var recorder := new TraceBinary(words);
    recorder.RecordAll(calls);
    var decoder := new DetectorOutput(backend);
    decoder.Decode(recorder.file);
    ReplayReproduces(backend, calls, words);
    replayed := decoder.calls;
  }
}
