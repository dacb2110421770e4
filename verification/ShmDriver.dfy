/** The mailbox in place: the shared memory with its two auto-reset events, the driver on top
    of it, and the two sides' operations, tied to the steps of the protocol through any number
    of heartbeat rounds. */
module ShmDriver {
  import opened Wrappers
  import opened MsrProtocol

  /** The shared region and the two events. The creator signals `eventIn` and waits for
      `eventOut`; the one who attaches, the other way round. */
  class SharedMemory {
    var id: MsgId
    var buffer: Payload
    var eventIn: bool
    var eventOut: bool

    constructor (id: MsgId, buffer: Payload)
      ensures this.id == id && this.buffer == buffer && !eventIn && !eventOut
    {
      this.id, this.buffer, eventIn, eventOut := id, buffer, false, false;
    }

    /** The mailbox of a protocol state; the server is the creator. */
    ghost predicate Shows(s: State)
      reads this
    {
      id == s.id && buffer == s.buf && eventIn == s.toClient && eventOut == s.toServer
    }

    method Notify(creator: bool)
      modifies `eventIn, `eventOut
      ensures eventIn == (old(eventIn) || creator) && eventOut == (old(eventOut) || !creator)
    {
      if creator {
        eventIn := true;
      } else {
        eventOut := true;
      }
    }

    /** Consumes the signal; false stands for a timeout. */
    method Wait(creator: bool) returns (fired: bool)
      modifies `eventIn, `eventOut
      ensures fired == if creator then old(eventOut) else old(eventIn)
      ensures eventIn == (old(eventIn) && creator) && eventOut == (old(eventOut) && !creator)
    {
      if creator {
        fired := eventOut;
        eventOut := false;
      } else {
        fired := eventIn;
        eventIn := false;
      }
    }
  }

  /** One side's access to the mailbox. */
  class SyncShmDriver {
    const shm: SharedMemory
    const creator: bool

    constructor (shm: SharedMemory, creator: bool)
      ensures this.shm == shm && this.creator == creator
    {
      this.shm, this.creator := shm, creator;
    }

    method SetId(mid: MsgId)
      modifies shm`id
      ensures shm.id == mid
    {
      shm.id := mid;
    }

    method Emplace(mid: MsgId, value: Payload)
      modifies shm`id, shm`buffer
      ensures shm.id == mid && shm.buffer == value
    {
      shm.id := mid;
      shm.buffer := value;
    }

    method Commit()
      modifies shm`eventIn, shm`eventOut
      ensures shm.eventIn == (old(shm.eventIn) || creator) && shm.eventOut == (old(shm.eventOut) || !creator)
    {
      shm.Notify(creator);
    }

    method WaitReceive() returns (fired: bool)
      modifies shm`eventIn, shm`eventOut
      ensures fired == if creator then old(shm.eventOut) else old(shm.eventIn)
      ensures shm.eventIn == (old(shm.eventIn) && creator) && shm.eventOut == (old(shm.eventOut) && !creator)
    {
      fired := shm.Wait(creator);
    }
  }

  // ---------------------------------------------------------------- the client

  class Msr {
    const driver: SyncShmDriver

    ghost predicate Valid() {
      !driver.creator
    }

    constructor (driver: SyncShmDriver)
      requires !driver.creator
      ensures Valid() && this.driver == driver
    {
      this.driver := driver;
    }

    /** Writes the message and hands the mailbox over. */
    method Send(x: Exchange)
      requires Valid()
      modifies driver.shm
      ensures driver.shm.id == MessageId(x)
      ensures driver.shm.buffer == if x.Connect? then old(driver.shm.buffer) else Message(x)
      ensures driver.shm.eventOut && driver.shm.eventIn == old(driver.shm.eventIn)
    {
      if x.Connect? {
        driver.SetId(MessageId(x));
      } else {
        driver.Emplace(MessageId(x), Message(x));
      }
      driver.Commit();
    }

    /** One round of the loop: a WAIT is confirmed, anything else ends the loop. */
    method Beat() returns (again: bool)
      requires Valid()
      modifies driver.shm`id, driver.shm`eventIn, driver.shm`eventOut
      ensures again == (old(driver.shm.eventIn) && old(driver.shm.id) == WAIT)
      ensures driver.shm.id == if again then CONFIRM else old(driver.shm.id)
      ensures !driver.shm.eventIn && driver.shm.eventOut == (again || old(driver.shm.eventOut))
    {
      var fired := driver.WaitReceive();
      again := fired && driver.shm.id == WAIT;
      if again {
        driver.SetId(CONFIRM);
        driver.Commit();
      }
    }

    /** Confirms every WAIT. The server posts `posts[k]` before the k-th wait; the payload stays
        as it is, and the loop ends at the first post that is not a WAIT or when none comes. */
    method WaitHeartBeat(posts: seq<MsgId>) returns (confirms: nat)
      requires Valid() && !driver.shm.eventIn
      modifies driver.shm`id, driver.shm`eventIn, driver.shm`eventOut
      ensures confirms <= |posts| && (forall k :: 0 <= k < confirms ==> posts[k] == WAIT)
      ensures confirms < |posts| ==> posts[confirms] != WAIT && driver.shm.id == posts[confirms]
      ensures confirms < |posts| ==> !driver.shm.eventOut
      ensures confirms == |posts| > 0 ==> driver.shm.id == CONFIRM && driver.shm.eventOut
      ensures !driver.shm.eventIn
    {
      confirms := 0;
      while confirms < |posts|
        invariant confirms <= |posts| && !driver.shm.eventIn
        invariant forall k :: 0 <= k < confirms ==> posts[k] == WAIT
        invariant confirms > 0 ==> driver.shm.id == CONFIRM && driver.shm.eventOut
      {
        // the server's turn: it consumes the signal, posts and signals back
        driver.shm.eventOut := false;
        driver.shm.id := posts[confirms];
        driver.shm.eventIn := true;
        var again := Beat();
        if !again {
          return;
        }
        confirms := confirms + 1;
      }
    }

    /** The reply as the caller of a request reads it; None stands for a timeout. */
    method Receive(c: Call) returns (r: Option<Reply>)
      requires Valid()
      modifies driver.shm`eventIn, driver.shm`eventOut
      ensures r == if old(driver.shm.eventIn) then Some(ReadReply(c, driver.shm.id, driver.shm.buffer)) else None
      ensures !driver.shm.eventIn && driver.shm.eventOut == old(driver.shm.eventOut)
    {
      var fired := driver.WaitReceive();
      r := if fired then Some(ReadReply(c, driver.shm.id, driver.shm.buffer)) else None;
    }
  }

  // ---------------------------------------------------------------- turns of the protocol

  /** The server from one stop to the next: `n` of its steps. */
  function ServerSteps(s: State, o: Outcome, n: nat): State {
    if n == 0 then s else ServerMove(ServerSteps(s, o, n - 1), o)
  }

  /** One heartbeat: the work is not ready, the server posts WAIT, the client confirms. */
  function Round(who: Action, o: Outcome): seq<Action> {
    var late := ServerStep(o.(ready := false));
    [late, late, who, who, who, who, late, late]
  }

  function AfterRounds(s: State, who: Action, o: Outcome, n: nat): State {
    if n == 0 then s else Run(AfterRounds(s, who, o, n - 1), Round(who, o))
  }

  /** Whether the server does asynchronous work for the message in the mailbox. */
  predicate Works(id: MsgId, buf: Payload) {
    id == LOADSYMS || (id == ATTACH && KnownRuntime(buf))
  }

  /** The protocol after a turn of the server: it receives and dispatches the message, beats n
      times while the work is not ready, and answers. `who` is the client's step. */
  function TurnState(s: State, who: Action, o: Outcome, n: nat): State {
    var s2 := ServerSteps(s, o, 2);
    ServerSteps(if Works(s.id, s.buf) then AfterRounds(s2, who, o, n) else s2, o.(ready := true), 3)
  }

  /** The program counter of the client that takes the steps `who`. */
  predicate Waits(s: State, who: Action, x: Exchange) {
    || (who.BootStep? && s.boot == Wait(x))
    || (who.ThreadStep? && who.t < |s.threads| && s.threads[who.t] == Wait(x) && x.Ask?)
  }

  /** A heartbeat round gives the mailbox back to the server with the payload as it was; only
      the id says CONFIRM. */
  lemma RoundBeats(s: State, who: Action, o: Outcome, x: Exchange)
    requires s.server.Busy? && Quiet(s) && Waits(s, who, x) && HasHeartbeat(x)
    ensures Run(s, Round(who, o)) == s.(id := CONFIRM)
  {
    hide Perform, Run;
    var late, j := ServerStep(o.(ready := false)), s.server.j;
    var s1 := s.(id := WAIT, toClient := true, server := BeatWait(j));
    ServerWaits(s, o);
    ClientBeats(s1, who, x);
    ServerResumes(s.(id := CONFIRM, toServer := true, server := BeatWait(j)), o);
    RunRound(s, who, o);
  }

  lemma RunRound(s: State, who: Action, o: Outcome)
    ensures var late := ServerStep(o.(ready := false));
            Run(s, Round(who, o)) ==
            var s6 := Perform(Perform(Perform(Perform(Perform(Perform(s, late), late), who), who), who), who);
            Perform(Perform(s6, late), late)
  {
    hide Perform, Run;
    var late := ServerStep(o.(ready := false));
    var acts, cur := [], s;
    assert cur == Run(s, acts) by { NoActions(s); }
    acts, cur := Go(s, acts, cur, late);
    acts, cur := Go(s, acts, cur, late);
    acts, cur := Go(s, acts, cur, who);
    acts, cur := Go(s, acts, cur, who);
    acts, cur := Go(s, acts, cur, who);
    acts, cur := Go(s, acts, cur, who);
    acts, cur := Go(s, acts, cur, late);
    acts, cur := Go(s, acts, cur, late);
    assert acts == Round(who, o);
  }

  lemma ServerWaits(s: State, o: Outcome)
    requires s.server.Busy? && Quiet(s)
    ensures var late := ServerStep(o.(ready := false));
            Perform(Perform(s, late), late) == s.(id := WAIT, toClient := true, server := BeatWait(s.server.j))
  {
  }

  lemma ServerResumes(s: State, o: Outcome)
    requires s.server.BeatWait? && s.toServer && s.id == CONFIRM
    ensures var late := ServerStep(o.(ready := false));
            Perform(Perform(s, late), late) == s.(toServer := false, server := Busy(s.server.j))
  {
  }

  lemma ClientBeats(s: State, who: Action, x: Exchange)
    requires s.id == WAIT && s.toClient && !s.toServer && Waits(s, who, x) && HasHeartbeat(x)
    ensures Perform(Perform(Perform(Perform(s, who), who), who), who) ==
            s.(id := CONFIRM, toClient := false, toServer := true)
  {
    if who.BootStep? {
      BootBeats(s, x);
    } else {
      ThreadBeats(s, who.t, x);
    }
  }

  lemma BootBeats(s: State, x: Exchange)
    requires s.id == WAIT && s.toClient && !s.toServer && s.boot == Wait(x) && HasHeartbeat(x)
    ensures Perform(Perform(Perform(Perform(s, BootStep), BootStep), BootStep), BootStep) ==
            s.(id := CONFIRM, toClient := false, toServer := true)
  {
    var s1 := Perform(s, BootStep);
    assert s1 == s.(toClient := false, boot := Check(x));
    var s2 := Perform(s1, BootStep);
    assert s2 == s1.(boot := AckId(x));
    var s3 := Perform(s2, BootStep);
    assert s3 == s1.(id := CONFIRM, boot := AckCommit(x));
  }

  lemma ThreadBeats(s: State, t: nat, x: Exchange)
    requires s.id == WAIT && s.toClient && !s.toServer && HasHeartbeat(x)
    requires t < |s.threads| && s.threads[t] == Wait(x) && x.Ask?
    ensures var who := ThreadStep(t);
            Perform(Perform(Perform(Perform(s, who), who), who), who) ==
            s.(id := CONFIRM, toClient := false, toServer := true)
  {
    var who := ThreadStep(t);
    var s1 := Perform(s, who);
    assert s1 == s.(toClient := false, threads := s.threads[t := Check(x)]);
    var s2 := Perform(s1, who);
    assert s2 == s1.(threads := s.threads[t := AckId(x)]);
    var s3 := Perform(s2, who);
    assert s3 == s1.(id := CONFIRM, threads := s.threads[t := AckCommit(x)]);
    var s4 := Perform(s3, who);
    assert s4 == s3.(toServer := true, threads := s.threads[t := Wait(x)]);
    assert s.threads[t := Wait(x)] == s.threads;
  }

  lemma {:induction false} RoundsBeat(s: State, who: Action, o: Outcome, x: Exchange, n: nat)
    requires s.server.Busy? && Quiet(s) && Waits(s, who, x) && HasHeartbeat(x)
    ensures AfterRounds(s, who, o, n) == if n == 0 then s else s.(id := CONFIRM)
  {
    if n > 0 {
      RoundsBeat(s, who, o, x, n - 1);
      RoundBeats(AfterRounds(s, who, o, n - 1), who, o, x);
    }
  }

  /** The answer to a message after n heartbeats: id and payload, whether the client is signalled,
      and whether the server goes on. */
  function Answer(id: MsgId, buf: Payload, o: Outcome, n: nat): (MsgId, Payload, bool, bool) {
    match id
    case CONNECT => (CONFIRM, buf, true, true)
    case ATTACH =>
      if !KnownRuntime(buf) then (EXIT, buf, true, true)
      else if o.ok then (ATTACHED, buf, true, true)
      else (if n == 0 then id else CONFIRM, buf, false, false)
    case IP => (IP, Sym(o.res.symbol(AsPc(buf))), true, true)
    case LOADSYMS => (CONFIRM, buf, true, true)
    case UNLOADSYMS => (CONFIRM, buf, true, true)
    case SEARCHSYMS =>
      (match Hits(buf, o.res)
       case None => (id, buf, false, true)
       case Some(h) => if |h| <= MAX_MATCHES then (SEARCHSYMS, Found(h), true, true) else (id, buf, false, false))
    case CONFIRM => (id, buf, false, true)
    case _ => (id, buf, false, false)
  }

  /** The process the server is attached to afterwards, or tried to attach to. */
  function ProcessAfter(id: MsgId, buf: Payload, process: Option<int>): Option<int> {
    if id == ATTACH then Some(AsPid(buf)) else process
  }

  /** What it asks of the libraries meanwhile. */
  function Doing(id: MsgId, buf: Payload): seq<Effect> {
    if id in [IP, LOADSYMS, UNLOADSYMS, SEARCHSYMS] then [Does(id, buf)] else []
  }

  /** The turn of the protocol gives that answer, for every number of heartbeats. */
  lemma TurnAnswers(s: State, who: Action, o: Outcome, n: nat, x: Exchange)
    requires s.server == Listen && s.toServer && !s.toClient
    requires Works(s.id, s.buf) ==> Waits(s, who, x) && HasHeartbeat(x)
    ensures var t := TurnState(s, who, o, n);
            && !t.toServer && t.process == ProcessAfter(s.id, s.buf, s.process)
            && (t.id, t.buf, t.toClient, t.server == Listen) == Answer(s.id, s.buf, o, n)
            && (t.server == Listen || t.server == Stopped)
  {
    hide KnownRuntime, AfterRounds, Hits, AsPc, AsPid, ServerMove;
    Dispatches(s, o);
    var s2 := ServerSteps(s, o, 2);
    if Works(s.id, s.buf) {
      RoundsBeat(s2, who, o, x, n);
      Answers(AfterRounds(s2, who, o, n), o.(ready := true));
    } else {
      Answers(s2, o.(ready := true));
    }
  }

  /** The first two steps. */
  lemma Dispatches(s: State, o: Outcome)
    requires s.server == Listen && s.toServer
    ensures var s2 := ServerSteps(s, o, 2);
            && s2 == s.(toServer := false, id := s2.id, server := s2.server, process := s2.process)
            && s2.process == ProcessAfter(s.id, s.buf, s.process)
            && (Works(s.id, s.buf) ==>
                  s2.id == s.id && s2.server == Busy(if s.id == LOADSYMS then Loading else Attaching))
            && (!Works(s.id, s.buf) ==>
                  match s.id
                  case CONNECT => s2.id == CONFIRM && s2.server == Post
                  case ATTACH => s2.id == EXIT && s2.server == Post
                  case IP => s2.id == IP && s2.server == Handle(Resolving)
                  case UNLOADSYMS => s2.id == UNLOADSYMS && s2.server == Handle(Unloading)
                  case SEARCHSYMS => s2.id == SEARCHSYMS && s2.server == Handle(Searching)
                  case CONFIRM => s2.id == CONFIRM && s2.server == Listen
                  case _ => s2.id == s.id && s2.server == Stopped)
  {
    hide FileName;
    assert ServerSteps(s, o, 0) == s;
    assert ServerSteps(s, o, 1) == s.(toServer := false, server := Dispatch);
  }

  /** The last three. */
  lemma Answers(s: State, o: Outcome)
    requires o.ready && Quiet(s)
    requires s.server != Start && s.server != Dispatch && !s.server.Fill?
    requires !s.server.BeatCommit? && !s.server.BeatWait? && !s.server.BeatCheck?
    requires s.server.Busy? ==> s.server.j == Loading || s.server.j == Attaching
    requires s.server.Handle? ==> s.server.j in [Resolving, Unloading, Searching]
    ensures var t := ServerSteps(s, o, 3);
            && !t.toServer && (t.server == Listen || t.server == Stopped) && t.process == s.process
            && (match s.server
                case Post => t.id == s.id && t.buf == s.buf && t.toClient && t.server == Listen
                case Busy(Loading) => t.id == CONFIRM && t.buf == s.buf && t.toClient && t.server == Listen
                case Busy(_) =>
                  && t.id == (if o.ok then ATTACHED else s.id) && t.buf == s.buf
                  && t.toClient == o.ok && (t.server == Listen <==> o.ok)
                case Handle(Resolving) =>
                  t.id == IP && t.buf == Sym(o.res.symbol(AsPc(s.buf))) && t.toClient && t.server == Listen
                case Handle(Searching) =>
                  (match Hits(s.buf, o.res)
                   case Some(h) =>
                     if |h| <= MAX_MATCHES
                     then t.id == SEARCHSYMS && t.buf == Found(h) && t.toClient && t.server == Listen
                     else t.id == s.id && t.buf == s.buf && !t.toClient && t.server == Stopped
                   case None => t.id == s.id && t.buf == s.buf && !t.toClient && t.server == Listen)
                case Handle(_) => t.id == CONFIRM && t.buf == s.buf && t.toClient && t.server == Listen
                case _ => t.id == s.id && t.buf == s.buf && !t.toClient && t.server == s.server)
  {
    hide FileName;
    assert ServerSteps(s, o, 0) == s;
    var s1 := ServerMove(s, o);
    assert ServerSteps(s, o, 1) == s1;
    var s2 := ServerMove(s1, o);
    assert ServerSteps(s, o, 2) == s2;
    assert ServerSteps(s, o, 3) == ServerMove(s2, o);
  }

  // ---------------------------------------------------------------- the server

  /** In every heartbeat the client confirms before the server's wait ends. */
  predicate AllInTime(inTime: seq<bool>) {
    forall k :: 0 <= k < |inTime| ==> inTime[k]
  }

  class ProtocolHandler {
    const driver: SyncShmDriver
    var keepRunning: bool
    var process: Option<int>
    var did: seq<Effect>  // what was asked of the libraries

    ghost predicate Valid() {
      driver.creator
    }

    ghost predicate Talks(peer: Msr) {
      driver.creator && peer.Valid() && peer.driver.shm == driver.shm
    }

    ghost predicate Untouched(id: MsgId, buffer: Payload, eventIn: bool)
      reads driver.shm
    {
      driver.shm.id == id && driver.shm.buffer == buffer && driver.shm.eventIn == eventIn
    }

    /** The server begins by offering the connection. */
    constructor (driver: SyncShmDriver, ghost s: State, ghost o: Outcome)
      requires driver.creator && driver.shm.Shows(s) && s.server == Start
      modifies driver.shm
      ensures Valid() && this.driver == driver && keepRunning && process == None && did == []
      ensures driver.shm.Shows(ServerSteps(s, o, 2))
    {
      this.driver, keepRunning, process, did := driver, true, None, [];
      new;
      driver.SetId(READY);
      driver.Commit();
      assert ServerSteps(s, o, 1) == ServerMove(ServerSteps(s, o, 0), o);
    }

    method Confirm()
      requires Valid()
      modifies driver.shm
      ensures driver.shm.id == CONFIRM && driver.shm.buffer == old(driver.shm.buffer)
      ensures driver.shm.eventIn && driver.shm.eventOut == old(driver.shm.eventOut)
    {
      driver.SetId(CONFIRM);
      driver.Commit();
    }

    /** The symbol of the address in the mailbox takes its place. */
    method ResolveIP(res: Resolver)
      requires Valid()
      modifies `did, driver.shm
      ensures did == old(did) + [Looked(AsPc(old(driver.shm.buffer)))]
      ensures driver.shm.id == IP && driver.shm.buffer == Sym(res.symbol(AsPc(old(driver.shm.buffer))))
      ensures driver.shm.eventIn && driver.shm.eventOut == old(driver.shm.eventOut)
    {
      var ip := AsPc(driver.shm.buffer);
      did := did + [Looked(ip)];
      driver.Emplace(IP, Sym(res.symbol(ip)));
      driver.Commit();
    }

    method UnloadSymbols()
      requires Valid()
      modifies `did, driver.shm
      ensures did == old(did) + [Unloaded(AsRequest(old(driver.shm.buffer)).base)]
      ensures driver.shm.id == CONFIRM && driver.shm.buffer == old(driver.shm.buffer)
      ensures driver.shm.eventIn && driver.shm.eventOut == old(driver.shm.eventOut)
    {
      did := did + [Unloaded(AsRequest(driver.shm.buffer).base)];
      Confirm();
    }

    /** The loop that keeps the client waiting while the work is polled without success |inTime|
        times. In round k the client is scheduled before the server's wait of 2 s ends, or not.
        The server gives up exactly if it is not, and the payload is not touched. */
    method WaitHeartbeat(peer: Msr, inTime: seq<bool>)
      requires Talks(peer) && !driver.shm.eventIn && !driver.shm.eventOut
      modifies `keepRunning, driver.shm
      ensures keepRunning == (old(keepRunning) && AllInTime(inTime))
      ensures driver.shm.buffer == old(driver.shm.buffer) && !driver.shm.eventOut
      ensures AllInTime(inTime) ==> driver.shm.id == (if inTime == [] then old(driver.shm.id) else CONFIRM)
      ensures driver.shm.eventIn == !AllInTime(inTime)
      ensures !AllInTime(inTime) ==> driver.shm.id == WAIT
    {
      var k := 0;
      while k < |inTime|
        invariant k <= |inTime| && keepRunning == old(keepRunning)
        invariant AllInTime(inTime[..k]) && !driver.shm.eventIn && !driver.shm.eventOut
        invariant driver.shm.id == if k == 0 then old(driver.shm.id) else CONFIRM
        invariant driver.shm.buffer == old(driver.shm.buffer)
      {
        driver.SetId(WAIT);
        driver.Commit();
        if inTime[k] {
          var _ := peer.Beat();
        }
        var fired := driver.WaitReceive();
        if !fired || driver.shm.id != CONFIRM {
          keepRunning := false;
          return;
        }
        k := k + 1;
      }
      assert inTime[..k] == inTime;
    }

    /** The client is told that the symbols are loaded, also where a heartbeat failed. */
    method LoadSymbols(peer: Msr, inTime: seq<bool>)
      requires Talks(peer) && !driver.shm.eventIn && !driver.shm.eventOut
      modifies `keepRunning, `did, driver.shm
      ensures keepRunning == (old(keepRunning) && AllInTime(inTime))
      ensures var r := AsRequest(old(driver.shm.buffer)); did == old(did) + [Loaded(r.base, r.size, r.path)]
      ensures driver.shm.id == CONFIRM && driver.shm.buffer == old(driver.shm.buffer)
      ensures driver.shm.eventIn && !driver.shm.eventOut
    {
      var r := AsRequest(driver.shm.buffer);
      did := did + [Loaded(r.base, r.size, r.path)];
      WaitHeartbeat(peer, inTime);
      Confirm();
    }

    /** The resolver is attached only to a process of a known runtime. */
    method AttachProcess(resolverOk: bool, peer: Msr, inTime: seq<bool>)
      requires Talks(peer) && !driver.shm.eventIn && !driver.shm.eventOut
      modifies `keepRunning, `process, driver.shm
      ensures process == Some(AsPid(old(driver.shm.buffer)))
      ensures driver.shm.buffer == old(driver.shm.buffer) && !driver.shm.eventOut
      ensures !KnownRuntime(old(driver.shm.buffer)) ==>
                driver.shm.id == EXIT && driver.shm.eventIn && keepRunning == old(keepRunning)
      ensures KnownRuntime(old(driver.shm.buffer)) ==>
                && keepRunning == (old(keepRunning) && AllInTime(inTime) && resolverOk)
                && (resolverOk ==> driver.shm.id == ATTACHED && driver.shm.eventIn)
                && (!resolverOk && AllInTime(inTime) ==>
                      !driver.shm.eventIn && driver.shm.id == if inTime == [] then old(driver.shm.id) else CONFIRM)
                && (!resolverOk && !AllInTime(inTime) ==> driver.shm.eventIn && driver.shm.id == WAIT)
    {
      process := Some(AsPid(driver.shm.buffer));
      if !KnownRuntime(driver.shm.buffer) {
        driver.SetId(EXIT);
        driver.Commit();
        return;
      }
      WaitHeartbeat(peer, inTime);
      if resolverOk {
        driver.SetId(ATTACHED);
        driver.Commit();
      } else {
        keepRunning := false;
      }
    }

    /** A failed search touches nothing and signals nobody. False where the copy would leave
        the array of the response. */
    method SearchSymbols(res: Resolver) returns (ok: bool)
      requires Valid()
      modifies `did, driver.shm
      ensures var r := AsRequest(old(driver.shm.buffer));
              && did == old(did) + [Searched(r.base, r.pattern, r.full)]
              && (match res.matches(r.base, r.pattern, r.full)
                  case None => ok && Untouched(old(driver.shm.id), old(driver.shm.buffer), old(driver.shm.eventIn))
                  case Some(h) =>
                    && (ok <==> |h| <= MAX_MATCHES)
                    && (ok ==> driver.shm.id == SEARCHSYMS && driver.shm.buffer == Found(h) && driver.shm.eventIn)
                    && (!ok ==> Untouched(old(driver.shm.id), old(driver.shm.buffer), old(driver.shm.eventIn))))
      ensures driver.shm.eventOut == old(driver.shm.eventOut)
    {
      var r := AsRequest(driver.shm.buffer);
      did := did + [Searched(r.base, r.pattern, r.full)];
      var hits := res.matches(r.base, r.pattern, r.full);
      if hits == None {
        return true;
      }
      var addrs := hits.value;
      var response := new nat[MAX_MATCHES];
      var size := if |addrs| < MAX_MATCHES then |addrs| else MAX_MATCHES;
      var end := if size <= MAX_MATCHES then |addrs| else MAX_MATCHES;
      var i := 0;
      while i < end
        invariant i <= end && i <= MAX_MATCHES
        modifies response
        invariant response[..i] == addrs[..i]
      {
        if i == MAX_MATCHES {
          return false;
        }
        response[i] := addrs[i];
        i := i + 1;
      }
      var found := response[..size];
      assert found == addrs;
      driver.Emplace(SEARCHSYMS, Found(found));
      driver.Commit();
      return true;
    }

    /** One turn of the dispatch loop. If every heartbeat is confirmed in time, mailbox, events and
        running state are those of the protocol's server after as many rounds. */
    method ProcessMsg(o: Outcome, peer: Msr, inTime: seq<bool>, ghost s: State, ghost who: Action, ghost x: Exchange)
      requires Talks(peer) && keepRunning
      requires driver.shm.Shows(s) && s.server == Listen && s.toServer && !s.toClient
      requires Works(s.id, s.buf) ==> Waits(s, who, x) && HasHeartbeat(x)
      modifies this, driver.shm
      ensures var t := TurnState(s, who, o, |inTime|);
              AllInTime(inTime) ==>
                && driver.shm.Shows(t) && (old(process) == s.process ==> process == t.process)
                && (keepRunning <==> t.server == Listen)
                && (t.server == Listen || t.server == Stopped)
      ensures process == ProcessAfter(s.id, s.buf, old(process)) && did == old(did) + Doing(s.id, s.buf)
      ensures var (id, buf, signalled, running) := Answer(s.id, s.buf, o, |inTime|);
              && (AllInTime(inTime) || running || !Works(s.id, s.buf) ==>
                    driver.shm.id == id && driver.shm.buffer == buf && driver.shm.eventIn == signalled)
              && (Works(s.id, s.buf) && !AllInTime(inTime) && !running ==>
                    driver.shm.id == WAIT && driver.shm.buffer == buf && driver.shm.eventIn)
              && (keepRunning <==> running && (Works(s.id, s.buf) ==> AllInTime(inTime)))
    {
      hide ServerMove, ServerSteps, TurnState, Run, FileName;
      TurnAnswers(s, who, o, |inTime|, x);
      var fired := driver.WaitReceive();
      var id := driver.shm.id;
      if id == LOADSYMS {
        LoadSymbols(peer, inTime);
      } else if id == ATTACH {
        AttachProcess(o.ok, peer, inTime);
      } else if id == CONNECT {
        Confirm();
      } else if id == UNLOADSYMS {
        UnloadSymbols();
      } else if id == IP {
        ResolveIP(o.res);
      } else if id == SEARCHSYMS {
        keepRunning := SearchSymbols(o.res);
      } else if id != CONFIRM {
        keepRunning := false;
      }
    }
  }

  // ---------------------------------------------------------------- there and back

  /** Read by the client, the answer of a turn is the reply meant for the call; a failed search
      signals nothing, which the client takes for the empty response once its wait ends. */
  lemma AnswerIsMeant(c: Call, o: Outcome, n: nat)
    ensures var (id, buf, signalled, running) := Answer(MessageId(Ask(c)), Message(Ask(c)), o, n);
            && (signalled <==> MeantReply(c, o.res).Some? && MeantReply(c, o.res) != Some(NoAnswer))
            && (signalled ==> MeantReply(c, o.res) == Some(ReadReply(c, id, buf)))
            && (running <==> MeantReply(c, o.res).Some?)
            && Doing(MessageId(Ask(c)), Message(Ask(c))) == [Wanted(c)]
            && (Works(MessageId(Ask(c)), Message(Ask(c))) <==> c.LoadSyms?)
  {
  }

  /** Both sides on one mailbox, after the connection. */
  method SetUp() returns (handler: ProtocolHandler, msr: Msr)
    ensures handler.Talks(msr) && handler.keepRunning && handler.did == [] && handler.process == None
    ensures fresh(handler) && fresh(handler.driver.shm)
    ensures !msr.driver.shm.eventIn && !msr.driver.shm.eventOut
  {
    hide ServerMove, ServerSteps;
    var shm := new SharedMemory(READY, Blank);
    var server := new SyncShmDriver(shm, true);
    handler := new ProtocolHandler(server, Init(1, 0, "", READY, Blank), DONE);
    var client := new SyncShmDriver(shm, false);
    msr := new Msr(client);
    shm.eventIn, shm.eventOut := false, false;
  }

  /** A request from the client through the mailbox to the handler and back, with any number of
      heartbeats, in time or not: the libraries are asked for just what the request says, and what
      they know of it comes back. Only a search that fails, or finds more than the response can
      hold, is left without an answer. The server goes on exactly if no heartbeat was late and the
      matches fit. */
  method RoundTrip(c: Call, o: Outcome, inTime: seq<bool>)
    returns (r: Option<Reply>, running: bool, did: seq<Effect>)
    ensures match c
            case LoadSyms(base, size, path) => r == Some(Confirmed) && did == [Loaded(base, size, path)]
            case UnloadSyms(base) => r == Some(Confirmed) && did == [Unloaded(base)]
            case Lookup(pc) => r == Some(Info(o.res.symbol(pc))) && did == [Looked(pc)]
            case Search(q) =>
              var found := o.res.matches(q.base, q.pattern, q.full);
              && r == (if found.Some? && |found.value| <= MAX_MATCHES then Some(Matches(found.value)) else None)
              && did == [Searched(q.base, q.pattern, q.full)]
    ensures running <==> (c.LoadSyms? ==> AllInTime(inTime)) && MeantReply(c, o.res).Some?
  {
    hide ServerMove, ServerSteps, TurnState, Answer, MessageId, Message, ReadReply, AllInTime, Works, Doing;
    var handler, msr := SetUp();
    var shm := msr.driver.shm;
    msr.Send(Ask(c));
    ghost var s := Init(1, 0, "", READY, Blank).(
      id := shm.id, buf := shm.buffer, toClient := false, toServer := true, server := Listen,
      threads := [Wait(Ask(c))]);
    AnswerIsMeant(c, o, |inTime|);
    handler.ProcessMsg(o, msr, inTime, s, ThreadStep(0), Ask(c));
    r := msr.Receive(c);
    running, did := handler.keepRunning, handler.did;
  }

  /** The same for attaching: whatever the heartbeats, in time or late, the client is told ATTACHED
      if and only if the runtime is known and the resolver initialised; the process tried is the
      client's. */
  method AttachTrip(pid: int, path: string, o: Outcome, inTime: seq<bool>)
    returns (attached: bool, process: Option<int>)
    ensures attached <==> FileName(path) in ["coreclr.dll", "clr.dll"] && o.ok
    ensures process == Some(pid)
  {
    hide ServerMove, ServerSteps, TurnState, FileName;
    var handler, msr := SetUp();
    var shm := msr.driver.shm;
    ghost var x := Attach(pid, path);
    msr.Send(Attach(pid, path));
    ghost var s := Init(1, pid, path, READY, Blank).(
      id := shm.id, buf := shm.buffer, toClient := false, toServer := true, server := Listen, boot := Wait(x));
    handler.ProcessMsg(o, msr, inTime, s, BootStep, x);
    var fired := msr.driver.WaitReceive();
    attached, process := fired && shm.id == ATTACHED, handler.process;
  }
}
