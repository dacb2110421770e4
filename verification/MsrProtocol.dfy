/** The protocol between the client and the symbol resolver (MSR): one mailbox in shared
    memory and two auto-reset events, used by a booting client, then by any number of
    client threads under a mutex, and by the server's dispatch loop. A transition system
    over single accesses; every sequence of actions is a run. Of the waits only the one for a
    search ends by itself, and only when nothing is on the way to it. */
module MsrProtocol {
  import opened Wrappers

  datatype MsgId = IP | SYMBOL | STACK | READY | CONNECT | ATTACH | ATTACHED | LOADSYMS |
    UNLOADSYMS | SEARCHSYMS | WAIT | CONFIRM | EXIT

  datatype Request = Request(base: nat, size: nat, full: bool, path: string, pattern: string)
  datatype SymInfo = SymInfo(modName: string, func: string, path: string, line: nat)

  /** What the raw buffer holds, by the structure last constructed in it. */
  datatype Payload =
    | Blank
    | BaseInfo(pid: int, path: string)
    | Pc(pc: nat)
    | Req(r: Request)
    | Sym(info: SymInfo)
    | Found(addrs: seq<nat>)

  /** The requests client threads make under the mutex, and what they return; NoAnswer is the
      empty response that a search returns when its wait ends. */
  datatype Call =
    | LoadSyms(base: nat, size: nat, path: string)
    | UnloadSyms(base: nat)
    | Lookup(pc: nat)
    | Search(r: Request)
  datatype Reply = Confirmed | NotConfirmed | Info(info: SymInfo) | Matches(addrs: seq<nat>) | NoAnswer | Garbage

  /** What a client is waiting for an answer to. */
  datatype Exchange = Connect | Attach(pid: int, path: string) | Ask(c: Call)

  datatype Client =
    | AwaitReady                  // connect(): wait for READY
    | CheckReady
    | Idle
    | Acquire(c: Call)            // waiting for the mutex
    | SetId(x: Exchange)
    | SetBuf(x: Exchange)
    | Commit(x: Exchange)
    | Wait(x: Exchange)
    | Check(x: Exchange)          // is it a heartbeat?
    | AckId(x: Exchange)
    | AckCommit(x: Exchange)
    | Read(x: Exchange)
    | Unlock(c: Call, r: Reply)
    | Booted
    | GaveUp

  /** The handler a message is dispatched to. */
  datatype Job = Attaching | Loading | Resolving | Unloading | Searching

  datatype Server =
    | Start
    | Post                        // about to signal the client
    | Listen
    | Dispatch
    | Busy(j: Job)                // waiting for the asynchronous part
    | BeatCommit(j: Job)
    | BeatWait(j: Job)
    | BeatCheck(j: Job)
    | Handle(j: Job)
    | Fill(p: Payload)            // id of the answer set, contents not yet
    | Stopped

  /** What the symbol libraries know at an instant: the symbol of an address, and the matches of
      a pattern in the module at a base. */
  datatype Resolver = Resolver(symbol: nat -> SymInfo, matches: (nat, string, bool) -> Option<seq<nat>>)

  /** The outcomes of calls the server makes outside: asynchronous work finished or not,
      attaching succeeded or not, and what the libraries know by then. */
  datatype Outcome = Outcome(ready: bool, ok: bool, res: Resolver)

  /** What the server asks of the libraries. */
  datatype Effect =
    | Loaded(base: nat, size: nat, path: string)
    | Unloaded(base: nat)
    | Looked(pc: nat)
    | Searched(base: nat, pattern: string, full: bool)

  datatype Served = Served(did: Effect, from: Resolver, r: Reply)
  datatype Completed = Completed(thread: nat, c: Call, r: Reply)

  datatype State = State(
    id: MsgId, buf: Payload, toClient: bool, toServer: bool,
    boot: Client, target: Exchange, holder: Option<nat>, threads: seq<Client>,
    server: Server, process: Option<int>, issued: seq<seq<Call>>, served: seq<Served>, completed: seq<Completed>)

  datatype Action =
    | BootStep
    | Call(t: nat, c: Call)
    | ThreadStep(t: nat)
    | TimeOut(t: nat)             // the 100 s of a search are over
    | ServerStep(o: Outcome)

  const MAX_MATCHES: nat := 64

  function MessageId(x: Exchange): MsgId {
    match x
    case Connect => CONNECT
    case Attach(_, _) => ATTACH
    case Ask(LoadSyms(_, _, _)) => LOADSYMS
    case Ask(UnloadSyms(_)) => UNLOADSYMS
    case Ask(Lookup(_)) => IP
    case Ask(Search(_)) => SEARCHSYMS
  }

  function Message(x: Exchange): Payload {
    match x
    case Connect => Blank
    case Attach(pid, path) => BaseInfo(pid, path)
    case Ask(LoadSyms(base, size, path)) => Req(Request(base, size, false, path, ""))
    case Ask(UnloadSyms(base)) => Req(Request(base, 0, false, "", ""))
    case Ask(Lookup(pc)) => Pc(pc)
    case Ask(Search(r)) => Req(r)
  }

  /** The client calls that go through wait_heart_beat. */
  predicate HasHeartbeat(x: Exchange) {
    x.Attach? || (x.Ask? && x.c.LoadSyms?)
  }

  /** How a client interprets the mailbox when its wait is over. */
  function ReadReply(c: Call, id: MsgId, buf: Payload): Reply {
    match c
    case LoadSyms(_, _, _) => if id == CONFIRM then Confirmed else NotConfirmed
    case UnloadSyms(_) => if id == CONFIRM then Confirmed else Garbage
    case Lookup(_) => if buf.Sym? then Info(buf.info) else Garbage
    case Search(_) => if buf.Found? then Matches(buf.addrs) else Garbage
  }

  // How the server reads the raw buffer. The bytes of another structure, here zeros, are never
  // read as these (`Matched`, `Connected`).
  function AsPid(buf: Payload): int {
    if buf.BaseInfo? then buf.pid else 0
  }

  function AsPc(buf: Payload): nat {
    if buf.Pc? then buf.pc else 0
  }

  function AsRequest(buf: Payload): Request {
    if buf.Req? then buf.r else Request(0, 0, false, "", "")
  }

  function Hits(buf: Payload, res: Resolver): Option<seq<nat>> {
    res.matches(AsRequest(buf).base, AsRequest(buf).pattern, AsRequest(buf).full)
  }

  /** More was found than the response has room for. */
  predicate Overflows(buf: Payload, res: Resolver) {
    Hits(buf, res).Some? && |Hits(buf, res).value| > MAX_MATCHES
  }

  /** What the server does for the message with this id. */
  function Does(id: MsgId, buf: Payload): Effect {
    var r := AsRequest(buf);
    match id
    case LOADSYMS => Loaded(r.base, r.size, r.path)
    case UNLOADSYMS => Unloaded(r.base)
    case SEARCHSYMS => Searched(r.base, r.pattern, r.full)
    case _ => Looked(AsPc(buf))
  }

  /** Everything behind the last path separator. */
  function FileName(path: string): string {
    if path == "" then ""
    else if path[|path| - 1] == '/' || path[|path| - 1] == '\\' then ""
    else FileName(path[..|path| - 1]) + [path[|path| - 1]]
  }

  /** Whether the library that was sent is a runtime the resolver can attach to. */
  predicate KnownRuntime(buf: Payload) {
    buf.BaseInfo? && FileName(buf.path) in ["coreclr.dll", "clr.dll"]
  }

  function Init(threads: nat, pid: int, path: string, id: MsgId, buf: Payload): State {
    State(id, buf, false, false, AwaitReady, Attach(pid, path), None, seq(threads, _ => Idle),
          Start, None, seq(threads, _ => []), [], [])
  }

  /** One access of a client that uses the mailbox; the counter it moves on to is separate. */
  function ClientMove(s: State, pc: Client): (State, Client) {
    match pc
    case AwaitReady => if s.toClient then (s.(toClient := false), CheckReady) else (s, pc)
    case CheckReady => (s, if s.id == READY then SetId(Connect) else GaveUp)
    case SetId(x) => (s.(id := MessageId(x)), if x.Connect? then Commit(x) else SetBuf(x))
    case SetBuf(x) => (s.(buf := Message(x)), Commit(x))
    case Commit(x) => (s.(toServer := true), Wait(x))
    case Wait(x) => if s.toClient then (s.(toClient := false), Check(x)) else (s, pc)
    case Check(x) =>
      (s, if x.Connect? then if s.id == CONFIRM then SetId(s.target) else GaveUp
          else if HasHeartbeat(x) && s.id == WAIT then AckId(x)
          else Read(x))
    case AckId(x) => (s.(id := CONFIRM), AckCommit(x))
    case AckCommit(x) => (s.(toServer := true), Wait(x))
    case Read(Ask(c)) => (s, Unlock(c, ReadReply(c, s.id, s.buf)))
    case Read(_) => (s, if s.id == ATTACHED then Booted else GaveUp)
    case _ => (s, pc)
  }

  function ThreadMove(s: State, t: nat): State
    requires t < |s.threads|
  {
    match s.threads[t]
    case Acquire(c) =>
      if s.holder == None then s.(holder := Some(t), threads := s.threads[t := SetId(Ask(c))]) else s
    case Unlock(c, r) =>
      s.(holder := None, threads := s.threads[t := Idle], completed := s.completed + [Completed(t, c, r)])
    case pc =>
      var (s', pc') := ClientMove(s, pc);
      s'.(threads := s.threads[t := pc'])
  }

  function ServerMove(s: State, o: Outcome): State {
    match s.server
    case Start => s.(id := READY, server := Post)
    case Post => s.(toClient := true, server := Listen)
    case Listen => if s.toServer then s.(toServer := false, server := Dispatch) else s
    case Dispatch =>
      (match s.id
       case CONNECT => s.(id := CONFIRM, server := Post)
       case ATTACH =>
         if KnownRuntime(s.buf)
         then s.(process := Some(AsPid(s.buf)), server := Busy(Attaching))
         else s.(process := Some(AsPid(s.buf)), id := EXIT, server := Post)
       case IP => s.(server := Handle(Resolving))
       case LOADSYMS => s.(server := Busy(Loading))
       case UNLOADSYMS => s.(server := Handle(Unloading))
       case SEARCHSYMS => s.(server := Handle(Searching))
       case CONFIRM => s.(server := Listen)
       case _ => s.(server := Stopped))
    case Busy(j) =>
      if !o.ready then s.(id := WAIT, server := BeatCommit(j))
      else if j == Loading then
        s.(id := CONFIRM, server := Post, served := s.served + [Served(Does(LOADSYMS, s.buf), o.res, Confirmed)])
      else if o.ok then s.(id := ATTACHED, server := Post)
      else s.(server := Stopped)
    case BeatCommit(j) => s.(toClient := true, server := BeatWait(j))
    case BeatWait(j) => if s.toServer then s.(toServer := false, server := BeatCheck(j)) else s
    case BeatCheck(j) => s.(server := if s.id == CONFIRM then Busy(j) else Stopped)
    case Handle(Resolving) =>
      var info := o.res.symbol(AsPc(s.buf));
      s.(id := IP, server := Fill(Sym(info)), served := s.served + [Served(Does(IP, s.buf), o.res, Info(info))])
    case Handle(Searching) =>
      var did := Does(SEARCHSYMS, s.buf);
      (match Hits(s.buf, o.res)
       case None => s.(server := Listen, served := s.served + [Served(did, o.res, NoAnswer)])
       case Some(h) =>
         if |h| <= MAX_MATCHES
         then s.(id := SEARCHSYMS, server := Fill(Found(h)), served := s.served + [Served(did, o.res, Matches(h))])
         else s.(server := Stopped))
    case Handle(_) =>
      s.(id := CONFIRM, server := Post, served := s.served + [Served(Does(UNLOADSYMS, s.buf), o.res, Confirmed)])
    case Fill(p) => s.(buf := p, server := Post)
    case Stopped => s
  }

  predicate Quiet(s: State) {
    !s.toClient && !s.toServer
  }

  predicate AtRest(s: State) {
    Quiet(s) && s.server == Listen
  }

  predicate InSearch(pc: Client) {
    pc.Wait? && pc.x.Ask? && pc.x.c.Search?
  }

  function Perform(s: State, a: Action): State {
    match a
    case BootStep => var (s', pc') := ClientMove(s, s.boot); s'.(boot := pc')
    case Call(t, c) =>
      if s.boot == Booted && t < |s.threads| == |s.issued| && s.threads[t] == Idle
      then s.(threads := s.threads[t := Acquire(c)], issued := s.issued[t := s.issued[t] + [c]]) else s
    case ThreadStep(t) => if t < |s.threads| then ThreadMove(s, t) else s
    case TimeOut(t) =>
      if t < |s.threads| && InSearch(s.threads[t]) && AtRest(s)
      then s.(threads := s.threads[t := Unlock(s.threads[t].x.c, NoAnswer)]) else s
    case ServerStep(o) => ServerMove(s, o)
  }

  function Run(s: State, actions: seq<Action>): State
    decreases |actions|
  {
    if actions == [] then s else Run(Perform(s, actions[0]), actions[1..])
  }

  // ---------------------------------------------------------------- the invariant

  /** The client side's participant in the exchange: the booting client, then whichever
      thread holds the mutex. */
  function Front(s: State): Client {
    if s.boot != Booted then s.boot
    else if s.holder.Some? && s.holder.value < |s.threads| then s.threads[s.holder.value]
    else Idle
  }

  function JobOf(x: Exchange): Job {
    match x
    case Connect => Attaching
    case Attach(_, _) => Attaching
    case Ask(LoadSyms(_, _, _)) => Loading
    case Ask(UnloadSyms(_)) => Unloading
    case Ask(Lookup(_)) => Resolving
    case Ask(Search(_)) => Searching
  }

  /** The message is in the mailbox as the client wrote it. */
  predicate Delivered(s: State, x: Exchange) {
    s.id == MessageId(x) && Intact(s, x)
  }

  predicate Intact(s: State, x: Exchange) {
    x.Connect? || s.buf == Message(x)
  }

  /** What the libraries are to be asked for a call. */
  function Wanted(c: Call): Effect {
    match c
    case LoadSyms(base, size, path) => Loaded(base, size, path)
    case UnloadSyms(base) => Unloaded(base)
    case Lookup(pc) => Looked(pc)
    case Search(r) => Searched(r.base, r.pattern, r.full)
  }

  /** The reply a call is meant to get of a resolver; None where more is found than fits. */
  function MeantReply(c: Call, res: Resolver): Option<Reply> {
    match c
    case LoadSyms(_, _, _) => Some(Confirmed)
    case UnloadSyms(_) => Some(Confirmed)
    case Lookup(pc) => Some(Info(res.symbol(pc)))
    case Search(r) =>
      match res.matches(r.base, r.pattern, r.full)
      case None => Some(NoAnswer)
      case Some(h) => if |h| <= MAX_MATCHES then Some(Matches(h)) else None
  }

  /** The server did what c asks for, and answered what c is meant to get. */
  predicate Serves(v: Served, c: Call) {
    v.did == Wanted(c) && MeantReply(c, v.from) == Some(v.r)
  }

  predicate NothingPending(s: State) {
    |s.served| == |s.completed|
  }

  /** The last answer the server gave was to c. */
  predicate Pending(s: State, c: Call, r: Reply) {
    && |s.served| == |s.completed| + 1
    && Serves(s.served[|s.completed|], c) && s.served[|s.completed|].r == r
  }

  /** The process to attach to is the client's, and its runtime is known. */
  predicate Opened(s: State, x: Exchange) {
    x.Attach? ==> s.process == Some(x.pid) && FileName(x.path) in ["coreclr.dll", "clr.dll"]
  }

  /** The answer to x lies complete in the mailbox. */
  predicate Answered(s: State, x: Exchange) {
    match x
    case Connect => s.id == CONFIRM && NothingPending(s)
    case Attach(_, _) => s.id in [ATTACHED, EXIT] && NothingPending(s) && (s.id == ATTACHED ==> Opened(s, x))
    case Ask(c) => s.id != WAIT && Pending(s, c, ReadReply(c, s.id, s.buf))
  }

  /** Asynchronous work for x. */
  predicate UnderWay(s: State, x: Exchange, j: Job) {
    HasHeartbeat(x) && j == JobOf(x) && Intact(s, x) && Opened(s, x) && NothingPending(s)
  }

  /** The stages an exchange goes through while the client waits. */
  predicate InExchange(s: State, x: Exchange) {
    match s.server
    case Listen =>
      || (s.toServer && !s.toClient && Delivered(s, x) && NothingPending(s))
      || (s.toClient && !s.toServer && Answered(s, x))
      || (Quiet(s) && x.Ask? && x.c.Search? && Pending(s, x.c, NoAnswer))  // never answered
    case Dispatch => Quiet(s) && Delivered(s, x) && NothingPending(s)
    case Busy(j) => Quiet(s) && UnderWay(s, x, j)
    case BeatCommit(j) => Quiet(s) && UnderWay(s, x, j) && s.id == WAIT
    case BeatWait(j) => UnderWay(s, x, j) && s.toClient != s.toServer && s.id == if s.toClient then WAIT else CONFIRM
    case BeatCheck(j) => Quiet(s) && UnderWay(s, x, j) && s.id == CONFIRM
    case Handle(j) =>
      Quiet(s) && x.Ask? && !HasHeartbeat(x) && j == JobOf(x) && Intact(s, x) && NothingPending(s)
    case Fill(p) =>
      && Quiet(s) && x.Ask? && s.id == MessageId(x)
      && ((x.c.Lookup? && p.Sym?) || (x.c.Search? && p.Found? && |p.addrs| <= MAX_MATCHES))
      && Pending(s, x.c, ReadReply(x.c, s.id, p))
    case Post => Quiet(s) && Answered(s, x)
    case Stopped => Quiet(s)
    case Start => false
  }

  /** Where the two sides can be together: f is the client side's participant. */
  predicate Joint(s: State, f: Client) {
    match f
    case AwaitReady =>
      && !s.toServer && NothingPending(s)
      && (match s.server
          case Start => !s.toClient
          case Post => !s.toClient && s.id == READY
          case Listen => s.toClient && s.id == READY
          case _ => false)
    case CheckReady => AtRest(s) && NothingPending(s) && s.id == READY
    case Idle => AtRest(s) && NothingPending(s)
    case GaveUp => AtRest(s) && NothingPending(s)
    case SetId(x) => AtRest(s) && NothingPending(s)
    case SetBuf(x) => AtRest(s) && NothingPending(s) && s.id == MessageId(x) && !x.Connect?
    case Commit(x) => AtRest(s) && NothingPending(s) && Delivered(s, x)
    case Wait(x) => InExchange(s, x)
    case Check(x) => (AtRest(s) && Answered(s, x)) || (InHeartbeat(s, x) && s.id == WAIT)
    case AckId(x) => InHeartbeat(s, x)
    case AckCommit(x) => InHeartbeat(s, x) && s.id == CONFIRM
    case Read(x) => AtRest(s) && Answered(s, x) && !x.Connect?
    case Unlock(c, r) => AtRest(s) && Pending(s, c, r)
    case Acquire(_) => false
    case Booted => false
  }

  /** The client has the mailbox while the server waits for its CONFIRM. */
  predicate InHeartbeat(s: State, x: Exchange) {
    Quiet(s) && s.server == BeatWait(JobOf(x)) && UnderWay(s, x, JobOf(x))
  }

  predicate Uses(pc: Client) {
    !pc.AwaitReady? && !pc.CheckReady? && !pc.Idle? && !pc.Acquire? && !pc.Unlock? && !pc.Booted? && !pc.GaveUp?
  }

  predicate BootPc(pc: Client, target: Exchange) {
    && !pc.Idle? && !pc.Acquire? && !pc.Unlock?
    && (Uses(pc) ==> pc.x == Connect || pc.x == target)
  }

  predicate ThreadPc(pc: Client, holds: bool) {
    if holds then pc.Unlock? || (Uses(pc) && pc.x.Ask?) else pc.Idle? || pc.Acquire?
  }

  /** Only the booting client moves before it is done; then only the holder of the mutex
      is inside a call. */
  ghost predicate Shape(s: State) {
    && s.target.Attach?
    && BootPc(s.boot, s.target)
    && (s.holder.Some? ==> s.boot == Booted && s.holder.value < |s.threads|)
    && (forall t | 0 <= t < |s.threads| :: ThreadPc(s.threads[t], s.holder == Some(t)))
    && (s.boot != Booted ==> forall t | 0 <= t < |s.threads| :: s.threads[t] == Idle)
  }

  /** The i-th call to be completed returned the i-th answer of the server, which did for it what
      the call asks for and answered what the resolver has for it. */
  ghost predicate Matched(s: State) {
    && |s.completed| <= |s.served| <= |s.completed| + 1
    && forall i | 0 <= i < |s.completed| ::
         Serves(s.served[i], s.completed[i].c) && s.completed[i].r == s.served[i].r
  }

  /** An attached client has the server attached to its own process, of a known runtime. */
  predicate Connected(s: State) {
    s.boot == Booted ==> Opened(s, s.target)
  }

  /** The calls of thread t that were completed, in order. */
  function CallsOf(t: nat, completed: seq<Completed>): seq<Call> {
    if completed == [] then []
    else
      var last := completed[|completed| - 1];
      CallsOf(t, completed[..|completed| - 1]) + if last.thread == t then [last.c] else []
  }

  /** The call a thread is in. */
  function Current(pc: Client): seq<Call> {
    if pc.Acquire? || pc.Unlock? then [pc.c] else if Uses(pc) && pc.x.Ask? then [pc.x.c] else []
  }

  /** Every thread completes its own calls, in the order it made them. */
  ghost predicate InOrder(s: State) {
    && |s.issued| == |s.threads|
    && forall t | 0 <= t < |s.threads| :: s.issued[t] == CallsOf(t, s.completed) + Current(s.threads[t])
  }

  ghost predicate Inv(s: State) {
    Shape(s) && Matched(s) && Connected(s) && Joint(s, Front(s)) && InOrder(s)
  }

  lemma MoveKeepsJoint(s: State, f: Client)
    requires s.target.Attach? && Joint(s, f) && (Uses(f) || f.AwaitReady? || f.CheckReady?)
    requires Uses(f) ==> f.x.Ask? || f.x == Connect || f.x == s.target
    ensures var (s', f') := ClientMove(s, f);
            && s' == s.(id := s'.id, buf := s'.buf, toClient := s'.toClient, toServer := s'.toServer)
            && (if f'.Booted? then AtRest(s') && NothingPending(s') && Opened(s', f.x) else Joint(s', f'))
            && (f'.Booted? ==> f == Read(s.target))
  {
  }

  lemma ServerKeepsExchange(s: State, x: Exchange, o: Outcome)
    requires InExchange(s, x)
    ensures InExchange(ServerMove(s, o), x)
  {
    match s.server
    case Dispatch =>
      DispatchKeepsExchange(s, x, o);
    case Handle(_) =>
      HandleKeepsExchange(s, x, o);
    case Busy(_) =>
    case _ =>
  }

  lemma DispatchKeepsExchange(s: State, x: Exchange, o: Outcome)
    requires InExchange(s, x) && s.server == Dispatch
    ensures InExchange(ServerMove(s, o), x)
  {
    match x
    case Connect =>
    case Attach(_, _) =>
    case Ask(c) =>
  }

  lemma HandleKeepsExchange(s: State, x: Exchange, o: Outcome)
    requires InExchange(s, x) && s.server.Handle?
    ensures InExchange(ServerMove(s, o), x)
  {
    match x.c
    case UnloadSyms(_) =>
    case Lookup(_) =>
    case Search(_) =>
  }

  lemma ServerKeepsJoint(s: State, f: Client, o: Outcome)
    requires Joint(s, f)
    ensures Joint(ServerMove(s, o), f)
  {
    hide InExchange, Answered, Delivered, Pending;
    if f.Wait? {
      ServerKeepsExchange(s, f.x, o);
    } else if !f.AwaitReady? {
      assert ServerMove(s, o) == s;
    }
  }

  lemma ServerKeepsMatched(s: State, f: Client, o: Outcome)
    requires Joint(s, f) && Matched(s)
    ensures Matched(ServerMove(s, o))
  {
    hide Answered, Delivered, Pending, MessageId, Message, KnownRuntime, Does, Hits, Serves, Intact, Opened;
    var s' := ServerMove(s, o);
    assert s'.completed == s.completed && s.served <= s'.served;
  }

  lemma InitInv(threads: nat, pid: int, path: string, id: MsgId, buf: Payload)
    ensures Inv(Init(threads, pid, path, id, buf))
  {
  }

  lemma PerformKeeps(s: State, a: Action)
    requires Inv(s)
    ensures Inv(Perform(s, a))
  {
    hide Inv, ServerMove, ClientMove;
    match a
    case BootStep => BootKeeps(s);
    case Call(t, c) => CallKeeps(s, t, c);
    case ThreadStep(t) =>
      if t < |s.threads| {
        ThreadStepKeeps(s, t);
      }
    case TimeOut(t) => TimeOutKeeps(s, t);
    case ServerStep(o) => ServerKeeps(s, o);
  }

  lemma ServerKeeps(s: State, o: Outcome)
    requires Inv(s)
    ensures Inv(ServerMove(s, o))
  {
    hide Matched, Joint, ServerMove, CallsOf, Current, FileName;
    ServerKeepsJoint(s, Front(s), o);
    ServerKeepsMatched(s, Front(s), o);
    ServerFrame(s, o);
    if s.boot == Booted {
      if s.holder.Some? {
        assert ThreadPc(s.threads[s.holder.value], true);
      }
      ServerKeepsProcess(s, Front(s), o);
    }
  }

  /** The process changes with an attach only. */
  lemma ServerKeepsProcess(s: State, f: Client, o: Outcome)
    requires Joint(s, f) && (f.Idle? || f.Unlock? || (Uses(f) && f.x.Ask?))
    ensures ServerMove(s, o).process == s.process
  {
    hide Answered, Pending, FileName, Message;
    if s.server == Dispatch {
      assert s.id == MessageId(f.x) != ATTACH;
    }
  }

  lemma ServerFrame(s: State, o: Outcome)
    ensures var s' := ServerMove(s, o);
            && s'.boot == s.boot && s'.target == s.target && s'.holder == s.holder && s'.threads == s.threads
            && s'.issued == s.issued && s'.completed == s.completed
  {
    hide FileName;
    if s.server == Dispatch {
      DispatchFrame(s, o);
    }
  }

  lemma DispatchFrame(s: State, o: Outcome)
    requires s.server == Dispatch
    ensures var s' := ServerMove(s, o);
            s' == s.(id := s'.id, server := s'.server, process := s'.process)
  {
    hide FileName;
  }

  lemma BootKeeps(s: State)
    requires Inv(s)
    ensures Inv(Perform(s, BootStep))
  {
    if s.boot != Booted && s.boot != GaveUp {
      hide Joint, Matched, ClientMove, CallsOf, FileName;
      BootPcKept(s);
      MoveKeepsJoint(s, s.boot);
      MoveKeepsMatched(s, s.boot);
      var (s1, pc1) := ClientMove(s, s.boot);
      JointFrame(s1, Perform(s, BootStep), pc1);
      if pc1.Booted? {
        IdleAtRest(Perform(s, BootStep));
      }
    }
  }

  lemma IdleAtRest(s: State)
    requires AtRest(s) && NothingPending(s)
    ensures Joint(s, Idle)
  {
  }

  lemma BootPcKept(s: State)
    requires BootPc(s.boot, s.target) && s.target.Attach? && s.boot != Booted
    ensures BootPc(ClientMove(s, s.boot).1, s.target)
  {
  }

  lemma MoveKeepsMatched(s: State, pc: Client)
    requires Matched(s)
    ensures Matched(ClientMove(s, pc).0)
  {
    var s' := ClientMove(s, pc).0;
    assert s'.served == s.served && s'.completed == s.completed;
  }

  lemma CallKeeps(s: State, t: nat, c: Call)
    requires Inv(s)
    ensures Inv(Perform(s, Action.Call(t, c)))
  {
    hide Joint, Matched;
    if t < |s.threads| {
      assert ThreadPc(s.threads[t], s.holder == Some(t));
      var s' := Perform(s, Action.Call(t, c));
      JointFrame(s, s', Front(s));
      assert Front(s') == Front(s);
    }
  }

  lemma TimeOutKeeps(s: State, t: nat)
    requires Inv(s)
    ensures Inv(Perform(s, TimeOut(t)))
  {
    hide CallsOf, Matched;
    if t < |s.threads| && InSearch(s.threads[t]) && AtRest(s) {
      assert ThreadPc(s.threads[t], s.holder == Some(t));
      var s' := Perform(s, TimeOut(t));
      JointFrame(s, s', Idle);
      assert Front(s) == s.threads[t] && Front(s') == s'.threads[t];
      assert Current(s'.threads[t]) == Current(s.threads[t]);
    }
  }

  /** The joint predicate looks at the mailbox, the server and the answers only. */
  lemma JointFrame(s: State, s': State, f: Client)
    requires s' == s.(boot := s'.boot, threads := s'.threads, issued := s'.issued)
    ensures Joint(s', f) <==> Joint(s, f)
    ensures Matched(s') <==> Matched(s)
  {
    hide Serves, ReadReply, Message, MessageId, InExchange, Answered;
    ExchangeFrame(s, s', f);
  }

  lemma ExchangeFrame(s: State, s': State, f: Client)
    requires s' == s.(boot := s'.boot, threads := s'.threads, issued := s'.issued)
    ensures Uses(f) ==> (InExchange(s', f.x) <==> InExchange(s, f.x)) && (Answered(s', f.x) <==> Answered(s, f.x))
  {
  }

  lemma ThreadKeeps(s: State, t: nat)
    requires Inv(s) && t < |s.threads|
    ensures var s' := ThreadMove(s, t); Shape(s') && Matched(s') && Joint(s', Front(s')) && Connected(s')
  {
    hide InOrder, InExchange, Answered, FileName, ReadReply;
    var pc := s.threads[t];
    assert ThreadPc(pc, s.holder == Some(t));
    if Uses(pc) {
      MoveKeepsJoint(s, pc);
      var (s1, pc1) := ClientMove(s, pc);
      JointFrame(s1, ThreadMove(s, t), pc1);
      MoveKeepsMatched(s, pc);
    } else if pc.Idle? {
      assert s.threads[t := Idle] == s.threads;
      assert ThreadMove(s, t) == s;
    }
  }

  lemma ThreadStepKeeps(s: State, t: nat)
    requires Inv(s) && t < |s.threads|
    ensures Inv(Perform(s, ThreadStep(t)))
  {
    ThreadKeeps(s, t);
    ThreadKeepsOrder(s, t);
    hide Shape, Matched, Joint, InOrder, FileName;
  }

  lemma MoveKeepsCall(s: State, pc: Client)
    requires Uses(pc) && pc.x.Ask?
    ensures var (s', pc') := ClientMove(s, pc);
            && Current(pc') == Current(pc)
            && s'.issued == s.issued && s'.completed == s.completed && s'.threads == s.threads
  {
  }

  lemma ThreadKeepsOrder(s: State, t: nat)
    requires Inv(s) && t < |s.threads|
    ensures InOrder(ThreadMove(s, t))
  {
    if s.threads[t].Unlock? {
      UnlockKeepsOrder(s, t);
    } else {
      hide Matched, Joint, CallsOf, ClientMove;
      var s' := ThreadMove(s, t);
      assert ThreadPc(s.threads[t], s.holder == Some(t));
      if Uses(s.threads[t]) {
        MoveKeepsCall(s, s.threads[t]);
      } else if s.threads[t].Idle? {
        assert ClientMove(s, Idle) == (s, Idle);
      }
    }
  }

  lemma UnlockKeepsOrder(s: State, t: nat)
    requires InOrder(s) && t < |s.threads| && s.threads[t].Unlock?
    ensures InOrder(ThreadMove(s, t))
  {
    hide ClientMove;
    var s' := ThreadMove(s, t);
    assert s'.completed[..|s.completed|] == s.completed;
    forall u | 0 <= u < |s.threads| ensures s'.issued[u] == CallsOf(u, s'.completed) + Current(s'.threads[u]) {
      assert CallsOf(u, s'.completed) == CallsOf(u, s.completed) + if u == t then [s.threads[t].c] else [];
    }
  }

  lemma {:induction false} RunKeeps(s: State, actions: seq<Action>)
    requires Inv(s)
    ensures Inv(Run(s, actions))
    decreases |actions|
  {
    if actions != [] {
      PerformKeeps(s, actions[0]);
      RunKeeps(Perform(s, actions[0]), actions[1..]);
    }
  }

  // ---------------------------------------------------------------- the results

  /** Every run: for the i-th completed call the server did what the call asks for, with the
      call's own arguments however many heartbeats went by, and the call got what the resolver
      had for them then; an attached client has the server attached to its own process; and
      every thread's calls complete in the order it made them. */
  lemma RepliesMatch(threads: nat, pid: int, path: string, id: MsgId, buf: Payload, actions: seq<Action>)
    ensures var s := Run(Init(threads, pid, path, id, buf), actions);
            && Matched(s) && InOrder(s)
            && (s.boot == Booted ==> s.process == Some(pid) && FileName(path) in ["coreclr.dll", "clr.dll"])
  {
    hide FileName, Matched, InOrder;
    InitInv(threads, pid, path, id, buf);
    RunKeeps(Init(threads, pid, path, id, buf), actions);
    TargetKept(Init(threads, pid, path, id, buf), actions);
  }

  lemma {:induction false} TargetKept(s: State, actions: seq<Action>)
    ensures Run(s, actions).target == s.target
    decreases |actions|
  {
    if actions != [] {
      hide FileName, ServerMove;
      if actions[0].ServerStep? {
        ServerFrame(s, actions[0].o);
      }
      TargetKept(Perform(s, actions[0]), actions[1..]);
    }
  }

  /** The libraries know the same throughout. */
  ghost predicate Steady(actions: seq<Action>, res: Resolver) {
    forall i | 0 <= i < |actions| && actions[i].ServerStep? :: actions[i].o.res == res
  }

  ghost predicate AllFrom(served: seq<Served>, res: Resolver) {
    forall i | 0 <= i < |served| :: served[i].from == res
  }

  lemma {:induction false} ServedFrom(s: State, actions: seq<Action>, res: Resolver)
    requires Steady(actions, res) && AllFrom(s.served, res)
    ensures AllFrom(Run(s, actions).served, res)
    decreases |actions|
  {
    if actions != [] {
      StepFrom(s, actions[0], res);
      ServedFrom(Perform(s, actions[0]), actions[1..], res);
    }
  }

  lemma StepFrom(s: State, a: Action, res: Resolver)
    requires (a.ServerStep? ==> a.o.res == res) && AllFrom(s.served, res)
    ensures AllFrom(Perform(s, a).served, res)
  {
    hide KnownRuntime, Does, Hits, Message, ReadReply, MessageId;
  }

  /** Then in every run every lookup and every search returns what they know of the very address,
      module, pattern and scope it was called with. */
  lemma TableAnswers(
    threads: nat, pid: int, path: string, id: MsgId, buf: Payload, actions: seq<Action>, res: Resolver, i: nat)
    requires Steady(actions, res)
    requires i < |Run(Init(threads, pid, path, id, buf), actions).completed|
    ensures var done := Run(Init(threads, pid, path, id, buf), actions).completed[i];
            match done.c
            case Lookup(pc) => done.r == Info(res.symbol(pc))
            case Search(r) =>
              (match res.matches(r.base, r.pattern, r.full)
               case None => done.r == NoAnswer
               case Some(h) => |h| <= MAX_MATCHES && done.r == Matches(h))
            case _ => done.r == Confirmed
  {
    hide Run, Inv, InOrder, FileName;
    RepliesMatch(threads, pid, path, id, buf, actions);
    ServedFrom(Init(threads, pid, path, id, buf), actions, res);
    assert Serves(Run(Init(threads, pid, path, id, buf), actions).served[i],
                  Run(Init(threads, pid, path, id, buf), actions).completed[i].c);
  }

  /** The file name is what follows the last separator of either kind. */
  lemma {:induction false} FileNameExact(dir: string, sep: char, name: string)
    requires sep in "/\\" && '/' !in name && '\\' !in name
    ensures FileName(dir + [sep] + name) == name
    decreases |name|
  {
    var path := dir + [sep] + name;
    if name == "" {
      assert path[|path| - 1] == sep;
    } else {
      var n := |name| - 1;
      assert path[..|path| - 1] == dir + [sep] + name[..n] && path[|path| - 1] == name[n];
      assert name[n] in name && name == name[..n] + [name[n]];
      FileNameExact(dir, sep, name[..n]);
    }
  }

  /** And a path without separators is one. */
  lemma {:induction false} FileNameBare(name: string)
    requires '/' !in name && '\\' !in name
    ensures FileName(name) == name
    decreases |name|
  {
    if name != "" {
      FileNameBare(name[..|name| - 1]);
    }
  }

  predicate ServerHas(s: State) {
    !s.server.Listen? && !s.server.BeatWait? && !s.server.Stopped?
  }

  predicate ClientHas(pc: Client) {
    pc.CheckReady? || pc.Unlock? || (Uses(pc) && !pc.Wait?)
  }

  /** The mailbox has one owner at a time: a signalled event, the server, or one client. */
  ghost predicate OneOwner(s: State) {
    && !(s.toClient && s.toServer)
    && (ServerHas(s) ==> Quiet(s) && !ClientHas(s.boot))
    && (forall t | 0 <= t < |s.threads| && ClientHas(s.threads[t]) ::
          Quiet(s) && !ServerHas(s) && !ClientHas(s.boot) &&
          forall u | 0 <= u < |s.threads| && ClientHas(s.threads[u]) :: u == t)
    && (ClientHas(s.boot) ==> Quiet(s) && !ServerHas(s))
  }

  /** The participant that performs an action had the mailbox before it. */
  predicate ActorHas(s: State, a: Action) {
    match a
    case BootStep => ClientHas(s.boot)
    case Call(_, _) => false
    case TimeOut(_) => false
    case ThreadStep(t) => t < |s.threads| && ClientHas(s.threads[t])
    case ServerStep(_) => ServerHas(s)
  }

  lemma InvOneOwner(s: State)
    requires Inv(s)
    ensures OneOwner(s)
  {
    forall t | 0 <= t < |s.threads| && ClientHas(s.threads[t])
      ensures s.holder == Some(t) && Joint(s, s.threads[t]) && s.boot == Booted
    {
      assert ThreadPc(s.threads[t], s.holder == Some(t));
    }
  }

  /** How the booting client comes by the mailbox and gives it up. */
  ghost predicate BootMoves(s: State, s': State) {
    && (!ClientHas(s.boot) && ClientHas(s'.boot) ==> s.toClient && !s'.toClient)
    && (ClientHas(s.boot) && !ClientHas(s'.boot) ==>
          || (!s.toServer && s'.toServer)
          || s'.boot == Booted || s'.boot == GaveUp)
  }

  /** How thread t does: it consumes the server's signal, takes the free mutex with the mailbox
      at rest, or ends its wait for a search that nothing is on the way to; it signals the
      server, or releases the mutex with the mailbox at rest. */
  ghost predicate ThreadMoves(s: State, s': State, a: Action, t: nat)
    requires t < |s.threads| == |s'.threads|
  {
    && (!ClientHas(s.threads[t]) && ClientHas(s'.threads[t]) ==>
          || (s.toClient && !s'.toClient)
          || (s.holder == None && s'.holder == Some(t) && AtRest(s))
          || (a == TimeOut(t) && s.holder == Some(t) && AtRest(s)))
    && (ClientHas(s.threads[t]) && !ClientHas(s'.threads[t]) ==>
          || (!s.toServer && s'.toServer)
          || (s.holder == Some(t) && s'.holder == None && AtRest(s')))
  }

  /** How the server does: it consumes the clients' signal; it signals the client, answers a
      failed search with nothing, or gives up, which only failures of its own make it do. */
  ghost predicate ServerMoves(s: State, s': State, a: Action) {
    && (!ServerHas(s) && ServerHas(s') ==> a.ServerStep? && s.toServer && !s'.toServer)
    && (ServerHas(s) && !ServerHas(s') ==>
          || (!s.toClient && s'.toClient)
          || (a.ServerStep? && s.server == Handle(Searching) && Hits(s.buf, a.o.res) == None)
          || s'.server == Stopped)
    && (s'.server == Stopped && s.server != Stopped ==>
          a.ServerStep? &&
          (|| (s.server == Busy(Attaching) && !a.o.ok)
           || (s.server == Handle(Searching) && Overflows(s.buf, a.o.res))))
  }

  /** In every state of every run there is one owner, only the owner writes the mailbox, and
      ownership moves, for every participant, only by signalling and consuming signals, by
      taking and releasing the mutex while the mailbox is at rest, or at one of the ends of an
      exchange. */
  lemma OwnershipMoves(threads: nat, pid: int, path: string, id: MsgId, buf: Payload, actions: seq<Action>, a: Action)
    ensures var s := Run(Init(threads, pid, path, id, buf), actions);
            var s' := Perform(s, a);
            && OneOwner(s) && OneOwner(s')
            && (s'.id != s.id || s'.buf != s.buf ==> ActorHas(s, a))
            && ServerMoves(s, s', a) && BootMoves(s, s')
            && |s'.threads| == |s.threads|
            && forall t | 0 <= t < |s.threads| :: ThreadMoves(s, s', a, t)
  {
    hide Inv, OneOwner, ServerMove, ClientMove, ThreadMove, Init, Run, ClientHas;
    var s := Run(Init(threads, pid, path, id, buf), actions);
    InitInv(threads, pid, path, id, buf);
    RunKeeps(Init(threads, pid, path, id, buf), actions);
    InvOneOwner(s);
    PerformKeeps(s, a);
    InvOneOwner(Perform(s, a));
    ClientOwnership(s, a);
    if a.ServerStep? {
      ServerStops(s, a.o);
    } else {
      ClientLeavesServer(s, a);
    }
  }

  lemma ClientOwnership(s: State, a: Action)
    requires Inv(s)
    ensures var s' := Perform(s, a);
            && BootMoves(s, s')
            && |s'.threads| == |s.threads|
            && forall t | 0 <= t < |s.threads| :: ThreadMoves(s, s', a, t)
  {
    hide Matched, InOrder, InExchange, Answered, FileName, Pending, ReadReply;
    match a
    case ServerStep(o) => ServerFrame(s, o);
    case ThreadStep(t) =>
      if t < |s.threads| {
        ThreadOwnership(s, t);
      }
    case TimeOut(t) =>
      if t < |s.threads| {
        assert ThreadPc(s.threads[t], s.holder == Some(t));
      }
    case _ =>
  }

  lemma ThreadOwnership(s: State, t: nat)
    requires Inv(s) && t < |s.threads|
    ensures var s' := ThreadMove(s, t);
            && s'.boot == s.boot && |s'.threads| == |s.threads|
            && forall u | 0 <= u < |s.threads| :: ThreadMoves(s, s', ThreadStep(t), u)
  {
    hide Matched, InOrder, InExchange, Answered, FileName, Pending, ReadReply;
    assert ThreadPc(s.threads[t], s.holder == Some(t));
    var s' := ThreadMove(s, t);
    assert forall u | 0 <= u < |s.threads| && u != t :: s'.threads[u] == s.threads[u];
  }

  /** The dispatcher never meets a message it has no answer for, and a heartbeat is
      always confirmed: the server stops only on failures of its own. */
  lemma ServerStops(s: State, o: Outcome)
    requires Inv(s)
    ensures var s' := ServerMove(s, o);
            && (!ServerHas(s) && ServerHas(s') ==> s.toServer && !s'.toServer)
            && (ServerHas(s) && !ServerHas(s') ==>
                  || (!s.toClient && s'.toClient)
                  || (s.server == Handle(Searching) && Hits(s.buf, o.res) == None)
                  || s'.server == Stopped)
            && (s'.id != s.id || s'.buf != s.buf ==> ServerHas(s))
            && (s.server == Dispatch ==> s'.server != Listen && s'.server != Stopped)
            && (s.server.BeatCheck? ==> s'.server != Stopped)
            && (s'.server == Stopped && s.server != Stopped ==>
                  || (s.server == Busy(Attaching) && !o.ok)
                  || (s.server == Handle(Searching) && Overflows(s.buf, o.res)))
  {
    hide Matched, InOrder, Pending, KnownRuntime, FileName, Does, Hits, Intact, Opened, Message, Connected;
    var f := Front(s);
    assert Joint(s, f);
    if f.Wait? && s.server == Dispatch {
      DispatchKeepsExchange(s, f.x, o);
    }
  }

  lemma ClientLeavesServer(s: State, a: Action)
    requires !a.ServerStep?
    ensures var s' := Perform(s, a);
            && s'.server == s.server
            && (s'.id != s.id || s'.buf != s.buf ==> ActorHas(s, a))
  {
  }

  /** A search that failed: the client waits for an answer that was never sent. */
  predicate Unanswered(s: State) {
    InSearch(Front(s)) && AtRest(s)
  }

  /** No wake-up is lost: while a client side participant is in an exchange, either it or
      the server can move, except after a failed search and after the server stopped. */
  lemma StuckOnlyUnanswered(s: State, o: Outcome)
    requires Inv(s) && Front(s).Wait?
    ensures (s.toClient || ServerMove(s, o) != s) <==> !Unanswered(s) && s.server != Stopped
  {
  }

  /** Until the wait of a failed search ends, no run gets past it, for any thread. */
  lemma {:induction false} UnansweredWaits(s: State, actions: seq<Action>)
    requires Inv(s) && Unanswered(s)
    requires forall i :: 0 <= i < |actions| ==> !actions[i].TimeOut?
    ensures var s' := Run(s, actions);
            Unanswered(s') && s'.completed == s.completed && s'.id == s.id && s'.buf == s.buf
    decreases |actions|
  {
    if actions != [] {
      UnansweredStep(s, actions[0]);
      PerformKeeps(s, actions[0]);
      UnansweredWaits(Perform(s, actions[0]), actions[1..]);
    }
  }

  lemma UnansweredStep(s: State, a: Action)
    requires Inv(s) && Unanswered(s) && !a.TimeOut?
    ensures var s' := Perform(s, a);
            Unanswered(s') && s'.completed == s.completed && s'.id == s.id && s'.buf == s.buf
  {
    match a
    case ThreadStep(t) =>
      if t < |s.threads| {
        assert ThreadPc(s.threads[t], s.holder == Some(t));
      }
    case _ =>
  }

  /** When it ends, the search completes without an answer, the server having answered it with
      nothing; the mutex is free and the mailbox at rest, as before any other call. */
  lemma UnansweredEnds(s: State, t: nat)
    requires Inv(s) && Unanswered(s) && s.holder == Some(t)
    ensures var s' := Perform(Perform(s, TimeOut(t)), ThreadStep(t));
            && Inv(s') && AtRest(s') && s'.holder == None && NothingPending(s')
            && s'.completed == s.completed + [Completed(t, s.threads[t].x.c, NoAnswer)]
            && s'.served == s.served && s'.served[|s.completed|].r == NoAnswer
  {
    var s1 := Perform(s, TimeOut(t));
    PerformKeeps(s, TimeOut(t));
    PerformKeeps(s1, ThreadStep(t));
    hide CallsOf, InOrder;
    assert Joint(s, Front(s));
  }

  // ---------------------------------------------------------------- a run with a failed search

  lemma {:induction false} RunSnoc(s: State, actions: seq<Action>, a: Action)
    ensures Run(s, actions + [a]) == Perform(Run(s, actions), a)
    decreases |actions|
  {
    hide Perform;
    if actions == [] {
      assert actions + [a] == [a];
      assert Run(Perform(s, a), []) == Perform(s, a);
    } else {
      assert (actions + [a])[1..] == actions[1..] + [a];
      RunSnoc(Perform(s, actions[0]), actions[1..], a);
    }
  }

  /** One more action. */
  lemma Go(s: State, actions: seq<Action>, cur: State, a: Action) returns (actions': seq<Action>, cur': State)
    requires cur == Run(s, actions)
    ensures actions' == actions + [a] && cur' == Run(s, actions') == Perform(cur, a)
  {
    RunSnoc(s, actions, a);
    actions', cur' := actions + [a], Perform(cur, a);
  }

  lemma NoActions(s: State)
    ensures Run(s, []) == s
  {
  }

  function Performs(s: State, a: Action, n: nat): State {
    if n == 0 then s else Perform(Performs(s, a, n - 1), a)
  }

  /** The same action n times more. */
  lemma {:induction false} GoTimes(s: State, actions: seq<Action>, a: Action, n: nat) returns (actions': seq<Action>)
    ensures Run(s, actions') == Performs(Run(s, actions), a, n)
  {
    hide Perform, Run;
    if n == 0 {
      actions' := actions;
    } else {
      var before := GoTimes(s, actions, a, n - 1);
      var last;
      actions', last := Go(s, before, Run(s, before), a);
    }
  }

  const DONE: Outcome := Outcome(true, true, Resolver(_ => SymInfo("", "", "", 0), (_, _, _) => None))

  predicate AtStart(s: State) {
    Quiet(s) && s.boot == AwaitReady && s.server == Start && s.target.Attach?
  }

  lemma Offers(s: State)
    requires s.server == Start
    ensures Performs(s, ServerStep(DONE), 2) == s.(id := READY, toClient := true, server := Listen)
  {
    assert Performs(s, ServerStep(DONE), 1) == s.(id := READY, server := Post);
  }

  lemma Connects(s: State)
    requires s.id == READY && s.toClient && s.boot == AwaitReady
    ensures Performs(s, BootStep, 4) == s.(id := CONNECT, toClient := false, toServer := true, boot := Wait(Connect))
  {
    assert Performs(s, BootStep, 1) == s.(toClient := false, boot := CheckReady);
    assert Performs(s, BootStep, 2) == s.(toClient := false, boot := SetId(Connect));
    assert Performs(s, BootStep, 3) == s.(id := CONNECT, toClient := false, boot := Commit(Connect));
  }

  lemma Accepts(s: State)
    requires s.id == CONNECT && s.toServer && s.server == Listen
    ensures Performs(s, ServerStep(DONE), 3) == s.(id := CONFIRM, toServer := false, toClient := true)
  {
    assert Performs(s, ServerStep(DONE), 1) == s.(toServer := false, server := Dispatch);
    assert Performs(s, ServerStep(DONE), 2) == s.(toServer := false, id := CONFIRM, server := Post);
  }

  lemma Hears(s: State)
    requires s.id == CONFIRM && s.toClient && s.boot == Wait(Connect)
    ensures Performs(s, BootStep, 2) == s.(toClient := false, boot := SetId(s.target))
  {
    assert Performs(s, BootStep, 1) == s.(toClient := false, boot := Check(Connect));
  }

  lemma Sends(s: State)
    requires s.boot == SetId(s.target) && s.target.Attach?
    ensures Performs(s, BootStep, 3) ==
            s.(id := ATTACH, buf := Message(s.target), toServer := true, boot := Wait(s.target))
  {
    hide Message, ThreadMove, ServerMove, ReadReply, HasHeartbeat;
    assert Performs(s, BootStep, 1) == s.(id := ATTACH, boot := SetBuf(s.target));
    assert Performs(s, BootStep, 2) == s.(id := ATTACH, buf := Message(s.target), boot := Commit(s.target));
  }

  lemma Attaches(s: State)
    requires s.id == ATTACH && s.toServer && s.server == Listen
    requires KnownRuntime(s.buf)
    ensures Performs(s, ServerStep(DONE), 4) ==
            s.(id := ATTACHED, toServer := false, toClient := true, process := Some(AsPid(s.buf)))
  {
    hide FileName;
    var to := s.(toServer := false, process := Some(AsPid(s.buf)));
    assert Performs(s, ServerStep(DONE), 1) == s.(toServer := false, server := Dispatch);
    assert Performs(s, ServerStep(DONE), 2) == to.(server := Busy(Attaching));
    assert Performs(s, ServerStep(DONE), 3) == to.(id := ATTACHED, server := Post);
  }

  lemma Boots(s: State)
    requires s.id == ATTACHED && s.toClient && s.boot == Wait(s.target) && s.target.Attach?
    ensures Performs(s, BootStep, 3) == s.(toClient := false, boot := Booted)
  {
    assert Performs(s, BootStep, 1) == s.(toClient := false, boot := Check(s.target));
    assert Performs(s, BootStep, 2) == s.(toClient := false, boot := Read(s.target));
  }

  /** From the start to an attached client and a server at rest. */
  lemma BootRun(s: State) returns (acts: seq<Action>)
    requires AtStart(s) && KnownRuntime(Message(s.target))
    ensures Run(s, acts) ==
            s.(id := ATTACHED, buf := Message(s.target), boot := Booted, server := Listen,
               process := Some(s.target.pid))
  {
    hide Run, Perform, Performs, FileName;
    NoActions(s);
    acts := GoTimes(s, [], ServerStep(DONE), 2);
    Offers(s);
    acts := GoTimes(s, acts, BootStep, 4);
    Connects(s.(id := READY, toClient := true, server := Listen));
    Accepts(s.(id := CONNECT, toServer := true, boot := Wait(Connect), server := Listen));
    Hears(s.(id := CONFIRM, toClient := true, boot := Wait(Connect), server := Listen));
    Sends(s.(id := CONFIRM, boot := SetId(s.target), server := Listen));
    var sent := s.(id := ATTACH, buf := Message(s.target), toServer := true, boot := Wait(s.target), server := Listen);
    Attaches(sent);
    Boots(sent.(id := ATTACHED, toServer := false, toClient := true, process := Some(s.target.pid)));
    acts := GoTimes(s, acts, ServerStep(DONE), 3);
    acts := GoTimes(s, acts, BootStep, 2);
    acts := GoTimes(s, acts, BootStep, 3);
    acts := GoTimes(s, acts, ServerStep(DONE), 4);
    acts := GoTimes(s, acts, BootStep, 3);
  }

  /** A thread asks for a search, and the mailbox goes to the server. */
  lemma Searches(s: State, r: Request)
    requires s.holder == None && |s.threads| > 0 && s.threads[0] == Acquire(Search(r))
    ensures var x := Ask(Search(r));
            Performs(s, ThreadStep(0), 4) ==
            s.(id := SEARCHSYMS, buf := Req(r), toServer := true, holder := Some(0), threads := s.threads[0 := Wait(x)])
  {
    var x, a := Ask(Search(r)), ThreadStep(0);
    assert Performs(s, a, 1) == s.(holder := Some(0), threads := s.threads[0 := SetId(x)]);
    assert Performs(s, a, 2) == s.(id := SEARCHSYMS, holder := Some(0), threads := s.threads[0 := SetBuf(x)]);
    assert Performs(s, a, 3) ==
           s.(id := SEARCHSYMS, buf := Req(r), holder := Some(0), threads := s.threads[0 := Commit(x)]);
  }

  /** The server finds that the search failed and goes back to listening. */
  lemma Fails(s: State)
    requires s.id == SEARCHSYMS && s.toServer && s.server == Listen
    ensures Performs(s, ServerStep(DONE), 3) ==
            s.(toServer := false, served := s.served + [Served(Does(SEARCHSYMS, s.buf), DONE.res, NoAnswer)])
  {
    assert Performs(s, ServerStep(DONE), 1) == s.(toServer := false, server := Dispatch);
    assert Performs(s, ServerStep(DONE), 2) == s.(toServer := false, server := Handle(Searching));
  }

  lemma SearchRun(s: State, r: Request) returns (acts: seq<Action>)
    requires AtRest(s) && s.boot == Booted && s.holder == None && |s.issued| == |s.threads| > 0 && s.threads[0] == Idle
    ensures Unanswered(Run(s, acts)) && Run(s, acts).holder == Some(0)
  {
    var s1 := Perform(s, Action.Call(0, Search(r)));
    assert s1 == s.(threads := s.threads[0 := Acquire(Search(r))], issued := s1.issued);
    hide Run, Perform, Performs;
    NoActions(s);
    var cur;
    acts, cur := Go(s, [], s, Action.Call(0, Search(r)));
    Searches(s1, r);
    acts := GoTimes(s, acts, ThreadStep(0), 4);
    Fails(Run(s, acts));
    acts := GoTimes(s, acts, ServerStep(DONE), 3);
  }

  lemma {:induction false} RunAppend(s: State, a: seq<Action>, b: seq<Action>)
    ensures Run(s, a + b) == Run(Run(s, a), b)
    decreases |b|
  {
    if b == [] {
      assert a + b == a;
      NoActions(Run(s, a));
    } else {
      var n := |b| - 1;
      assert a + b == (a + b[..n]) + [b[n]] && b == b[..n] + [b[n]];
      RunAppend(s, a, b[..n]);
      RunSnoc(s, a + b[..n], b[n]);
      RunSnoc(Run(s, a), b[..n], b[n]);
    }
  }

  /** For any number of threads, process of a known runtime and request: some run from the start
      leads to a failed search that waits. */
  lemma SearchFails(threads: nat, pid: int, path: string, id: MsgId, buf: Payload, r: Request)
    returns (acts: seq<Action>)
    requires threads > 0 && KnownRuntime(BaseInfo(pid, path))
    ensures var s := Run(Init(threads, pid, path, id, buf), acts); Unanswered(s) && s.holder == Some(0)
  {
    hide Run, FileName, Unanswered;
    var s0 := Init(threads, pid, path, id, buf);
    var a := BootRun(s0);
    var b := SearchRun(Run(s0, a), r);
    RunAppend(s0, a, b);
    acts := a + b;
  }

  /** How many addresses searchSymbols copies for n matches. */
  function CopyCount(n: nat): nat {
    var size := if n <= MAX_MATCHES then n else MAX_MATCHES;
    if size <= MAX_MATCHES then n else MAX_MATCHES
  }

  /** The copy stays within the response's array just for at most MAX_MATCHES matches. */
  lemma CopyFitsIff(n: nat)
    ensures CopyCount(n) <= MAX_MATCHES <==> n <= MAX_MATCHES
    ensures CopyCount(n) == (if n <= MAX_MATCHES then n else MAX_MATCHES) <==> n <= MAX_MATCHES
  {
  }
}
