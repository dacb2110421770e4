/** The ring buffer shared by any number of producers, serialised by its spinlock, and
    one consumer, as a transition system over single memory accesses (sequentially
    consistent). Producers insert single elements or write in bulk, the consumer removes
    single elements or reads in bulk. Every sequence of actions is a run. */
module RingConcurrent {
  import opened Arithmetic
  import opened RingIndex

  /** A call of `insert`, or one round of a bulk write. */
  datatype Job<T> = One(v: T) | Bulk(vs: seq<T>)

  /** Where a producer is in `lock(); insert(v); unlock();`, or with a bulk write inside.
      `over` is what did not fit, k how many elements are stored, h the next index. */
  datatype Producer<T> =
    | Idle
    | Load(j: Job<T>)             // first half of try_lock: is the lock free?
    | Exchange(j: Job<T>)         // second half: set it and see what it was
    | ReadHead(j: Job<T>)
    | Test(j: Job<T>, h: nat)     // read tail; compare, or measure what is free
    | Store(vs: seq<T>, over: seq<T>, k: nat, h: nat)
    | Publish(vs: seq<T>, over: seq<T>, h: nat)
    | Unlock(answers: seq<(T, bool)>)
  {
    predicate Critical() {
      !Idle? && !Load? && !Exchange?
    }

    /** In a single insert, up to the test that not every shape answers rightly. */
    predicate Single() {
      (Load? || Exchange? || ReadHead? || Test?) && j.One?
    }
  }

  /** How much the consumer wants: one element, or up to so many. */
  datatype Want = Single | UpTo(n: nat)

  /** Where the consumer is in `remove(x)`, or in one round of a bulk read: `got` is what is
      copied, `left` what is still to be copied, t the next index. */
  datatype Consumer<T> =
    | Rest
    | ReadTail(w: Want)
    | Compare(w: Want, t: nat)    // read head; compare, or measure what is there
    | Fetch(t: nat, got: seq<T>, left: nat)
    | Release(t: nat, got: seq<T>)

  /** A job whose test was passed when so many slots were free. */
  datatype Tried<T> = Tried(j: Job<T>, free: nat)

  /** A read whose comparison was made when so many elements were there. */
  datatype Asked = Asked(w: Want, there: nat)

  /** The shared memory and the program counters, together with what has happened:
      every publication in order; of every producer the calls made, the ones tested and what
      the finished ones answered for each element; and the reads compared and what the
      consumer was given. */
  datatype State<T> = State(
    locked: bool, head: nat, tail: nat, data: seq<T>,
    producers: seq<Producer<T>>, consumer: Consumer<T>,
    published: seq<(nat, T)>, issued: seq<seq<Job<T>>>, tried: seq<seq<Tried<T>>>, returned: seq<seq<(T, bool)>>,
    asked: seq<Asked>, taken: seq<T>)

  datatype Action<T> =
    | Call(p: nat, j: Job<T>)
    | Step(p: nat)
    | CallRemove(w: Want)
    | StepRemove

  predicate WellFormed<T>(ix: IndexType, s: State<T>) {
    && ix.Valid() && |s.data| == ix.size
    && |s.producers| == |s.returned| == |s.issued| == |s.tried|
  }

  function Init<T>(ix: IndexType, producers: nat, x: T): State<T> {
    State(false, 0, 0, seq(ix.size, _ => x), seq(producers, _ => Idle), Rest, [],
          seq(producers, _ => []), seq(producers, _ => []), seq(producers, _ => []), [], [])
  }

  function At<T>(s: State<T>, p: nat, pc: Producer<T>): State<T>
    requires p < |s.producers|
  {
    s.(producers := s.producers[p := pc])
  }

  function Answers<T>(vs: seq<T>, ok: bool): (r: seq<(T, bool)>)
    ensures |r| == |vs|
  {
    seq(|vs|, i requires 0 <= i < |vs| => (vs[i], ok))
  }

  function Tagged<T>(p: nat, vs: seq<T>): (r: seq<(nat, T)>)
    ensures |r| == |vs|
  {
    seq(|vs|, i requires 0 <= i < |vs| => (p, vs[i]))
  }

  /** What becomes of a job once head and tail are read. */
  function Tested<T>(ix: IndexType, j: Job<T>, h: nat, tail: nat): Producer<T> {
    match j
    case One(v) => if ix.FullTest(h, tail) then Unlock([(v, false)]) else Store([v], [], 0, h)
    case Bulk(vs) =>
      var n := Min(|vs|, ix.Truncate(ix.size - (h - tail)));
      if n == 0 then Publish([], vs, h) else Store(vs[..n], vs[n..], 0, h)
  }

  /** How many slots are free. */
  function Free<T>(ix: IndexType, s: State<T>): nat {
    if |s.published| <= |s.taken| + ix.Capacity() then |s.taken| + ix.Capacity() - |s.published| else 0
  }

  /** How many elements are there. */
  function There<T>(s: State<T>): nat {
    if |s.taken| <= |s.published| then |s.published| - |s.taken| else 0
  }

  function ProducerStep<T>(ix: IndexType, s: State<T>, p: nat): State<T>
    requires WellFormed(ix, s) && p < |s.producers|
  {
    match s.producers[p]
    case Idle => s
    case Load(j) => if s.locked then s else At(s, p, Exchange(j))
    case Exchange(j) => At(s, p, if s.locked then Load(j) else ReadHead(j)).(locked := true)
    case ReadHead(j) => At(s, p, Test(j, s.head))
    case Test(j, h) =>
      At(s, p, Tested(ix, j, h, s.tail)).(tried := s.tried[p := s.tried[p] + [Tried(j, Free(ix, s))]])
    case Store(vs, over, k, h) =>
      if k >= |vs| then s
      else
        At(s, p, if k + 1 == |vs| then Publish(vs, over, ix.Next(h)) else Store(vs, over, k + 1, ix.Next(h)))
        .(data := s.data[ix.Slot(h) := vs[k]])
    case Publish(vs, over, h) =>
      At(s, p, Unlock(Answers(vs, true) + Answers(over, false))).(head := h, published := s.published + Tagged(p, vs))
    case Unlock(answers) => At(s, p, Idle).(locked := false, returned := s.returned[p := s.returned[p] + answers])
  }

  function Measured<T>(ix: IndexType, w: Want, t: nat, head: nat): Consumer<T> {
    match w
    case Single => if t == head then Rest else Fetch(t, [], 1)
    case UpTo(n) =>
      var m := Min(n, ix.Truncate(head - t));
      if m == 0 then Rest else Fetch(t, [], m)
  }

  function ConsumerStep<T>(ix: IndexType, s: State<T>): State<T>
    requires WellFormed(ix, s)
  {
    match s.consumer
    case Rest => s
    case ReadTail(w) => s.(consumer := Compare(w, s.tail))
    case Compare(w, t) => s.(consumer := Measured(ix, w, t, s.head), asked := s.asked + [Asked(w, There(s))])
    case Fetch(t, got, left) =>
      var got' := got + [s.data[ix.Slot(t)]];
      s.(consumer := if left <= 1 then Release(ix.Next(t), got') else Fetch(ix.Next(t), got', left - 1))
    case Release(t, got) => s.(consumer := Rest, tail := t, taken := s.taken + got)
  }

  function Perform<T>(ix: IndexType, s: State<T>, a: Action<T>): (s': State<T>)
    requires WellFormed(ix, s)
    ensures WellFormed(ix, s') && |s'.producers| == |s.producers|
  {
    match a
    case Call(p, j) =>
      if p < |s.producers| && s.producers[p].Idle?
      then At(s, p, Load(j)).(issued := s.issued[p := s.issued[p] + [j]]) else s
    case Step(p) => if p < |s.producers| then ProducerStep(ix, s, p) else s
    case CallRemove(w) => if s.consumer.Rest? then s.(consumer := ReadTail(w)) else s
    case StepRemove => ConsumerStep(ix, s)
  }

  function Run<T>(ix: IndexType, s: State<T>, actions: seq<Action<T>>): (s': State<T>)
    requires WellFormed(ix, s)
    ensures WellFormed(ix, s') && |s'.producers| == |s.producers|
    decreases |actions|
  {
    if actions == [] then s else Run(ix, Perform(ix, s, actions[0]), actions[1..])
  }

  function Values<T>(published: seq<(nat, T)>): (vs: seq<T>)
    ensures |vs| == |published|
  {
    seq(|published|, i requires 0 <= i < |published| => published[i].1)
  }

  /** What producer p published, in order. */
  function By<T>(p: nat, published: seq<(nat, T)>): seq<T> {
    if published == [] then []
    else
      var last := published[|published| - 1];
      By(p, published[..|published| - 1]) + if last.0 == p then [last.1] else []
  }

  /** The elements that were answered with true, in order. */
  function Accepted<T>(answers: seq<(T, bool)>): seq<T> {
    if answers == [] then []
    else
      var last := answers[|answers| - 1];
      Accepted(answers[..|answers| - 1]) + if last.1 then [last.0] else []
  }

  lemma {:induction false} ByAppend<T>(q: nat, published: seq<(nat, T)>, p: nat, vs: seq<T>)
    ensures By(q, published + Tagged(p, vs)) == By(q, published) + if q == p then vs else []
    decreases |vs|
  {
    if vs == [] {
      assert published + Tagged(p, vs) == published;
    } else {
      var n := |vs| - 1;
      var all := published + Tagged(p, vs);
      assert all[..|all| - 1] == published + Tagged(p, vs[..n]) && all[|all| - 1] == (p, vs[n]);
      ByAppend(q, published, p, vs[..n]);
      assert vs == vs[..n] + [vs[n]];
    }
  }

  lemma {:induction false} AcceptedAppend<T>(a: seq<(T, bool)>, b: seq<(T, bool)>)
    ensures Accepted(a + b) == Accepted(a) + Accepted(b)
    decreases |b|
  {
    if b == [] {
      assert a + b == a;
    } else {
      var n := |b| - 1;
      assert (a + b)[..|a + b| - 1] == a + b[..n];
      AcceptedAppend(a, b[..n]);
    }
  }

  lemma {:induction false} AcceptedAnswers<T>(vs: seq<T>, ok: bool)
    ensures Accepted(Answers(vs, ok)) == if ok then vs else []
    decreases |vs|
  {
    if vs != [] {
      var n := |vs| - 1;
      assert Answers(vs, ok)[..n] == Answers(vs[..n], ok);
      AcceptedAnswers(vs[..n], ok);
      assert vs == vs[..n] + [vs[n]];
    }
  }

  /** At most one producer is in the critical section, and then the lock is taken. */
  ghost predicate Exclusive<T>(s: State<T>) {
    && (forall p, q | 0 <= p < |s.producers| && 0 <= q < |s.producers| &&
                      s.producers[p].Critical() && s.producers[q].Critical() :: p == q)
    && (s.locked <==> exists p | 0 <= p < |s.producers| :: s.producers[p].Critical())
  }

  ghost predicate Stored<T>(ix: IndexType, s: State<T>)
    requires WellFormed(ix, s)
  {
    && |s.taken| <= |s.published| <= |s.taken| + ix.Capacity()
    && s.head == Wrapped(ix, |s.published|)
    && s.tail == Wrapped(ix, |s.taken|)
    && (forall i | |s.taken| <= i < |s.published| :: s.data[Position(ix.Capacity(), i)] == s.published[i].1)
    && s.taken == Values(s.published)[..|s.taken|]
  }

  /** `k` elements of `vs` are stored behind the published ones. */
  ghost predicate StoredBehind<T>(ix: IndexType, s: State<T>, vs: seq<T>, k: nat)
    requires WellFormed(ix, s) && k <= |vs|
  {
    && |s.published| + |vs| <= |s.taken| + ix.Capacity()
    && forall i | 0 <= i < k :: s.data[Position(ix.Capacity(), |s.published| + i)] == vs[i]
  }

  ghost predicate ProducerKnows<T>(ix: IndexType, s: State<T>, pc: Producer<T>)
    requires WellFormed(ix, s)
  {
    match pc
    case Test(_, h) => h == s.head
    case Store(vs, _, k, h) =>
      k < |vs| && h == Wrapped(ix, |s.published| + k) && StoredBehind(ix, s, vs, k)
    case Publish(vs, _, h) =>
      h == Wrapped(ix, |s.published| + |vs|) && StoredBehind(ix, s, vs, |vs|)
    case _ => true
  }

  /** `got` are the next elements to be taken. */
  ghost predicate Copied<T>(s: State<T>, got: seq<T>) {
    && |s.taken| + |got| <= |s.published|
    && got == Values(s.published)[|s.taken|..|s.taken| + |got|]
  }

  ghost predicate ConsumerKnows<T>(ix: IndexType, s: State<T>)
    requires WellFormed(ix, s)
  {
    match s.consumer
    case Compare(_, t) => t == s.tail
    case Fetch(t, got, left) =>
      && t == Wrapped(ix, |s.taken| + |got|) && Copied(s, got)
      && 1 <= left && |s.taken| + |got| + left <= |s.published|
    case Release(t, got) => t == Wrapped(ix, |s.taken| + |got|) && Copied(s, got)
    case _ => true
  }

  ghost predicate Recorded<T>(s: State<T>)
    requires |s.producers| == |s.returned|
  {
    forall p | 0 <= p < |s.producers| ::
      By(p, s.published) == Accepted(s.returned[p]) +
        (match s.producers[p] case Unlock(answers) => Accepted(answers) case _ => [])
  }

  /** With a shape that does not always tell that it is full, nobody is in a single insert. */
  ghost predicate Suited<T>(ix: IndexType, s: State<T>) {
    ix.TellsFull() || forall p | 0 <= p < |s.producers| :: !s.producers[p].Single()
  }

  ghost predicate Inv<T>(ix: IndexType, s: State<T>) {
    && WellFormed(ix, s)
    && Exclusive(s)
    && Stored(ix, s)
    && (forall p | 0 <= p < |s.producers| :: ProducerKnows(ix, s, s.producers[p]))
    && ConsumerKnows(ix, s)
    && Recorded(s)
    && Suited(ix, s)
  }

  lemma InitInv<T>(ix: IndexType, producers: nat, x: T)
    requires ix.Valid()
    ensures Inv(ix, Init(ix, producers, x))
  {
    RemainderUnique(0, ix.Modulus(), 0, 0);
  }

  /** What one atomic step of producer p does to the other fields of interest. */
  lemma ExclusiveKept<T>(ix: IndexType, s: State<T>, p: nat)
    requires Inv(ix, s) && p < |s.producers|
    ensures var s' := ProducerStep(ix, s, p); Exclusive(s') && Suited(ix, s')
  {
    hide Stored, ProducerKnows, ConsumerKnows, Recorded;
    hide IndexType.Slot, IndexType.Next, IndexType.FullTest, IndexType.Truncate, Answers, Tagged;
    var s' := ProducerStep(ix, s, p);
    assert forall q | 0 <= q < |s.producers| && q != p :: s'.producers[q] == s.producers[q];
    if s.producers[p].Critical() {
      assert s.locked;
    }
    if s'.producers[p].Critical() {
      assert s'.locked;
    }
  }

  /** The test of a job: what is to be stored fits behind what is published. */
  lemma TestFits<T>(ix: IndexType, s: State<T>, j: Job<T>)
    requires WellFormed(ix, s) && Stored(ix, s) && (ix.TellsFull() || j.Bulk?)
    ensures ProducerKnows(ix, s, Tested(ix, j, s.head, s.tail))
    ensures match j
            case One(_) => Tested(ix, j, s.head, s.tail).Unlock? <==> |s.published| == |s.taken| + ix.Capacity()
            case Bulk(vs) =>
              var n := Min(|vs|, |s.taken| + ix.Capacity() - |s.published|);
              Tested(ix, j, s.head, s.tail) ==
                if n == 0 then Publish([], vs, s.head) else Store(vs[..n], vs[n..], 0, s.head)
  {
    hide Position, Wrapped, IndexType.FullTest, IndexType.Truncate, IndexType.Valid;
    FullTestExact(ix, |s.published|, |s.taken|);
    FreeWraps(ix, |s.published|, |s.taken|);
  }

  /** One more element stored behind the published ones spoils nothing. */
  lemma StoreKeeps<T>(ix: IndexType, s: State<T>, vs: seq<T>, k: nat)
    requires WellFormed(ix, s) && Stored(ix, s) && k < |vs| && StoredBehind(ix, s, vs, k)
    ensures ix.Slot(Wrapped(ix, |s.published| + k)) < |s.data|
    ensures ix.Next(Wrapped(ix, |s.published| + k)) == Wrapped(ix, |s.published| + k + 1)
    ensures var s' := s.(data := s.data[ix.Slot(Wrapped(ix, |s.published| + k)) := vs[k]]);
            Stored(ix, s') && StoredBehind(ix, s', vs, k + 1)
  {
    hide Position, Wrapped, IndexType.Slot, IndexType.Next, IndexType.Valid;
    var n := |s.published| + k;
    SlotsExist(ix);
    WrappedRefines(ix, n, n);
    forall i | |s.taken| <= i < n ensures Position(ix.Capacity(), i) != Position(ix.Capacity(), n) {
      SlotsDistinct(ix.Capacity(), i, n);
    }
  }

  /** Publishing makes the stored elements part of the queue. */
  lemma PublishKeeps<T>(ix: IndexType, s: State<T>, p: nat, vs: seq<T>)
    requires WellFormed(ix, s) && Stored(ix, s) && StoredBehind(ix, s, vs, |vs|)
    ensures var s' := s.(head := Wrapped(ix, |s.published| + |vs|), published := s.published + Tagged(p, vs));
            Stored(ix, s') && Values(s'.published)[..|s.published|] == Values(s.published)
  {
    hide Position, Wrapped, IndexType.Valid;
    var s' := s.(head := Wrapped(ix, |s.published| + |vs|), published := s.published + Tagged(p, vs));
    SlotsExist(ix);
    assert Values(s'.published)[..|s.published|] == Values(s.published);
    assert Values(s'.published)[..|s.taken|] == Values(s.published)[..|s.taken|];
    forall i | |s.taken| <= i < |s'.published| ensures s'.data[Position(ix.Capacity(), i)] == s'.published[i].1 {
      if i >= |s.published| {
        assert i == |s.published| + (i - |s.published|);
        assert s'.published[i] == (p, vs[i - |s.published|]);
      } else {
        assert s'.published[i] == s.published[i];
      }
    }
  }

  lemma SliceOfPrefix<T>(a: seq<T>, k: nat, n: nat, m: nat)
    requires n <= m <= k <= |a|
    ensures a[..k][n..m] == a[n..m]
  {
  }

  /** What the consumer knows depends on the published beginning only. */
  lemma ConsumerKnowsMore<T>(ix: IndexType, s: State<T>, s': State<T>)
    requires WellFormed(ix, s) && WellFormed(ix, s') && ConsumerKnows(ix, s)
    requires s'.consumer == s.consumer && s'.taken == s.taken && s'.tail == s.tail && |s.published| <= |s'.published|
    requires Values(s'.published)[..|s.published|] == Values(s.published)
    ensures ConsumerKnows(ix, s')
  {
    hide Wrapped, Position, Values, IndexType.Valid, IndexType.Modulus;
    if s.consumer.Fetch? || s.consumer.Release? {
      SliceOfPrefix(Values(s'.published), |s.published|, |s.taken|, |s.taken| + |s.consumer.got|);
    }
  }

  ghost predicate StepKeeps<T>(ix: IndexType, s: State<T>, p: nat)
    requires WellFormed(ix, s) && p < |s.producers|
  {
    var s' := ProducerStep(ix, s, p);
    WellFormed(ix, s') && Stored(ix, s') && ConsumerKnows(ix, s') && ProducerKnows(ix, s', s'.producers[p])
  }

  lemma StoredKept<T>(ix: IndexType, s: State<T>, p: nat)
    requires Inv(ix, s) && p < |s.producers|
    ensures StepKeeps(ix, s, p)
  {
    hide Exclusive, Recorded, Stored, ConsumerKnows, ProducerKnows, StepKeeps, IndexType.Valid;
    assert ProducerKnows(ix, s, s.producers[p]);
    if s.producers[p].Test? {
      assert ix.TellsFull() || !s.producers[p].Single();
      TestKept(ix, s, p);
    } else if s.producers[p].Store? {
      StoreKept(ix, s, p);
    } else if s.producers[p].Publish? {
      PublishKept(ix, s, p);
    } else {
      LockKept(ix, s, p);
    }
  }

  lemma TestKept<T>(ix: IndexType, s: State<T>, p: nat)
    requires WellFormed(ix, s) && Stored(ix, s) && ConsumerKnows(ix, s) && p < |s.producers|
    requires s.producers[p].Test? && ProducerKnows(ix, s, s.producers[p]) && (ix.TellsFull() || s.producers[p].j.Bulk?)
    ensures StepKeeps(ix, s, p)
  {
    hide Tested, Wrapped, Position, Values, IndexType.Valid, IndexType.Modulus;
    TestFits(ix, s, s.producers[p].j);
    KnowsSame(ix, s, ProducerStep(ix, s, p), ProducerStep(ix, s, p).producers[p]);
  }

  lemma StoreKept<T>(ix: IndexType, s: State<T>, p: nat)
    requires WellFormed(ix, s) && Stored(ix, s) && ConsumerKnows(ix, s) && p < |s.producers|
    requires s.producers[p].Store? && ProducerKnows(ix, s, s.producers[p])
    ensures StepKeeps(ix, s, p)
  {
    hide Wrapped, Position, Values, IndexType.Slot, IndexType.Next, IndexType.Valid, IndexType.Modulus;
    StoreKeeps(ix, s, s.producers[p].vs, s.producers[p].k);
  }

  lemma PublishKept<T>(ix: IndexType, s: State<T>, p: nat)
    requires WellFormed(ix, s) && Stored(ix, s) && ConsumerKnows(ix, s) && p < |s.producers|
    requires s.producers[p].Publish? && ProducerKnows(ix, s, s.producers[p])
    ensures StepKeeps(ix, s, p)
  {
    hide Wrapped, Position, Values, Tagged, Answers, IndexType.Valid, IndexType.Modulus;
    PublishKeeps(ix, s, p, s.producers[p].vs);
    ConsumerKnowsMore(ix, s, ProducerStep(ix, s, p));
  }

  lemma LockKept<T>(ix: IndexType, s: State<T>, p: nat)
    requires WellFormed(ix, s) && Stored(ix, s) && ConsumerKnows(ix, s) && p < |s.producers|
    requires !s.producers[p].Test? && !s.producers[p].Store? && !s.producers[p].Publish?
    ensures StepKeeps(ix, s, p)
  {
    hide Stored, ConsumerKnows, IndexType.Valid, IndexType.Modulus;
    SharedSame(ix, s, ProducerStep(ix, s, p));
  }

  lemma SharedSame<T>(ix: IndexType, s: State<T>, s': State<T>)
    requires WellFormed(ix, s) && WellFormed(ix, s') && Stored(ix, s) && ConsumerKnows(ix, s)
    requires s'.head == s.head && s'.tail == s.tail && s'.data == s.data && s'.consumer == s.consumer
    requires s'.published == s.published && s'.taken == s.taken
    ensures Stored(ix, s') && ConsumerKnows(ix, s')
  {
    hide Wrapped, Position, Values, IndexType.Valid, IndexType.Modulus;
  }

  lemma RecordedKept<T>(ix: IndexType, s: State<T>, p: nat)
    requires Inv(ix, s) && p < |s.producers|
    ensures Recorded(ProducerStep(ix, s, p))
  {
    hide Exclusive, Stored, ProducerKnows, ConsumerKnows, Suited, By, Accepted, Tagged, Answers;
    hide IndexType.Slot, IndexType.Next, IndexType.FullTest, IndexType.Truncate, IndexType.Valid;
    var s' := ProducerStep(ix, s, p);
    assert forall q | 0 <= q < |s.producers| && q != p :: s'.producers[q] == s.producers[q];
    match s.producers[p]
    case Publish(vs, over, h) =>
      forall q | 0 <= q < |s.producers| ensures By(q, s'.published) == By(q, s.published) + if q == p then vs else [] {
        ByAppend(q, s.published, p, vs);
      }
      AcceptedAppend(Answers(vs, true), Answers(over, false));
      AcceptedAnswers(vs, true);
      AcceptedAnswers(over, false);
    case Unlock(answers) => AcceptedAppend(s.returned[p], answers);
    case Test(j, h) => RefusedNone(ix, j, h, s.tail);
    case _ =>
  }

  lemma RefusedNone<T>(ix: IndexType, j: Job<T>, h: nat, tail: nat)
    ensures Tested(ix, j, h, tail).Unlock? ==> Accepted(Tested(ix, j, h, tail).answers) == []
  {
    if j.One? {
      assert [(j.v, false)] == Answers([j.v], false);
      AcceptedAnswers([j.v], false);
    }
  }

  /** A producer in the critical section is the only one, so the others know nothing that
      its step could spoil. */
  lemma OthersKnow<T>(ix: IndexType, s: State<T>, p: nat, q: nat)
    requires Inv(ix, s) && p < |s.producers| && q < |s.producers| && q != p
    ensures var s' := ProducerStep(ix, s, p); ProducerKnows(ix, s', s'.producers[q])
  {
    hide Stored, ConsumerKnows, Recorded, Position, StoredBehind, Tested, Tagged, Answers;
    hide IndexType.Slot, IndexType.Next, IndexType.FullTest, IndexType.Valid;
    assert ProducerKnows(ix, s, s.producers[q]);
    assert !(s.producers[p].Critical() && s.producers[q].Critical());
    var s' := ProducerStep(ix, s, p);
    assert s'.producers[q] == s.producers[q];
    if s.producers[q].Store? || s.producers[q].Publish? {
      assert s'.data == s.data && s'.published == s.published && s'.taken == s.taken;
      KnowsSame(ix, s, s', s.producers[q]);
    }
  }

  lemma KnowsSame<T>(ix: IndexType, s: State<T>, s': State<T>, pc: Producer<T>)
    requires WellFormed(ix, s) && WellFormed(ix, s') && ProducerKnows(ix, s, pc)
    requires s'.data == s.data && s'.published == s.published && |s.taken| <= |s'.taken| && s'.head == s.head
    ensures ProducerKnows(ix, s', pc)
  {
    hide Wrapped, Position, IndexType.Valid, IndexType.Modulus;
  }

  lemma ConsumerStepKeeps<T>(ix: IndexType, s: State<T>)
    requires Inv(ix, s)
    ensures Inv(ix, ConsumerStep(ix, s))
  {
    hide Exclusive, Recorded, Suited, ProducerKnows, Stored, ConsumerKnows, ConsumerStep, IndexType.Valid;
    var s' := ConsumerStep(ix, s);
    ConsumerFrame(ix, s);
    forall p | 0 <= p < |s.producers| ensures ProducerKnows(ix, s', s'.producers[p]) {
      assert ProducerKnows(ix, s, s.producers[p]);
      KnowsSame(ix, s, s', s.producers[p]);
    }
    ConsumerLeavesProducers(ix, s);
    ConsumerStoredKept(ix, s);
  }

  ghost predicate ConsumerKeeps<T>(ix: IndexType, s: State<T>)
    requires WellFormed(ix, s)
  {
    var s' := ConsumerStep(ix, s);
    WellFormed(ix, s') && Stored(ix, s') && ConsumerKnows(ix, s')
  }

  lemma ConsumerStoredKept<T>(ix: IndexType, s: State<T>)
    requires WellFormed(ix, s) && Stored(ix, s) && ConsumerKnows(ix, s)
    ensures ConsumerKeeps(ix, s)
  {
    hide Stored, ConsumerKnows, ConsumerKeeps, IndexType.Valid;
    if s.consumer.Compare? {
      CompareKept(ix, s);
    } else if s.consumer.Fetch? {
      FetchKept(ix, s);
    } else if s.consumer.Release? {
      ReleaseKept(ix, s);
    } else {
      RestKept(ix, s);
    }
  }

  lemma CompareKept<T>(ix: IndexType, s: State<T>)
    requires WellFormed(ix, s) && Stored(ix, s) && ConsumerKnows(ix, s) && s.consumer.Compare?
    ensures ConsumerKeeps(ix, s)
  {
    hide Position, Wrapped, Values, Measured, IndexType.Valid, IndexType.Modulus;
    MeasureFits(ix, s, s.consumer.w);
  }

  lemma FetchKept<T>(ix: IndexType, s: State<T>)
    requires WellFormed(ix, s) && Stored(ix, s) && ConsumerKnows(ix, s) && s.consumer.Fetch?
    ensures ConsumerKeeps(ix, s)
  {
    hide Position, Wrapped, Values, IndexType.Slot, IndexType.Next, IndexType.Valid, IndexType.Modulus;
    FetchKeeps(ix, s, s.consumer.got);
  }

  lemma ReleaseKept<T>(ix: IndexType, s: State<T>)
    requires WellFormed(ix, s) && Stored(ix, s) && ConsumerKnows(ix, s) && s.consumer.Release?
    ensures ConsumerKeeps(ix, s)
  {
    hide Position, Wrapped, Values, IndexType.Valid, IndexType.Modulus;
    var got, n := s.consumer.got, |s.taken|;
    var values := Values(s.published);
    assert values[..n + |got|] == values[..n] + values[n..n + |got|];
  }

  lemma RestKept<T>(ix: IndexType, s: State<T>)
    requires WellFormed(ix, s) && Stored(ix, s) && ConsumerKnows(ix, s)
    requires s.consumer.Rest? || s.consumer.ReadTail?
    ensures ConsumerKeeps(ix, s)
  {
    hide Position, Wrapped, Values, IndexType.Valid, IndexType.Modulus;
  }

  /** What a consumer sets out to copy is there. */
  lemma MeasureFits<T>(ix: IndexType, s: State<T>, w: Want)
    requires WellFormed(ix, s) && Stored(ix, s)
    ensures ConsumerKnows(ix, s.(consumer := Measured(ix, w, s.tail, s.head)))
    ensures var there := |s.published| - |s.taken|;
            var n := match w case Single => Min(1, there) case UpTo(n) => Min(n, there);
            Measured<T>(ix, w, s.tail, s.head) == if n == 0 then Rest else Fetch(s.tail, [], n)
  {
    hide Wrapped, IndexType.Valid, IndexType.Truncate;
    WrappedRefines(ix, |s.published|, |s.taken|);
    assert Values(s.published)[|s.taken|..|s.taken|] == [];
  }

  lemma FetchKeeps<T>(ix: IndexType, s: State<T>, got: seq<T>)
    requires WellFormed(ix, s) && Stored(ix, s) && Copied(s, got) && |s.taken| + |got| < |s.published|
    ensures ix.Slot(Wrapped(ix, |s.taken| + |got|)) < |s.data|
    ensures ix.Next(Wrapped(ix, |s.taken| + |got|)) == Wrapped(ix, |s.taken| + |got| + 1)
    ensures Copied(s, got + [s.data[ix.Slot(Wrapped(ix, |s.taken| + |got|))]])
  {
    hide Position, Wrapped, IndexType.Slot, IndexType.Next, IndexType.Valid;
    var n := |s.taken| + |got|;
    SlotsExist(ix);
    WrappedRefines(ix, n, n);
    assert Values(s.published)[|s.taken|..n + 1] == Values(s.published)[|s.taken|..n] + [s.published[n].1];
  }

  lemma ConsumerLeavesProducers<T>(ix: IndexType, s: State<T>)
    requires Inv(ix, s)
    ensures var s' := ConsumerStep(ix, s); Exclusive(s') && Recorded(s') && Suited(ix, s')
  {
    hide ConsumerStep, By, Accepted, Stored, ConsumerKnows, ProducerKnows;
    ConsumerFrame(ix, s);
  }

  lemma ConsumerFrame<T>(ix: IndexType, s: State<T>)
    requires WellFormed(ix, s)
    ensures var s' := ConsumerStep(ix, s);
            && WellFormed(ix, s')
            && s'.locked == s.locked && s'.producers == s.producers && s'.head == s.head && s'.data == s.data
            && s'.published == s.published && s'.returned == s.returned && s.taken <= s'.taken
            && s'.issued == s.issued && s'.tried == s.tried
  {
  }

  /** Shapes that do not always tell that they are full are for bulk writes only. */
  predicate Suits<T>(ix: IndexType, a: Action<T>) {
    ix.TellsFull() || (a.Call? ==> a.j.Bulk?)
  }

  lemma PerformKeeps<T>(ix: IndexType, s: State<T>, a: Action<T>)
    requires Suits(ix, a) && Inv(ix, s)
    ensures Inv(ix, Perform(ix, s, a))
  {
    hide ProducerStep, ConsumerStep, ProducerKnows, Exclusive, Recorded, Stored, ConsumerKnows, Suited;
    var s' := Perform(ix, s, a);
    match a
    case Call(p, j) =>
      CallKeeps(ix, s, p, j);
    case Step(p) =>
      if p < |s.producers| {
        ExclusiveKept(ix, s, p);
        StoredKept(ix, s, p);
        RecordedKept(ix, s, p);
        forall q | 0 <= q < |s.producers| ensures ProducerKnows(ix, s', s'.producers[q]) {
          if q != p {
            OthersKnow(ix, s, p, q);
          }
        }
      }
    case CallRemove(w) =>
      CallRemoveKeeps(ix, s, w);
    case StepRemove =>
      ConsumerStepKeeps(ix, s);
  }

  lemma CallKeeps<T>(ix: IndexType, s: State<T>, p: nat, j: Job<T>)
    requires Inv(ix, s) && Suits(ix, Call(p, j))
    ensures Inv(ix, Perform(ix, s, Call(p, j)))
  {
    hide Position, Wrapped, By, Accepted, StoredBehind, Values, IndexType.Slot, IndexType.Next, IndexType.Valid;
    var s' := Perform(ix, s, Call(p, j));
    if p < |s.producers| && s.producers[p].Idle? {
      assert forall q | 0 <= q < |s.producers| && q != p :: s'.producers[q] == s.producers[q];
      forall q | 0 <= q < |s.producers| ensures ProducerKnows(ix, s', s'.producers[q]) {
        assert ProducerKnows(ix, s, s.producers[q]);
        KnowsSame(ix, s, s', s.producers[q]);
      }
    }
  }

  lemma CallRemoveKeeps<T>(ix: IndexType, s: State<T>, w: Want)
    requires Inv(ix, s)
    ensures Inv(ix, Perform(ix, s, CallRemove(w)))
  {
    hide Position, Wrapped, By, Accepted, ProducerKnows, IndexType.Slot, IndexType.Next, IndexType.Valid;
    var s' := Perform(ix, s, CallRemove(w));
    forall q | 0 <= q < |s.producers| ensures ProducerKnows(ix, s', s'.producers[q]) {
      assert ProducerKnows(ix, s, s.producers[q]);
      KnowsSame(ix, s, s', s.producers[q]);
    }
  }

  lemma {:induction false} RunKeeps<T>(ix: IndexType, s: State<T>, actions: seq<Action<T>>)
    requires Inv(ix, s) && forall i :: 0 <= i < |actions| ==> Suits(ix, actions[i])
    ensures Inv(ix, Run(ix, s, actions))
    decreases |actions|
  {
    if actions != [] {
      PerformKeeps(ix, s, actions[0]);
      RunKeeps(ix, Perform(ix, s, actions[0]), actions[1..]);
    }
  }

  /** What may be observed of a queue: consumed values are a prefix of the inserted ones,
      never more are outstanding than there are slots, every producer's accepted values appear in
      its own order, one producer at a time is inside, and the two sides never touch the
      same slot. */
  ghost predicate IsQueue<T>(ix: IndexType, s: State<T>)
    requires WellFormed(ix, s)
  {
    && s.taken <= Values(s.published)
    && |s.published| <= |s.taken| + ix.Capacity()
    && Recorded(s)
    && (forall p, q | 0 <= p < |s.producers| && 0 <= q < |s.producers| &&
                      s.producers[p].Critical() && s.producers[q].Critical() :: p == q)
    && (forall p | 0 <= p < |s.producers| && s.producers[p].Store? && s.consumer.Fetch? ::
          ix.Slot(s.producers[p].h) != ix.Slot(s.consumer.t))
  }

  lemma InvIsQueue<T>(ix: IndexType, s: State<T>)
    requires Inv(ix, s)
    ensures IsQueue(ix, s)
  {
    hide Position, Wrapped, IndexType.Slot, Recorded;
    forall p | 0 <= p < |s.producers| && s.producers[p].Store? && s.consumer.Fetch?
      ensures ix.Slot(s.producers[p].h) != ix.Slot(s.consumer.t)
    {
      assert ProducerKnows(ix, s, s.producers[p]);
      var i, j := |s.published| + s.producers[p].k, |s.taken| + |s.consumer.got|;
      WrappedRefines(ix, i, i);
      WrappedRefines(ix, j, j);
      SlotsDistinct(ix.Capacity(), j, i);
    }
  }

  /** The answers are exact at the instant of the comparison: an insert is refused just when
      every slot is taken, a bulk write sets out to store just what is free and no
      more than asked, a remove is refused just when nothing is outstanding, and a bulk read
      sets out to copy just what is outstanding and no more than asked. */
  lemma AnswersAreExact<T>(ix: IndexType, s: State<T>, p: nat)
    requires Inv(ix, s) && p < |s.producers|
    ensures s.producers[p].Test? ==>
              var pc, free := ProducerStep(ix, s, p).producers[p], |s.taken| + ix.Capacity() - |s.published|;
              match s.producers[p].j
              case One(v) => pc == if free == 0 then Unlock([(v, false)]) else Store([v], [], 0, s.head)
              case Bulk(vs) =>
                var n := Min(|vs|, free);
                pc == if n == 0 then Publish([], vs, s.head) else Store(vs[..n], vs[n..], 0, s.head)
    ensures s.consumer.Compare? ==>
              var there := |s.published| - |s.taken|;
              var n := match s.consumer.w case Single => Min(1, there) case UpTo(n) => Min(n, there);
              ConsumerStep(ix, s).consumer == if n == 0 then Rest else Fetch(s.tail, [], n)
  {
    hide Stored, Wrapped, IndexType.Truncate, IndexType.FullTest, IndexType.Valid;
    assert ProducerKnows(ix, s, s.producers[p]);
    if s.producers[p].Test? {
      assert ix.TellsFull() || !s.producers[p].Single();
      TestFits(ix, s, s.producers[p].j);
    }
    if s.consumer.Compare? {
      MeasureFits(ix, s, s.consumer.w);
    }
  }

  // ---------------------------------------------------------------- what the calls answer

  function Elements<T>(j: Job<T>): seq<T> {
    match j case One(v) => [v] case Bulk(vs) => vs
  }

  /** A call is meant to accept as many elements, from the first on, as there were free slots. */
  function Meant<T>(t: Tried<T>): seq<(T, bool)> {
    seq(|Elements(t.j)|, i requires 0 <= i < |Elements(t.j)| => (Elements(t.j)[i], i < t.free))
  }

  function AllMeant<T>(tried: seq<Tried<T>>): seq<(T, bool)> {
    if tried == [] then [] else AllMeant(tried[..|tried| - 1]) + Meant(tried[|tried| - 1])
  }

  function Jobs<T>(tried: seq<Tried<T>>): seq<Job<T>> {
    if tried == [] then [] else Jobs(tried[..|tried| - 1]) + [tried[|tried| - 1].j]
  }

  /** What the call a producer is in answers, once that is settled. */
  function Settled<T>(pc: Producer<T>): seq<(T, bool)> {
    match pc
    case Store(vs, over, _, _) => Answers(vs, true) + Answers(over, false)
    case Publish(vs, over, _) => Answers(vs, true) + Answers(over, false)
    case Unlock(answers) => answers
    case _ => []
  }

  /** The call a producer is in, before that. */
  function Untried<T>(pc: Producer<T>): seq<Job<T>> {
    if pc.Load? || pc.Exchange? || pc.ReadHead? || pc.Test? then [pc.j] else []
  }

  /** How many elements the reads are meant to give. */
  function Granted(asked: seq<Asked>): nat {
    if asked == [] then 0
    else
      var a := asked[|asked| - 1];
      Granted(asked[..|asked| - 1]) + match a.w case Single => Min(1, a.there) case UpTo(n) => Min(n, a.there)
  }

  function Underway<T>(c: Consumer<T>): nat {
    match c
    case Fetch(_, got, left) => |got| + left
    case Release(_, got) => |got|
    case _ => 0
  }

  /** Every call of a producer is finished, settled or not tried yet, in the order it made them;
      the answers of the settled ones are the ones meant. */
  ghost predicate Balanced<T>(pc: Producer<T>, issued: seq<Job<T>>, tried: seq<Tried<T>>, returned: seq<(T, bool)>) {
    && returned + Settled(pc) == AllMeant(tried)
    && issued == Jobs(tried) + Untried(pc)
  }

  /** So for all producers, and the reads took what they were meant to. */
  ghost predicate Accounted<T>(s: State<T>)
    requires |s.producers| == |s.returned| == |s.issued| == |s.tried|
  {
    && (forall p | 0 <= p < |s.producers| :: Balanced(s.producers[p], s.issued[p], s.tried[p], s.returned[p]))
    && |s.taken| + Underway(s.consumer) == Granted(s.asked)
  }

  lemma TestSettles<T>(ix: IndexType, s: State<T>, j: Job<T>)
    requires WellFormed(ix, s) && Stored(ix, s) && (ix.TellsFull() || j.Bulk?)
    ensures Settled(Tested(ix, j, s.head, s.tail)) == Meant(Tried(j, Free(ix, s)))
    ensures Untried(Tested(ix, j, s.head, s.tail)) == []
  {
    hide Tested, Stored, IndexType.Valid, IndexType.Modulus;
    assert |s.taken| <= |s.published| <= |s.taken| + ix.Capacity() by { StoredCounts(ix, s); }
    TestFits(ix, s, j);
    TestedShape(ix, j, s.head, s.tail);
  }

  lemma StoredCounts<T>(ix: IndexType, s: State<T>)
    requires WellFormed(ix, s) && Stored(ix, s)
    ensures |s.taken| <= |s.published| <= |s.taken| + ix.Capacity()
  {
  }

  lemma TestedShape<T>(ix: IndexType, j: Job<T>, h: nat, tail: nat)
    ensures j.One? ==>
              || Tested(ix, j, h, tail) == Unlock([(j.v, false)])
              || Tested(ix, j, h, tail) == Store([j.v], [], 0, h)
  {
  }

  lemma ProducerAccounts<T>(ix: IndexType, s: State<T>, p: nat)
    requires Inv(ix, s) && Accounted(s) && p < |s.producers|
    ensures Accounted(ProducerStep(ix, s, p))
  {
    hide Exclusive, Stored, ProducerKnows, ConsumerKnows, Recorded, Tested, Answers, Tagged, Free, Balanced;
    hide IndexType.Slot, IndexType.Next, IndexType.FullTest, IndexType.Valid, Granted;
    var s' := ProducerStep(ix, s, p);
    assert ProducerKnows(ix, s, s.producers[p]);
    assert ix.TellsFull() || !s.producers[p].Single();
    StepBalances(ix, s, p);
    forall q | 0 <= q < |s.producers|
      ensures Balanced(s'.producers[q], s'.issued[q], s'.tried[q], s'.returned[q])
    {
      if q != p {
        assert Balanced(s.producers[q], s.issued[q], s.tried[q], s.returned[q]);
        assert s'.producers[q] == s.producers[q] && s'.tried[q] == s.tried[q] && s'.returned[q] == s.returned[q];
      }
    }
  }

  lemma StepBalances<T>(ix: IndexType, s: State<T>, p: nat)
    requires WellFormed(ix, s) && Stored(ix, s) && p < |s.producers|
    requires ProducerKnows(ix, s, s.producers[p]) && (ix.TellsFull() || !s.producers[p].Single())
    requires Balanced(s.producers[p], s.issued[p], s.tried[p], s.returned[p])
    ensures var s' := ProducerStep(ix, s, p);
            Balanced(s'.producers[p], s'.issued[p], s'.tried[p], s'.returned[p])
  {
    hide Stored, ProducerKnows, Tested, Answers, Tagged, Free, Meant, AllMeant, Jobs;
    hide IndexType.Slot, IndexType.Next, IndexType.FullTest, IndexType.Valid;
    if s.producers[p].Test? {
      TestKnows(ix, s, p);
      TestSettles(ix, s, s.producers[p].j);
      OneMoreTried(s.tried[p], Tried(s.producers[p].j, Free(ix, s)));
      NothingAdded(s.returned[p], Jobs(s.tried[p]) + [s.producers[p].j]);
    } else if s.producers[p].Unlock? {
      NothingAdded(s.returned[p] + s.producers[p].answers, s.issued[p]);
    }
  }

  lemma NothingAdded<A, B>(a: seq<A>, b: seq<B>)
    ensures a + [] == a && b + [] == b
  {
  }

  lemma OneMoreTried<T>(tried: seq<Tried<T>>, t: Tried<T>)
    ensures AllMeant(tried + [t]) == AllMeant(tried) + Meant(t)
    ensures Jobs(tried + [t]) == Jobs(tried) + [t.j]
  {
    assert (tried + [t])[..|tried|] == tried;
  }

  lemma TestKnows<T>(ix: IndexType, s: State<T>, p: nat)
    requires WellFormed(ix, s) && p < |s.producers| && s.producers[p].Test? && ProducerKnows(ix, s, s.producers[p])
    ensures s.producers[p].h == s.head
  {
  }

  lemma ConsumerAccounts<T>(ix: IndexType, s: State<T>)
    requires Inv(ix, s) && Accounted(s)
    ensures Accounted(ConsumerStep(ix, s))
  {
    hide Exclusive, Stored, ProducerKnows, Recorded, Measured, AllMeant, Jobs, Settled, Untried;
    hide IndexType.Slot, IndexType.Next, IndexType.Valid, IndexType.Truncate;
    var s' := ConsumerStep(ix, s);
    ConsumerFrame(ix, s);
    if s.consumer.Compare? {
      StoredCounts(ix, s);
      MeasureFits(ix, s, s.consumer.w);
      assert s'.asked[..|s.asked|] == s.asked;
    }
  }

  lemma {:induction false} RunAccounts<T>(ix: IndexType, s: State<T>, actions: seq<Action<T>>)
    requires Inv(ix, s) && Accounted(s) && forall i :: 0 <= i < |actions| ==> Suits(ix, actions[i])
    ensures Inv(ix, Run(ix, s, actions)) && Accounted(Run(ix, s, actions))
    decreases |actions|
  {
    if actions != [] {
      hide Inv, Accounted, ProducerStep, ConsumerStep;
      PerformKeeps(ix, s, actions[0]);
      PerformAccounts(ix, s, actions[0]);
      RunAccounts(ix, Perform(ix, s, actions[0]), actions[1..]);
    }
  }

  lemma PerformAccounts<T>(ix: IndexType, s: State<T>, a: Action<T>)
    requires Inv(ix, s) && Accounted(s)
    ensures Accounted(Perform(ix, s, a))
  {
    hide Inv, ProducerStep, ConsumerStep, AllMeant, Jobs, Granted, Balanced, Accounted;
    InvWellFormed(ix, s);
    match a
    case Call(p, j) => CallAccounts(ix, s, p, j);
    case Step(p) =>
      if p < |s.producers| {
        ProducerAccounts(ix, s, p);
      }
    case CallRemove(w) => ReadAccounts(ix, s, w);
    case StepRemove => ConsumerAccounts(ix, s);
  }

  lemma InvWellFormed<T>(ix: IndexType, s: State<T>)
    requires Inv(ix, s)
    ensures WellFormed(ix, s)
  {
  }

  lemma CallAccounts<T>(ix: IndexType, s: State<T>, p: nat, j: Job<T>)
    requires WellFormed(ix, s) && Accounted(s)
    ensures Accounted(Perform(ix, s, Call(p, j)))
  {
    hide AllMeant, Jobs, Granted, IndexType.Valid;
    var s' := Perform(ix, s, Call(p, j));
    if p < |s.producers| && s.producers[p].Idle? {
      assert Balanced(s.producers[p], s.issued[p], s.tried[p], s.returned[p]);
      NothingAdded(s.returned[p], Jobs(s.tried[p]));
      forall q | 0 <= q < |s.producers|
        ensures Balanced(s'.producers[q], s'.issued[q], s'.tried[q], s'.returned[q])
      {
        assert Balanced(s.producers[q], s.issued[q], s.tried[q], s.returned[q]);
      }
    }
  }

  lemma ReadAccounts<T>(ix: IndexType, s: State<T>, w: Want)
    requires WellFormed(ix, s) && Accounted(s)
    ensures Accounted(Perform(ix, s, CallRemove(w)))
  {
    hide Balanced, IndexType.Valid;
  }

  /** In every run, of single calls too where the shape always tells that it is full: what a
      producer's calls answered and will answer, element by element and in the order of the
      calls, is that the elements are accepted from the first on as far as slots were free at
      the call's test; what it published is exactly the accepted ones; and what the consumer
      took is the beginning of everything published, as long as its reads asked and found. */
  lemma CallsAnswered<T>(ix: IndexType, producers: nat, x: T, acts: seq<Action<T>>)
    requires ix.Valid() && forall i :: 0 <= i < |acts| ==> Suits(ix, acts[i])
    ensures var s := Run(ix, Init(ix, producers, x), acts);
            && (forall p | 0 <= p < producers ::
                  && s.returned[p] + Settled(s.producers[p]) == AllMeant(s.tried[p])
                  && s.issued[p] == Jobs(s.tried[p]) + Untried(s.producers[p])
                  && (s.producers[p].Idle? ==>
                        && s.issued[p] == Jobs(s.tried[p]) && s.returned[p] == AllMeant(s.tried[p])
                        && By(p, s.published) == Accepted(AllMeant(s.tried[p]))))
            && s.taken <= Values(s.published)
            && (s.consumer == Rest ==> |s.taken| == Granted(s.asked))
  {
    hide Inv, Run, Accepted, AllMeant, Jobs, By, Granted;
    InitInv(ix, producers, x);
    InitAccounted(ix, producers, x);
    RunAccounts(ix, Init(ix, producers, x), acts);
    var s := Run(ix, Init(ix, producers, x), acts);
    InvIsQueue(ix, s);
    assert forall p | 0 <= p < producers :: Balanced(s.producers[p], s.issued[p], s.tried[p], s.returned[p]);
    forall p | 0 <= p < producers && s.producers[p].Idle?
      ensures s.issued[p] == Jobs(s.tried[p]) && s.returned[p] == AllMeant(s.tried[p])
    {
      assert s.returned[p] + [] == s.returned[p] && Jobs(s.tried[p]) + [] == Jobs(s.tried[p]);
    }
    assert forall p | 0 <= p < producers && s.producers[p].Idle? ::
        By(p, s.published) == Accepted(s.returned[p]) + [] == Accepted(s.returned[p]);
  }

  lemma InitAccounted<T>(ix: IndexType, producers: nat, x: T)
    requires ix.Valid()
    ensures Accounted(Init(ix, producers, x))
  {
  }

  /** The elements accepted of a call whose test found `free` slots: exactly the first of them. */
  lemma MeantAccepts<T>(t: Tried<T>)
    ensures |Meant(t)| == |Elements(t.j)|
    ensures var n := Min(|Elements(t.j)|, t.free);
            && Meant(t) == Answers(Elements(t.j)[..n], true) + Answers(Elements(t.j)[n..], false)
            && Accepted(Meant(t)) == Elements(t.j)[..n]
  {
    var n := Min(|Elements(t.j)|, t.free);
    var yes, no := Answers(Elements(t.j)[..n], true), Answers(Elements(t.j)[n..], false);
    assert Meant(t) == yes + no;
    AcceptedAppend(yes, no);
    AcceptedAnswers(Elements(t.j)[..n], true);
    AcceptedAnswers(Elements(t.j)[n..], false);
  }

  lemma {:induction false} RunAppend<T>(ix: IndexType, s: State<T>, a: seq<Action<T>>, b: seq<Action<T>>)
    requires WellFormed(ix, s)
    ensures Run(ix, s, a + b) == Run(ix, Run(ix, s, a), b)
    decreases |a|
  {
    if a == [] {
      assert a + b == b;
    } else {
      assert (a + b)[1..] == a[1..] + b;
      RunAppend(ix, Perform(ix, s, a[0]), a[1..], b);
    }
  }

  /** Everybody at rest, with these many elements published and taken so far. */
  ghost predicate Resting<T>(ix: IndexType, s: State<T>, n: nat, m: nat) {
    && WellFormed(ix, s)
    && !s.locked && s.producers == [Idle] && s.consumer == Rest
    && |s.published| == n && |s.taken| == m
    && s.head == Wrapped(ix, n) && s.tail == Wrapped(ix, m)
  }

  lemma InsertRun<T>(ix: IndexType, s: State<T>, n: nat, m: nat, v: T) returns (acts: seq<Action<T>>)
    requires Resting(ix, s, n, m) && !ix.FullTest(s.head, s.tail)
    ensures Resting(ix, Run(ix, s, acts), n + 1, m)
  {
    hide Run, Position, Wrapped, IndexType.Slot, IndexType.FullTest, IndexType.Valid, IndexType.Next;
    NextIsWrapped(ix, n);
    hide Tagged, Answers;
    var cur;
    acts, cur := Begin(ix, s, Call(0, One(v)));
    acts, cur := Extend(ix, s, acts, cur, Step(0));
    acts, cur := Extend(ix, s, acts, cur, Step(0));
    acts, cur := Extend(ix, s, acts, cur, Step(0));
    assert cur == s.(locked := true, producers := [Test(One(v), s.head)], issued := cur.issued);
    acts, cur := Extend(ix, s, acts, cur, Step(0));
    assert cur ==
           s.(locked := true, producers := [Store([v], [], 0, s.head)], issued := cur.issued, tried := cur.tried);
    acts, cur := Extend(ix, s, acts, cur, Step(0));
    acts, cur := Extend(ix, s, acts, cur, Step(0));
    acts, cur := Extend(ix, s, acts, cur, Step(0));
  }

  lemma RemoveRun<T>(ix: IndexType, s: State<T>, n: nat, m: nat) returns (acts: seq<Action<T>>)
    requires Resting(ix, s, n, m) && s.head != s.tail
    ensures Resting(ix, Run(ix, s, acts), n, m + 1)
  {
    hide Run, Position, Wrapped, IndexType.Slot, IndexType.FullTest, IndexType.Valid, IndexType.Next;
    NextIsWrapped(ix, m);
    var cur;
    acts, cur := Begin(ix, s, CallRemove(Single));
    acts, cur := Extend(ix, s, acts, cur, StepRemove);
    acts, cur := Extend(ix, s, acts, cur, StepRemove);
    acts, cur := Extend(ix, s, acts, cur, StepRemove);
    acts, cur := Extend(ix, s, acts, cur, StepRemove);
  }

  lemma NextIsWrapped(ix: IndexType, i: nat)
    ensures ix.Next(Wrapped(ix, i)) == Wrapped(ix, i + 1)
  {
    NextWraps(i, ix.Modulus());
  }

  lemma Begin<T>(ix: IndexType, s: State<T>, a: Action<T>) returns (acts: seq<Action<T>>, cur: State<T>)
    requires WellFormed(ix, s)
    ensures acts == [a] && cur == Run(ix, s, acts) == Perform(ix, s, a)
  {
    acts, cur := [a], Perform(ix, s, a);
    assert Run(ix, cur, []) == cur;
  }

  lemma Extend<T>(ix: IndexType, s: State<T>, acts: seq<Action<T>>, cur: State<T>, a: Action<T>)
    returns (acts': seq<Action<T>>, cur': State<T>)
    requires WellFormed(ix, s) && cur == Run(ix, s, acts)
    ensures WellFormed(ix, cur) && cur' == Perform(ix, cur, a)
    ensures acts' == acts + [a] && cur' == Run(ix, s, acts')
  {
    acts', cur' := acts + [a], Perform(ix, cur, a);
    RunAppend(ix, s, acts, [a]);
    assert Run(ix, cur', []) == cur';
  }

  /** n inserts, each removed at once. */
  lemma {:induction false} PairsRun<T>(ix: IndexType, x: T, n: nat) returns (acts: seq<Action<T>>)
    requires ix.Valid()
    ensures Resting(ix, Run(ix, Init(ix, 1, x), acts), n, n)
  {
    hide Position, Wrapped, IndexType.Slot;
    var s0 := Init(ix, 1, x);
    if n == 0 {
      RemainderUnique(0, ix.Modulus(), 0, 0);
      assert Wrapped(ix, 0) == 0 by { InitInv(ix, 1, x); }
      acts := [];
    } else {
      acts := PairsRun(ix, x, n - 1);
      var s := Run(ix, s0, acts);
      FullTestExact(ix, n - 1, n - 1);
      var a := InsertRun(ix, s, n - 1, n - 1, x);
      RunAppend(ix, s0, acts, a);
      WrappedRefines(ix, n, n - 1);
      var b := RemoveRun(ix, Run(ix, s, a), n, n - 1);
      RunAppend(ix, s0, acts + a, b);
      acts := acts + a + b;
    }
  }

  /** With the tail on the last index, one insert more than there are slots goes through. */
  lemma {:induction false} FillRun<T>(ix: IndexType, x: T, j: nat) returns (acts: seq<Action<T>>)
    requires ix.Valid() && !ix.TellsFull() && j <= ix.Capacity() + 1
    ensures var m := ix.Modulus() - 1; Resting(ix, Run(ix, Init(ix, 1, x), acts), m + j, m)
  {
    hide Run, Position, IndexType.Slot, IndexType.Valid, IndexType.FullTest, IndexType.Modulus;
    var s0, m := Init(ix, 1, x), ix.Modulus() - 1;
    if j == 0 {
      acts := PairsRun(ix, x, m);
    } else {
      acts := FillRun(ix, x, j - 1);
      var s := Run(ix, s0, acts);
      NeverFull(ix, m, j - 1);
      var a := InsertRun(ix, s, m + j - 1, m, x);
      RunAppend(ix, s0, acts, a);
      acts := acts + a;
    }
  }

  /** Where a full buffer is not always recognised, it is not with tail at the largest index. */
  lemma NeverFull(ix: IndexType, m: nat, n: nat)
    requires ix.Valid() && !ix.TellsFull() && m == ix.Modulus() - 1 && n <= ix.Capacity()
    ensures !ix.FullTest(Wrapped(ix, m + n), Wrapped(ix, m))
  {
    var k := ValidShape(ix);
    FullTestExact(ix, m + n, m);
    if n == ix.Capacity() {
      RemainderUnique(m + ix.Capacity(), ix.Modulus(), 1, ix.Capacity() - 1);
      RemainderUnique(m, ix.Modulus(), 0, m);
    }
  }

  /** With bulk writes only, and removes and bulk reads, the queue property holds in every run for
      every shape that passes the compile-time assertions: what is free is measured rightly,
      with as many slots as the mask leaves. */
  lemma BulkIsQueue<T>(ix: IndexType, producers: nat, x: T, acts: seq<Action<T>>)
    requires ix.Valid() && forall i :: 0 <= i < |acts| && acts[i].Call? ==> acts[i].j.Bulk?
    ensures IsQueue(ix, Run(ix, Init(ix, producers, x), acts))
  {
    InitInv(ix, producers, x);
    RunKeeps(ix, Init(ix, producers, x), acts);
    InvIsQueue(ix, Run(ix, Init(ix, producers, x), acts));
  }

  /** For every shape that passes the compile-time assertions: the queue property holds in every
      run of any number of producers and one consumer, with single and bulk calls, exactly when
      index_t is at least as wide as int and the size is one of its values. */
  lemma QueueExact<T(!new)>(ix: IndexType, x: T)
    requires ix.Valid()
    ensures ix.Wide() && ix.InRange() <==>
            forall producers: nat, acts: seq<Action<T>> :: IsQueue(ix, Run(ix, Init(ix, producers, x), acts))
  {
    if ix.TellsFull() {
      forall producers: nat, acts: seq<Action<T>> ensures IsQueue(ix, Run(ix, Init(ix, producers, x), acts)) {
        InitInv(ix, producers, x);
        RunKeeps(ix, Init(ix, producers, x), acts);
        InvIsQueue(ix, Run(ix, Init(ix, producers, x), acts));
      }
    } else {
      var acts := FillRun(ix, x, ix.Capacity() + 1);
      assert !IsQueue(ix, Run(ix, Init(ix, 1, x), acts));
    }
  }
}
