/** The ring buffer as one thread sees it: every operation is a queue operation on
    `Contents()`, whatever the wrapped indices are. */
module Ringbuffer {
  import opened Arithmetic
  import opened RingIndex
  import opened Wrappers

  /** The `n` elements stored from position `t` on, going round the array. */
  ghost function Window<T>(data: seq<T>, t: nat, n: nat): (w: seq<T>)
    requires |data| > 0
    ensures |w| == n
  {
    seq(n, i requires 0 <= i => data[Position(|data|, t + i)])
  }

  lemma WindowPush<T>(data: seq<T>, t: nat, n: nat, v: T)
    requires n < |data|
    ensures Window(data[Position(|data|, t + n) := v], t, n + 1) == Window(data, t, n) + [v]
  {
    hide Position;
    var p := Position(|data|, t + n);
    var w := Window(data[p := v], t, n + 1);
    forall i | 0 <= i <= n ensures w[i] == (Window(data, t, n) + [v])[i] {
      if i < n {
        SlotsDistinct(|data|, t + i, t + n);
      }
    }
  }

  lemma WindowDrop<T>(data: seq<T>, t: nat, n: nat, k: nat)
    requires k <= n && |data| > 0
    ensures Window(data, t, n)[k..] == Window(data, t + k, n - k)
  {
    var w, x := Window(data, t, n)[k..], Window(data, t + k, n - k);
    forall i | 0 <= i < n - k ensures w[i] == x[i] {
      assert t + (k + i) == (t + k) + i;
    }
  }

  /** Writing into a full window replaces its oldest element. */
  lemma WindowOverwrite<T>(data: seq<T>, t: nat, v: T)
    requires |data| > 0
    ensures Window(data[Position(|data|, t) := v], t, |data|) == Window(data, t, |data|)[0 := v]
  {
    hide Position;
    var w := Window(data[Position(|data|, t) := v], t, |data|);
    forall i | 0 <= i < |data| ensures w[i] == Window(data, t, |data|)[0 := v][i] {
      if 0 < i {
        SlotsDistinct(|data|, t, t + i);
      }
    }
  }

  lemma SizePositive(size: nat, t: nat)
    requires size > 0
    ensures Position(size, t + size) == Position(size, t)
  {
    RemainderUnique(t + size, size, t / size + 1, t % size) by {
      assert (t / size + 1) * size == (t / size) * size + size;
    }
  }

  lemma RoundAppends<T>(before: seq<T>, buff: seq<T>, written: nat, n: nat, drained: nat)
    requires written + n <= |buff| && drained <= |before| + written
    ensures before + buff[..written + n] == before + buff[..written] + buff[written..written + n]
    ensures (before + buff[..written + n])[drained..] ==
            (before + buff[..written])[drained..] + buff[written..written + n]
  {
    assert buff[..written + n] == buff[..written] + buff[written..written + n];
  }

  /** One element stored behind head: the slot, the index after it, the window. */
  lemma StoreStep<T>(ix: IndexType, data: seq<T>, r: nat, i: nat, v: T)
    requires ix.Valid() && |data| == ix.Capacity() && r <= i < r + ix.Capacity()
    ensures ix.Slot(Wrapped(ix, i)) < |data| && ix.Next(Wrapped(ix, i)) == Wrapped(ix, i + 1)
    ensures Window(data[ix.Slot(Wrapped(ix, i)) := v], r, i + 1 - r) == Window(data, r, i - r) + [v]
  {
    hide Position, Wrapped, Window, IndexType.Slot, IndexType.Next;
    WrappedRefines(ix, i, r);
    WindowPush(data, r, i - r, v);
  }

  lemma LoadStep<T>(ix: IndexType, data: seq<T>, r: nat, n: nat, k: nat)
    requires ix.Valid() && |data| == ix.Capacity() && k < n <= ix.Capacity()
    ensures ix.Slot(Wrapped(ix, r + k)) < |data| && ix.Next(Wrapped(ix, r + k)) == Wrapped(ix, r + k + 1)
    ensures data[ix.Slot(Wrapped(ix, r + k))] == Window(data, r, n)[k]
  {
    hide Wrapped, IndexType.Slot, IndexType.Next;
    WrappedRefines(ix, r + k, r + k);
  }

  /** `out` with k elements of `contents`, from `skip` on, put in at `from`. */
  function Loaded<T>(out: seq<T>, from: nat, contents: seq<T>, skip: nat, k: nat): seq<T>
    requires from + k <= |out| && skip + k <= |contents|
  {
    out[..from] + contents[skip..skip + k] + out[from + k..]
  }

  lemma LoadStart<T>(out: seq<T>, from: nat, contents: seq<T>, skip: nat)
    requires from <= |out| && skip <= |contents|
    ensures Loaded(out, from, contents, skip, 0) == out
  {
  }

  lemma LoadedFront<T>(out: seq<T>, contents: seq<T>, skip: nat, n: nat)
    requires n <= |out| && skip + n <= |contents|
    ensures Loaded(out, 0, contents, skip, n) == contents[skip..skip + n] + out[n..]
    ensures Loaded(out, 0, contents, skip, n)[..n] == contents[skip..skip + n]
  {
  }

  lemma LoadSlice<T>(out: seq<T>, from: nat, contents: seq<T>, skip: nat, k: nat)
    requires from + k < |out| && skip + k < |contents|
    ensures |Loaded(out, from, contents, skip, k)| == |out|
    ensures Loaded(out, from, contents, skip, k)[from + k := contents[skip + k]] ==
            Loaded(out, from, contents, skip, k + 1)
  {
  }

  lemma SliceSnoc<T>(start: seq<T>, buff: seq<T>, from: nat, k: nat)
    requires from + k < |buff|
    ensures start + buff[from..from + k + 1] == (start + buff[from..from + k]) + [buff[from + k]]
  {
    assert buff[from..from + k + 1] == buff[from..from + k] + [buff[from + k]];
  }

  lemma DropDrop<T>(a: seq<T>, i: nat, k: nat)
    requires i + k <= |a|
    ensures a[i..][k..] == a[i + k..]
  {
  }

  lemma TailKept<T>(a: seq<T>, b: seq<T>, read: nat, n: nat)
    requires read + n <= |a| == |b| && a[read..] == b[read..]
    ensures a[read + n..] == b[read + n..]
  {
    assert a[read + n..] == a[read..][n..] == b[read..][n..] == b[read + n..];
  }

  lemma Refilled<T>(out: seq<T>, contents: seq<T>, before: seq<T>, added: seq<T>, more: seq<T>)
    requires out + contents == before + added
    ensures out + contents + more == before + (added + more)
  {
    assert (before + added) + more == before + (added + more);
  }

  lemma CommitStep<T>(data: seq<T>, t: nat, n: nat)
    requires |data| > 0
    ensures Window(data, t, n + 1) == Window(data, t, n) + [data[Position(|data|, t + n)]]
  {
  }

  lemma AppendEqual<T>(a: seq<T>, x: T, b: seq<T>, y: T)
    requires |a| == |b|
    ensures a + [x] == b + [y] <==> a == b && x == y
  {
    if a + [x] == b + [y] {
      assert (a + [x])[..|a|] == a && (b + [y])[..|b|] == b;
      assert (a + [x])[|a|] == x && (b + [y])[|b|] == y;
    }
  }

  lemma InPlaceStep<T>(data: seq<T>, t: nat, n: nat, v: T)
    requires n < |data|
    ensures var p := Position(|data|, t + n);
            var d := data[Position(|data|, t + n + 1) := v];
            Window(d, t, n) + [d[p]] == Window(data, t, n) + [v] <==>
            |data| == 1 || (data[p] == v && (n < |data| - 1 || Window(data, t, n)[0] == v))
  {
    hide Position;
    var size, p, q := |data|, Position(|data|, t + n), Position(|data|, t + n + 1);
    var d := data[q := v];
    AppendEqual(Window(d, t, n), d[p], Window(data, t, n), v);
    if size == 1 {
      assert p == q;
    } else {
      SlotsDistinct(size, t + n, t + n + 1);
      if n == size - 1 {
        SizePositive(size, t);
        WindowOverwrite(data, t, v);
        assert Window(d, t, n) == Window(d, t, size)[..n] == Window(data, t, n)[0 := v];
        assert Window(data, t, n)[0 := v][0] == v;
      } else {
        forall i | 0 <= i < n ensures Window(d, t, n)[i] == Window(data, t, n)[i] {
          SlotsDistinct(size, t + i, t + n + 1);
        }
        assert Window(d, t, n) == Window(data, t, n);
      }
    }
  }

  /** What the comment on the bulk read promises. */
  ghost predicate ReadsUpTo<T>(count: nat, before: seq<T>, n: nat, buff: seq<T>, after: seq<T>) {
    && n == Min(count, |before|) <= |buff|
    && buff[..n] == before[..n]
    && after == before[n..]
  }

  lemma StartsAtHead<T>(before: seq<T>, arrived: seq<T>, count: nat, n: nat, buff: seq<T>, after: seq<T>)
    requires n == Min(count, |arrived|) <= |buff| && buff[..n] == arrived[..n] && after == arrived[n..]
    ensures ReadsUpTo(count, before + arrived, n, buff, after) <==> before == []
  {
    if before == [] {
      assert before + arrived == arrived;
    }
  }

  lemma SliceSecond<T>(a: seq<T>, b: seq<T>, n: nat)
    requires n <= |b|
    ensures (a + b)[|a|..|a| + n] == b[..n] && (a + b)[|a| + n..] == b[n..]
  {
  }

  lemma InsertStep<T>(data: seq<T>, t: nat, n: nat, v: T)
    requires |data| > 0 && n <= |data|
    ensures var d := data[Position(|data|, t + n) := v];
            if n < |data| then Window(d, t, n + 1) == Window(data, t, n) + [v]
            else d == data[Position(|data|, t) := v]
  {
    if n < |data| {
      WindowPush(data, t, n, v);
    } else {
      SizePositive(|data|, t);
    }
  }

  /** How many elements the callback loops move before their first callback. */
  function FirstRound(count: nat, countToCallback: nat): nat {
    if countToCallback != 0 && countToCallback < count then countToCallback else count
  }

  class Ringbuffer<T> {
    const ix: IndexType
    const data: array<T>
    var head: nat
    var tail: nat
    /** How many elements were ever inserted and removed; head and tail are these, wrapped. */
    ghost var inserted: nat
    ghost var removed: nat

    ghost predicate Indexed()
      reads this
    {
      && ix.Valid()
      && data.Length == ix.size && ix.Capacity() <= data.Length
      && head == Wrapped(ix, inserted)
      && tail == Wrapped(ix, removed)
      && removed <= inserted
    }

    ghost predicate Valid()
      reads this
    {
      Indexed() && inserted <= removed + ix.Capacity()
    }

    /** The slots that the mask leaves. */
    ghost function Slots(): (s: seq<T>)
      requires Indexed()
      reads this, data
      ensures |s| == ix.Capacity()
    {
      data[..ix.Capacity()]
    }

    ghost function Contents(): (s: seq<T>)
      requires Indexed()
      reads this, data
      ensures |s| == inserted - removed
    {
      Window(Slots(), removed, inserted - removed)
    }

    constructor (ix: IndexType, init: T)
      requires ix.Valid()
      ensures Valid() && Contents() == [] && fresh(data) && this.ix == ix
    {
      this.ix := ix;
      data := new T[ix.size](_ => init);
      head, tail := 0, 0;
      inserted, removed := 0, 0;
      new;
      RemainderUnique(0, ix.Modulus(), 0, 0);
    }

    method ReadAvailable() returns (n: nat)
      requires Valid()
      ensures n == |Contents()|
    {
      n := Used(head, tail, inserted, removed);
    }

    /** `head - tail`, assigned to an index_t. */
    method Used(h: nat, t: nat, ghost i: nat, ghost r: nat) returns (n: nat)
      requires ix.Valid() && r <= i <= r + ix.Capacity()
      requires h == Wrapped(ix, i) && t == Wrapped(ix, r)
      ensures n == i - r
    {
      n := ix.Truncate(h - t);
      WrappedRefines(ix, i, r);
    }

    method WriteAvailable() returns (n: nat)
      requires Valid()
      ensures n == ix.Capacity() - |Contents()|
    {
      n := Free(head, tail, inserted, removed);
    }

    /** `buffer_size - (head - tail)`, assigned to an index_t. */
    method Free(h: nat, t: nat, ghost i: nat, ghost r: nat) returns (n: nat)
      requires ix.Valid() && r <= i <= r + ix.Capacity()
      requires h == Wrapped(ix, i) && t == Wrapped(ix, r)
      ensures n == ix.Capacity() - (i - r)
    {
      n := ix.Truncate(ix.size - (h - t));
      FreeWraps(ix, i, r);
    }

    /** Exact for an index_t at least as wide as int that holds the size. For a narrower one a
        full buffer whose head has wrapped is not recognised, for a size beyond the index range
        no full buffer is: the oldest element is overwritten. */
    method Insert(v: T) returns (ok: bool)
      requires Valid()
      modifies `head, `inserted, data
      ensures Indexed() && removed == old(removed)
      ensures ok <==> !(|old(Contents())| == ix.Capacity() && ix.InRange() && (ix.Wide() || old(tail) <= old(head)))
      ensures !ok ==> Contents() == old(Contents()) && Valid()
      ensures ok && |old(Contents())| < ix.Capacity() ==> Contents() == old(Contents()) + [v] && Valid()
      ensures ok && |old(Contents())| == ix.Capacity() ==>
                inserted == old(inserted) + 1 && Slots() == old(Slots())[Position(ix.Capacity(), removed) := v]
    {
      hide Position, Wrapped, Window, IndexType.FullTest, IndexType.Next, IndexType.Slot, IndexType.Valid;
      var tmpHead := head;
      WrappedRefines(ix, inserted, removed);
      FullTestExact(ix, inserted, removed);
      if ix.FullTest(tmpHead, tail) {
        return false;
      }
      InsertStep(Slots(), removed, inserted - removed, v);
      WrappedRefines(ix, removed, removed);
      ghost var before := Slots();
      data[ix.Slot(tmpHead)] := v;
      assert Slots() == before[Position(ix.Capacity(), inserted) := v];
      tmpHead := ix.Next(tmpHead);
      head := tmpHead;
      inserted := inserted + 1;
      return true;
    }

    method Remove() returns (x: Option<T>)
      requires Valid()
      modifies `tail, `removed
      ensures Valid() && inserted == old(inserted)
      ensures old(Contents()) == [] ==> x == None && Contents() == []
      ensures old(Contents()) != [] ==> x == Some(old(Contents())[0]) && Contents() == old(Contents())[1..]
    {
      var tmpTail := tail;
      WrappedRefines(ix, inserted, removed);
      if tmpTail == head {
        return None;
      }
      WrappedRefines(ix, removed, removed);
      WindowDrop(Slots(), removed, inserted - removed, 1);
      x := Some(data[ix.Slot(tmpTail)]);
      tmpTail := ix.Next(tmpTail);
      tail := tmpTail;
      removed := removed + 1;
    }

    /** The copy loop of the bulk writes: elements go behind the published head, which
        the caller moves afterwards. */
    method StoreRun(buff: seq<T>, from: nat, n: nat, h: nat, ghost i: nat) returns (h': nat)
      requires Valid() && from + n <= |buff|
      requires inserted == i && h == Wrapped(ix, i) && i + n <= removed + ix.Capacity()
      modifies data
      ensures h' == Wrapped(ix, i + n)
      ensures Window(Slots(), removed, i + n - removed) == old(Contents()) + buff[from..from + n]
    {
      hide Position, Wrapped, Window, BitAnd, IndexType.Next, IndexType.Slot;
      h' := h;
      ghost var start := Contents();
      for k := 0 to n
        invariant h' == Wrapped(ix, i + k)
        invariant Window(Slots(), removed, i + k - removed) == start + buff[from..from + k]
      {
        ghost var before := Slots();
        StoreStep(ix, before, removed, i + k, buff[from + k]);
        SliceSnoc(start, buff, from, k);
        data[ix.Slot(h')] := buff[from + k];
        assert Slots() == before[ix.Slot(h') := buff[from + k]];
        h' := ix.Next(h');
      }
    }

    method WriteBuff(buff: seq<T>, count: nat) returns (n: nat)
      requires Valid() && count <= |buff|
      modifies `head, `inserted, data
      ensures Valid() && removed == old(removed)
      ensures n == Min(count, ix.Capacity() - |old(Contents())|)
      ensures Contents() == old(Contents()) + buff[..n]
    {
      var available := Free(head, tail, inserted, removed);
      n := count;
      if available < count {
        n := available;
      }
      var tmpHead := StoreRun(buff, 0, n, head, inserted);
      head := tmpHead;
      inserted := inserted + n;
    }

    /** What the consumer does while the writer's callback runs. */
    method ConsumerTurn(n: nat) returns (ghost k: nat)
      requires Valid()
      modifies `tail, `removed
      ensures Valid() && inserted == old(inserted)
      ensures k == Min(n, |old(Contents())|)
      ensures Contents() == old(Contents())[k..]
    {
      k := 0;
      for i := 0 to n
        invariant Valid() && inserted == old(inserted)
        invariant k == Min(i, |old(Contents())|)
        invariant Contents() == old(Contents())[k..]
      {
        var x := Remove();
        if x.Some? {
          k := k + 1;
        }
      }
    }

    /** One round of the writing loop, up to the publication of head. */
    method WriteRound(buff: seq<T>, written: nat, toWrite: nat, tmpHead: nat) returns (n: nat, newHead: nat)
      requires Valid() && tmpHead == head && written + toWrite <= |buff|
      modifies `head, `inserted, data
      ensures Valid() && newHead == head && n == Min(toWrite, ix.Capacity() - |old(Contents())|)
      ensures Contents() == old(Contents()) + buff[written..written + n]
    {
      n := Free(tmpHead, tail, inserted, removed);
      if toWrite <= n {
        n := toWrite;
      }
      newHead := StoreRun(buff, written, n, tmpHead, inserted);
      head := newHead;
      inserted := inserted + n;
    }

    /** One round and the callback after it, in which the consumer takes up to `take`. */
    method WriteTurn(buff: seq<T>, written: nat, toWrite: nat, tmpHead: nat, take: nat,
                     ghost before: seq<T>, ghost drained: nat)
      returns (n: nat, ghost k: nat, newHead: nat)
      requires Valid() && tmpHead == head && written + toWrite <= |buff| && drained <= |before| + written
      requires Contents() == (before + buff[..written])[drained..]
      modifies this, data
      ensures Valid() && newHead == head && n == Min(toWrite, ix.Capacity() - |old(Contents())|)
      ensures drained + k <= |before| + written + n && (take == 0 ==> k == 0)
      ensures Contents() == (before + buff[..written + n])[drained + k..]
    {
      hide Window, Contents, Wrapped, BitAnd, Position;
      n, newHead := WriteRound(buff, written, toWrite, tmpHead);
      RoundAppends(before, buff, written, n, drained);
      k := ConsumerTurn(take);
      DropDrop(before + buff[..written + n], drained, k);
    }

    /** The writing loop with a callback after every round; in round k the consumer takes
        up to `consumer[k]` elements. `rounds` records the total written at each callback. */
    method WriteBuffCallback(buff: seq<T>, count: nat, countToCallback: nat, consumer: seq<nat>)
      returns (written: nat, ghost drained: nat, ghost rounds: seq<nat>)
      requires Valid() && count <= |buff|
      modifies this, data
      ensures Valid() && written <= count && drained <= |old(Contents())| + written
      ensures Contents() == (old(Contents()) + buff[..written])[drained..]
      ensures written < count ==> |Contents()| == ix.Capacity()
      ensures consumer == [] ==> drained == 0
      ensures rounds == [] ==> written == 0
      ensures rounds != [] ==>
                var first := if 0 < countToCallback < count then countToCallback else count;
                rounds[0] == Min(first, ix.Capacity() - |old(Contents())|) > 0
    {
      hide Window, Contents, Wrapped, BitAnd, Position;
      written, drained, rounds := 0, 0, [];
      var tmpHead := head;
      var toWrite := FirstRound(count, countToCallback);
      var round := 0;
      ghost var before := Contents();
      while written < count
        invariant Valid() && tmpHead == head
        invariant written <= count && (written < count ==> 0 < toWrite <= count - written)
        invariant drained <= |before| + written && Contents() == (before + buff[..written])[drained..]
        invariant consumer == [] ==> drained == 0
        invariant rounds == [] ==> written == 0 && toWrite == FirstRound(count, countToCallback) && drained == 0
        invariant rounds != [] ==>
                    rounds[0] == Min(FirstRound(count, countToCallback), ix.Capacity() - |before|) > 0
        decreases count - written
      {
        var available := WriteAvailable();
        if available == 0 {
          break;
        }
        var n;
        ghost var k;
        n, k, tmpHead := WriteTurn(buff, written, toWrite, tmpHead,
                                   if round < |consumer| then consumer[round] else 0, before, drained);
        written := written + n;
        rounds := rounds + [written];
        drained := drained + k;
        round := round + 1;
        toWrite := count - written;
      }
    }

    /** The copy loop of the bulk reads, starting `skip` elements behind tail. */
    method LoadRun(buff: array<T>, from: nat, n: nat, t: nat, ghost skip: nat) returns (t': nat)
      requires Valid() && from + n <= buff.Length && skip + n <= |Contents()| && buff != data
      requires t == Wrapped(ix, removed + skip)
      modifies buff
      ensures t' == Wrapped(ix, removed + skip + n)
      ensures buff[..] == Loaded(old(buff[..]), from, Contents(), skip, n)
    {
      hide Position, Wrapped, BitAnd, IndexType.Next, IndexType.Slot, Loaded;
      LoadStart(old(buff[..]), from, Contents(), skip);
      t' := t;
      for k := 0 to n
        invariant t' == Wrapped(ix, removed + skip + k)
        invariant buff[..] == Loaded(old(buff[..]), from, Contents(), skip, k)
      {
        LoadStep(ix, Slots(), removed, inserted - removed, skip + k);
        LoadSlice(old(buff[..]), from, Contents(), skip, k);
        ghost var before := buff[..];
        buff[from + k] := data[ix.Slot(t')];
        assert buff[..] == before[from + k := Contents()[skip + k]];
        t' := ix.Next(t');
      }
    }

    /** One round of a bulk read, up to the publication of tail. It starts `skip` elements
        behind tail; the callback loop starts at tail itself. */
    method ReadRound(buff: array<T>, read: nat, toRead: nat, tmpTail: nat, ghost skip: nat)
      returns (n: nat, newTail: nat)
      requires Valid() && skip <= |Contents()| && tmpTail == Wrapped(ix, removed + skip)
      requires read + toRead <= buff.Length && buff != data
      modifies `tail, `removed, buff
      ensures Valid() && newTail == tail && n == Min(toRead, |old(Contents())| - skip)
      ensures buff[..] == Loaded(old(buff[..]), read, old(Contents()), skip, n)
      ensures Contents() == old(Contents())[skip + n..]
    {
      hide Window, Wrapped, Position, Loaded, IndexType.Valid;
      n := Used(head, tmpTail, inserted, removed + skip);
      SlotsExist(ix);
      if toRead <= n {
        n := toRead;
      }
      newTail := LoadRun(buff, read, n, tmpTail, skip);
      WindowDrop(Slots(), removed, inserted - removed, skip + n);
      tail := newTail;
      removed := removed + skip + n;
    }

    /** One round and the callback after it, in which the producer writes what fits of `more`. */
    method ReadTurn(buff: array<T>, read: nat, toRead: nat, tmpTail: nat, more: seq<T>)
      returns (n: nat, ghost m: nat, newTail: nat)
      requires Valid() && tmpTail == tail && read + toRead <= buff.Length && buff != data
      modifies this, data, buff
      ensures Valid() && newTail == tail && n == Min(toRead, |old(Contents())|) && m <= |more|
      ensures buff[..read + n] + Contents() == old(buff[..read]) + old(Contents()) + more[..m]
      ensures buff[read + n..] == old(buff[read + n..])
    {
      hide Window, Contents, Wrapped, BitAnd, Position;
      n, newTail := ReadRound(buff, read, toRead, tmpTail, 0);
      assert buff[..read + n] == old(buff[..read]) + old(Contents())[..n];
      assert buff[..read + n] + Contents() == old(buff[..read]) + old(Contents());
      label refill:
      m := WriteBuff(more, |more|);
      assert buff[..read + n] + Contents() == (buff[..read + n] + old@refill(Contents())) + more[..m];
    }

    /** The reading loop with a callback after every round; in round k the producer writes
        what fits of `producer[k]`. */
    method ReadBuffCallback(buff: array<T>, count: nat, countToCallback: nat, producer: seq<seq<T>>)
      returns (read: nat, ghost added: seq<T>, ghost rounds: seq<nat>)
      requires Valid() && count <= buff.Length && buff != data
      modifies this, data, buff
      ensures Valid() && read <= count
      ensures buff[..read] + Contents() == old(Contents()) + added
      ensures buff[read..] == old(buff[..])[read..]
      ensures read < count ==> Contents() == []
      ensures producer == [] ==> added == []
      ensures rounds == [] ==> read == 0
      ensures rounds != [] ==>
                var first := if 0 < countToCallback < count then countToCallback else count;
                rounds[0] == Min(first, |old(Contents())|) > 0
    {
      hide Window, Contents, Wrapped, BitAnd, Position;
      read, added, rounds := 0, [], [];
      var tmpTail := tail;
      var toRead := FirstRound(count, countToCallback);
      var round := 0;
      ghost var before := Contents();
      while read < count
        invariant Valid() && tmpTail == tail
        invariant read <= count && (read < count ==> 0 < toRead <= count - read)
        invariant buff[..read] + Contents() == before + added
        invariant buff[read..] == old(buff[..])[read..]
        invariant producer == [] ==> added == []
        invariant rounds == [] ==> read == 0 && toRead == FirstRound(count, countToCallback) && Contents() == before
        invariant rounds != [] ==> rounds[0] == Min(FirstRound(count, countToCallback), |before|) > 0
        decreases count - read
      {
        var available := ReadAvailable();
        if available == 0 {
          break;
        }
        var n;
        ghost var m;
        label turn:
        n, m, tmpTail := ReadTurn(buff, read, toRead, tmpTail, if round < |producer| then producer[round] else []);
        TailKept(old@turn(buff[..]), old(buff[..]), read, n);
        Refilled(old@turn(buff[..read]), old@turn(Contents()), before, added,
                 if round < |producer| then producer[round][..m] else []);
        added := added + if round < |producer| then producer[round][..m] else [];
        read := read + n;
        rounds := rounds + [read];
        round := round + 1;
        toRead := count - read;
      }
    }

    /** The two-argument bulk read, which starts from head instead of tail. `arriving` is
        what a producer tries to write between its two reads of head: those elements are
        read, and everything that was in the buffer before is dropped. */
    method ReadBuff(buff: array<T>, count: nat, arriving: seq<T>) returns (n: nat, ghost m: nat)
      requires Valid() && count <= buff.Length && buff != data
      modifies this, data, buff
      ensures Valid() && n == Min(count, m) && m == Min(|arriving|, ix.Capacity() - |old(Contents())|)
      ensures buff[..] == arriving[..n] + old(buff[n..]) && Contents() == arriving[n..m]
      ensures ReadsUpTo(count, old(Contents()) + arriving[..m], n, buff[..], Contents()) <==> old(Contents()) == []
    {
      hide Position, Window, Wrapped, Loaded, IndexType.Valid;
      var tmpTail := head;
      m := WriteBuff(arriving, |arriving|);
      n, tmpTail := ReadRound(buff, 0, count, tmpTail, |old(Contents())|);
      SliceSecond(old(Contents()), arriving[..m], n);
      LoadedFront(old(buff[..]), old(Contents()) + arriving[..m], |old(Contents())|, n);
      assert arriving[..m][..n] == arriving[..n] && arriving[..m][n..] == arriving[n..m];
      StartsAtHead(old(Contents()), arriving[..m], count, n, buff[..], Contents());
    }

    method GetNextWriteSlot() returns (slot: Option<nat>)
      requires Valid()
      ensures slot == None <==> |Contents()| == ix.Capacity() && ix.InRange() && (ix.Wide() || tail <= head)
      ensures slot.Some? ==> slot.value == Position(ix.Capacity(), inserted + 1)
    {
      FullTestExact(ix, inserted, removed);
      SlotAfterNext(ix, inserted);
      slot := if ix.FullTest(head, tail) then None else Some(ix.Slot(head + 1));
    }

    /** Publishes whatever the slot at head holds. On a full buffer it publishes one element more
        than there are slots. */
    method CommitWrite()
      requires Valid()
      modifies `head, `inserted
      ensures Indexed() && inserted == old(inserted) + 1 && (Valid() <==> |old(Contents())| < ix.Capacity())
      ensures Contents() == old(Contents()) + [data[Position(ix.Capacity(), old(inserted))]]
    {
      WrappedRefines(ix, inserted, removed);
      SlotsExist(ix);
      head := ix.Next(head);
      inserted := inserted + 1;
      CommitStep(Slots(), removed, inserted - 1 - removed);
    }

    /** The use made of the pair: take a slot, fill it, commit. It appends the value only
        for a buffer of one slot, or when the slot at head happened to hold that value
        already and the slot filled instead was not the oldest element's. A full buffer that
        the full test does not recognise is overrun. */
    method WriteInPlace(v: T) returns (ok: bool)
      requires Valid()
      modifies `head, `inserted, data
      ensures ok <==> !(|old(Contents())| == ix.Capacity() && ix.InRange() && (ix.Wide() || old(tail) <= old(head)))
      ensures !ok ==> Valid() && Contents() == old(Contents())
      ensures ok ==> Indexed() && inserted == old(inserted) + 1 && removed == old(removed)
      ensures ok && |old(Contents())| < ix.Capacity() ==>
                && Valid()
                && (Contents() == old(Contents()) + [v] <==>
                    || ix.Capacity() == 1
                    || (old(data[Position(ix.Capacity(), inserted)]) == v &&
                        (|old(Contents())| < ix.Capacity() - 1 || old(Contents())[0] == v)))
      ensures ok && |old(Contents())| == ix.Capacity() ==>
                !Valid() && Slots() == old(Slots())[Position(ix.Capacity(), old(inserted) + 1) := v]
    {
      hide Window, Wrapped, Position, IndexType.Valid, IndexType.Modulus;
      SlotsExist(ix);
      ghost var before, full := Slots(), |Contents()| == ix.Capacity();
      var slot := GetNextWriteSlot();
      if slot == None {
        return false;
      }
      if !full {
        InPlaceStep(before, removed, inserted - removed, v);
      }
      data[slot.value] := v;
      assert Slots() == before[Position(ix.Capacity(), inserted + 1) := v];
      CommitWrite();
      return true;
    }
  }
}
