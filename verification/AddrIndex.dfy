/** The index of suppressed address ranges: an ordered map from start to size, largest
    start first, searched with lower_bound. */
module AddrIndex {

  const ADDRESS_SPACE: nat := 0x1_0000_0000_0000_0000

  /** Values of the unsigned sizes. */
  const SIZE_LIMIT: nat := 0x1_0000_0000

  datatype Range = Range(start: nat, size: nat) {
    function End(): nat {
      start + size
    }
    /** The sum as the address type computes it. */
    function Limit(): (l: nat)
      ensures Fits() ==> l == End()
      ensures Typed() && !Fits() ==> l < start
    {
      End() % ADDRESS_SPACE
    }
    /** What the types allow: an address and an unsigned size. */
    predicate Typed() {
      start < ADDRESS_SPACE && size < SIZE_LIMIT
    }
    /** The range neither leaves the address space nor reaches its very end. */
    predicate Fits() {
      End() < ADDRESS_SPACE
    }
    predicate Contains(a: nat) {
      start <= a < End()
    }
    /** Where the comparison with the limit stops: a range that reaches the end of the address
        space suppresses nothing. */
    function Reach(): nat {
      if Fits() then End() else start
    }
    /** The end of the range within the address space. */
    function Top(): nat {
      if Fits() then End() else ADDRESS_SPACE
    }
  }

  ghost predicate Ordered(index: seq<Range>) {
    forall i, j | 0 <= i < j < |index| :: index[i].start > index[j].start
  }

  /** `emplace`: a start that is present already keeps its size. */
  function Emplace(index: seq<Range>, r: Range): seq<Range> {
    if index == [] then [r]
    else if index[0].start > r.start then [index[0]] + Emplace(index[1..], r)
    else if index[0].start == r.start then index
    else [r] + index
  }

  /** The index after these calls of suppress_addr. */
  function Index(calls: seq<Range>): seq<Range> {
    if calls == [] then [] else Emplace(Index(calls[..|calls| - 1]), calls[|calls| - 1])
  }

  /** The entry with the largest start not above a, if any, decides. */
  function Suppressed(index: seq<Range>, a: nat): bool {
    if index == [] then false
    else if index[0].start > a then Suppressed(index[1..], a)
    else a < index[0].Limit()
  }

  lemma OrderedCons(x: Range, rest: seq<Range>)
    requires Ordered(rest) && forall e | e in rest :: e.start < x.start
    ensures Ordered([x] + rest)
  {
  }

  lemma HeadIsLargest(index: seq<Range>)
    requires Ordered(index) && index != []
    ensures Ordered(index[1..]) && forall e | e in index[1..] :: e.start < index[0].start
    ensures forall e :: e in index <==> e == index[0] || e in index[1..]
  {
  }

  ghost predicate HasStart(index: seq<Range>, start: nat) {
    exists e | e in index :: e.start == start
  }

  lemma {:induction false} EmplaceOrdered(index: seq<Range>, r: Range)
    requires Ordered(index)
    ensures Ordered(Emplace(index, r))
    ensures forall e :: e in Emplace(index, r) <==> e in index || (e == r && !HasStart(index, r.start))
  {
    if index != [] {
      var rest := index[1..];
      HeadIsLargest(index);
      if index[0].start > r.start {
        EmplaceOrdered(rest, r);
        OrderedCons(index[0], Emplace(rest, r));
      } else if index[0].start < r.start {
        OrderedCons(r, index);
      }
    }
  }

  /** The index is ordered, holds only ranges that were given, and every start given. */
  lemma {:induction false} IndexOrdered(calls: seq<Range>)
    ensures Ordered(Index(calls))
    ensures forall e | e in Index(calls) :: e in calls
    ensures forall r | r in calls :: HasStart(Index(calls), r.start)
  {
    if calls != [] {
      var before, last := calls[..|calls| - 1], calls[|calls| - 1];
      assert calls == before + [last];
      IndexOrdered(before);
      EmplaceOrdered(Index(before), last);
      forall r | r in calls ensures HasStart(Index(calls), r.start) {
        if HasStart(Index(before), r.start) {
          var e :| e in Index(before) && e.start == r.start;
          assert e in Index(calls);
        } else {
          assert last in Index(calls);
        }
      }
    }
  }

  /** The entry with the largest start not above a. */
  ghost predicate Decides(index: seq<Range>, a: nat, e: Range) {
    e in index && e.start <= a && forall o | o in index && o.start <= a :: o.start <= e.start
  }

  lemma {:induction false} Decider(index: seq<Range>, a: nat) returns (e: Range)
    requires Ordered(index)
    requires Suppressed(index, a) || exists o | o in index :: o.start <= a
    ensures Decides(index, a, e)
    ensures Suppressed(index, a) <==> a < e.Limit()
  {
    HeadIsLargest(index);
    if index[0].start > a {
      e := Decider(index[1..], a);
    } else {
      e := index[0];
    }
  }

  lemma DeciderUnique(index: seq<Range>, a: nat, e: Range, o: Range)
    requires Ordered(index) && Decides(index, a, e) && Decides(index, a, o)
    ensures e == o
  {
    assert e.start == o.start;
  }

  ghost predicate AllTyped(calls: seq<Range>) {
    forall r | r in calls :: r.Typed()
  }

  ghost predicate Scan(calls: seq<Range>, a: nat) {
    exists r | r in calls :: r.Contains(a)
  }

  ghost predicate StartsWithin(index: seq<Range>, k: Range) {
    exists n | n in index :: k.start < n.start <= k.Reach()
  }

  /** Where a range is cut off by an entry inside it that reaches less far, another entry
      takes over before a gap opens. A non-empty range that reaches the end of the address
      space cuts itself off. */
  ghost predicate Shadowless(calls: seq<Range>) {
    forall r, k | r in calls && k in Index(calls) && r.start <= k.start && k.Reach() < r.Top() ::
      StartsWithin(Index(calls), k)
  }

  /** An address reported as suppressed lies in a range, whatever the ranges: overlapping, empty
      or wrapping. */
  lemma Sound(calls: seq<Range>, a: nat)
    requires AllTyped(calls) && Suppressed(Index(calls), a)
    ensures Scan(calls, a)
  {
    hide Range.Limit;
    IndexOrdered(calls);
    var e := Decider(Index(calls), a);
    assert e.Typed() && e.Contains(a);
  }

  /** Without shadows every range fits. */
  lemma ShadowlessFit(calls: seq<Range>, r: Range)
    requires AllTyped(calls) && Shadowless(calls) && r in calls
    ensures r.Fits()
  {
    hide Range.Limit, Index, Ordered;
    var index := Index(calls);
    IndexOrdered(calls);
    LargestStart(index, r.start);
    var k :| k in index && r.start <= k.start && forall n | n in index :: n.start <= k.start;
    assert k in calls && k.Typed() && r.Typed();
    assert !StartsWithin(index, k);
  }

  lemma {:induction false} LargestStart(index: seq<Range>, start: nat)
    requires Ordered(index) && HasStart(index, start)
    ensures exists k | k in index :: start <= k.start && forall n | n in index :: n.start <= k.start
  {
    var e :| e in index && e.start == start;
    assert index[0] in index;
  }

  lemma ShadowlessFinds(calls: seq<Range>, a: nat)
    requires AllTyped(calls) && Shadowless(calls) && Scan(calls, a)
    ensures Suppressed(Index(calls), a)
  {
    hide Range.Limit, Index, Ordered, Suppressed, Shadowless, StartsWithin;
    IndexOrdered(calls);
    var r :| r in calls && r.Contains(a);
    ShadowlessFit(calls, r);
    var s :| s in Index(calls) && s.start == r.start;
    var e := Decider(Index(calls), a);
    ShadowlessFit(calls, e);
    ReachesPast(calls, a, r, e);
  }

  /** The entry that decides about an address of a range reaches past it. */
  lemma ReachesPast(calls: seq<Range>, a: nat, r: Range, e: Range)
    requires Shadowless(calls) && r in calls && r.Fits() && r.Contains(a)
    requires Decides(Index(calls), a, e) && r.start <= e.start
    ensures a < e.Reach()
  {
    hide Range.Limit, Index, StartsWithin;
    if e.Reach() <= a {
      NothingTakesOver(Index(calls), a, e);
    }
  }

  lemma NothingTakesOver(index: seq<Range>, a: nat, e: Range)
    requires Decides(index, a, e) && e.Reach() <= a
    ensures !StartsWithin(index, e)
  {
  }

  lemma ShadowHides(calls: seq<Range>, r: Range, k: Range)
    requires AllTyped(calls)
    requires r in calls && k in Index(calls) && r.start <= k.start && k.Reach() < r.Top()
    requires !StartsWithin(Index(calls), k)
    ensures Scan(calls, k.Reach()) && !Suppressed(Index(calls), k.Reach())
  {
    hide Range.Limit, Index;
    var index, a := Index(calls), k.Reach();
    IndexOrdered(calls);
    assert r.Contains(a);
    var e := Decider(index, a);
    assert Decides(index, a, k);
    DeciderUnique(index, a, e, k);
    assert k.Typed();
  }

  /** Whatever the ranges, their overlaps and ends: an address reported as suppressed lies
      in a range, and the index answers like a plain scan for every address if and only if
      no range is shadowed. */
  lemma ScanExact(calls: seq<Range>)
    requires AllTyped(calls)
    ensures forall a: nat :: Suppressed(Index(calls), a) ==> Scan(calls, a)
    ensures Shadowless(calls) <==> forall a: nat :: Suppressed(Index(calls), a) <==> Scan(calls, a)
  {
    forall a: nat | Suppressed(Index(calls), a) ensures Scan(calls, a) {
      Sound(calls, a);
    }
    if Shadowless(calls) {
      forall a: nat | Scan(calls, a) ensures Suppressed(Index(calls), a) {
        ShadowlessFinds(calls, a);
      }
    } else {
      var r, k :| r in calls && k in Index(calls) && r.start <= k.start && k.Reach() < r.Top() &&
                  !StartsWithin(Index(calls), k);
      ShadowHides(calls, r, k);
    }
  }

  ghost predicate AllFit(calls: seq<Range>) {
    forall r | r in calls :: r.Fits()
  }

  ghost predicate Disjoint(calls: seq<Range>) {
    forall i, j | 0 <= i < j < |calls| :: calls[i].End() <= calls[j].start || calls[j].End() <= calls[i].start
  }

  /** In particular, pairwise disjoint non-empty ranges are all found. */
  lemma DisjointExact(calls: seq<Range>, a: nat)
    requires AllTyped(calls) && AllFit(calls) && Disjoint(calls) && forall r | r in calls :: r.size > 0
    ensures Suppressed(Index(calls), a) <==> Scan(calls, a)
  {
    hide Index, Ordered, Emplace, Suppressed, HasStart, Scan, Disjoint, StartsWithin;
    IndexOrdered(calls);
    forall r, k | r in calls && k in Index(calls) && r.start <= k.start ensures r.End() <= k.End() {
      DisjointEnds(calls, r, k);
    }
    ScanExact(calls);
  }

  lemma DisjointEnds(calls: seq<Range>, r: Range, k: Range)
    requires Disjoint(calls) && r in calls && k in calls && r.size > 0 && k.size > 0 && r.start <= k.start
    ensures r.End() <= k.End()
  {
    var i :| 0 <= i < |calls| && calls[i] == r;
    var j :| 0 <= j < |calls| && calls[j] == k;
    if i < j {
      assert calls[i].End() <= calls[j].start || calls[j].End() <= calls[i].start;
    }
  }
}
