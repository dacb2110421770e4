/** The frequently executed pages of a thread: on an update the pages whose status changed are
    flushed from the code cache. */
module HotPages {
  import opened LossyCounting

  /** Pages of 1 KiB. */
  const PAGE: nat := 1024
  /** The share of the references from which a page is frequent, and the error of the count. */
  const SHARE: real := 0.01
  const ERROR: real := 0.001

  predicate StrictlySorted(s: seq<nat>) {
    forall i, j :: 0 <= i < j < |s| ==> s[i] < s[j]
  }

  predicate AllDistinct(s: seq<nat>) {
    forall i, j :: 0 <= i < j < |s| ==> s[i] != s[j]
  }

  ghost predicate SameElements(s: seq<nat>, t: seq<nat>) {
    forall x :: x in s <==> x in t
  }

  /** An address lies in one of the flushed regions, each [page * 1024, page * 1024 + 1024). */
  predicate InFlushed(pages: seq<nat>, addr: nat) {
    exists i :: 0 <= i < |pages| && pages[i] * PAGE <= addr < pages[i] * PAGE + PAGE
  }

  lemma InFlushedPage(pages: seq<nat>, addr: nat)
    ensures InFlushed(pages, addr) <==> addr / PAGE in pages
  {
    if addr / PAGE in pages {
      var i :| 0 <= i < |pages| && pages[i] == addr / PAGE;
      assert pages[i] * PAGE <= addr < pages[i] * PAGE + PAGE;
    }
  }

  /** Where a new element goes. */
  method InsertSorted(s: seq<nat>, x: nat) returns (r: seq<nat>)
    requires StrictlySorted(s) && x !in s
    ensures StrictlySorted(r) && forall y :: y in r <==> y == x || y in s
  {
    var i := 0;
    while i < |s| && s[i] < x
      invariant i <= |s| && forall j :: 0 <= j < i ==> s[j] < x
    {
      i := i + 1;
    }
    assert forall j :: i <= j < |s| ==> x < s[j] by {
      assert i < |s| ==> s[i] != x;
    }
    r := s[..i] + [x] + s[i..];
    InsertedElements(s, i, x);
  }

  lemma InsertedElements(s: seq<nat>, i: nat, x: nat)
    requires i <= |s|
    ensures forall y :: y in s[..i] + [x] + s[i..] <==> y == x || y in s
  {
    assert s == s[..i] + s[i..];
  }

  /** The pages of a histogram, in order. */
  method GetPcsFromHist(hist: seq<(nat, nat)>) returns (pcs: seq<nat>)
    requires AllDistinct(Keys(hist))
    ensures StrictlySorted(pcs) && SameElements(pcs, Keys(hist))
  {
    pcs := [];
    for i := 0 to |hist|
      invariant StrictlySorted(pcs) && SameElements(pcs, Keys(hist[..i]))
    {
      var keys := Keys(hist);
      assert Keys(hist[..i]) == keys[..i] && Keys(hist[..i + 1]) == keys[..i] + [keys[i]];
      assert keys[i] !in keys[..i];
      pcs := InsertSorted(pcs, hist[i].0);
    }
    assert hist[..|hist|] == hist;
  }

  function Keys(hist: seq<(nat, nat)>): seq<nat> {
    seq(|hist|, i requires 0 <= i < |hist| => hist[i].0)
  }

  /** What is in one of two sorted sequences but not in both, in order: the merge steps
      through both at once. */
  method SymmetricDifference(a: seq<nat>, b: seq<nat>) returns (d: seq<nat>)
    requires StrictlySorted(a) && StrictlySorted(b)
    ensures StrictlySorted(d) && forall x :: x in d <==> (x in a) != (x in b)
  {
    d := [];
    var i, j := 0, 0;
    while i < |a| || j < |b|
      invariant i <= |a| && j <= |b| && StrictlySorted(d)
      invariant Merged(a, b, i, j, d)
      decreases |a| - i + |b| - j
    {
      ghost var d0 := d;
      if j == |b| || (i < |a| && a[i] < b[j]) {
        d := d + [a[i]];
        i := i + 1;
        MergedLeft(a, b, i - 1, j, d0);
      } else if i == |a| || b[j] < a[i] {
        d := d + [b[j]];
        j := j + 1;
        MergedRight(a, b, i, j - 1, d0);
      } else {
        i, j := i + 1, j + 1;
        MergedBoth(a, b, i - 1, j - 1, d0);
      }
    }
    assert a[..i] == a && b[..j] == b;
  }

  /** `d` is the difference of the parts already passed, all below what is to come. */
  ghost predicate Merged(a: seq<nat>, b: seq<nat>, i: nat, j: nat, d: seq<nat>)
    requires i <= |a| && j <= |b|
  {
    && (forall x :: x in d <==> (x in a[..i]) != (x in b[..j]))
    && Below(a[..i], b[j..]) && Below(b[..j], a[i..]) && Below(d, a[i..]) && Below(d, b[j..])
  }

  predicate Below(s: seq<nat>, t: seq<nat>) {
    forall i, j :: 0 <= i < |s| && 0 <= j < |t| ==> s[i] < t[j]
  }

  lemma MergedLeft(a: seq<nat>, b: seq<nat>, i: nat, j: nat, d: seq<nat>)
    requires StrictlySorted(a) && StrictlySorted(b) && StrictlySorted(d)
    requires i < |a| && j <= |b| && Merged(a, b, i, j, d) && (j < |b| ==> a[i] < b[j])
    ensures Merged(a, b, i + 1, j, d + [a[i]]) && StrictlySorted(d + [a[i]])
  {
    assert a[..i + 1] == a[..i] + [a[i]] && a[i..] == [a[i]] + a[i + 1..];
    assert a[i] !in b[..j] by {
      assert forall k :: 0 <= k < j ==> b[..j][k] < a[i..][0];
    }
    assert a[i] !in a[..i];
    assert forall k :: 0 <= k < |d| ==> d[k] < a[i..][0];
  }

  lemma MergedRight(a: seq<nat>, b: seq<nat>, i: nat, j: nat, d: seq<nat>)
    requires StrictlySorted(a) && StrictlySorted(b) && StrictlySorted(d)
    requires i <= |a| && j < |b| && Merged(a, b, i, j, d) && (i < |a| ==> b[j] < a[i])
    ensures Merged(a, b, i, j + 1, d + [b[j]]) && StrictlySorted(d + [b[j]])
  {
    assert Merged(b, a, j, i, d);
    MergedLeft(b, a, j, i, d);
  }

  lemma MergedBoth(a: seq<nat>, b: seq<nat>, i: nat, j: nat, d: seq<nat>)
    requires StrictlySorted(a) && StrictlySorted(b)
    requires i < |a| && j < |b| && Merged(a, b, i, j, d) && a[i] == b[j]
    ensures Merged(a, b, i + 1, j + 1, d)
  {
    assert a[..i + 1] == a[..i] + [a[i]] && b[..j + 1] == b[..j] + [b[j]];
    assert a[i..] == [a[i]] + a[i + 1..] && b[j..] == [b[j]] + b[j + 1..];
    assert a[i] !in d by {
      assert forall k :: 0 <= k < |d| ==> d[k] < a[i..][0];
    }
  }

  lemma OutputKeys(f: real, e: real, m: Model<nat>, out: seq<(nat, nat)>)
    requires forall i :: 0 <= i < |out| ==> PutOut(f, e, m, out[i].0)
    requires forall k :: PutOut(f, e, m, k) ==> exists i :: 0 <= i < |out| && out[i].0 == k
    ensures forall page :: page in Keys(out) <==> PutOut(f, e, m, page)
  {
    forall page | PutOut(f, e, m, page) ensures page in Keys(out) {
      var i :| 0 <= i < |out| && out[i].0 == page;
      assert Keys(out)[i] == page;
    }
  }

  class Pages {
    const lossyFlush: bool
    var freqPcs: seq<nat>
    /** The pages handed to the code cache for flushing, in order. */
    var flushed: seq<nat>
    ghost var latest: seq<nat>

    /** The list is the latest frequent set, in order; it is only maintained when the lossy
        flush is on. */
    ghost predicate Valid()
      reads this
    {
      && StrictlySorted(freqPcs)
      && SameElements(freqPcs, if lossyFlush then latest else [])
    }

    constructor (lossyFlush: bool)
      ensures Valid() && latest == [] && flushed == [] && this.lossyFlush == lossyFlush
    {
      this.lossyFlush := lossyFlush;
      freqPcs, flushed, latest := [], [], [];
    }

    /** The frequent set becomes what the count of the pages puts out. An address is in a region
        flushed by this update exactly when its page changed between frequent and not. */
    method UpdateCache(pcHits: LossyCountingModel<nat>)
      requires Valid() && pcHits.Valid()
      modifies this
      ensures Valid() && old(flushed) <= flushed
      ensures forall page :: page in latest <==> PutOut(pcHits.frequency, pcHits.error, pcHits.State(), page)
      ensures !lossyFlush ==> flushed == old(flushed)
      ensures lossyFlush ==> StrictlySorted(flushed[|old(flushed)|..])
      ensures lossyFlush ==> forall addr: nat :: InFlushed(flushed[|old(flushed)|..], addr) <==>
                (addr / PAGE in old(latest)) != (addr / PAGE in latest)
    {
      var newFreq := pcHits.ComputeOutput();
      latest := Keys(newFreq);
      OutputKeys(pcHits.frequency, pcHits.error, pcHits.State(), newFreq);
      if lossyFlush {
        var pcNew := GetPcsFromHist(newFreq);
        var difference := SymmetricDifference(pcNew, freqPcs);
        for i := 0 to |difference|
          invariant flushed == old(flushed) + difference[..i]
          invariant unchanged(`freqPcs) && latest == Keys(newFreq)
        {
          flushed := flushed + [difference[i]];
        }
        freqPcs := pcNew;
        assert flushed[|old(flushed)|..] == difference;
        forall addr: nat
          ensures InFlushed(difference, addr) <==> (addr / PAGE in old(latest)) != (addr / PAGE in latest)
        {
          InFlushedPage(difference, addr);
        }
      }
    }

    /** Binary search for the page of a basic block. Without the lossy flush no page is ever
        found. */
    method PcInFreq(bb: nat) returns (found: bool)
      requires Valid()
      ensures found <==> lossyFlush && bb / PAGE in latest
    {
      var page := bb / PAGE;
      var lo, hi := 0, |freqPcs|;
      while lo < hi
        invariant lo <= hi <= |freqPcs|
        invariant forall i :: 0 <= i < lo ==> freqPcs[i] < page
        invariant forall i :: hi <= i < |freqPcs| ==> page <= freqPcs[i]
      {
        var mid := (lo + hi) / 2;
        if freqPcs[mid] < page {
          lo := mid + 1;
        } else {
          hi := mid;
        }
      }
      found := lo < |freqPcs| && freqPcs[lo] == page;
      assert found <==> page in freqPcs;
    }
  }

  /** From the references to the answer: after a cache update a block is found if its page
      makes up a hundredth of the counted references, and only if it makes up nine
      thousandths, up to one reference. */
  method FrequentBlock(pages: seq<nat>, bb: nat) returns (found: bool)
    requires pages != []
    ensures Count<nat>(pages, bb / PAGE) as real >= SHARE * |pages| as real ==> found
    ensures found ==> Count<nat>(pages, bb / PAGE) as real > SHARE * |pages| as real - ERROR * |pages| as real - 1.0
  {
    hide Count, ProcessAll, PutOut;
    TrackerWindow();
    var pcHits := new LossyCountingModel(SHARE, ERROR);
    assert pcHits.windowSize == 1000;
    pcHits.ProcessStream(pages);
    ghost var m := pcHits.State();
    assert m == ProcessAll<nat>(1000, pages);
    var hot := new Pages(true);
    hot.UpdateCache(pcHits);
    assert pcHits.State() == m;
    assert bb / PAGE in hot.latest <==> PutOut<nat>(SHARE, ERROR, m, bb / PAGE);
    found := hot.PcInFreq(bb);
    SharesFound(pages, bb / PAGE);
  }

  lemma SharesFound(pages: seq<nat>, page: nat)
    requires pages != []
    ensures var m := ProcessAll<nat>(1000, pages);
            && (Count<nat>(pages, page) as real >= SHARE * |pages| as real ==> PutOut<nat>(SHARE, ERROR, m, page))
            && (PutOut<nat>(SHARE, ERROR, m, page) ==>
                  Count<nat>(pages, page) as real > SHARE * |pages| as real - ERROR * |pages| as real - 1.0)
  {
    hide Count, ProcessAll, PutOut;
    TrackerWindow();
    if Count<nat>(pages, page) as real >= SHARE * |pages| as real {
      FrequentPutOut<nat>(SHARE, ERROR, 1000, pages, page);
    }
    if PutOut<nat>(SHARE, ERROR, ProcessAll<nat>(1000, pages), page) {
      PutOutFrequent(SHARE, ERROR, 1000, pages, page);
    }
  }
}
