/** Counting a stream in little memory: counts are lowered by one at the end of every window,
    and what reaches zero is forgotten. */
module LossyCounting {
  import opened Arithmetic

  /** The counts that are kept, and the length of the stream. */
  datatype Model<!T> = Model(hist: map<T, nat>, total: nat)

  predicate Positive<T>(h: map<T, nat>) {
    forall k :: k in h ==> h[k] >= 1
  }

  function Decreased<T>(h: map<T, nat>): (h': map<T, nat>)
    requires Positive(h)
    ensures Positive(h')
  {
    map k | k in h && h[k] != 1 :: h[k] - 1
  }

  function Kept<T>(m: Model<T>, x: T): nat {
    if x in m.hist then m.hist[x] else 0
  }

  function Processed<T>(window: nat, m: Model<T>, x: T): (m': Model<T>)
    requires window > 0 && Positive(m.hist)
    ensures Positive(m'.hist)
  {
    var h := m.hist[x := Kept(m, x) + 1];
    Model(if (m.total + 1) % window == 0 then Decreased(h) else h, m.total + 1)
  }

  function ProcessAll<T>(window: nat, stream: seq<T>): (m: Model<T>)
    requires window > 0
    ensures Positive(m.hist)
  {
    if stream == [] then Model(map[], 0)
    else Processed(window, ProcessAll(window, stream[..|stream| - 1]), stream[|stream| - 1])
  }

  /** How often an item is in the stream. */
  function Count<T(==)>(stream: seq<T>, x: T): nat {
    if stream == [] then 0
    else Count(stream[..|stream| - 1], x) + if stream[|stream| - 1] == x then 1 else 0
  }

  lemma WindowStep(n: nat, window: nat)
    requires window > 0
    ensures (n + 1) / window == n / window + if (n + 1) % window == 0 then 1 else 0
  {
    var q, r := n / window, n % window;
    assert n == q * window + r;
    if r + 1 == window {
      assert n + 1 == (q + 1) * window;
      RemainderUnique(n + 1, window, q + 1, 0);
    } else {
      RemainderUnique(n + 1, window, q, r + 1);
    }
  }

  /** A kept count is never too high, and too low by at most the number of finished windows. */
  lemma {:induction false} KeptBounds<T>(window: nat, stream: seq<T>, x: T)
    requires window > 0
    ensures var m := ProcessAll(window, stream);
            && m.total == |stream|
            && Kept(m, x) <= Count(stream, x) <= Kept(m, x) + |stream| / window
    decreases |stream|
  {
    if stream != [] {
      KeptBounds(window, stream[..|stream| - 1], x);
      WindowStep(|stream| - 1, window);
    }
  }

  /** The count from which an item is put out; the cast truncates toward zero. */
  function Threshold(f: real, e: real, total: nat): int {
    var x := f * total as real - e * total as real;
    if x >= 0.0 then x.Floor else -(-x).Floor
  }

  /** The comparison is unsigned: a negative threshold is above every count. */
  predicate Reaches(count: nat, threshold: int) {
    0 <= threshold <= count
  }

  predicate PutOut<T>(f: real, e: real, m: Model<T>, x: T) {
    x in m.hist && Reaches(m.hist[x], Threshold(f, e, m.total))
  }

  lemma WindowsWithinError(e: real, window: nat, n: nat)
    requires window > 0 && 0.0 <= e && 1.0 <= e * window as real
    ensures (n / window) as real <= e * n as real
  {
    var k := n / window;
    FinishedWindows(n, window);
    ScaleMonotone(k as real, 1.0, e * window as real);
    SwapFactors(k as real, e, window as real);
    ScaleMonotone(e, k as real * window as real, n as real);
  }

  lemma FinishedWindows(n: nat, window: nat)
    requires window > 0
    ensures (n / window) as real * window as real <= n as real
  {
    assert (n / window) * window <= n;
    assert ((n / window) * window) as real == (n / window) as real * window as real;
  }

  lemma ScaleMonotone(x: real, a: real, b: real)
    requires 0.0 <= x && a <= b
    ensures x * a <= x * b
  {
  }

  lemma SwapFactors(x: real, y: real, z: real)
    ensures x * (y * z) == y * (x * z)
  {
  }

  /** Nothing frequent is missed: an item that makes up the share f of the stream is put out.
      The window must not be shorter than 1 / e, which rounding 1 / e can make it. */
  lemma FrequentPutOut<T>(f: real, e: real, window: nat, stream: seq<T>, x: T)
    requires window > 0 && 0.0 < e < f && 1.0 <= e * window as real && stream != []
    requires Count(stream, x) as real >= f * |stream| as real
    ensures PutOut(f, e, ProcessAll(window, stream), x)
  {
    hide ProcessAll, Count;
    KeptBounds(window, stream, x);
    WindowsWithinError(e, window, |stream|);
    LargerShare(f, e, |stream|);
    KeptReaches(f * |stream| as real, e * |stream| as real,
                Count(stream, x), Kept(ProcessAll(window, stream), x), |stream| / window);
  }

  lemma LargerShare(f: real, e: real, n: nat)
    requires n > 0 && e < f
    ensures e * n as real < f * n as real
  {
    assert f * n as real - e * n as real == (f - e) * n as real;
  }

  lemma KeptReaches(share: real, error: real, count: nat, kept: nat, windows: nat)
    requires count <= kept + windows && windows as real <= error < share <= count as real
    ensures Reaches(kept, (share - error).Floor) && kept > 0
  {
  }

  /** Nothing rare is put out: what is put out makes up the share f - e, up to rounding. */
  lemma PutOutFrequent<T>(f: real, e: real, window: nat, stream: seq<T>, x: T)
    requires window > 0 && PutOut(f, e, ProcessAll(window, stream), x)
    ensures Count(stream, x) as real > f * |stream| as real - e * |stream| as real - 1.0
  {
    hide ProcessAll, Count;
    KeptBounds(window, stream, x);
    ThresholdClose(f, e, |stream|);
  }

  lemma ThresholdClose(f: real, e: real, n: nat)
    ensures Threshold(f, e, n) as real > f * n as real - e * n as real - 1.0
  {
  }

  // ---------------------------------------------------------------- in place

  class LossyCountingModel<T(==)> {
    const frequency: real
    const error: real
    const windowSize: nat
    var total: nat
    var histogram: map<T, nat>

    ghost predicate Valid()
      reads this
    {
      windowSize > 0 && Positive(histogram)
    }

    ghost function State(): Model<T>
      reads this
    {
      Model(histogram, total)
    }

    constructor (frequency: real, error: real)
      requires 0.0 < error <= 1.0
      ensures Valid() && State() == Model(map[], 0)
      ensures this.frequency == frequency && this.error == error
      ensures windowSize == (1.0 / error + 0.5).Floor
    {
      this.frequency, this.error := frequency, error;
      RoundedPositive(error);
      windowSize := (1.0 / error + 0.5).Floor;
      total, histogram := 0, map[];
    }

    method DecreaseAllFrequencies()
      requires Valid()
      modifies `histogram
      ensures histogram == Decreased(old(histogram)) && Valid()
    {
      var todo := histogram.Keys;
      while todo != {}
        invariant todo <= histogram.Keys && todo <= old(histogram).Keys && Positive(histogram)
        invariant forall k :: k in todo ==> histogram[k] == old(histogram)[k]
        invariant forall k :: k in histogram ==> k in old(histogram)
        invariant forall k :: k in old(histogram) && k !in todo ==>
                    (k in histogram <==> old(histogram)[k] != 1) &&
                    (k in histogram ==> histogram[k] == old(histogram)[k] - 1)
      {
        var k :| k in todo;
        if histogram[k] == 1 {
          histogram := histogram - {k};
        } else {
          histogram := histogram[k := histogram[k] - 1];
        }
        todo := todo - {k};
      }
    }

    /** True when a window ended. */
    method ProcessItem(x: T) returns (windowEnded: bool)
      requires Valid()
      modifies `histogram, `total
      ensures Valid() && State() == Processed(windowSize, old(State()), x)
      ensures windowEnded <==> total % windowSize == 0
    {
      histogram := histogram[x := if x in histogram then histogram[x] + 1 else 1];
      total := total + 1;
      if total % windowSize == 0 {
        DecreaseAllFrequencies();
        return true;
      }
      return false;
    }

    method ProcessStream(stream: seq<T>)
      requires Valid() && State() == Model(map[], 0)
      modifies `histogram, `total
      ensures Valid() && State() == ProcessAll(windowSize, stream)
    {
      for i := 0 to |stream|
        invariant Valid() && State() == ProcessAll(windowSize, stream[..i])
      {
        assert stream[..i + 1][..i] == stream[..i];
        var _ := ProcessItem(stream[i]);
      }
      assert stream[..|stream|] == stream;
    }

    /** The items that are put out, in the unspecified order of the histogram, each once. */
    method ComputeOutput() returns (result: seq<(T, nat)>)
      requires Valid()
      ensures forall i, j :: 0 <= i < j < |result| ==> result[i].0 != result[j].0
      ensures forall i :: 0 <= i < |result| ==>
                PutOut(frequency, error, State(), result[i].0) && result[i].1 == histogram[result[i].0]
      ensures forall k :: PutOut(frequency, error, State(), k) ==> exists i :: 0 <= i < |result| && result[i].0 == k
    {
      result := [];
      var todo := histogram.Keys;
      var threshold := Threshold(frequency, error, total);
      while todo != {}
        invariant todo <= histogram.Keys
        invariant forall i :: 0 <= i < |result| ==> result[i].0 !in todo
        invariant forall i, j :: 0 <= i < j < |result| ==> result[i].0 != result[j].0
        invariant forall i :: 0 <= i < |result| ==>
                    PutOut(frequency, error, State(), result[i].0) && result[i].1 == histogram[result[i].0]
        invariant forall k :: PutOut(frequency, error, State(), k) && k !in todo ==>
                    exists i :: 0 <= i < |result| && result[i].0 == k
      {
        var k :| k in todo;
        ghost var before := result;
        if Reaches(histogram[k], threshold) {
          result := result + [(k, histogram[k])];
          assert result[|before|].0 == k;
        }
        forall x | PutOut(frequency, error, State(), x) && x !in todo - {k}
          ensures exists i :: 0 <= i < |result| && result[i].0 == x
        {
          if x != k {
            var i :| 0 <= i < |before| && before[i].0 == x;
            assert result[i].0 == x;
          }
        }
        todo := todo - {k};
      }
    }
  }

  lemma RoundedPositive(e: real)
    requires 0.0 < e <= 1.0
    ensures (1.0 / e + 0.5).Floor >= 1
  {
    assert 1.0 / e * e == 1.0;
    assert 1.0 / e >= 1.0;
  }

  /** With the error of the tracker the window is exactly 1 / e. */
  lemma TrackerWindow()
    ensures (1.0 / 0.001 + 0.5).Floor == 1000 && 1.0 <= 0.001 * 1000 as real
  {
  }
}
