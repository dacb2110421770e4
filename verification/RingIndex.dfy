/** Index arithmetic of the ring buffer: free-running unsigned indices that wrap,
    masked into an array whose length is a power of two. */
module RingIndex {
  import opened Arithmetic

  /** Width of the C++ type `int`: operands of a narrower type are promoted to it. */
  const INT_BITS: nat := 32
  /** Width of `size_t`, the type of `buffer_size`. */
  const SIZE_BITS: nat := 64

  function Pow2(k: nat): (p: nat)
    ensures p > 0
  {
    if k == 0 then 1 else 2 * Pow2(k - 1)
  }

  /** The bitwise `&` of two unsigned numbers. */
  function BitAnd(x: nat, y: nat): (r: nat)
    ensures r <= x && r <= y
  {
    if x == 0 || y == 0 then 0 else (x % 2) * (y % 2) + 2 * BitAnd(x / 2, y / 2)
  }

  /** The template parameters `index_t` (by its width) and `buffer_size`. */
  datatype IndexType = IndexType(bits: nat, size: nat) {

    function Modulus(): (m: nat)
      ensures m > 0
    {
      Pow2(bits)
    }

    /** The value assigned to an index_t variable from a size_t or int expression. */
    function Truncate(x: int): nat {
      x % Modulus()
    }

    /** `buffer_mask`, itself an index_t. */
    function Mask(): nat {
      Truncate(size - 1)
    }

    /** The number of slots the mask leaves. */
    function Capacity(): (c: nat)
      ensures 0 < c <= Modulus() && (size != 0 ==> c <= size)
    {
      RemainderAtMost(size - 1, Modulus());
      Mask() + 1
    }

    /** The class's compile-time assertions; and the array is an object, which no array of half
        the address space or more is. */
    predicate Valid() {
      && 0 < bits <= SIZE_BITS
      && 0 != size < Pow2(SIZE_BITS - 1)
      && BitAnd(size, Mask()) == 0
      && Mask() <= (Modulus() - 1) / 2
    }

    /** The size is itself a value of index_t. */
    predicate InRange() {
      size < Modulus()
    }

    /** index_t is at least as wide as int, so differences stay in index_t. */
    predicate Wide() {
      INT_BITS <= bits
    }

    /** `tmp_head - tail` as it is compared with `buffer_size`: in index_t when that is
        at least an int, else in int and then converted to size_t. */
    function Difference(head: nat, tail: nat): nat {
      (head - tail) % (if Wide() then Modulus() else Pow2(SIZE_BITS))
    }

    /** A full buffer is always recognised as one. */
    predicate TellsFull() {
      Wide() && InRange()
    }

    predicate FullTest(head: nat, tail: nat) {
      Difference(head, tail) == size
    }

    function Next(index: nat): nat {
      (index + 1) % Modulus()
    }

    function Slot(index: nat): (slot: nat)
      ensures slot < Capacity()
    {
      BitAnd(index, Mask())
    }
  }

  lemma {:induction false} Pow2Add(a: nat, b: nat)
    ensures Pow2(a + b) == Pow2(a) * Pow2(b)
  {
    if a > 0 {
      Pow2Add(a - 1, b);
      DoubleProduct(Pow2(a - 1), Pow2(b));
    }
  }

  lemma DoubleProduct(x: nat, y: nat)
    ensures 2 * (x * y) == (2 * x) * y
  {
  }

  lemma {:induction false} Pow2Monotone(a: nat, b: nat)
    requires a <= b
    ensures Pow2(a) <= Pow2(b)
    ensures a < b ==> 2 * Pow2(a) <= Pow2(b)
    decreases b
  {
    if a < b {
      Pow2Monotone(a, b - 1);
    }
  }

  /** Masking with one less than a power of two is the remainder by it. */
  lemma {:induction false} MaskIsRemainder(x: nat, k: nat)
    ensures BitAnd(x, Pow2(k) - 1) == x % Pow2(k)
  {
    if x == 0 || k == 0 {
    } else {
      var p := Pow2(k - 1);
      assert (2 * p - 1) / 2 == p - 1 && (2 * p - 1) % 2 == 1;
      MaskIsRemainder(x / 2, k - 1);
      HalfRemainder(x, p);
      if p == 1 {
        assert BitAnd(x, 1) == x % 2 + 2 * BitAnd(x / 2, 0);
      }
    }
  }

  lemma HalfRemainder(x: nat, p: nat)
    requires p > 0
    ensures x % (2 * p) == x % 2 + 2 * ((x / 2) % p)
  {
    var q := (x / 2) / p;
    var r := (x / 2) % p;
    assert x == 2 * (q * p + r) + x % 2;
    assert x == q * (2 * p) + (2 * r + x % 2);
    RemainderUnique(x, 2 * p, q, 2 * r + x % 2);
  }

  /** The static assertion `!(n & (n - 1))` accepts exactly the powers of two. */
  lemma {:induction false} PowerOfTwoCheck(n: nat)
    requires n != 0
    ensures BitAnd(n, n - 1) == 0 <==> IsPow2(n)
  {
    if n == 1 {
      assert n == Pow2(0);
    } else if n % 2 == 1 {
      assert (n - 1) / 2 == n / 2 && (n - 1) % 2 == 0;
      AndSelf(n / 2);
      forall k: nat ensures n != Pow2(k) {
      }
    } else {
      EvenMask(n);
      PowerOfTwoCheck(n / 2);
      HalfIsPow2(n);
    }
  }

  ghost predicate IsPow2(n: nat) {
    exists k: nat :: n == Pow2(k)
  }

  lemma HalfIsPow2(n: nat)
    requires n >= 2 && n % 2 == 0
    ensures IsPow2(n) <==> IsPow2(n / 2)
  {
    if IsPow2(n) {
      var k: nat :| n == Pow2(k);
      assert n / 2 == Pow2(k - 1);
    }
    if IsPow2(n / 2) {
      var k: nat :| n / 2 == Pow2(k);
      assert n == Pow2(k + 1);
    }
  }

  lemma EvenMask(n: nat)
    requires n >= 2 && n % 2 == 0
    ensures BitAnd(n, n - 1) == 2 * BitAnd(n / 2, n / 2 - 1)
  {
    assert (n - 1) / 2 == n / 2 - 1;
  }

  lemma {:induction false} AndSelf(n: nat)
    ensures BitAnd(n, n) == n
  {
    if n != 0 {
      AndSelf(n / 2);
    }
  }

  /** A mask below 2 to the b looks at the low b bits only. */
  lemma {:induction false} LowBitsAnd(x: nat, y: nat, b: nat)
    requires y < Pow2(b)
    ensures BitAnd(x, y) == BitAnd(x % Pow2(b), y)
  {
    if b == 0 || x == 0 || y == 0 {
    } else {
      var p, low := Pow2(b - 1), x % Pow2(b);
      HalfRemainder(x, p);
      assert low % 2 == x % 2 && low / 2 == (x / 2) % p;
      LowBitsAnd(x / 2, y / 2, b - 1);
      if low == 0 {
        ZeroAnd(y / 2);
      }
    }
  }

  lemma ZeroAnd(y: nat)
    ensures BitAnd(0, y) == 0
  {
  }

  lemma CapacityIs(ix: IndexType)
    requires ix.size != 0
    ensures var r := ix.size % ix.Modulus();
            && ix.Capacity() == (if r == 0 then ix.Modulus() else r)
            && (ix.size == ix.Capacity() <==> ix.InRange() || ix.size == ix.Modulus())
  {
    hide Pow2, IndexType.Modulus;
    PredecessorRemainder(ix.size, ix.Modulus());
  }

  lemma PredecessorRemainder(n: nat, m: nat)
    requires n > 0 && m > 0
    ensures (n - 1) % m == if n % m == 0 then m - 1 else n % m - 1
    ensures (n - 1) % m + 1 == n <==> n <= m
  {
    var q, r := n / m, n % m;
    assert n == q * m + r;
    if r == 0 {
      assert n - 1 == (q - 1) * m + (m - 1);
      RemainderUnique(n - 1, m, q - 1, m - 1);
    } else {
      RemainderUnique(n - 1, m, q, r - 1);
    }
    if n <= m {
      RemainderUnique(n - 1, m, 0, n - 1);
    }
  }

  /** The shapes that pass the compile-time assertions: the size, as far as index_t can tell it,
      is a power of two and at most half the index range. */
  lemma AcceptedShapes(ix: IndexType)
    requires 0 < ix.bits <= SIZE_BITS && 0 != ix.size < Pow2(SIZE_BITS - 1)
    ensures var r := ix.size % ix.Modulus();
            && (ix.Valid() <==> IsPow2(r) && 2 * r <= ix.Modulus())
            && (ix.InRange() ==> r == ix.size)
  {
    CapacityIs(ix);
    var m := ix.Modulus();
    var r := ix.size % m;
    EvenModulus(ix);
    if r == 0 {
      ZeroIsNoPower();
    } else {
      LowBitsAnd(ix.size, r - 1, ix.bits);
      PowerOfTwoCheck(r);
    }
    if ix.InRange() {
      RemainderUnique(ix.size, m, 0, ix.size);
    }
  }

  lemma EvenModulus(ix: IndexType)
    requires 0 < ix.bits
    ensures ix.Modulus() % 2 == 0 && (ix.Modulus() - 1) / 2 == ix.Modulus() / 2 - 1
  {
  }

  lemma ZeroIsNoPower()
    ensures !IsPow2(0)
  {
    forall k: nat ensures 0 != Pow2(k) {
    }
  }

  /** For every width below that of size_t some sizes pass that are no powers of two: a power
      beyond the index range and a smaller one together. */
  lemma OversizeAccepted(b: nat, k: nat) returns (ix: IndexType)
    requires k < b < SIZE_BITS - 1
    ensures ix == IndexType(b, Pow2(b) + Pow2(k)) && ix.Valid() && !ix.InRange() && !IsPow2(ix.size)
  {
    ix := IndexType(b, Pow2(b) + Pow2(k));
    Pow2Monotone(k, b);
    Pow2Monotone(b, SIZE_BITS - 2);
    assert Pow2(SIZE_BITS - 1) == 2 * Pow2(SIZE_BITS - 2);
    RemainderUnique(ix.size, Pow2(b), 1, Pow2(k));
    AcceptedShapes(ix);
    forall j: nat ensures ix.size != Pow2(j) {
      if j <= b {
        Pow2Monotone(j, b);
      } else {
        Pow2Monotone(b, j);
      }
    }
  }

  /** What the compile-time assertions buy: the number of slots divides the index range at
      least twice, so the low bits of a wrapped index are those of the full count; and it is
      the size exactly if the size lies in the index range. */
  lemma ValidShape(ix: IndexType) returns (k: nat)
    requires ix.Valid()
    ensures ix.Capacity() == ix.size % ix.Modulus() == Pow2(k) && k < ix.bits
    ensures ix.Modulus() == Pow2(ix.bits - k) * ix.Capacity()
    ensures 2 * ix.Capacity() <= ix.Modulus()
    ensures ix.Capacity() == ix.size <==> ix.InRange()
  {
    AcceptedShapes(ix);
    CapacityIs(ix);
    ZeroIsNoPower();
    k :| ix.Capacity() == Pow2(k);
    if ix.bits <= k {
      Pow2Monotone(ix.bits, k);
      assert false;
    }
    Pow2Monotone(k, ix.bits);
    Pow2Add(ix.bits - k, k);
  }

  lemma SlotsExist(ix: IndexType)
    requires ix.Valid()
    ensures 0 < ix.Capacity() <= ix.size
  {
  }

  /** Index `i` of an unbounded history, as the class stores it. */
  function Wrapped(ix: IndexType, i: nat): nat {
    i % ix.Modulus()
  }

  /** The array position of index `i` of an unbounded history. */
  function Position(size: nat, i: nat): (p: nat)
    requires size > 0
    ensures p < size
  {
    i % size
  }

  /** Wrapping masked indices refine unbounded counters: with no more elements
      outstanding than there are slots, difference, emptiness, slot and successor of the stored indices are
      those of the counters. */
  lemma WrappedRefines(ix: IndexType, head: nat, tail: nat)
    requires ix.Valid() && tail <= head <= tail + ix.Capacity()
    ensures ix.Truncate(Wrapped(ix, head) - Wrapped(ix, tail)) == head - tail
    ensures Wrapped(ix, head) == Wrapped(ix, tail) <==> head == tail
    ensures ix.Slot(Wrapped(ix, head)) == Position(ix.Capacity(), head)
    ensures ix.Next(Wrapped(ix, head)) == Wrapped(ix, head + 1)
  {
    var k := ValidShape(ix);
    var m := ix.Modulus();
    DifferenceWraps(head, tail, m);
    MaskIsRemainder(Wrapped(ix, head), k);
    NestedRemainder(head, Pow2(ix.bits - k), ix.Capacity());
    NextWraps(head, m);
  }

  lemma DifferenceWraps(head: nat, tail: nat, m: nat)
    requires m > 0 && tail <= head < tail + m
    ensures (head % m - tail % m) % m == head - tail
    ensures head % m == tail % m <==> head == tail
  {
    var qh, qt := head / m, tail / m;
    assert head == qh * m + head % m && tail == qt * m + tail % m;
    assert (qt - qh) * m == qt * m - qh * m;
    RemainderUnique(head % m - tail % m, m, qt - qh, head - tail);
    RemainderUnique(0, m, 0, 0);
  }

  /** `buffer_size - (head - tail)`, assigned to an index_t, is the number of free slots. */
  lemma FreeWraps(ix: IndexType, head: nat, tail: nat)
    requires ix.Valid() && tail <= head <= tail + ix.Capacity()
    ensures ix.Truncate(ix.size - (Wrapped(ix, head) - Wrapped(ix, tail))) == ix.Capacity() - (head - tail)
  {
    var k := ValidShape(ix);
    SameRemainder(ix.size, ix.Capacity(), Wrapped(ix, head) - Wrapped(ix, tail), ix.Modulus());
    DifferenceNegates(Wrapped(ix, head) - Wrapped(ix, tail), head - tail, ix.Capacity(), ix.Modulus()) by {
      DifferenceWraps(head, tail, ix.Modulus());
    }
  }

  /** Sizes that are the same for index_t leave the same when something is taken off. */
  lemma SameRemainder(size: nat, capacity: nat, d: int, m: nat)
    requires m > 0 && size % m == capacity
    ensures (size - d) % m == (capacity - d) % m
  {
    var q, r := (capacity - d) / m, (capacity - d) % m;
    assert size - d == (size / m + q) * m + r by {
      assert size == (size / m) * m + capacity;
      assert (size / m + q) * m == (size / m) * m + q * m;
    }
    RemainderUnique(size - d, m, size / m + q, r);
  }

  lemma DifferenceNegates(d: int, n: nat, s: nat, m: nat)
    requires m > 0 && d % m == n && n <= s < m
    ensures (s - d) % m == s - n
  {
    var q := d / m;
    assert -q * m == -(q * m);
    RemainderUnique(s - d, m, -q, s - n);
  }

  lemma NestedRemainder(x: nat, c: nat, m: nat)
    requires c > 0 && m > 0 && c * m > 0
    ensures x % (c * m) % m == x % m
  {
    var q, r := x / (c * m), x % (c * m);
    assert x == (q * c) * m + r by {
      assert q * (c * m) == (q * c) * m;
    }
    assert r == (r / m) * m + r % m;
    assert x == (q * c + r / m) * m + r % m by {
      assert (q * c + r / m) * m == (q * c) * m + (r / m) * m;
    }
    RemainderUnique(x, m, q * c + r / m, r % m);
  }

  lemma NextWraps(x: nat, m: nat)
    requires m > 0
    ensures (x % m + 1) % m == (x + 1) % m
  {
    var q, r := x / m, x % m;
    if r + 1 < m {
      RemainderUnique(x + 1, m, q, r + 1);
      RemainderUnique(r + 1, m, 0, r + 1);
    } else {
      assert (q + 1) * m == q * m + m;
      RemainderUnique(x + 1, m, q + 1, 0);
      RemainderUnique(m, m, 1, 0);
    }
  }

  /** The full test of `insert` is exact when index_t is at least as wide as int and holds the
      size. For a narrower index_t the difference is taken in int, and a full buffer whose head
      has wrapped past its tail is not recognised; for a size beyond the index range no full
      buffer is. */
  lemma FullTestExact(ix: IndexType, head: nat, tail: nat)
    requires ix.Valid() && tail <= head <= tail + ix.Capacity()
    ensures ix.FullTest(Wrapped(ix, head), Wrapped(ix, tail)) <==>
            && head - tail == ix.Capacity() && ix.InRange()
            && (ix.Wide() || Wrapped(ix, tail) <= Wrapped(ix, head))
  {
    hide Pow2, IndexType.Valid;
    var k := ValidShape(ix);
    var m := ix.Modulus();
    DifferenceWraps(head, tail, m);
    SizeReached(ix, head - tail);
    if !ix.Wide() {
      NarrowRange(ix);
      PromotedDifference(head % m, tail % m, m, Pow2(SIZE_BITS));
    }
  }

  /** A difference reaches the size only if the size lies in the index range. */
  lemma SizeReached(ix: IndexType, d: nat)
    requires ix.Valid() && d <= ix.Capacity()
    ensures d == ix.size <==> d == ix.Capacity() && ix.InRange()
  {
    hide Pow2;
    var k := ValidShape(ix);
  }

  /** The negative differences of a narrow index_t are above every size once they are size_t. */
  lemma NarrowRange(ix: IndexType)
    requires ix.Valid() && !ix.Wide()
    ensures 2 * ix.Modulus() <= Pow2(SIZE_BITS) && ix.size < Pow2(SIZE_BITS) - ix.Modulus()
  {
    Pow2Monotone(ix.bits, SIZE_BITS - 1);
    assert Pow2(SIZE_BITS) == 2 * Pow2(SIZE_BITS - 1);
  }

  lemma PromotedDifference(h: nat, t: nat, m: nat, s: nat)
    requires h < m && t < m && 2 * m <= s
    ensures t <= h ==> (h - t) % s == h - t == (h - t) % m
    ensures h < t ==> s - m < (h - t) % s
  {
    if t <= h {
      RemainderUnique(h - t, s, 0, h - t);
      RemainderUnique(h - t, m, 0, h - t);
    } else {
      RemainderUnique(h - t, s, -1, s + h - t);
    }
  }

  /** The slot that `get_next_write_slot` hands out is the one after the next free one. */
  lemma SlotAfterNext(ix: IndexType, head: nat)
    requires ix.Valid()
    ensures ix.Slot(Wrapped(ix, head) + 1) == Position(ix.Capacity(), head + 1)
  {
    var k := ValidShape(ix);
    MaskIsRemainder(Wrapped(ix, head) + 1, k);
    NestedRemainder(head, Pow2(ix.bits - k), ix.Capacity());
    NextWraps(Wrapped(ix, head), ix.Capacity());
    NextWraps(head, ix.Capacity());
  }

  /** Two counters less than one buffer apart use different slots. */
  lemma SlotsDistinct(size: nat, i: nat, j: nat)
    requires i < j < i + size
    ensures Position(size, i) != Position(size, j)
  {
    if i % size == j % size {
      RemainderUnique(j - i, size, j / size - i / size, 0) by {
        assert (j / size - i / size) * size == (j / size) * size - (i / size) * size;
      }
      RemainderUnique(j - i, size, 0, j - i);
      assert false;
    }
  }
}
