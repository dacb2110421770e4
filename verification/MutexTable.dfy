/** The table of mutex counts that is searched linearly: keys and counts alternate in one
    array, and a removed pair is replaced by the last one. It stands in for a hash map. */
module MutexTable {
  datatype Pair = Pair(key: nat, count: nat)

  /** One round of the load: count a key up, and perhaps drop it. */
  datatype Round = Round(key: nat, drop: bool)

  const UINT_MAX: nat := 0xFFFF_FFFF

  /** The key for a number drawn from 0 .. range. */
  function GenerateKey(range: nat, drawn: nat): nat
    requires 1 <= range
  {
    drawn * (UINT_MAX / range)
  }

  // ---------------------------------------------------------------- the hash map

  function Counted(m: map<nat, nat>, key: nat): map<nat, nat> {
    m[key := (if key in m then m[key] else 0) + 1]
  }

  function MapRound(m: map<nat, nat>, r: Round): map<nat, nat> {
    if r.drop then Counted(m, r.key) - {r.key} else Counted(m, r.key)
  }

  function MapLoad(rounds: seq<Round>): map<nat, nat> {
    if rounds == [] then map[]
    else MapRound(MapLoad(rounds[..|rounds| - 1]), rounds[|rounds| - 1])
  }

  /** Never more live keys than pairs in the array. */
  predicate FitsIn(rounds: seq<Round>, pairs: nat) {
    rounds == [] ||
    var before := rounds[..|rounds| - 1];
    FitsIn(before, pairs) && |Counted(MapLoad(before), rounds[|rounds| - 1].key)| <= pairs
  }

  // ---------------------------------------------------------------- pairs

  function Pairs(s: seq<nat>): (p: seq<Pair>)
    ensures |p| == |s| / 2
    ensures forall j :: 0 <= j < |p| ==> p[j] == Pair(s[2 * j], s[2 * j + 1])
  {
    seq(|s| / 2, j requires 0 <= j < |s| / 2 => Pair(s[2 * j], s[2 * j + 1]))
  }

  predicate Distinct(p: seq<Pair>) {
    forall i, j :: 0 <= i < j < |p| ==> p[i].key != p[j].key
  }

  function ToMap(p: seq<Pair>): map<nat, nat> {
    if p == [] then map[] else ToMap(p[..|p| - 1])[p[|p| - 1].key := p[|p| - 1].count]
  }

  predicate HasKey(p: seq<Pair>, key: nat) {
    exists j :: 0 <= j < |p| && p[j].key == key
  }

  lemma {:induction false} Lookup(p: seq<Pair>)
    requires Distinct(p)
    ensures forall j :: 0 <= j < |p| ==> p[j].key in ToMap(p) && ToMap(p)[p[j].key] == p[j].count
    ensures forall k :: k in ToMap(p) ==> HasKey(p, k)
    ensures |ToMap(p)| == |p|
    decreases |p|
  {
    if p != [] {
      var q, last := p[..|p| - 1], p[|p| - 1];
      Lookup(q);
      LookupLast(q, ToMap(q), last);
      assert p == q + [last];
    }
  }

  lemma LookupLast(q: seq<Pair>, m: map<nat, nat>, last: Pair)
    requires Distinct(q + [last]) && |m| == |q|
    requires forall j :: 0 <= j < |q| ==> q[j].key in m && m[q[j].key] == q[j].count
    requires forall k :: k in m ==> HasKey(q, k)
    ensures var p, m' := q + [last], m[last.key := last.count];
            && (forall j :: 0 <= j < |p| ==> p[j].key in m' && m'[p[j].key] == p[j].count)
            && (forall k :: k in m' ==> HasKey(p, k))
            && |m'| == |p|
  {
    var p, m' := q + [last], m[last.key := last.count];
    LastKeyNew(q, last);
    hide Distinct;
    assert last.key !in m by { assert last.key in m ==> HasKey(q, last.key); }
    assert m'.Keys == m.Keys + {last.key};
    forall j | 0 <= j < |p| ensures p[j].key in m' && m'[p[j].key] == p[j].count {
      assert p[j] == if j < |q| then q[j] else last;
    }
    hide HasKey;
    forall k | k in m' ensures HasKey(p, k) {
      HasKeySnoc(q, last, k);
    }
  }

  lemma LastKeyNew(q: seq<Pair>, last: Pair)
    requires Distinct(q + [last])
    ensures forall j :: 0 <= j < |q| ==> q[j].key != last.key
  {
    forall j | 0 <= j < |q| ensures q[j].key != last.key {
      assert (q + [last])[j] == q[j] && (q + [last])[|q|] == last;
    }
  }

  lemma HasKeySnoc(q: seq<Pair>, last: Pair, key: nat)
    ensures HasKey(q + [last], key) <==> HasKey(q, key) || key == last.key
  {
    var p := q + [last];
    assert p[|q|] == last;
    if HasKey(q, key) {
      var j :| 0 <= j < |q| && q[j].key == key;
      assert p[j].key == key;
    }
  }

  /** Two tables without double keys and with the same pairs are the same map. */
  lemma SameMap(p: seq<Pair>, m: map<nat, nat>)
    requires Distinct(p)
    requires forall j :: 0 <= j < |p| ==> p[j].key in m && m[p[j].key] == p[j].count
    requires forall k :: k in m ==> HasKey(p, k)
    ensures ToMap(p) == m
  {
    Lookup(p);
    forall k | k in m ensures k in ToMap(p) && ToMap(p)[k] == m[k] {
      assert HasKey(p, k);
    }
    forall k | k in ToMap(p) ensures k in m {
      assert HasKey(p, k);
    }
  }

  lemma CountUp(p: seq<Pair>, i: nat)
    requires Distinct(p) && i < |p|
    ensures var p' := p[i := Pair(p[i].key, p[i].count + 1)];
            Distinct(p') && ToMap(p') == Counted(ToMap(p), p[i].key)
  {
    Lookup(p);
    var p' := p[i := Pair(p[i].key, p[i].count + 1)];
    forall k | k in Counted(ToMap(p), p[i].key) ensures HasKey(p', k) {
      assert HasKey(p, k);
      var j :| 0 <= j < |p| && p[j].key == k;
      assert p'[j].key == k;
    }
    SameMap(p', Counted(ToMap(p), p[i].key));
  }

  lemma Append(p: seq<Pair>, key: nat)
    requires Distinct(p) && !HasKey(p, key)
    ensures var p' := p + [Pair(key, 1)];
            Distinct(p') && ToMap(p') == Counted(ToMap(p), key)
  {
    Lookup(p);
    var p' := p + [Pair(key, 1)];
    assert p'[..|p|] == p;
  }

  /** Moving the last pair into the gap removes exactly one key. */
  lemma SwapRemove(p: seq<Pair>, i: nat)
    requires Distinct(p) && i < |p|
    ensures var p' := p[i := p[|p| - 1]][..|p| - 1];
            Distinct(p') && ToMap(p') == ToMap(p) - {p[i].key}
  {
    Lookup(p);
    var p' := p[i := p[|p| - 1]][..|p| - 1];
    forall k | k in ToMap(p) - {p[i].key} ensures HasKey(p', k) {
      assert HasKey(p, k);
      var j :| 0 <= j < |p| && p[j].key == k;
      assert p'[if j == |p| - 1 then i else j].key == k;
    }
    SameMap(p', ToMap(p) - {p[i].key});
  }

  lemma PairsSet(s: seq<nat>, i: nat, count: nat)
    requires |s| % 2 == 0 && i % 2 == 0 && i < |s|
    ensures Pairs(s[i + 1 := count]) == Pairs(s)[i / 2 := Pair(s[i], count)]
  {
  }

  lemma PairsAppend(s: seq<nat>, key: nat, count: nat)
    requires |s| % 2 == 0
    ensures Pairs(s + [key, count]) == Pairs(s) + [Pair(key, count)]
  {
  }

  lemma PairsSwap(s: seq<nat>, i: nat)
    requires |s| % 2 == 0 && i % 2 == 0 && i < |s|
    ensures var n := |s|;
            Pairs(s[i := s[n - 2]][i + 1 := s[n - 1]][..n - 2]) == Pairs(s)[i / 2 := Pairs(s)[n / 2 - 1]][..n / 2 - 1]
  {
  }

  lemma CountedSize(p: seq<Pair>, key: nat)
    requires Distinct(p)
    ensures |Counted(ToMap(p), key)| == |p| + if HasKey(p, key) then 0 else 1
  {
    Lookup(p);
    var m := ToMap(p);
    if HasKey(p, key) {
      assert Counted(m, key).Keys == m.Keys;
    } else {
      assert Counted(m, key).Keys == m.Keys + {key};
    }
  }

  // ---------------------------------------------------------------- in place

  class LinearSearchTable {
    const buf: array<nat>
    var size: nat

    ghost predicate Valid()
      reads this, buf
    {
      && size <= buf.Length && size % 2 == 0 && buf.Length % 2 == 0
      && Distinct(Pairs(buf[..size]))
    }

    ghost function Contents(): map<nat, nat>
      reads this, buf
      requires size <= buf.Length
    {
      ToMap(Pairs(buf[..size]))
    }

    constructor (range: nat)
      ensures Valid() && fresh(buf) && buf.Length == 2 * range && Contents() == map[]
    {
      buf := new nat[range * 2];
      size := 0;
    }

    /** The position of a key, or the end. */
    method Find(key: nat) returns (i: nat)
      requires Valid()
      ensures i <= size && i % 2 == 0
      ensures i < size ==> buf[i] == key && Pairs(buf[..size])[i / 2].key == key
      ensures i == size <==> !HasKey(Pairs(buf[..size]), key)
    {
      i := 0;
      ghost var p := Pairs(buf[..size]);
      while i < size
        invariant i <= size && i % 2 == 0
        invariant forall j :: 0 <= j < i / 2 ==> p[j].key != key
      {
        if buf[i] == key {
          assert p[i / 2].key == key;
          return;
        }
        i := i + 2;
      }
    }

    /** Counts a key up, adding it when it is new. False where the C++ code would write past
        the array: a new key and no pair left. */
    method Increment(key: nat) returns (ok: bool)
      requires Valid()
      modifies this, buf
      ensures Valid() && (ok <==> |Counted(old(Contents()), key)| <= buf.Length / 2)
      ensures Contents() == if ok then Counted(old(Contents()), key) else old(Contents())
    {
      hide ToMap, Counted, Distinct, HasKey;
      ghost var s := buf[..size];
      CountedSize(Pairs(s), key);
      var i := Find(key);
      if i < size {
        CountUp(Pairs(s), i / 2);
        PairsSet(s, i, buf[i + 1] + 1);
        buf[i + 1] := buf[i + 1] + 1;
        assert buf[..size] == s[i + 1 := s[i + 1] + 1];
        return true;
      }
      if size == buf.Length {
        return false;
      }
      Append(Pairs(s), key);
      PairsAppend(s, key, 1);
      buf[size] := key;
      buf[size + 1] := 1;
      size := size + 2;
      assert buf[..size] == s + [key, 1];
      return true;
    }

    method Erase(key: nat)
      requires Valid()
      modifies this, buf
      ensures Valid() && Contents() == old(Contents()) - {key}
    {
      hide ToMap, Distinct, HasKey;
      ghost var s := buf[..size];
      var i := Find(key);
      if i < size {
        SwapRemove(Pairs(s), i / 2);
        PairsSwap(s, i);
        if size != 2 {
          buf[i] := buf[size - 2];
          buf[i + 1] := buf[size - 1];
        }
        size := size - 2;
        assert buf[..size] == s[i := s[|s| - 2]][i + 1 := s[|s| - 1]][..|s| - 2];
      } else {
        Lookup(Pairs(s));
      }
    }

    /** The whole load. It ends within the array if and only if the live keys never outnumber
        the pairs, and then holds what the hash map holds. */
    method Load(rounds: seq<Round>) returns (ok: bool)
      requires Valid() && Contents() == map[]
      modifies this, buf
      ensures Valid() && (ok <==> FitsIn(rounds, buf.Length / 2))
      ensures ok ==> Contents() == MapLoad(rounds)
    {
      hide FitsIn, MapLoad, Distinct, ToMap, Counted;
      NoRounds(buf.Length / 2);
      assert rounds[..0] == [];
      ok := true;
      var n := 0;
      while n < |rounds| && ok
        invariant 0 <= n <= |rounds| && Valid()
        invariant ok <==> FitsIn(rounds[..n], buf.Length / 2)
        invariant ok ==> Contents() == MapLoad(rounds[..n])
      {
        RoundStep(rounds, n, buf.Length / 2);
        ok := Increment(rounds[n].key);
        if ok && rounds[n].drop {
          Erase(rounds[n].key);
        }
        n := n + 1;
      }
      assert rounds[..|rounds|] == rounds;
      FitsPrefix(rounds, n, buf.Length / 2);
    }
  }

  lemma NoRounds(pairs: nat)
    ensures FitsIn([], pairs) && MapLoad([]) == map[]
  {
  }

  lemma RoundStep(rounds: seq<Round>, n: nat, pairs: nat)
    requires n < |rounds|
    ensures var m := Counted(MapLoad(rounds[..n]), rounds[n].key);
            && (FitsIn(rounds[..n + 1], pairs) <==> FitsIn(rounds[..n], pairs) && |m| <= pairs)
            && MapLoad(rounds[..n + 1]) == if rounds[n].drop then m - {rounds[n].key} else m
  {
    assert rounds[..n + 1][..n] == rounds[..n];
  }

  lemma {:induction false} FitsPrefix(rounds: seq<Round>, n: nat, pairs: nat)
    requires n <= |rounds|
    ensures FitsIn(rounds, pairs) ==> FitsIn(rounds[..n], pairs)
    decreases |rounds|
  {
    if n == |rounds| {
      assert rounds[..n] == rounds;
    } else {
      assert rounds[..|rounds| - 1][..n] == rounds[..n];
      FitsPrefix(rounds[..|rounds| - 1], n, pairs);
    }
  }

  // ---------------------------------------------------------------- what the map holds

  /** How often a key was counted since it was last dropped. */
  function Since(rounds: seq<Round>, key: nat): nat {
    if rounds == [] then 0
    else
      var before, last := rounds[..|rounds| - 1], rounds[|rounds| - 1];
      if last.key != key then Since(before, key) else if last.drop then 0 else Since(before, key) + 1
  }

  /** The load holds of every key how often it was counted since it was last dropped, and
      nothing of the others. */
  lemma {:induction false} LoadCounts(rounds: seq<Round>, key: nat)
    ensures key in MapLoad(rounds) <==> Since(rounds, key) > 0
    ensures key in MapLoad(rounds) ==> MapLoad(rounds)[key] == Since(rounds, key)
  {
    if rounds != [] {
      LoadCounts(rounds[..|rounds| - 1], key);
    }
  }

  // ---------------------------------------------------------------- how many keys there are

  /** The keys of a range begin with 0, are the same distance apart, and the last one is less
      than the range below the largest key there is. */
  lemma KeysSpread(range: nat, drawn: nat)
    requires 1 <= range <= 0xFFFF_FFFF && drawn < range
    ensures GenerateKey(range, 0) == 0
    ensures GenerateKey(range, drawn + 1) - GenerateKey(range, drawn) == GenerateKey(range, 1)
    ensures 0xFFFF_FFFF - range < GenerateKey(range, range) <= 0xFFFF_FFFF
  {
    var f := UINT_MAX / range;
    assert (drawn + 1) * f == drawn * f + f;
    assert range * f + UINT_MAX % range == UINT_MAX;
  }

  /** Keys from a set no larger than the number of pairs always fit. */
  lemma {:induction false} FewKeysFit(rounds: seq<Round>, keys: set<nat>, pairs: nat)
    requires |keys| <= pairs
    requires forall i :: 0 <= i < |rounds| ==> rounds[i].key in keys
    ensures FitsIn(rounds, pairs) && MapLoad(rounds).Keys <= keys
    decreases |rounds|
  {
    if rounds != [] {
      var n := |rounds| - 1;
      FewKeysFit(rounds[..n], keys, pairs);
      var m := Counted(MapLoad(rounds[..n]), rounds[n].key);
      assert m.Keys <= keys;
      SubsetSize(m.Keys, keys);
      assert |m| == |m.Keys|;
    }
  }

  lemma SubsetSize(a: set<nat>, b: set<nat>)
    requires a <= b
    ensures |a| <= |b|
  {
    assert b == a + (b - a);
  }

  /** The numbers 0 .. n - 1 drawn once each, nothing dropped. */
  function EachOnce(range: nat, n: nat): seq<Round>
    requires 1 <= range
  {
    seq(n, i requires 0 <= i < n => Round(GenerateKey(range, i), false))
  }

  lemma KeysIncrease(range: nat, i: nat, j: nat)
    requires 1 <= range <= UINT_MAX && i < j
    ensures GenerateKey(range, i) < GenerateKey(range, j)
  {
    var f := UINT_MAX / range;
    assert f >= 1;
    assert j * f == i * f + (j - i) * f;
    assert (j - i) * f >= 1;
  }

  lemma {:induction false} EachOnceKeys(range: nat, n: nat)
    requires 1 <= range <= UINT_MAX
    ensures |MapLoad(EachOnce(range, n))| == n
    ensures forall k :: k in MapLoad(EachOnce(range, n)) ==> KeyBelow(range, n, k)
  {
    if n > 0 {
      hide GenerateKey, KeyBelow, EachOnce, MapLoad;
      EachOnceKeys(range, n - 1);
      EachOnceLoad(range, n);
      var m := MapLoad(EachOnce(range, n - 1));
      var key := GenerateKey(range, n - 1);
      KeyBelowStep(range, n - 1);
      assert key !in m;
      assert Counted(m, key).Keys == m.Keys + {key};
      forall k | k in Counted(m, key) ensures KeyBelow(range, n, k) {
        assert k == key || k in m;
      }
    }
  }

  /** A key drawn before number n. */
  predicate KeyBelow(range: nat, n: nat, key: nat)
    requires 1 <= range
  {
    exists i :: 0 <= i < n && key == GenerateKey(range, i)
  }

  lemma KeyBelowStep(range: nat, n: nat)
    requires 1 <= range <= UINT_MAX
    ensures !KeyBelow(range, n, GenerateKey(range, n)) && KeyBelow(range, n + 1, GenerateKey(range, n))
    ensures forall k :: KeyBelow(range, n, k) ==> KeyBelow(range, n + 1, k)
  {
    hide GenerateKey;
    if KeyBelow(range, n, GenerateKey(range, n)) {
      var i :| 0 <= i < n && GenerateKey(range, n) == GenerateKey(range, i);
      KeysIncrease(range, i, n);
    }
  }

  lemma EachOnceLoad(range: nat, n: nat)
    requires 1 <= range && n > 0
    ensures MapLoad(EachOnce(range, n)) == Counted(MapLoad(EachOnce(range, n - 1)), GenerateKey(range, n - 1))
  {
    hide GenerateKey;
    assert EachOnce(range, n)[..n - 1] == EachOnce(range, n - 1);
  }

  /** The numbers are drawn from 0 .. range inclusive, one more than there are pairs: for every
      range there is a load that runs past the array. */
  lemma RangeOverflows(range: nat)
    requires 1 <= range <= UINT_MAX
    ensures var rounds := EachOnce(range, range + 1);
            && (forall i :: 0 <= i < |rounds| ==> rounds[i].key <= GenerateKey(range, range))
            && !FitsIn(rounds, range) && FitsIn(rounds[..range], range)
  {
    hide FitsIn, Counted;
    var rounds := EachOnce(range, range + 1);
    assert rounds[..range] == EachOnce(range, range);
    EachOnceFits(range, range, range);
    EachOnceKeys(range, range + 1);
    LastFits(rounds, range);
    forall i | 0 <= i < |rounds| ensures rounds[i].key <= GenerateKey(range, range) {
      if i < range {
        KeysIncrease(range, i, range);
      }
    }
  }

  lemma LastFits(rounds: seq<Round>, pairs: nat)
    requires rounds != [] && !rounds[|rounds| - 1].drop && |MapLoad(rounds)| > pairs
    ensures !FitsIn(rounds, pairs)
  {
  }

  lemma {:induction false} EachOnceFits(range: nat, n: nat, pairs: nat)
    requires 1 <= range <= UINT_MAX && n <= pairs
    ensures FitsIn(EachOnce(range, n), pairs)
  {
    if n > 0 {
      EachOnceFits(range, n - 1, pairs);
      EachOnceKeys(range, n);
      assert EachOnce(range, n)[..n - 1] == EachOnce(range, n - 1);
    }
  }
}
