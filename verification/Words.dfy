/** The hash of two machine words by which the collector tells duplicates. */
module Words {
  function Xor(a: bv64, b: bv64): bv64 {
    a ^ b
  }

  function Doubled(b: bv64): bv64 {
    b << 1
  }

  /** The low 63 bits. */
  function Low(b: bv64): bv64 {
    b & 0x7FFF_FFFF_FFFF_FFFF
  }

  function Hash(a: bv64, b: bv64): bv64 {
    Xor(a, Doubled(b))
  }

  /** Two hashes are equal if and only if from one to the other the same bits of the first word
      change as of the doubled second. */
  lemma HashesAlike(a: bv64, b: bv64, c: bv64, d: bv64)
    ensures Hash(a, b) == Hash(c, d) <==> Xor(a, c) == Xor(Doubled(b), Doubled(d))
  {
    hide Xor, Doubled;
    if Hash(a, b) == Hash(c, d) {
      XorMoves(a, Doubled(b), c, Doubled(d));
    }
    if Xor(a, c) == Xor(Doubled(b), Doubled(d)) {
      XorMoves(a, c, Doubled(b), Doubled(d));
    }
  }

  lemma XorMoves(a: bv64, b: bv64, c: bv64, d: bv64)
    requires Xor(a, b) == Xor(c, d)
    ensures Xor(a, c) == Xor(b, d)
  {
    XorBack(a, b);
    XorBack(c, d);
    XorCancels(Xor(a, b), b, d);
    hide Xor;
  }

  lemma XorBack(a: bv64, b: bv64)
    ensures Xor(Xor(a, b), b) == a
  {
  }

  lemma XorCancels(k: bv64, a: bv64, b: bv64)
    ensures Xor(Xor(k, a), Xor(k, b)) == Xor(a, b)
  {
    var x, y := Xor(k, a), Xor(k, b);
    XorIs(k, a);
    XorIs(k, b);
    XorIs(x, y);
    XorIs(a, b);
    BitsCancel(x, y, k, a, b);
    hide Xor;
  }

  lemma XorIs(a: bv64, b: bv64)
    ensures Xor(a, b) == a ^ b
  {
  }

  lemma BitsCancel(x: bv64, y: bv64, k: bv64, a: bv64, b: bv64)
    requires x == k ^ a && y == k ^ b
    ensures x ^ y == a ^ b
  {
  }

  /** Where one word alone differs, the hashes are equal only if that is the second one and it
      differs in the top bit alone. */
  lemma HashesOfOne(a: bv64, b: bv64, c: bv64, d: bv64)
    requires a == c || b == d
    ensures Hash(a, b) == Hash(c, d) <==> a == c && Low(b) == Low(d)
  {
    hide Hash, Low;
    if a == c {
      SecondAlone(a, b, d);
    } else {
      FirstAlone(a, b, c);
    }
  }

  lemma FirstAlone(a: bv64, b: bv64, c: bv64)
    ensures Hash(a, b) == Hash(c, b) ==> a == c
  {
    XorBack(a, Doubled(b));
    XorBack(c, Doubled(b));
    hide Xor, Doubled;
  }

  lemma SecondAlone(a: bv64, b: bv64, d: bv64)
    ensures Hash(a, b) == Hash(a, d) <==> Low(b) == Low(d)
  {
    if Hash(a, b) == Hash(a, d) {
      XorMeets(a, Doubled(b), Doubled(d));
      DoubledLow(b, d);
    }
    if Low(b) == Low(d) {
      LowDoubled(b, d);
    }
    hide Xor, Doubled, Low;
  }

  lemma XorMeets(a: bv64, x: bv64, y: bv64)
    requires Xor(a, x) == Xor(a, y)
    ensures x == y
  {
  }

  lemma DoubledLow(b: bv64, d: bv64)
    requires Doubled(b) == Doubled(d)
    ensures Low(b) == Low(d)
  {
  }

  lemma LowDoubled(b: bv64, d: bv64)
    requires Low(b) == Low(d)
    ensures Doubled(b) == Doubled(d)
  {
  }
}
