/** Strings as strings of bits: counting the set bits, and finding the first set or clear bit,
    a word at a time. */
module BitOps {

  // ----- bits ---------------------------------------------------------------------------------

  /** The bits of a byte from the left. */
  function Bits(b: bv8): (r: seq<bool>)
    ensures |r| == 8
  {
    [b & 128 != 0, b & 64 != 0, b & 32 != 0, b & 16 != 0, b & 8 != 0, b & 4 != 0, b & 2 != 0, b & 1 != 0]
  }

  /** Bit p of a string, which ends in zeros without end. */
  predicate BitAt(s: seq<bv8>, p: nat) { p < 8 * |s| && Bits(s[p / 8])[p % 8] }

  function One(b: bool): (n: nat)
    ensures n <= 1
  {
    if b then 1 else 0
  }

  /** bitsinbyte */
  function Count(b: bv8): nat
  {
    var r := Bits(b);
    One(r[0]) + One(r[1]) + One(r[2]) + One(r[3]) + One(r[4]) + One(r[5]) + One(r[6]) + One(r[7])
  }

  /** How many bits of the string are set. */
  function SetBits(s: seq<bv8>): nat
  {
    if s == [] then 0 else Count(s[0]) + SetBits(s[1..])
  }

  lemma {:induction false} SetBitsAppend(s: seq<bv8>, t: seq<bv8>)
    ensures SetBits(s + t) == SetBits(s) + SetBits(t)
  {
    hide Count;
    if s == [] {
      assert s + t == t;
    } else {
      SetBitsAppend(s[1..], t);
      assert (s + t)[1..] == s[1..] + t;
    }
  }

  // ----- bitwise and of numbers ------------------------------------------------------------------

  function And(x: nat, y: nat): nat
    decreases x
  {
    if x == 0 || y == 0 then 0 else One(x % 2 == 1 && y % 2 == 1) + 2 * And(x / 2, y / 2)
  }

  lemma AndStep(x: nat, y: nat)
    ensures And(x, y) == One(x % 2 == 1 && y % 2 == 1) + 2 * And(x / 2, y / 2)
  {
  }

  lemma AndEven(x: nat, m: nat)
    ensures And(x, 2 * m) == 2 * And(x / 2, m)
  {
    hide And;
    AndStep(x, 2 * m);
  }

  lemma AndOdd(b: nat, x: nat, m: nat)
    requires b < 2
    ensures And(b + 2 * x, 1 + 2 * m) == b + 2 * And(x, m)
  {
    hide And;
    AndStep(b + 2 * x, 1 + 2 * m);
  }

  function PairCount(d: nat): nat { if d == 0 then 0 else if d == 3 then 2 else 1 }

  function HalfAnd(v: nat, m: nat): nat { And(v / 2, m) }

  lemma AndOne(d: nat, v: nat, m: nat)
    requires d < 4
    ensures And((d + 4 * v) / 2, 1 + 4 * m) == d / 2 + 4 * And(v / 2, m)
  {
    hide And;
    AndStep(d / 2 + 2 * v, 1 + 4 * m);
    AndStep(v, 2 * m);
  }

  /** A pair loses its upper bit. */
  lemma HalfPair(d: nat, v: nat, m: nat)
    requires d < 4
    ensures HalfAnd(d + 4 * v, 1 + 4 * m) + PairCount(d) == d + 4 * HalfAnd(v, m)
  {
    hide And;
    AndOne(d, v, m);
    assert d in {0, 1, 2, 3};
  }

  /** The lower pair of a nibble. */
  lemma AndThree(q: nat, z: nat, m: nat)
    requires q < 4
    ensures And(q + 4 * z, 3 + 16 * m) == q + 16 * And(z / 4, m)
  {
    hide And;
    AndOdd(q % 2, q / 2 + 2 * z, 1 + 8 * m);
    AndOdd(q / 2, z, 4 * m);
    AndEven(z, 2 * m);
    AndEven(z / 2, m);
    assert z / 2 / 2 == z / 4;
  }

  /** The lower nibble of a byte. */
  lemma AndFifteen(s: nat, k: nat, m: nat)
    requires s < 16
    ensures And(s + 16 * k, 15 + 256 * m) == s + 256 * And(k / 16, m)
  {
    hide And;
    var b0, b1, b2, b3 := s % 2, s / 2 % 2, s / 4 % 2, s / 8;
    assert s == b0 + 2 * b1 + 4 * b2 + 8 * b3;
    AndOdd(b0, b1 + 2 * (b2 + 2 * (b3 + 2 * k)), 7 + 128 * m);
    AndOdd(b1, b2 + 2 * (b3 + 2 * k), 3 + 64 * m);
    AndOdd(b2, b3 + 2 * k, 1 + 32 * m);
    AndOdd(b3, k, 16 * m);
    AndEven(k, 8 * m);
    AndEven(k / 2, 4 * m);
    AndEven(k / 2 / 2, 2 * m);
    AndEven(k / 2 / 2 / 2, m);
    assert k / 2 / 2 / 2 / 2 == k / 16;
  }

  // ----- the bits of a word -----------------------------------------------------------------------

  /** The pairs of bits of a byte, the lowest first. */
  function Pair(b: bv8, k: nat): (d: nat)
    requires k < 4
  {
    if k == 0 then (b & 3) as nat else if k == 1 then ((b >> 2) & 3) as nat
    else if k == 2 then ((b >> 4) & 3) as nat else (b >> 6) as nat
  }

  lemma PairsOf(b: bv8)
    ensures b as nat == Pair(b, 0) + 4 * Pair(b, 1) + 16 * Pair(b, 2) + 64 * Pair(b, 3)
    ensures Pair(b, 0) < 4 && Pair(b, 1) < 4 && Pair(b, 2) < 4 && Pair(b, 3) < 4
  {
  }

  lemma PairsCount(b: bv8)
    ensures Count(b) == PairCount(Pair(b, 0)) + PairCount(Pair(b, 1)) + PairCount(Pair(b, 2)) + PairCount(Pair(b, 3))
  {
  }

  /** What a byte becomes when its pairs, its nibbles and all its bits are counted. */
  function Paired(b: bv8): nat
  {
    PairCount(Pair(b, 0)) + 4 * PairCount(Pair(b, 1)) + 16 * PairCount(Pair(b, 2)) + 64 * PairCount(Pair(b, 3))
  }

  function Nibbled(b: bv8): nat
  {
    PairCount(Pair(b, 0)) + PairCount(Pair(b, 1)) + 16 * (PairCount(Pair(b, 2)) + PairCount(Pair(b, 3)))
  }

  /** The word of some bytes, the lowest first, each as `f` says. */
  function Word(f: bv8 -> nat, xs: seq<bv8>): nat
  {
    if xs == [] then 0 else f(xs[0]) + 256 * Word(f, xs[1..])
  }

  /** A byte n times. */
  function Mask(b: nat, n: nat): nat { if n == 0 then 0 else b + 256 * Mask(b, n - 1) }

  const Plain := (b: bv8) => b as nat

  lemma PairByte(b: bv8, v: nat, m: nat)
    ensures HalfAnd(b as nat + 256 * v, 0x55 + 256 * m) + Paired(b) == b as nat + 256 * HalfAnd(v, m)
  {
    hide HalfAnd, Pair, PairCount;
    PairsOf(b);
    var d0, d1, d2, d3 := Pair(b, 0), Pair(b, 1), Pair(b, 2), Pair(b, 3);
    HalfPair(d0, d1 + 4 * (d2 + 4 * (d3 + 4 * v)), 1 + 4 * (1 + 4 * (1 + 4 * m)));
    HalfPair(d1, d2 + 4 * (d3 + 4 * v), 1 + 4 * (1 + 4 * m));
    HalfPair(d2, d3 + 4 * v, 1 + 4 * m);
    HalfPair(d3, v, m);
    assert d0 + 4 * (d1 + 4 * (d2 + 4 * (d3 + 4 * v))) == b as nat + 256 * v;
  }

  lemma {:induction false} PairsAre(xs: seq<bv8>)
    ensures And(Word(Plain, xs) / 2, Mask(0x55, |xs|)) + Word(Paired, xs) == Word(Plain, xs)
  {
    hide And, Paired;
    if xs != [] {
      PairsAre(xs[1..]);
      PairByte(xs[0], Word(Plain, xs[1..]), Mask(0x55, |xs| - 1));
    } else {
      NoAnd();
    }
  }

  lemma NoAnd()
    ensures And(0, 0) == 0
  {
  }

  lemma NibbleByte(p0: nat, p1: nat, p2: nat, p3: nat, z: nat, m: nat)
    requires p0 <= 2 && p1 <= 2 && p2 <= 2 && p3 <= 2
    ensures var y := p0 + 4 * p1 + 16 * p2 + 64 * p3 + 256 * z;
            And(y, 0x33 + 256 * m) == p0 + 16 * p2 + 256 * And(z, m)
            && And(y / 4, 0x33 + 256 * m) == p1 + 16 * p3 + 256 * And(z / 4, m)
  {
    hide And;
    var w := p2 + 4 * (p3 + 4 * z);
    AndThree(p0, p1 + 4 * w, 3 + 16 * m);
    AndThree(p2, p3 + 4 * z, m);
    AndThree(p1, w, 3 + 16 * m);
    AndThree(p3, z, m);
    assert (p1 + 4 * w) / 4 == w && (p3 + 4 * z) / 4 == z && w / 4 == p3 + 4 * z;
  }

  lemma {:induction false} NibblesAre(xs: seq<bv8>)
    ensures var y, m := Word(Paired, xs), Mask(0x33, |xs|);
            And(y, m) + And(y / 4, m) == Word(Nibbled, xs)
  {
    hide And, Pair;
    if xs != [] {
      NibblesAre(xs[1..]);
      var b := xs[0];
      NibbleByte(PairCount(Pair(b, 0)), PairCount(Pair(b, 1)), PairCount(Pair(b, 2)), PairCount(Pair(b, 3)),
                 Word(Paired, xs[1..]), Mask(0x33, |xs| - 1));
    } else {
      NoAnd();
    }
  }

  lemma OctetByte(lo: nat, hi: nat, w: nat, m: nat)
    requires lo <= 4 && hi <= 4 && w % 16 <= 4
    ensures var y := lo + 16 * hi + 256 * w;
            And(y + y / 16, 0x0F + 256 * m) == lo + hi + 256 * And(w + w / 16, m)
  {
    hide And;
    AndFifteen(lo + hi, hi + 17 * w, m);
    var q, r := w / 16, w % 16;
    assert (hi + 17 * w) / 16 == w + q by { assert hi + 17 * w == 16 * (w + q) + (hi + r); }
    var y := lo + 16 * hi + 256 * w;
    assert y / 16 == hi + 16 * w;
  }

  lemma LowNibble(xs: seq<bv8>)
    ensures Word(Nibbled, xs) % 16 <= 4
  {
    hide Pair;
  }

  lemma {:induction false} OctetsAre(xs: seq<bv8>)
    ensures var z := Word(Nibbled, xs);
            And(z + z / 16, Mask(0x0F, |xs|)) == Word(Count, xs)
  {
    hide And, Pair, Count;
    if xs != [] {
      OctetsAre(xs[1..]);
      LowNibble(xs[1..]);
      PairsCount(xs[0]);
      var b := xs[0];
      OctetByte(PairCount(Pair(b, 0)) + PairCount(Pair(b, 1)), PairCount(Pair(b, 2)) + PairCount(Pair(b, 3)),
                Word(Nibbled, xs[1..]), Mask(0x0F, |xs| - 1));
    } else {
      NoAnd();
    }
  }

  // ----- counting ----------------------------------------------------------------------------------------

  /** Arithmetic of uint32_t. */
  function U32(x: int): nat { x % 0x1_0000_0000 }

  /** Four bytes as a word. */
  function Load(b0: bv8, b1: bv8, b2: bv8, b3: bv8): nat
  {
    b0 as nat + 0x100 * b1 as nat + 0x1_0000 * b2 as nat + 0x100_0000 * b3 as nat
  }

  /** What happens to each of the seven words before they are added. */
  function Reduce(aux: nat): nat
  {
    var a1 := U32(aux - And(aux / 2, 0x55555555));
    var a2 := U32(And(a1, 0x33333333) + And(a1 / 4, 0x33333333));
    And(U32(a2 + a2 / 16), 0x0F0F0F0F)
  }

  lemma WordOfFour(f: bv8 -> nat, b0: bv8, b1: bv8, b2: bv8, b3: bv8)
    ensures Word(f, [b0, b1, b2, b3]) == f(b0) + 0x100 * f(b1) + 0x1_0000 * f(b2) + 0x100_0000 * f(b3)
  {
    var xs := [b0, b1, b2, b3];
    assert xs[1..] == [b1, b2, b3] && xs[1..][1..] == [b2, b3] && xs[1..][1..][1..] == [b3];
    assert Word(f, xs) == f(b0) + 0x100 * Word(f, [b1, b2, b3]);
    assert Word(f, [b1, b2, b3]) == f(b1) + 0x100 * Word(f, [b2, b3]);
    assert Word(f, [b2, b3]) == f(b2) + 0x100 * Word(f, [b3]);
    assert Word(f, [b3]) == f(b3) + 0x100 * Word(f, []);
  }

  lemma MasksOfFour()
    ensures Mask(0x55, 4) == 0x55555555 && Mask(0x33, 4) == 0x33333333 && Mask(0x0F, 4) == 0x0F0F0F0F
  {
  }

  lemma Fits(x: nat)
    ensures x < 0x1_0000_0000 ==> U32(x) == x
  {
  }

  lemma SmallBytes(b: bv8)
    ensures Paired(b) < 256 && Nibbled(b) <= 68 && Count(b) <= 8 && b as nat < 256
  {
    hide Pair, Count;
    PairsCount(b);
  }

  /** Words of four bytes are below 2^32, also with a sixteenth more if all nibbles are small. */
  lemma FourSmall(f: bv8 -> nat, b0: bv8, b1: bv8, b2: bv8, b3: bv8)
    requires f(b0) < 256 && f(b1) < 256 && f(b2) < 256 && f(b3) < 256
    ensures Word(f, [b0, b1, b2, b3]) < 0x1_0000_0000
    ensures f(b3) <= 68 ==> Word(f, [b0, b1, b2, b3]) / 16 < 0x1000_0000 && Word(f, [b0, b1, b2, b3]) < 0x8000_0000
  {
    hide Word;
    WordOfFour(f, b0, b1, b2, b3);
  }

  /** The three steps leave in each byte the number of its bits, and never overflow. */
  lemma ReduceCounts(b0: bv8, b1: bv8, b2: bv8, b3: bv8)
    ensures Reduce(Load(b0, b1, b2, b3)) == Word(Count, [b0, b1, b2, b3])
  {
    hide And, Count, Paired, Nibbled, Word, Mask, U32;
    var xs := [b0, b1, b2, b3];
    WordOfFour(Plain, b0, b1, b2, b3);
    MasksOfFour();
    SmallBytes(b0);
    SmallBytes(b1);
    SmallBytes(b2);
    SmallBytes(b3);
    FourSmall(Paired, b0, b1, b2, b3);
    FourSmall(Nibbled, b0, b1, b2, b3);
    PairsAre(xs);
    NibblesAre(xs);
    OctetsAre(xs);
    var y, z := Word(Paired, xs), Word(Nibbled, xs);
    Fits(y);
    Fits(z);
    Fits(z + z / 16);
  }

  /** Seven bytes of at most eight ones: no sum is above 56, no total above 224, and nothing is
      carried out of the byte that is kept. */
  lemma SpreadTop(s0: nat, s1: nat, s2: nat, s3: nat)
    requires s0 <= 56 && s1 <= 56 && s2 <= 56 && s3 <= 56
    ensures U32((s0 + 0x100 * s1 + 0x1_0000 * s2 + 0x100_0000 * s3) * 0x01010101) / 0x100_0000 == s0 + s1 + s2 + s3
  {
    hide U32;
    var low := s0 + 0x100 * (s0 + s1) + 0x1_0000 * (s0 + s1 + s2);
    var top := s0 + s1 + s2 + s3;
    var high := (s1 + s2 + s3) + 0x100 * (s2 + s3) + 0x1_0000 * s3;
    assert (s0 + 0x100 * s1 + 0x1_0000 * s2 + 0x100_0000 * s3) * 0x01010101
        == (low + 0x100_0000 * top) + 0x1_0000_0000 * high;
    KeptByte(low, top, high);
  }

  lemma KeptByte(low: nat, top: nat, high: nat)
    requires low < 0x100_0000 && top < 0x100
    ensures U32((low + 0x100_0000 * top) + 0x1_0000_0000 * high) / 0x100_0000 == top
  {
  }

  function Quad(s: seq<bv8>, i: nat): (q: seq<bv8>)
    requires i + 4 <= |s|
    ensures |q| == 4
  {
    [s[i], s[i + 1], s[i + 2], s[i + 3]]
  }

  lemma FourBits(a: bv8, b: bv8, c: bv8, d: bv8)
    ensures SetBits([a, b, c, d]) == Count(a) + Count(b) + Count(c) + Count(d)
  {
    hide Count;
    assert [a, b, c, d][1..] == [b, c, d] && [b, c, d][1..] == [c, d] && [c, d][1..] == [d] && [d][1..] == [];
    assert SetBits([a, b, c, d]) == Count(a) + SetBits([b, c, d]);
    assert SetBits([b, c, d]) == Count(b) + SetBits([c, d]);
    assert SetBits([c, d]) == Count(c) + SetBits([d]);
  }

  /** Bits four bytes further. */
  lemma NextQuad(s: seq<bv8>, i: nat)
    requires i + 4 <= |s|
    ensures SetBits(s[..i + 4]) == SetBits(s[..i]) + SetBits(Quad(s, i))
  {
    hide SetBits;
    assert s[..i + 4] == s[..i] + Quad(s, i);
    SetBitsAppend(s[..i], Quad(s, i));
  }

  lemma NextByte(s: seq<bv8>, i: nat)
    requires i < |s|
    ensures SetBits(s[..i + 1]) == SetBits(s[..i]) + Count(s[i])
  {
    hide Count;
    assert s[..i + 1] == s[..i] + [s[i]];
    SetBitsAppend(s[..i], [s[i]]);
    assert [s[i]][1..] == [];
  }

  /** The word at index i, with what is left of it after the three steps. */
  lemma Reduced(s: seq<bv8>, i: nat)
    requires i + 4 <= |s|
    ensures Reduce(Load(s[i], s[i + 1], s[i + 2], s[i + 3]))
         == Count(s[i]) + 0x100 * Count(s[i + 1]) + 0x1_0000 * Count(s[i + 2]) + 0x100_0000 * Count(s[i + 3])
    ensures SetBits(s[..i + 4]) == SetBits(s[..i]) + Count(s[i]) + Count(s[i + 1]) + Count(s[i + 2]) + Count(s[i + 3])
    ensures Count(s[i]) <= 8 && Count(s[i + 1]) <= 8 && Count(s[i + 2]) <= 8 && Count(s[i + 3]) <= 8
  {
    hide Reduce, Load, Count, Word, SetBits;
    ReduceCounts(s[i], s[i + 1], s[i + 2], s[i + 3]);
    WordOfFour(Count, s[i], s[i + 1], s[i + 2], s[i + 3]);
    NextQuad(s, i);
    FourBits(s[i], s[i + 1], s[i + 2], s[i + 3]);
    SmallBytes(s[i]);
    SmallBytes(s[i + 1]);
    SmallBytes(s[i + 2]);
    SmallBytes(s[i + 3]);
  }

  function Word32(s: seq<bv8>, i: nat): nat
    requires i + 4 <= |s|
  {
    Load(s[i], s[i + 1], s[i + 2], s[i + 3])
  }

  /** The bits of 28 bytes at a time. */
  method CountSeven(s: seq<bv8>, i: nat) returns (bits: nat)
    requires i + 28 <= |s|
    ensures SetBits(s[..i + 28]) == SetBits(s[..i]) + bits
  {
    hide Reduce, Load, Count, Word, SetBits, U32;
    var aux1, aux2, aux3, aux4 := Word32(s, i), Word32(s, i + 4), Word32(s, i + 8), Word32(s, i + 12);
    var aux5, aux6, aux7 := Word32(s, i + 16), Word32(s, i + 20), Word32(s, i + 24);
    var sum := U32(Reduce(aux1) + Reduce(aux2) + Reduce(aux3) + Reduce(aux4)
                   + Reduce(aux5) + Reduce(aux6) + Reduce(aux7));
    bits := U32(sum * 0x01010101) / 0x100_0000;
    SumOfSeven(s, i);
    SevenCounted(s, i, sum);
  }

  /** The sum of the first k words after the three steps. */
  function Sum(s: seq<bv8>, i: nat, k: nat): nat
    requires i + 4 * k <= |s|
  {
    if k == 0 then 0 else Sum(s, i, k - 1) + Reduce(Word32(s, i + 4 * (k - 1)))
  }

  lemma SumOfSeven(s: seq<bv8>, i: nat)
    requires i + 28 <= |s|
    ensures Sum(s, i, 7) == Reduce(Word32(s, i)) + Reduce(Word32(s, i + 4)) + Reduce(Word32(s, i + 8))
                          + Reduce(Word32(s, i + 12)) + Reduce(Word32(s, i + 16)) + Reduce(Word32(s, i + 20))
                          + Reduce(Word32(s, i + 24))
  {
    hide Reduce, Word32;
    assert Sum(s, i, 1) == Sum(s, i, 0) + Reduce(Word32(s, i));
    assert Sum(s, i, 2) == Sum(s, i, 1) + Reduce(Word32(s, i + 4));
    assert Sum(s, i, 3) == Sum(s, i, 2) + Reduce(Word32(s, i + 8));
    assert Sum(s, i, 4) == Sum(s, i, 3) + Reduce(Word32(s, i + 12));
    assert Sum(s, i, 5) == Sum(s, i, 4) + Reduce(Word32(s, i + 16));
    assert Sum(s, i, 6) == Sum(s, i, 5) + Reduce(Word32(s, i + 20));
  }

  /** It adds up the bits byte by byte, and no byte gets more than eight from each word. */
  lemma {:induction false} SumCounts(s: seq<bv8>, i: nat, k: nat) returns (s0: nat, s1: nat, s2: nat, s3: nat)
    requires i + 4 * k <= |s|
    ensures Sum(s, i, k) == s0 + 0x100 * s1 + 0x1_0000 * s2 + 0x100_0000 * s3
    ensures s0 <= 8 * k && s1 <= 8 * k && s2 <= 8 * k && s3 <= 8 * k
    ensures SetBits(s[..i + 4 * k]) == SetBits(s[..i]) + (s0 + s1 + s2 + s3)
  {
    hide Reduce, Load, Count, SetBits;
    if k == 0 {
      s0, s1, s2, s3 := 0, 0, 0, 0;
    } else {
      var j := i + 4 * (k - 1);
      s0, s1, s2, s3 := SumCounts(s, i, k - 1);
      Reduced(s, j);
      s0, s1, s2, s3 := s0 + Count(s[j]), s1 + Count(s[j + 1]), s2 + Count(s[j + 2]), s3 + Count(s[j + 3]);
    }
  }

  lemma SevenCounted(s: seq<bv8>, i: nat, sum: nat)
    requires i + 28 <= |s| && sum == U32(Sum(s, i, 7))
    ensures SetBits(s[..i + 28]) == SetBits(s[..i]) + U32(sum * 0x01010101) / 0x100_0000
  {
    hide Sum, SetBits, U32;
    var s0, s1, s2, s3 := SumCounts(s, i, 7);
    Fits(Sum(s, i, 7));
    SpreadTop(s0, s1, s2, s3);
  }

  /** redisPopcount, of a string whose address is `align` modulo 4. */
  method Popcount(s: seq<bv8>, align: nat) returns (bits: nat)
    ensures bits == SetBits(s)
  {
    hide Count, SetBits;
    bits := 0;
    var i := 0;
    Nothing();
    assert s[..0] == [];
    while (align + i) % 4 != 0 && i < |s|
      invariant i <= |s| && bits == SetBits(s[..i])
      decreases |s| - i
    {
      NextByte(s, i);
      bits := bits + Count(s[i]);
      i := i + 1;
    }
    while |s| - i >= 28
      invariant i <= |s| && bits == SetBits(s[..i])
    {
      var seven := CountSeven(s, i);
      bits := bits + seven;
      i := i + 28;
    }
    while i < |s|
      invariant i <= |s| && bits == SetBits(s[..i])
    {
      NextByte(s, i);
      bits := bits + Count(s[i]);
      i := i + 1;
    }
    assert s[..i] == s;
  }

  lemma Nothing()
    ensures SetBits([]) == 0
  {
  }

  // ----- finding a bit -----------------------------------------------------------------------------------

  lemma AllOrNone(b: bv8)
    ensures b == 0 <==> forall k :: 0 <= k < 8 ==> !Bits(b)[k]
    ensures b == 0xff <==> forall k :: 0 <= k < 8 ==> Bits(b)[k]
  {
    var r := Bits(b);
    assert b == 0 <==> !r[0] && !r[1] && !r[2] && !r[3] && !r[4] && !r[5] && !r[6] && !r[7];
    assert b == 0xff <==> r[0] && r[1] && r[2] && r[3] && r[4] && r[5] && r[6] && r[7];
  }

  // Words of 64 bits, the most significant first.

  function Zeros(n: nat): (w: seq<bool>)
    ensures |w| == n && forall k :: 0 <= k < n ==> !w[k]
  {
    seq(n, _ => false)
  }

  function ShiftLeft(w: seq<bool>, n: nat): (r: seq<bool>)
    requires n <= |w|
    ensures |r| == |w|
  {
    w[n..] + Zeros(n)
  }

  function ShiftRight(w: seq<bool>): (r: seq<bool>)
    requires w != []
    ensures |r| == |w|
  {
    [false] + w[..|w| - 1]
  }

  function Or(w: seq<bool>, x: seq<bool>): (r: seq<bool>)
    requires |w| == |x|
    ensures |r| == |w|
  {
    seq(|w|, k requires 0 <= k < |w| => w[k] || x[k])
  }

  function Both(w: seq<bool>, x: seq<bool>): (r: seq<bool>)
    requires |w| == |x|
    ensures |r| == |w|
  {
    seq(|w|, k requires 0 <= k < |w| => w[k] && x[k])
  }

  /** A byte as a word. */
  function Wide(b: bv8): (w: seq<bool>)
    ensures |w| == 64
  {
    Zeros(56) + Bits(b)
  }

  /** Eight bytes that are all 0, or all 0xff, as a word is compared with 0 or ULONG_MAX. */
  predicate Uniform(s: seq<bv8>, i: nat, b: bv8)
    requires i + 8 <= |s|
  {
    forall j :: i <= j < i + 8 ==> s[j] == b
  }

  /** No bit of the first n is `bit`. */
  ghost predicate NoneBefore(s: seq<bv8>, n: nat, bit: bool) { forall p :: 0 <= p < n ==> BitAt(s, p) != bit }

  lemma SkipByte(s: seq<bv8>, i: nat, bit: bool)
    requires i < |s| && NoneBefore(s, 8 * i, bit) && s[i] == (if bit then 0 else 0xff)
    ensures NoneBefore(s, 8 * (i + 1), bit)
  {
    AllOrNone(s[i]);
    forall p | 8 * i <= p < 8 * (i + 1) ensures BitAt(s, p) != bit { assert p / 8 == i; }
  }

  lemma {:induction false} SkipBytes(s: seq<bv8>, i: nat, n: nat, bit: bool)
    requires i + n <= |s| && NoneBefore(s, 8 * i, bit)
    requires forall j :: i <= j < i + n ==> s[j] == if bit then 0 else 0xff
    ensures NoneBefore(s, 8 * (i + n), bit)
  {
    if n > 0 {
      SkipBytes(s, i, n - 1, bit);
      SkipByte(s, i + n - 1, bit);
    }
  }

  /** The first j of the bytes from i on are in the word's low end. */
  ghost predicate Loading(s: seq<bv8>, i: nat, j: nat, w: seq<bool>)
    requires j <= 8
  {
    && |w| == 64 && (forall k :: 0 <= k < 64 - 8 * j ==> !w[k])
    && forall p :: 8 * i <= p < 8 * (i + j) ==> w[64 - 8 * j + (p - 8 * i)] == BitAt(s, p)
  }

  /** The word at byte i: its bits are those of the string there. */
  ghost predicate Loaded(s: seq<bv8>, i: nat, w: seq<bool>)
  {
    |w| == 64 && forall p :: 8 * i <= p < 8 * i + 64 ==> w[p - 8 * i] == BitAt(s, p)
  }

  lemma LoadMore(s: seq<bv8>, i: nat, j: nat, w: seq<bool>)
    requires j < 8 && Loading(s, i, j, w)
    ensures var v := ShiftLeft(w, 8);
            Loading(s, i, j + 1, if i + j < |s| then Or(v, Wide(s[i + j])) else v)
  {
    hide Bits;
    var v := ShiftLeft(w, 8);
    var x := if i + j < |s| then Or(v, Wide(s[i + j])) else v;
    forall k | 0 <= k < 56 ensures x[k] == w[k + 8] {
    }
    forall p | 8 * i <= p < 8 * (i + j + 1) ensures x[64 - 8 * (j + 1) + (p - 8 * i)] == BitAt(s, p) {
      var k := 64 - 8 * (j + 1) + (p - 8 * i);
      if k >= 56 {
        assert p == 8 * (i + j) + (k - 56) && p / 8 == i + j && p % 8 == k - 56;
      } else {
        assert w[64 - 8 * j + (p - 8 * i)] == BitAt(s, p);
      }
    }
  }

  /** The loop that loads eight bytes, padded with zeros. */
  method LoadWord(s: seq<bv8>, i: nat) returns (word: seq<bool>)
    requires i <= |s|
    ensures Loaded(s, i, word)
  {
    hide Bits, BitAt, ShiftLeft, Or, Wide;
    word := Zeros(64);
    for j := 0 to 8
      invariant Loading(s, i, j, word)
    {
      LoadMore(s, i, j, word);
      word := ShiftLeft(word, 8);
      if i + j < |s| {
        word := Or(word, Wide(s[i + j]));
      }
    }
  }

  /** The next 64 bits have the bit. */
  ghost predicate Near(s: seq<bv8>, i: nat, bit: bool) { exists p :: 8 * i <= p < 8 * i + 64 && BitAt(s, p) == bit }

  /** The bits before byte i are skipped, and the word at i has the bit, or the string ends in it. */
  ghost predicate Stopped(s: seq<bv8>, i: nat, bit: bool)
  {
    i <= |s| && NoneBefore(s, 8 * i, bit) && (|s| - i < 8 || Near(s, i, bit))
  }

  lemma StopAt(s: seq<bv8>, i: nat, j: nat, bit: bool)
    requires i <= j < i + 8 && j < |s| && s[j] != (if bit then 0 else 0xff)
    ensures Near(s, i, bit)
  {
    AllOrNone(s[j]);
    var m :| 0 <= m < 8 && Bits(s[j])[m] == bit;
    var p := 8 * j + m;
    assert p / 8 == j && p % 8 == m;
    assert BitAt(s, p) == bit;
  }

  /** Skipping bytes up to alignment, then words. */
  method Skip(s: seq<bv8>, align: nat, bit: bool) returns (i: nat)
    ensures Stopped(s, i, bit)
  {
    hide Bits, BitAt, Near;
    var skipval := if bit then 0 else 0xff;
    i := 0;
    while (align + i) % 8 != 0 && i < |s|
      invariant i <= |s| && NoneBefore(s, 8 * i, bit)
      decreases |s| - i
    {
      if s[i] != skipval {
        StopAt(s, i, i, bit);
        return;
      }
      SkipByte(s, i, bit);
      i := i + 1;
    }
    while |s| - i >= 8
      invariant i <= |s| && NoneBefore(s, 8 * i, bit)
      decreases |s| - i
    {
      if !Uniform(s, i, skipval) {
        ghost var j :| i <= j < i + 8 && s[j] != skipval;
        StopAt(s, i, j, bit);
        break;
      }
      SkipBytes(s, i, 8, bit);
      i := i + 8;
    }
  }

  /** The mask with the one bit k, or none. */
  function Mask64(k: nat): (w: seq<bool>)
    ensures |w| == 64
  {
    seq(64, j => j == k)
  }

  /** A word without a one, where ones are looked for, is the end. */
  lemma NoneAtAll(s: seq<bv8>, i: nat, word: seq<bool>)
    requires Stopped(s, i, true) && Loaded(s, i, word) && word == Zeros(64)
    ensures forall p :: 0 <= p < 8 * |s| ==> !BitAt(s, p)
  {
    hide Bits, BitAt;
    forall p | 8 * i <= p < 8 * i + 64 ensures !BitAt(s, p) { assert word[p - 8 * i] == BitAt(s, p); }
  }

  /** Otherwise the word has the bit: a word that is not whole is padded with zeros. */
  lemma SomeBit(s: seq<bv8>, i: nat, word: seq<bool>, bit: bool) returns (m: nat)
    requires Stopped(s, i, bit) && Loaded(s, i, word) && (bit ==> word != Zeros(64))
    ensures m < 64 && word[m] == bit
  {
    if bit {
      var z := Zeros(64);
      assert !(forall k :: 0 <= k < 64 ==> word[k] == z[k]);
      m :| 0 <= m < 64 && word[m];
    } else if |s| - i < 8 {
      m := 8 * (|s| - i);
      assert word[m] == BitAt(s, 8 * i + m);
    } else {
      var p :| 8 * i <= p < 8 * i + 64 && BitAt(s, p) == bit;
      m := p - 8 * i;
      assert word[m] == BitAt(s, p);
    }
  }

  lemma TestBit(k: nat, word: seq<bool>)
    requires k < 64 && |word| == 64
    ensures Both(Mask64(k), word) != Zeros(64) <==> word[k]
    ensures ShiftRight(Mask64(k)) == Mask64(k + 1) && Mask64(k) != Zeros(64)
  {
    var b := Both(Mask64(k), word);
    if word[k] { assert b[k] && !Zeros(64)[k]; } else { assert b == Zeros(64); }
    assert Mask64(k)[k] && !Zeros(64)[k];
  }

  lemma AtMostEnd(s: seq<bv8>, pos: nat, bit: bool)
    requires BitAt(s, pos) == bit && NoneBefore(s, pos, bit)
    ensures pos <= 8 * |s| && (bit ==> pos < 8 * |s|)
  {
    assert !BitAt(s, 8 * |s|);
  }

  /** redisBitpos, of a string whose address is `align` modulo 8: the first such bit of the string
      padded with zeros, -1 if there is none. */
  method Bitpos(s: seq<bv8>, align: nat, bit: bool) returns (pos: int)
    ensures pos == -1 <==> bit && forall p :: 0 <= p < 8 * |s| ==> !BitAt(s, p)
    ensures pos != -1 ==> 0 <= pos <= 8 * |s| && BitAt(s, pos) == bit && NoneBefore(s, pos, bit)
  {
    hide Bits, BitAt, Both, Mask64, ShiftRight;
    var i := Skip(s, align, bit);
    var word := LoadWord(s, i);
    pos := 8 * i;
    if bit && word == Zeros(64) {
      NoneAtAll(s, i, word);
      return -1;
    }
    var one := Mask64(0);
    ghost var m := SomeBit(s, i, word, bit);
    ghost var k := 0;
    TestBit(0, word);
    while one != Zeros(64)
      invariant k <= m < 64 && pos == 8 * i + k && one == Mask64(k) && one != Zeros(64)
      invariant NoneBefore(s, pos, bit)
      decreases 64 - k
    {
      TestBit(k, word);
      assert word[pos - 8 * i] == BitAt(s, pos);
      if (Both(one, word) != Zeros(64)) == bit {
        AtMostEnd(s, pos, bit);
        return;
      }
      pos := pos + 1;
      one := ShiftRight(one);
      k := k + 1;
      TestBit(k, word);
    }
  }
}
