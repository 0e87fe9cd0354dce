/** Integers of any width at any place of a bitmap, as BITFIELD reads and writes them. */
module BitField {
  import opened Options
  import opened BitOps

  // ----- powers of two and binary digits --------------------------------------------------------

  function Pow2(n: nat): (p: nat)
    ensures p >= 1
  {
    if n == 0 then 1 else 2 * Pow2(n - 1)
  }

  /** Bit k of a number: value & (1 << k). */
  predicate NatBit(value: nat, k: nat) { value / Pow2(k) % 2 == 1 }

  lemma DivOf(v: nat, p: nat, q: nat, r: nat)
    requires p > 0 && v == p * q + r && r < p
    ensures v / p == q && v % p == r
  {
    var d, m := v / p, v % p;
    assert v == p * d + m;
    assert d < q ==> p * q >= p * (d + 1) == p * d + p;
    assert d > q ==> p * d >= p * (q + 1) == p * q + p;
  }

  lemma HalfBit(v: nat, k: nat)
    ensures NatBit(v, k + 1) == NatBit(v / 2, k)
  {
    var p := Pow2(k);
    var q, r := v / 2 / p, v / 2 % p;
    assert v / 2 == p * q + r;
    assert v == 2 * (v / 2) + v % 2;
    assert 2 * (p * q + r) == (2 * p) * q + 2 * r;
    DivOf(v, 2 * p, q, 2 * r + v % 2);
  }

  lemma ModHalf(v: nat, p: nat)
    requires p > 0
    ensures v % (2 * p) == 2 * (v / 2 % p) + v % 2
  {
    var q, r := v / 2 / p, v / 2 % p;
    assert v / 2 == p * q + r;
    assert v == 2 * (v / 2) + v % 2;
    assert 2 * (p * q + r) == (2 * p) * q + 2 * r;
    DivOf(v, 2 * p, q, 2 * r + v % 2);
  }

  // ----- a field of a bitmap -----------------------------------------------------------------------

  /** The number in the bits from offset on. */
  function Field(s: seq<bv8>, offset: nat, bits: nat): (v: nat)
    ensures v < Pow2(bits)
  {
    if bits == 0 then 0 else 2 * Field(s, offset, bits - 1) + One(BitAt(s, offset + bits - 1))
  }

  lemma {:induction false} FieldOfBits(s: seq<bv8>, offset: nat, bits: nat, value: nat)
    requires forall q :: offset <= q < offset + bits ==> BitAt(s, q) == NatBit(value, offset + bits - 1 - q)
    ensures Field(s, offset, bits) == value % Pow2(bits)
  {
    hide BitAt, NatBit;
    if bits > 0 {
      forall q | offset <= q < offset + bits - 1 ensures BitAt(s, q) == NatBit(value / 2, offset + bits - 2 - q) {
        HalfBit(value, offset + bits - 2 - q);
      }
      FieldOfBits(s, offset, bits - 1, value / 2);
      ModHalf(value, Pow2(bits - 1));
      LowBit(value);
      assert BitAt(s, offset + bits - 1) == NatBit(value, 0);
    }
  }

  lemma LowBit(value: nat)
    ensures NatBit(value, 0) <==> value % 2 == 1
  {
    assert Pow2(0) == 1 && value / 1 == value;
  }

  lemma {:induction false} FieldUnchanged(s: seq<bv8>, t: seq<bv8>, offset: nat, bits: nat)
    requires forall q :: offset <= q < offset + bits ==> BitAt(s, q) == BitAt(t, q)
    ensures Field(s, offset, bits) == Field(t, offset, bits)
  {
    hide BitAt;
    if bits > 0 { FieldUnchanged(s, t, offset, bits - 1); }
  }

  // ----- reading and writing -------------------------------------------------------------------------

  /** 1 << bit */
  function Shifted(bit: nat): (m: bv8)
    requires bit < 8
  {
    if bit == 0 then 1 else if bit == 1 then 2 else if bit == 2 then 4 else if bit == 3 then 8
    else if bit == 4 then 16 else if bit == 5 then 32 else if bit == 6 then 64 else 128
  }

  /** A byte with one bit, counted from the right, replaced. */
  function Put(b: bv8, bit: nat, v: bool): bv8
    requires bit < 8
  {
    if v then Clear(b, Shifted(bit)) | Shifted(bit) else Clear(b, Shifted(bit))
  }

  function Clear(b: bv8, m: bv8): bv8 { b & !m }

  function Get(b: bv8, bit: nat): bool
    requires bit < 8
  {
    (b >> bit) & 1 == 1
  }

  /** One bit of a byte, by its mask. */
  predicate Has(b: bv8, m: bv8) { b & m != 0 }

  predicate Single(m: bv8) { m in {1, 2, 4, 8, 16, 32, 64, 128} }

  lemma HasCleared(b: bv8, m: bv8, k: bv8)
    requires Single(m) && Single(k)
    ensures Has(Clear(b, m), k) <==> k != m && Has(b, k)
  {
  }

  lemma HasRaised(c: bv8, m: bv8, k: bv8)
    requires Single(m) && Single(k)
    ensures Has(c | m, k) <==> k == m || Has(c, k)
  {
  }

  lemma BitsAre(b: bv8)
    ensures Bits(b) == [Has(b, 128), Has(b, 64), Has(b, 32), Has(b, 16), Has(b, 8), Has(b, 4), Has(b, 2), Has(b, 1)]
  {
  }

  lemma BitsHave(b: bv8, i: nat)
    requires i < 8
    ensures Bits(b)[i] == Has(b, Shifted(7 - i))
  {
    hide Bits, Has;
    BitsAre(b);
    assert i in {0, 1, 2, 3, 4, 5, 6, 7};
  }

  lemma Singles(i: nat, j: nat)
    requires i < 8 && j < 8
    ensures Single(Shifted(i)) && (Shifted(i) == Shifted(j) <==> i == j)
  {
  }

  lemma PutHas(b: bv8, bit: nat, v: bool, i: nat)
    requires bit < 8 && i < 8
    ensures Has(Put(b, bit, v), Shifted(i)) <==> if i == bit then v else Has(b, Shifted(i))
  {
    hide Has, Shifted, Clear, Single;
    Singles(bit, i);
    Singles(i, bit);
    HasCleared(b, Shifted(bit), Shifted(i));
    HasRaised(Clear(b, Shifted(bit)), Shifted(bit), Shifted(i));
  }

  lemma PutBits(b: bv8, bit: nat, v: bool)
    requires bit < 8
    ensures Bits(Put(b, bit, v)) == Bits(b)[7 - bit := v]
  {
    hide Bits, Has, Shifted, Put;
    var c := Put(b, bit, v);
    forall i | 0 <= i < 8 ensures Bits(c)[i] == Bits(b)[7 - bit := v][i] {
      BitsHave(c, i);
      BitsHave(b, i);
      PutHas(b, bit, v, 7 - i);
    }
  }

  lemma GetBits(b: bv8, bit: nat)
    requires bit < 8
    ensures Get(b, bit) == Bits(b)[7 - bit]
  {
    hide Bits;
    BitsAre(b);
    assert bit in {0, 1, 2, 3, 4, 5, 6, 7};
  }

  /** Only bit p of the string is set to v. */
  ghost predicate PutAt(s: seq<bv8>, p: nat, v: bool, t: seq<bv8>)
  {
    |t| == |s| && forall q: nat :: BitAt(t, q) == if q == p then v else BitAt(s, q)
  }

  lemma PutByte(s: seq<bv8>, p: nat, v: bool)
    requires p < 8 * |s|
    ensures PutAt(s, p, v, s[p / 8 := Put(s[p / 8], 7 - p % 8, v)])
  {
    hide Bits, Put;
    var t := s[p / 8 := Put(s[p / 8], 7 - p % 8, v)];
    PutBits(s[p / 8], 7 - p % 8, v);
    forall q: nat ensures BitAt(t, q) == if q == p then v else BitAt(s, q) {
      if q < 8 * |s| && q / 8 == p / 8 { assert q % 8 == p % 8 <==> q == p; }
    }
  }

  /** The field holds the digits of value, and the bits beside it are those of s. */
  ghost predicate Written(s: seq<bv8>, offset: nat, bits: nat, value: nat, t: seq<bv8>)
  {
    && |t| == |s|
    && (forall q: nat :: q < offset || q >= offset + bits ==> BitAt(t, q) == BitAt(s, q))
    && forall q :: offset <= q < offset + bits ==> BitAt(t, q) == NatBit(value, offset + bits - 1 - q)
  }

  /** setUnsignedBitfield */
  method SetUnsigned(p: array<bv8>, offset: nat, bits: nat, value: nat)
    requires offset + bits <= 8 * p.Length
    modifies p
    ensures Written(old(p[..]), offset, bits, value, p[..])
  {
    hide BitAt, Put, NatBit;
    ghost var s := p[..];
    for j := 0 to bits
      invariant |p[..]| == |s|
      invariant forall q: nat :: q < offset || q >= offset + j ==> BitAt(p[..], q) == BitAt(s, q)
      invariant forall q :: offset <= q < offset + j ==> BitAt(p[..], q) == NatBit(value, offset + bits - 1 - q)
    {
      var at := offset + j;
      var bitval := NatBit(value, bits - 1 - j);
      ghost var before := p[..];
      PutByte(before, at, bitval);
      p[at / 8] := Put(p[at / 8], 7 - at % 8, bitval);
      assert p[..] == before[at / 8 := Put(before[at / 8], 7 - at % 8, bitval)];
    }
  }

  /** getUnsignedBitfield */
  method GetUnsigned(p: array<bv8>, offset: nat, bits: nat) returns (value: nat)
    requires offset + bits <= 8 * p.Length
    ensures value == Field(p[..], offset, bits)
  {
    hide Bits, Get;
    value := 0;
    for j := 0 to bits
      invariant value == Field(p[..], offset, j)
    {
      var at := offset + j;
      GetBits(p[at / 8], 7 - at % 8);
      value := 2 * value + One(Get(p[at / 8], 7 - at % 8));
    }
  }

  /** What was written is read, modulo the width, and other fields are as they were. */
  lemma ReadBack(s: seq<bv8>, offset: nat, bits: nat, value: nat, t: seq<bv8>)
    requires Written(s, offset, bits, value, t)
    ensures Field(t, offset, bits) == value % Pow2(bits)
    ensures forall o: nat, n: nat :: o + n <= offset || offset + bits <= o ==> Field(t, o, n) == Field(s, o, n)
  {
    hide BitAt, NatBit, Field;
    FieldOfBits(t, offset, bits, value);
    forall o: nat, n: nat | o + n <= offset || offset + bits <= o ensures Field(t, o, n) == Field(s, o, n) {
      FieldUnchanged(t, s, o, n);
    }
  }

  // ----- signed numbers ---------------------------------------------------------------------------------

  const WORD: nat := 0x1_0000_0000_0000_0000

  /** A field read in two's complement. */
  function Signed(u: nat, bits: nat): int
    requires bits >= 1
  {
    if u < Pow2(bits - 1) then u else u - Pow2(bits)
  }

  lemma Pow2Values()
    ensures Pow2(64) == WORD && Pow2(63) == 0x8000_0000_0000_0000
  {
    assert Pow2(8) == 0x100;
    assert Pow2(16) == 0x100 * Pow2(8);
    assert Pow2(24) == 0x100 * Pow2(16);
    assert Pow2(32) == 0x100 * Pow2(24);
    assert Pow2(40) == 0x100 * Pow2(32);
    assert Pow2(48) == 0x100 * Pow2(40);
    assert Pow2(56) == 0x100 * Pow2(48);
    assert Pow2(64) == 0x100 * Pow2(56);
  }

  lemma {:induction false} Pow2Up(m: nat, n: nat)
    requires m <= n
    ensures Pow2(m) <= Pow2(n)
  {
    if m < n { Pow2Up(m, n - 1); }
  }

  /** The conversion of uint64_t to int64_t. */
  function ToInt64(u: nat): int { if u < 0x8000_0000_0000_0000 then u else u - WORD }

  /** u | (-1 << bits), for a u of at most that many bits. */
  function OrAbove(u: nat, bits: nat): nat
    requires bits <= 64 && u < Pow2(bits)
  {
    Pow2Up(bits, 64);
    Pow2Values();
    u + (WORD - Pow2(bits))
  }

  lemma TopBit(u: nat, bits: nat)
    requires bits >= 1 && u < Pow2(bits)
    ensures NatBit(u, bits - 1) <==> u >= Pow2(bits - 1)
  {
    var p := Pow2(bits - 1);
    if u < p { DivOf(u, p, 0, u); } else { DivOf(u, p, 1, u - p); }
  }

  /** getSignedBitfield */
  method GetSigned(p: array<bv8>, offset: nat, bits: nat) returns (value: int)
    requires 1 <= bits <= 63 && offset + bits <= 8 * p.Length
    ensures value == Signed(Field(p[..], offset, bits), bits)
  {
    hide NatBit, Field;
    var u := GetUnsigned(p, offset, bits);
    TopBit(u, bits);
    Pow2Values();
    Pow2Up(bits, 63);
    if NatBit(u, bits - 1) {
      value := ToInt64(OrAbove(u, bits));
    } else {
      value := ToInt64(u);
    }
  }

  lemma {:induction false} Pow2Sum(m: nat, n: nat)
    ensures Pow2(m + n) == Pow2(m) * Pow2(n)
  {
    if m > 0 {
      Pow2Sum(m - 1, n);
      assert Pow2(m + n) == 2 * Pow2(m - 1 + n);
    }
  }

  /** 2^64 is a multiple of 2^bits. */
  lemma WordIs(bits: nat) returns (q: nat)
    requires bits <= 64
    ensures WORD == Pow2(bits) * q && q >= 1
  {
    q := Pow2(64 - bits);
    Pow2Sum(bits, 64 - bits);
    Pow2Values();
  }

  /** The numbers that a field can hold. */
  function Min(signed: bool, bits: nat): int
    requires bits >= 1
  {
    if signed then 0 - Pow2(bits - 1) else 0
  }

  function Max(signed: bool, bits: nat): int
    requires bits >= 1
  {
    if signed then Pow2(bits - 1) - 1 else Pow2(bits) - 1
  }

  predicate InRange(x: int, signed: bool, bits: nat)
    requires bits >= 1
  {
    Min(signed, bits) <= x <= Max(signed, bits)
  }

  predicate IsInt64(x: int) { -0x8000_0000_0000_0000 <= x < 0x8000_0000_0000_0000 }

  /** The number that the field can hold that differs from x by a multiple of 2^bits. */
  function Residue(x: int, signed: bool, bits: nat): (r: int)
    requires bits >= 1
    ensures InRange(r, signed, bits)
  {
    var u := x % Pow2(bits);
    if signed then Signed(u, bits) else u
  }

  lemma ModOf(x: int, p: nat, q: int, r: nat)
    requires p > 0 && x == p * q + r && r < p
    ensures x % p == r
  {
    var d, m := x / p, x % p;
    assert x == p * d + m;
    assert d < q ==> p * q >= p * (d + 1) == p * d + p;
    assert d > q ==> p * d >= p * (q + 1) == p * q + p;
  }

  /** Residues of int64_t arithmetic are residues. */
  lemma WordMod(x: int, bits: nat)
    requires bits <= 64
    ensures x % WORD % Pow2(bits) == x % Pow2(bits)
  {
    var q := WordIs(bits);
    ModTwice(x, Pow2(bits), q);
  }

  lemma ModTwice(x: int, p: nat, q: nat)
    requires p > 0 && q > 0
    ensures p * q > 0 && x % (p * q) % p == x % p
  {
    Positive(p, q);
    var d, m := Divided(x, p * q);
    var e, r := Divided(m, p);
    Regroup(p, q, d, e);
    ModOf(x, p, q * d + e, r);
  }

  lemma Positive(p: nat, q: nat)
    requires p > 0 && q > 0
    ensures p * q > 0
  {
  }

  lemma Divided(x: int, p: nat) returns (q: int, r: nat)
    requires p > 0
    ensures x == p * q + r && r < p && r == x % p && q == x / p
  {
    q, r := x / p, x % p;
  }

  lemma Regroup(p: int, q: int, d: int, e: int)
    ensures p * q * d + p * e == p * (q * d + e)
  {
    assert p * q * d == p * (q * d);
  }

  lemma ResidueInRange(x: int, signed: bool, bits: nat)
    requires bits >= 1 && InRange(x, signed, bits)
    ensures Residue(x, signed, bits) == x
  {
    var p := Pow2(bits);
    if x >= 0 { ModOf(x, p, 0, x); } else { ModOf(x, p, -1, x + p); }
  }

  /** What a field holds. */
  function Value(s: seq<bv8>, offset: nat, bits: nat, signed: bool): (v: int)
    requires bits >= 1
    ensures InRange(v, signed, bits)
  {
    var u := Field(s, offset, bits);
    if signed then Signed(u, bits) else u
  }

  /** setSignedBitfield */
  method SetSigned(p: array<bv8>, offset: nat, bits: nat, value: int)
    requires offset + bits <= 8 * p.Length && IsInt64(value)
    modifies p
    ensures Written(old(p[..]), offset, bits, value % WORD, p[..])
  {
    var uv := value % WORD;
    SetUnsigned(p, offset, bits, uv);
  }

  lemma ValueWritten(s: seq<bv8>, offset: nat, bits: nat, value: int, t: seq<bv8>, signed: bool)
    requires 1 <= bits <= 63 && Written(s, offset, bits, value % WORD, t)
    ensures Value(t, offset, bits, signed) == Residue(value, signed, bits)
  {
    hide Written, Signed;
    ReadBack(s, offset, bits, value % WORD, t);
    WordMod(value, bits);
  }

  // ----- overflow -------------------------------------------------------------------------------------------

  datatype Overflow = Wrap | Sat | Fail

  /** Why a sum does not fit, and what is stored instead. */
  ghost predicate Limited(e: int, signed: bool, bits: nat, ow: Overflow, over: bool, limit: int)
    requires bits >= 1
  {
    && (over <==> !InRange(e, signed, bits))
    && (over && ow == Wrap ==> limit == Residue(e, signed, bits))
    && (over && ow == Sat ==> limit == if e > Max(signed, bits) then Max(signed, bits) else Min(signed, bits))
  }

  /** checkUnsignedBitfieldOverflow */
  method CheckUnsigned(value: nat, incr: int, bits: nat, ow: Overflow) returns (o: int, limit: int)
    requires 1 <= bits <= 63 && InRange(value, false, bits) && IsInt64(incr)
    ensures Limited(value + incr, false, bits, ow, o != 0, limit)
  {
    var max := Pow2(bits) - 1;
    var maxincr, minincr := max - value, 0 - value;
    limit := 0;
    if value > max || (incr > 0 && incr > maxincr) {
      if ow == Wrap {
        limit := WrapUnsigned(value, incr, bits);
      } else if ow == Sat {
        limit := max;
      }
      return 1, limit;
    } else if incr < 0 && incr < minincr {
      if ow == Wrap {
        limit := WrapUnsigned(value, incr, bits);
        return 1, limit;
      } else if ow == Sat {
        limit := 0;
      }
      return -1, limit;
    }
    return 0, limit;
  }

  /** The sum in 64 bits, without what the mask covers. */
  method WrapUnsigned(value: nat, incr: int, bits: nat) returns (limit: int)
    requires 1 <= bits <= 63
    ensures limit == Residue(value + incr, false, bits)
  {
    var res := (value + incr) % WORD;
    WordMod(value + incr, bits);
    limit := res % Pow2(bits);
  }

  /** checkSignedBitfieldOverflow */
  method CheckSigned(value: int, incr: int, bits: nat, ow: Overflow) returns (o: int, limit: int)
    requires 1 <= bits <= 63 && InRange(value, true, bits) && IsInt64(incr)
    ensures Limited(value + incr, true, bits, ow, o != 0, limit)
  {
    var max := Pow2(bits - 1) - 1;
    var min := -max - 1;
    var maxincr, minincr := max - value, min - value;
    limit := 0;
    if value > max || (bits != 64 && incr > maxincr) || (value >= 0 && incr > 0 && incr > maxincr) {
      if ow == Wrap {
        limit := WrapSigned(value, incr, bits);
      } else if ow == Sat {
        limit := max;
      }
      return 1, limit;
    } else if value < min || (bits != 64 && incr < minincr) || (value < 0 && incr < 0 && incr < minincr) {
      if ow == Wrap {
        limit := WrapSigned(value, incr, bits);
        return 1, limit;
      } else if ow == Sat {
        limit := min;
      }
      return -1, limit;
    }
    return 0, limit;
  }

  lemma TopBitMod(c: nat, bits: nat)
    requires bits >= 1
    ensures NatBit(c, bits - 1) <==> c % Pow2(bits) >= Pow2(bits - 1)
  {
    hide NatBit;
    var q, r := Divided(c, Pow2(bits));
    NatBitIs(c, bits - 1);
    HalfOf(c, Pow2(bits - 1), Pow2(bits), q, r);
  }

  lemma NatBitIs(v: nat, k: nat)
    ensures NatBit(v, k) <==> v / Pow2(k) % 2 == 1
  {
  }

  lemma HalfOf(c: nat, h: nat, p: nat, q: int, r: nat)
    requires h > 0 && p == 2 * h && c == p * q + r && r < p
    ensures c / h % 2 == 1 <==> r >= h
  {
    Regroup(h, 2, q, 1);
    Regroup(h, 2, q, 0);
    QuotientNat(c, p, q, r);
    if r < h { DivOf(c, h, 2 * q, r); } else { DivOf(c, h, 2 * q + 1, r - h); }
  }

  lemma QuotientNat(c: nat, p: nat, q: int, r: nat)
    requires c == p * q + r && r < p
    ensures q >= 0
  {
    assert q < 0 ==> p * q <= p * -1;
  }

  /** The sum in 64 bits, with the bits of the mask all set or all clear, as the sign bit says. */
  method WrapSigned(value: int, incr: int, bits: nat) returns (limit: int)
    requires 1 <= bits <= 63
    ensures limit == Residue(value + incr, true, bits)
  {
    hide NatBit;
    var c := (value % WORD + incr % WORD) % WORD;
    WordSum(value, incr);
    WordMod(value + incr, bits);
    TopBitMod(c, bits);
    Pow2Values();
    Pow2Up(bits, 63);
    if NatBit(c, bits - 1) {
      c := OrAbove(c % Pow2(bits), bits);
    } else {
      c := c % Pow2(bits);
    }
    limit := ToInt64(c);
  }

  lemma WordSum(a: int, b: int)
    ensures (a % WORD + b % WORD) % WORD == (a + b) % WORD
  {
  }

  /** BITFIELD INCRBY, on one field. Nothing when the sum does not fit and the overflow type says
      so; else the new value. */
  method IncrBy(p: array<bv8>, offset: nat, bits: nat, signed: bool, incr: int, ow: Overflow) returns (r: Option<int>)
    requires 1 <= bits <= 63 && offset + bits <= 8 * p.Length && IsInt64(incr)
    modifies p
    ensures var e := Value(old(p[..]), offset, bits, signed) + incr;
            match r
            case None => !InRange(e, signed, bits) && ow == Fail && p[..] == old(p[..])
            case Some(x) =>
              && (InRange(e, signed, bits) || ow != Fail)
              && x == (if InRange(e, signed, bits) then e else if ow == Wrap then Residue(e, signed, bits)
                       else if e > Max(signed, bits) then Max(signed, bits) else Min(signed, bits))
              && Value(p[..], offset, bits, signed) == x
              && forall q: nat :: q < offset || q >= offset + bits ==> BitAt(p[..], q) == BitAt(old(p[..]), q)
  {
    hide BitAt, Field, Residue;
    ghost var s := p[..];
    var oldval, o, wrapped;
    if signed {
      oldval := GetSigned(p, offset, bits);
      o, wrapped := CheckSigned(oldval, incr, bits, ow);
    } else {
      oldval := GetUnsigned(p, offset, bits);
      o, wrapped := CheckUnsigned(oldval, incr, bits, ow);
    }
    var newval := if o != 0 then wrapped else oldval + incr;
    if o != 0 && ow == Fail {
      return None;
    }
    Bounded(newval, signed, bits);
    ResidueInRange(newval, signed, bits);
    SetSigned(p, offset, bits, newval);
    ValueWritten(s, offset, bits, newval, p[..], signed);
    return Some(newval);
  }

  lemma Bounded(x: int, signed: bool, bits: nat)
    requires 1 <= bits <= 63 && InRange(x, signed, bits)
    ensures IsInt64(x)
  {
    Pow2Values();
    Pow2Up(bits, 63);
    Pow2Up(bits - 1, 63);
  }
}
