/**
 * Protocol buffer wire format of the swap query (x/market/types/query.pb.go): the bytes a record is
 * written as, and what the generated parser reads from any bytes.
 */
module Wire {
  import opened Outcome
  import opened Words

  type byte = x: int | 0 <= x < 256

  function Pow2(n: nat): nat {
    if n == 0 then 1 else 2 * Pow2(n - 1)
  }

  // ---------- what is written ----------

  /** Base 128, least significant group first, high bit on all but the last byte. */
  function Varint(v: nat): seq<byte> {
    if v < 128 then [v] else [v % 128 + 128] + Varint(v / 128)
  }

  /** Number of significant bits. */
  function BitLen(x: nat): nat {
    if x == 0 then 0 else 1 + BitLen(x / 2)
  }

  function OrOne(x: nat): nat {
    2 * (x / 2) + 1
  }

  /** The generated size of a varint. */
  function Sov(x: nat): nat {
    (BitLen(OrOne(x)) + 6) / 7
  }

  lemma FourHalvings(x: nat)
    requires x >= 8
    ensures BitLen(x) == 4 + BitLen(x / 16)
  {
    assert BitLen(x) == 1 + BitLen(x / 2);
    assert BitLen(x / 2) == 1 + BitLen(x / 2 / 2);
    assert BitLen(x / 4) == 1 + BitLen(x / 4 / 2);
    assert BitLen(x / 8) == 1 + BitLen(x / 8 / 2);
  }

  lemma SevenHalvings(x: nat)
    requires x >= 128
    ensures BitLen(OrOne(x)) == 7 + BitLen(OrOne(x / 128))
  {
    hide BitLen;
    BitLenOrOne(x);
    BitLenOrOne(x / 128);
    FourHalvings(x / 2);
    assert x / 2 / 16 == x / 32;
    ThreeHalvings(x / 32);
    assert x / 32 / 8 == x / 128 / 2;
  }

  lemma ThreeHalvings(x: nat)
    requires x >= 4
    ensures BitLen(x) == 3 + BitLen(x / 8)
  {
    assert BitLen(x) == 1 + BitLen(x / 2);
    assert BitLen(x / 2) == 1 + BitLen(x / 2 / 2);
    assert BitLen(x / 4) == 1 + BitLen(x / 4 / 2);
  }

  lemma BitLenOrOne(x: nat)
    ensures BitLen(OrOne(x)) == 1 + BitLen(x / 2)
  {
    assert OrOne(x) / 2 == x / 2;
  }

  /** The size formula counts the bytes that are written. */
  lemma {:induction false} SovIsLength(v: nat)
    ensures Sov(v) == |Varint(v)| >= 1
  {
    if v < 128 {
      SmallBitLen(v);
    } else {
      SevenHalvings(v);
      SovIsLength(v / 128);
    }
  }

  lemma SmallBitLen(v: nat)
    requires v < 128
    ensures 1 <= BitLen(OrOne(v)) <= 7
  {
    assert OrOne(v) / 2 == v / 2;
    BitLenBound(v / 2, 6);
  }

  lemma {:induction false} BitLenBound(x: nat, n: nat)
    requires x < Pow2(n)
    ensures BitLen(x) <= n
  {
    if x != 0 {
      BitLenBound(x / 2, n - 1);
    }
  }

  // ---------- what is read ----------

  datatype Error =
    | IntOverflow
    | UnexpectedEOF
    | InvalidLength
    | EndGroup
    | IllegalTag
    | WrongWireType
    | UnexpectedEndOfGroup
    | IllegalWireType

  type Parsed<+T> = Result<T, Error>

  /** A value and the number of bytes it took. */
  datatype Read = Read(value: nat, size: nat)

  /** Reads a varint; bits beyond the 64th are lost, and ten bytes are the most that is read. */
  function ReadVarint(d: seq<byte>, shift: nat, acc: nat): (r: Parsed<Read>)
    ensures r.Ok? ==> 1 <= r.value.size <= |d|
    decreases 70 - shift
  {
    if shift >= 64 then Err(IntOverflow)
    else if d == [] then Err(UnexpectedEOF)
    else
      var acc' := (acc + (d[0] % 128) * Pow2(shift)) % TWO64;
      if d[0] < 128 then Ok(Read(acc', 1))
      else
        match ReadVarint(d[1..], shift + 7, acc')
        case Err(error) => Err(error)
        case Ok(read) => Ok(Read(read.value, read.size + 1))
  }

  function Varint64(d: seq<byte>): (r: Parsed<Read>)
    ensures r.Ok? ==> 1 <= r.value.size <= |d|
  {
    ReadVarint(d, 0, 0)
  }

  lemma {:induction false} PowAdd(a: nat, b: nat)
    ensures Pow2(a + b) == Pow2(a) * Pow2(b)
  {
    if a > 0 {
      PowAdd(a - 1, b);
    }
  }

  lemma {:induction false} PowMonotone(a: nat, b: nat)
    requires a <= b
    ensures Pow2(a) <= Pow2(b)
  {
    if a < b {
      PowMonotone(a, b - 1);
    }
  }

  lemma Pow64()
    ensures Pow2(64) == TWO64
  {
    assert Pow2(8) == 256;
    PowAdd(8, 8);
    PowAdd(16, 16);
    PowAdd(32, 32);
  }

  /** Reading what was written gives back the value, whatever follows. */
  lemma {:induction false} ReadWritten(v: nat, rest: seq<byte>, shift: nat, acc: nat)
    requires acc + v * Pow2(shift) < TWO64 && (shift == 0 || v > 0)
    ensures ReadVarint(Varint(v) + rest, shift, acc) == Ok(Read(acc + v * Pow2(shift), |Varint(v)|))
    decreases v
  {
    hide Pow2, ReadVarint;
    ShiftInRange(v, shift, acc);
    var d := Varint(v) + rest;
    if v < 128 {
      ReadLast(d, shift, acc, v);
    } else {
      var low, high := v % 128, v / 128;
      assert d[1..] == Varint(high) + rest;
      SplitGroup(v, shift);
      ReadWritten(high, rest, shift + 7, acc + low * Pow2(shift));
      ReadMore(d, shift, acc, low);
    }
  }

  lemma ReadLast(d: seq<byte>, shift: nat, acc: nat, low: nat)
    requires d != [] && d[0] == low < 128 && shift < 64 && acc + low * Pow2(shift) < TWO64
    ensures ReadVarint(d, shift, acc) == Ok(Read(acc + low * Pow2(shift), 1))
  {
    hide Pow2;
    assert d[0] % 128 == low;
    InRange(acc + low * Pow2(shift));
  }

  lemma ReadMore(d: seq<byte>, shift: nat, acc: nat, low: nat)
    requires d != [] && d[0] == low + 128 && low < 128 && shift < 64 && acc + low * Pow2(shift) < TWO64
    requires ReadVarint(d[1..], shift + 7, acc + low * Pow2(shift)).Ok?
    ensures ReadVarint(d, shift, acc).Ok?
    ensures var more := ReadVarint(d[1..], shift + 7, acc + low * Pow2(shift)).value;
            ReadVarint(d, shift, acc).value == Read(more.value, more.size + 1)
  {
    hide Pow2;
    assert d[0] % 128 == low;
    InRange(acc + low * Pow2(shift));
  }

  lemma InRange(x: nat)
    requires x < TWO64
    ensures x % TWO64 == x
  {
  }

  lemma ShiftInRange(v: nat, shift: nat, acc: nat)
    requires acc + v * Pow2(shift) < TWO64 && (shift == 0 || v > 0)
    ensures shift < 64
  {
    hide Pow2;
    Pow64();
    if shift >= 64 {
      PowMonotone(64, shift);
      TimesAtLeast(v, Pow2(shift));
    }
  }

  lemma TimesAtLeast(v: nat, p: nat)
    requires v > 0
    ensures v * p >= p
  {
    assert v * p == (v - 1) * p + p;
  }

  lemma SplitGroup(v: nat, shift: nat)
    ensures v % 128 * Pow2(shift) + v / 128 * Pow2(shift + 7) == v * Pow2(shift)
    ensures 0 <= v % 128 * Pow2(shift) <= v * Pow2(shift)
  {
    PowAdd(shift, 7);
    assert Pow2(7) == 128;
    var p := Pow2(shift);
    assert v / 128 * (p * 128) == (v / 128 * 128) * p;
    assert v == v / 128 * 128 + v % 128;
    assert (v / 128 * 128 + v % 128) * p == (v / 128 * 128) * p + v % 128 * p;
  }

  lemma VarintRoundTrip(v: nat, rest: seq<byte>)
    requires v < TWO64
    ensures Varint64(Varint(v) + rest) == Ok(Read(v, |Varint(v)|))
  {
    ReadWritten(v, rest, 0, 0);
  }
}
