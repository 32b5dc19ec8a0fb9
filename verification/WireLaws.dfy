/**
 * What the generated parser reads from any bytes, and what it refuses (x/market/types/query.pb.go):
 * every varint, canonical or not, every way a record can be ill-formed, and every truncation.
 */
module WireLaws {
  import opened Outcome
  import opened Words
  import opened Wire
  import opened SwapQuery
  import opened SwapQueryCodec

  // ---------- varints ----------

  /** The value of the first `k` groups of seven bits. */
  function Groups(d: seq<byte>, k: nat): nat
    requires k <= |d|
  {
    if k == 0 then 0 else Groups(d, k - 1) + d[k - 1] % 128 * Pow2(7 * (k - 1))
  }

  ghost predicate MoreUpTo(d: seq<byte>, k: nat)
    requires k <= |d|
  {
    forall i :: 0 <= i < k ==> d[i] >= 128
  }

  /** Having read `j` groups, the rest is read from there. */
  lemma {:induction false} ReadOn(d: seq<byte>, j: nat)
    requires j <= |d| && j <= 10 && MoreUpTo(d, j)
    ensures Varint64(d) == Bump(ReadVarint(d[j..], 7 * j, Groups(d, j) % TWO64), j)
  {
    hide Pow2, Groups, ReadVarint, Accumulate;
    if j == 0 {
      assert d[0..] == d;
      NoGroups(d);
    } else {
      ReadOn(d, j - 1);
      DecodeNext(d, 0, j - 1, 7 * (j - 1), Groups(d, j - 1) % TWO64);
      OneGroup(d, j - 1);
    }
  }

  lemma NoGroups(d: seq<byte>)
    ensures Groups(d, 0) == 0
  {
  }

  lemma OneGroup(d: seq<byte>, j: nat)
    requires j < |d|
    ensures Accumulate(Groups(d, j) % TWO64, d[j], 7 * j) == Groups(d, j + 1) % TWO64
  {
    hide Pow2;
    AddModulo(Groups(d, j), d[j] % 128 * Pow2(7 * j));
  }

  lemma AddModulo(a: nat, b: nat)
    ensures (a % TWO64 + b) % TWO64 == (a + b) % TWO64
  {
  }

  /** Up to ten bytes, the first one without the high bit being the last: the groups they hold, modulo 2^64. */
  lemma VarintIs(d: seq<byte>, k: nat)
    requires k < |d| && k < 10 && MoreUpTo(d, k) && d[k] < 128
    ensures Varint64(d) == Ok(Read(Groups(d, k + 1) % TWO64, k + 1))
  {
    hide Pow2, Groups, ReadVarint, Accumulate;
    ReadOn(d, k);
    DecodeNext(d, 0, k, 7 * k, Groups(d, k) % TWO64);
    OneGroup(d, k);
  }

  /** More than ten bytes are never read, and fewer are not enough if they all ask for more. */
  lemma VarintFails(d: seq<byte>)
    ensures |d| >= 10 && MoreUpTo(d, 10) ==> Varint64(d) == Err(IntOverflow)
    ensures |d| < 10 && MoreUpTo(d, |d|) ==> Varint64(d) == Err(UnexpectedEOF)
  {
    hide Pow2, Groups, ReadVarint;
    if |d| >= 10 && MoreUpTo(d, 10) {
      ReadOn(d, 10);
      DecodeNext(d, 0, 10, 70, Groups(d, 10) % TWO64);
    }
    if |d| < 10 && MoreUpTo(d, |d|) {
      ReadOn(d, |d|);
      DecodeNext(d, 0, |d|, 7 * |d|, Groups(d, |d|) % TWO64);
    }
  }

  // ---------- ill-formed records ----------

  ghost predicate Records(fields: seq<Field>) {
    (forall f :: f in fields ==> WellFormed(f) && WellTyped(f)) && |EncodeAll(fields)| < TWO63
  }

  lemma AnyTag(num: nat, wireType: nat, rest: seq<byte>)
    requires num < 0x2000_0000 && wireType < 8
    ensures Varint64(Tag(num, wireType) + rest) == Ok(Read(num * 8 + wireType, |Tag(num, wireType)|))
    ensures (num * 8 + wireType) % 8 == wireType && AsInt32((num * 8 + wireType) / 8) == num
    ensures 1 <= |Tag(num, wireType)| <= |Tag(num, wireType) + rest|
  {
    hide Varint64, Varint;
    if num > 0 {
      ReadTag(num, wireType, rest);
    } else {
      VarintRoundTrip(wireType, rest);
      SovIsLength(wireType);
    }
  }

  /** What the parser makes of a tag that starts a record. */
  lemma AtTag(fields: seq<Field>, num: nat, wireType: nat, rest: seq<byte>)
    requires Records(fields) && num < 0x2000_0000 && wireType < 8
    ensures var out := Parse(EncodeAll(fields) + (Tag(num, wireType) + rest));
            && (wireType == 4 ==> out == Err(EndGroup))
            && (wireType != 4 && num == 0 ==> out == Err(IllegalTag))
            && (wireType != 4 && wireType != 2 && (num == 1 || num == 2) ==> out == Err(WrongWireType))
            && ((wireType == 6 || wireType == 7) && num > 2 ==> out == Err(IllegalWireType))
  {
    hide Varint64, Tag, AsInt32, Records, EncodeAll;
    var d := Tag(num, wireType) + rest;
    AfterRecords(fields, d);
    AnyTag(num, wireType, rest);
    if (wireType == 6 || wireType == 7) && num > 2 {
      assert d[|Tag(num, wireType)|..] == rest;
      assert SkipBody(rest, |Tag(num, wireType)|, wireType, 0) == Err(IllegalWireType);
    }
  }

  lemma AfterRecords(fields: seq<Field>, rest: seq<byte>)
    requires Records(fields)
    ensures Parse(EncodeAll(fields) + rest) == ParseFrom(rest, |EncodeAll(fields)|, Applied(EMPTY, fields))
  {
    ParsesAll(fields, rest, 0, EMPTY);
  }

  /** After any well-formed records, the end of a group that was not opened is refused. */
  lemma RefusesEndGroup(fields: seq<Field>, num: nat, rest: seq<byte>)
    requires Records(fields) && num < 0x2000_0000
    ensures Parse(EncodeAll(fields) + (Tag(num, 4) + rest)) == Err(EndGroup)
  {
    AtTag(fields, num, 4, rest);
  }

  /** So is field number zero. */
  lemma RefusesFieldZero(fields: seq<Field>, wireType: nat, rest: seq<byte>)
    requires Records(fields) && wireType < 8 && wireType != 4
    ensures Parse(EncodeAll(fields) + (Tag(0, wireType) + rest)) == Err(IllegalTag)
  {
    AtTag(fields, 0, wireType, rest);
  }

  /** So is a known field of any other wire type than bytes. */
  lemma RefusesWrongType(fields: seq<Field>, num: nat, wireType: nat, rest: seq<byte>)
    requires Records(fields) && (num == 1 || num == 2) && wireType < 8 && wireType != 4 && wireType != 2
    ensures Parse(EncodeAll(fields) + (Tag(num, wireType) + rest)) == Err(WrongWireType)
  {
    AtTag(fields, num, wireType, rest);
  }

  /** So is an unknown field of a wire type that does not exist. */
  lemma RefusesUnknownType(fields: seq<Field>, num: nat, wireType: nat, rest: seq<byte>)
    requires Records(fields) && 2 < num < 0x2000_0000 && 6 <= wireType < 8
    ensures Parse(EncodeAll(fields) + (Tag(num, wireType) + rest)) == Err(IllegalWireType)
  {
    AtTag(fields, num, wireType, rest);
  }

  /** So is a length that is negative as a signed word, of a known field or of one to skip. */
  lemma RefusesNegativeLength(fields: seq<Field>, num: nat, length: nat, rest: seq<byte>)
    requires Records(fields) && 0 < num < 0x2000_0000 && TWO63 <= length < TWO64
    ensures Parse(EncodeAll(fields) + (Tag(num, 2) + (Varint(length) + rest))) == Err(InvalidLength)
  {
    hide Varint64, Tag, AsInt32, Records, EncodeAll, Varint;
    var body := Varint(length) + rest;
    var d := Tag(num, 2) + body;
    AfterRecords(fields, d);
    AnyTag(num, 2, body);
    VarintRoundTrip(length, rest);
    assert d[|Tag(num, 2)|..] == body;
    if num > 2 {
      assert SkipBody(body, |Tag(num, 2)|, 2, 0) == Err(InvalidLength);
    }
  }

  // ---------- truncated records ----------

  lemma {:induction false} VarintShape(v: nat)
    ensures |Varint(v)| >= 1 && forall i :: 0 <= i < |Varint(v)| - 1 ==> Varint(v)[i] >= 128
  {
    if v >= 128 {
      VarintShape(v / 128);
    }
  }

  lemma ReadCut(v: nat, cut: nat)
    requires v < TWO64 && cut < |Varint(v)|
    ensures Varint64(Varint(v)[..cut]) == Err(UnexpectedEOF)
  {
    hide Varint, Varint64;
    var d := Varint(v)[..cut];
    VarintShape(v);
    VarintRoundTrip(v, []);
    assert Varint(v) + [] == Varint(v);
    if |Varint(v)| > 10 {
      VarintFails(Varint(v));
    }
    VarintFails(d);
  }

  lemma CutAppend(a: seq<byte>, b: seq<byte>, cut: nat)
    requires cut <= |a| + |b|
    ensures (a + b)[..cut] == if cut <= |a| then a[..cut] else a + b[..cut - |a|]
  {
  }

  lemma SkipCutTag(num: nat, wireType: nat, cut: nat, at: nat, depth: nat)
    requires num < 0x2000_0000 && wireType < 8 && cut < |Tag(num, wireType)|
    ensures SkipFrom(Tag(num, wireType)[..cut], at, depth) == Err(UnexpectedEOF)
  {
    hide Varint64;
    ReadCut(num * 8 + wireType, cut);
  }

  lemma SkipCutBody(f: Field, cut: nat, pos: nat, depth: nat)
    requires WellFormed(f) && !f.GroupField? && cut < |Body(f)|
    ensures var r := SkipBody(Body(f)[..cut], pos, WireType(f), depth);
            r == Err(UnexpectedEOF) || r == Ok(Skipped(pos + |Body(f)|, depth))
  {
    hide Varint, Varint64;
    match f {
      case VarintField(_, value) => ReadCut(value, cut);
      case BytesField(_, payload) =>
        var size := Varint(|payload|);
        CutAppend(size, payload, cut);
        if cut < |size| {
          ReadCut(|payload|, cut);
        } else {
          VarintRoundTrip(|payload|, payload[..cut - |size|]);
          assert Body(f)[..cut] == size + payload[..cut - |size|];
        }
      case _ =>
    }
  }

  /** Skipping what is left of a record either fails, or leads exactly to where the whole record would have ended. */
  lemma SkipCutPlain(f: Field, cut: nat, at: nat, depth: nat)
    requires WellFormed(f) && !f.GroupField? && cut < |Encode(f)| && at + |Encode(f)| < TWO63
    ensures var r := SkipFrom(Encode(f)[..cut], at, depth);
            r == Err(UnexpectedEOF) || (depth == 0 && r == Ok(at + |Encode(f)|))
  {
    hide Varint64, Tag, Body, SkipBody;
    var tag := Tag(f.num, WireType(f));
    CutAppend(tag, Body(f), cut);
    if cut < |tag| {
      SkipCutTag(f.num, WireType(f), cut, at, depth);
    } else {
      var d, left := Encode(f)[..cut], Body(f)[..cut - |tag|];
      assert d == tag + left;
      ReadTag(f.num, WireType(f), left);
      assert d[|tag|..] == left;
      SkipCutBody(f, cut - |tag|, at + |tag|, depth);
    }
  }

  lemma {:induction false} SkipCut(f: Field, cut: nat, at: nat, depth: nat)
    requires WellFormed(f) && cut < |Encode(f)| && at + |Encode(f)| < TWO63
    ensures var r := SkipFrom(Encode(f)[..cut], at, depth);
            r == Err(UnexpectedEOF) || (depth == 0 && r == Ok(at + |Encode(f)|))
    decreases f, 1
  {
    hide SkipFrom, Encode;
    if f.GroupField? {
      SkipCutGroup(f, cut, at, depth);
    } else {
      SkipCutPlain(f, cut, at, depth);
    }
  }

  lemma {:induction false} SkipCutGroup(f: Field, cut: nat, at: nat, depth: nat)
    requires WellFormed(f) && f.GroupField? && cut < |Encode(f)| && at + |Encode(f)| < TWO63
    ensures SkipFrom(Encode(f)[..cut], at, depth) == Err(UnexpectedEOF)
    decreases f, 0
  {
    hide SkipFrom, Tag, EncodeAll;
    var open, close, inner := Tag(f.num, 3), Tag(f.num, 4), EncodeAll(f.fields);
    CutAppend(open, inner + close, cut);
    if cut < |open| {
      SkipCutTag(f.num, 3, cut, at, depth);
    } else {
      var left := (inner + close)[..cut - |open|];
      assert Encode(f)[..cut] == open + [] + left;
      SkipTagged(f.num, 3, [], left, at, depth, depth + 1);
      CutAppend(inner, close, cut - |open|);
      if cut - |open| < |inner| {
        SkipCutAll(f.fields, cut - |open|, at + |open|, depth + 1, f);
      } else {
        var rest := close[..cut - |open| - |inner|];
        assert left == inner + rest;
        SkipsAll(f.fields, rest, at + |open|, depth + 1, f);
        SkipCutTag(f.num, 4, cut - |open| - |inner|, at + |open| + |inner|, depth + 1);
      }
    }
  }

  lemma {:induction false} SkipCutAll(fields: seq<Field>, cut: nat, at: nat, depth: nat, group: Field)
    requires group.GroupField? && (forall g :: g in fields ==> g in group.fields && WellFormed(g))
    requires depth > 0 && cut < |EncodeAll(fields)| && at + |EncodeAll(fields)| < TWO63
    ensures SkipFrom(EncodeAll(fields)[..cut], at, depth) == Err(UnexpectedEOF)
    decreases group, 0, |fields|
  {
    hide SkipFrom, Encode;
    var first, others := Encode(fields[0]), EncodeAll(fields[1..]);
    assert fields[0] in group.fields;
    CutAppend(first, others, cut);
    if cut < |first| {
      SkipCut(fields[0], cut, at, depth);
    } else {
      var rest := others[..cut - |first|];
      assert EncodeAll(fields)[..cut] == first + rest;
      SkipsField(fields[0], rest, at, depth);
      SkipCutAll(fields[1..], cut - |first|, at + |first|, depth, group);
    }
  }

  lemma KnownCut(num: nat, payload: seq<byte>, cut: nat, at: nat, m: Request)
    requires num == 1 || num == 2
    requires 0 < cut < |Encode(BytesField(num, payload))| && at + |Encode(BytesField(num, payload))| < TWO63
    ensures ParseFrom(Encode(BytesField(num, payload))[..cut], at, m) == Err(UnexpectedEOF)
  {
    hide Varint64, Varint, AsInt32, Tag;
    var tag, size := Tag(num, 2), Varint(|payload|);
    var d := Encode(BytesField(num, payload))[..cut];
    CutAppend(tag, size + payload, cut);
    if cut < |tag| {
      TagCut(num, 2, cut);
    } else {
      var left := (size + payload)[..cut - |tag|];
      assert d == tag + left;
      AnyTag(num, 2, left);
      assert d[|tag|..] == left;
      CutAppend(size, payload, cut - |tag|);
      if cut - |tag| < |size| {
        ReadCut(|payload|, cut - |tag|);
      } else {
        VarintRoundTrip(|payload|, payload[..cut - |tag| - |size|]);
        assert left == size + payload[..cut - |tag| - |size|];
      }
    }
  }

  lemma TagCut(num: nat, wireType: nat, cut: nat)
    requires num < 0x2000_0000 && wireType < 8 && cut < |Tag(num, wireType)|
    ensures Varint64(Tag(num, wireType)[..cut]) == Err(UnexpectedEOF)
  {
    ReadCut(num * 8 + wireType, cut);
  }

  lemma UnknownCut(f: Field, cut: nat, at: nat, m: Request)
    requires WellFormed(f) && f.num > 2 && 0 < cut < |Encode(f)| && at + |Encode(f)| < TWO63
    ensures ParseFrom(Encode(f)[..cut], at, m) == Err(UnexpectedEOF)
  {
    hide Varint64, Varint, AsInt32, Tag, SkipFrom, Body;
    var tag := Tag(f.num, WireType(f));
    var d := Encode(f)[..cut];
    CutAppend(tag, Body(f), cut);
    if cut < |tag| {
      TagCut(f.num, WireType(f), cut);
    } else {
      var left := Body(f)[..cut - |tag|];
      assert d == tag + left;
      AnyTag(f.num, WireType(f), left);
      SkipCut(f, cut, 0, 0);
    }
  }

  /** Data that ends inside a record, at whatever byte and however deep, is refused as too short. */
  lemma RefusesTruncated(fields: seq<Field>, f: Field, cut: nat)
    requires Records(fields) && WellFormed(f) && WellTyped(f) && |EncodeAll(fields)| + |Encode(f)| < TWO63
    requires 0 < cut < |Encode(f)|
    ensures Parse(EncodeAll(fields) + Encode(f)[..cut]) == Err(UnexpectedEOF)
  {
    hide Encode, EncodeAll, Records, ParseFrom, Parse;
    AfterRecords(fields, Encode(f)[..cut]);
    if f.num <= 2 {
      KnownCut(f.num, f.payload, cut, |EncodeAll(fields)|, Applied(EMPTY, fields));
    } else {
      UnknownCut(f, cut, |EncodeAll(fields)|, Applied(EMPTY, fields));
    }
  }
}
