/**
 * Parsing of QuerySwapRequest (x/market/types/query.pb.go): the parser reads back every well-formed
 * sequence of records, taking the last value of each known field and skipping all others.
 */
module SwapQuery {
  import opened Outcome
  import opened Words
  import opened Wire

  datatype Request = Request(offerCoin: seq<byte>, askDenom: seq<byte>)

  // ---------- what the parser does with any bytes ----------

  /** Position and group depth after one field of a skipped record. */
  datatype Skipped = Skipped(next: nat, depth: nat)

  function SkipBody(rest: seq<byte>, pos: nat, wireType: int, depth: nat): (r: Parsed<Skipped>)
    ensures r.Ok? ==> r.value.next >= pos
  {
    if wireType == 0 then
      match Varint64(rest)
      case Err(error) => Err(error)
      case Ok(read) => Ok(Skipped(pos + read.size, depth))
    else if wireType == 1 then Ok(Skipped(pos + 8, depth))
    else if wireType == 2 then
      match Varint64(rest)
      case Err(error) => Err(error)
      case Ok(read) =>
        if AsInt64(read.value) < 0 then Err(InvalidLength)
        else Ok(Skipped(pos + read.size + AsInt64(read.value), depth))
    else if wireType == 3 then Ok(Skipped(pos, depth + 1))
    else if wireType == 4 then if depth == 0 then Err(UnexpectedEndOfGroup) else Ok(Skipped(pos, depth - 1))
    else if wireType == 5 then Ok(Skipped(pos + 4, depth))
    else Err(IllegalWireType)
  }

  /** Skips one record: `d` is what remains from index `at`, inside `depth` open groups. */
  function SkipFrom(d: seq<byte>, at: nat, depth: nat): (r: Parsed<nat>)
    ensures r.Ok? ==> r.value > at
    decreases |d|
  {
    if d == [] then Err(UnexpectedEOF)
    else
      match Varint64(d)
      case Err(error) => Err(error)
      case Ok(tag) =>
        match SkipBody(d[tag.size..], at + tag.size, tag.value % 8, depth)
        case Err(error) => Err(error)
        case Ok(body) =>
          if body.next >= TWO63 then Err(InvalidLength)
          else if body.depth == 0 then Ok(body.next)
          else if body.next - at > |d| then Err(UnexpectedEOF)
          else SkipFrom(d[body.next - at..], body.next, body.depth)
  }

  function Assign(m: Request, num: int, value: seq<byte>): Request {
    if num == 1 then m.(offerCoin := value) else if num == 2 then m.(askDenom := value) else m
  }

  function ParseFrom(d: seq<byte>, at: nat, m: Request): Parsed<Request>
    decreases |d|, 1
  {
    if d == [] then Ok(m)
    else
      match Varint64(d)
      case Err(error) => Err(error)
      case Ok(tag) =>
        var num := AsInt32(tag.value / 8);
        if tag.value % 8 == 4 then Err(EndGroup)
        else if num <= 0 then Err(IllegalTag)
        else if num == 1 || num == 2 then
          if tag.value % 8 != 2 then Err(WrongWireType) else ParseKnown(d, at, m, num, tag.size)
        else ParseUnknown(d, at, m)
  }

  function ParseKnown(d: seq<byte>, at: nat, m: Request, num: int, tagSize: nat): Parsed<Request>
    requires 1 <= tagSize <= |d|
    decreases |d|, 0
  {
    match Varint64(d[tagSize..])
    case Err(error) => Err(error)
    case Ok(read) =>
      var length, start := AsInt64(read.value), tagSize + read.size;
      if length < 0 || at + start + length >= TWO63 then Err(InvalidLength)
      else if start + length > |d| then Err(UnexpectedEOF)
      else ParseFrom(d[start + length..], at + start + length, Assign(m, num, d[start..start + length]))
  }

  function ParseUnknown(d: seq<byte>, at: nat, m: Request): Parsed<Request>
    decreases |d|, 0
  {
    match SkipFrom(d, 0, 0)
    case Err(error) => Err(error)
    case Ok(n) =>
      if at + n >= TWO63 then Err(InvalidLength)
      else if n > |d| then Err(UnexpectedEOF)
      else ParseFrom(d[n..], at + n, m)
  }

  // ---------- well-formed records ----------

  datatype Field =
    | VarintField(num: nat, value: nat)
    | Fixed64Field(num: nat, payload: seq<byte>)
    | BytesField(num: nat, payload: seq<byte>)
    | GroupField(num: nat, fields: seq<Field>)
    | Fixed32Field(num: nat, payload: seq<byte>)

  predicate WellFormed(f: Field) {
    && 0 < f.num < 0x2000_0000
    && match f
       case VarintField(_, value) => value < TWO64
       case Fixed64Field(_, payload) => |payload| == 8
       case BytesField(_, payload) => |payload| < TWO63
       case GroupField(_, fields) => forall g :: g in fields ==> WellFormed(g)
       case Fixed32Field(_, payload) => |payload| == 4
  }

  /** The two known fields are strings. */
  predicate WellTyped(f: Field) {
    f.num == 1 || f.num == 2 ==> f.BytesField?
  }

  function WireType(f: Field): nat {
    match f
    case VarintField(_, _) => 0
    case Fixed64Field(_, _) => 1
    case BytesField(_, _) => 2
    case GroupField(_, _) => 3
    case Fixed32Field(_, _) => 5
  }

  function Tag(num: nat, wireType: nat): seq<byte> {
    Varint(num * 8 + wireType)
  }

  function Body(f: Field): seq<byte>
    decreases f, 0
  {
    match f
    case VarintField(_, value) => Varint(value)
    case Fixed64Field(_, payload) => payload
    case BytesField(_, payload) => Varint(|payload|) + payload
    case GroupField(num, fields) => EncodeAll(fields) + Tag(num, 4)
    case Fixed32Field(_, payload) => payload
  }

  function Encode(f: Field): seq<byte>
    decreases f, 1
  {
    Tag(f.num, WireType(f)) + Body(f)
  }

  function EncodeAll(fields: seq<Field>): seq<byte>
    decreases fields, 0
  {
    if fields == [] then [] else Encode(fields[0]) + EncodeAll(fields[1..])
  }

  /** The last value of each known field wins. */
  function Applied(m: Request, fields: seq<Field>): Request
    decreases |fields|
  {
    if fields == [] then m
    else Applied(if fields[0].BytesField? then Assign(m, fields[0].num, fields[0].payload) else m, fields[1..])
  }

  // ---------- skipping ----------

  lemma TagParts(num: nat, wireType: nat)
    requires 0 < num < 0x2000_0000 && wireType < 8
    ensures (num * 8 + wireType) % 8 == wireType && (num * 8 + wireType) / 8 == num && AsInt32(num) == num
  {
  }

  lemma ReadTag(num: nat, wireType: nat, rest: seq<byte>)
    requires 0 < num < 0x2000_0000 && wireType < 8
    ensures Varint64(Tag(num, wireType) + rest) == Ok(Read(num * 8 + wireType, |Tag(num, wireType)|))
    ensures (num * 8 + wireType) % 8 == wireType && AsInt32((num * 8 + wireType) / 8) == num
    ensures |Tag(num, wireType)| >= 1
  {
    hide Varint, Varint64, Sov;
    TagParts(num, wireType);
    VarintRoundTrip(num * 8 + wireType, rest);
    SovIsLength(num * 8 + wireType);
  }

  /** Where skipping goes on once a field has been passed. */
  function Continue(rest: seq<byte>, at: nat, depth: nat): Parsed<nat> {
    if depth == 0 then Ok(at) else SkipFrom(rest, at, depth)
  }

  /** A tag followed by a body that ends inside the data leads on to what follows the body. */
  lemma SkipTagged(num: nat, wireType: nat, body: seq<byte>, rest: seq<byte>, at: nat, depth: nat, depth': nat)
    requires 0 < num < 0x2000_0000 && wireType < 8
    requires at + |Tag(num, wireType)| + |body| < TWO63
    requires SkipBody(body + rest, at + |Tag(num, wireType)|, wireType, depth) ==
             Ok(Skipped(at + |Tag(num, wireType)| + |body|, depth'))
    ensures SkipFrom(Tag(num, wireType) + body + rest, at, depth) ==
            Continue(rest, at + |Tag(num, wireType)| + |body|, depth')
  {
    hide Varint64, SkipBody, AsInt32, Tag;
    var tag := Tag(num, wireType);
    var d := tag + body + rest;
    assert d == tag + (body + rest);
    ReadTag(num, wireType, body + rest);
    assert d[|tag|..] == body + rest;
    assert d[|tag| + |body|..] == rest;
  }

  /** The body of a record that is not a group is passed over exactly. */
  lemma SkipsBody(f: Field, rest: seq<byte>, pos: nat, depth: nat)
    requires WellFormed(f) && !f.GroupField? && pos + |Body(f)| < TWO63
    ensures SkipBody(Body(f) + rest, pos, WireType(f), depth) == Ok(Skipped(pos + |Body(f)|, depth))
  {
    hide Varint, Varint64;
    match f {
      case VarintField(_, value) => VarintRoundTrip(value, rest);
      case BytesField(_, payload) =>
        VarintRoundTrip(|payload|, payload + rest);
        assert Body(f) + rest == Varint(|payload|) + (payload + rest);
      case _ =>
    }
  }

  lemma SkipsPlain(f: Field, rest: seq<byte>, at: nat, depth: nat)
    requires WellFormed(f) && !f.GroupField? && at + |Encode(f)| < TWO63
    ensures SkipFrom(Encode(f) + rest, at, depth) == Continue(rest, at + |Encode(f)|, depth)
  {
    hide SkipFrom, Tag, SkipBody, Body;
    SkipsBody(f, rest, at + |Tag(f.num, WireType(f))|, depth);
    SkipTagged(f.num, WireType(f), Body(f), rest, at, depth, depth);
  }

  lemma {:induction false} SkipsField(f: Field, rest: seq<byte>, at: nat, depth: nat)
    requires WellFormed(f) && at + |Encode(f)| < TWO63
    ensures SkipFrom(Encode(f) + rest, at, depth) == Continue(rest, at + |Encode(f)|, depth)
    decreases f, 1
  {
    hide SkipFrom, Tag;
    if f.GroupField? {
      SkipsGroup(f, rest, at, depth);
    } else {
      SkipsPlain(f, rest, at, depth);
    }
  }

  lemma {:induction false} SkipsGroup(f: Field, rest: seq<byte>, at: nat, depth: nat)
    requires WellFormed(f) && f.GroupField? && at + |Encode(f)| < TWO63
    ensures SkipFrom(Encode(f) + rest, at, depth) == Continue(rest, at + |Encode(f)|, depth)
    decreases f, 0
  {
    hide SkipFrom, Tag, EncodeAll;
    var open, close, inner := Tag(f.num, 3), Tag(f.num, 4), EncodeAll(f.fields);
    var afterOpen, afterInner := at + |open|, at + |open| + |inner|;
    assert Encode(f) + rest == open + [] + (inner + (close + rest));
    SkipTagged(f.num, 3, [], inner + (close + rest), at, depth, depth + 1);
    SkipsAll(f.fields, close + rest, afterOpen, depth + 1, f);
    assert close + rest == close + [] + rest;
    SkipTagged(f.num, 4, [], rest, afterInner, depth + 1, depth);
  }

  lemma {:induction false} SkipsAll(fields: seq<Field>, rest: seq<byte>, at: nat, depth: nat, group: Field)
    requires group.GroupField? && (forall g :: g in fields ==> g in group.fields && WellFormed(g))
    requires depth > 0 && at + |EncodeAll(fields)| < TWO63
    ensures SkipFrom(EncodeAll(fields) + rest, at, depth) == SkipFrom(rest, at + |EncodeAll(fields)|, depth)
    decreases group, 0, |fields|
  {
    hide SkipFrom, Encode;
    if fields == [] {
      assert EncodeAll(fields) + rest == rest;
    } else {
      var first, others := Encode(fields[0]), EncodeAll(fields[1..]);
      assert EncodeAll(fields) + rest == first + (others + rest);
      assert fields[0] in group.fields;
      SkipsField(fields[0], others + rest, at, depth);
      SkipsAll(fields[1..], rest, at + |first|, depth, group);
    }
  }

  // ---------- parsing ----------

  lemma ParsesKnown(num: nat, payload: seq<byte>, rest: seq<byte>, at: nat, m: Request)
    requires (num == 1 || num == 2) && at + |Encode(BytesField(num, payload))| < TWO63
    ensures ParseFrom(Encode(BytesField(num, payload)) + rest, at, m) ==
            ParseFrom(rest, at + |Encode(BytesField(num, payload))|, Assign(m, num, payload))
  {
    hide Varint64, Tag, AsInt32, Varint;
    var tag, size := Tag(num, 2), Varint(|payload|);
    var d := Encode(BytesField(num, payload)) + rest;
    assert d == tag + (size + payload + rest);
    ReadTag(num, 2, size + payload + rest);
    assert d[|tag|..] == size + (payload + rest);
    VarintRoundTrip(|payload|, payload + rest);
    var start := |tag| + |size|;
    assert d[start..start + |payload|] == payload;
    assert d[start + |payload|..] == rest;
  }

  lemma ParsesUnknown(f: Field, rest: seq<byte>, at: nat, m: Request)
    requires WellFormed(f) && f.num != 1 && f.num != 2 && at + |Encode(f)| < TWO63
    ensures ParseFrom(Encode(f) + rest, at, m) == ParseFrom(rest, at + |Encode(f)|, m)
  {
    hide Varint64, Tag, AsInt32, Body, SkipFrom;
    var tag := Tag(f.num, WireType(f));
    var d := Encode(f) + rest;
    assert d == tag + (Body(f) + rest);
    ReadTag(f.num, WireType(f), Body(f) + rest);
    SkipsField(f, rest, 0, 0);
    assert d[|Encode(f)|..] == rest;
  }

  lemma {:induction false} ParsesAll(fields: seq<Field>, rest: seq<byte>, at: nat, m: Request)
    requires forall f :: f in fields ==> WellFormed(f) && WellTyped(f)
    requires at + |EncodeAll(fields)| < TWO63
    ensures ParseFrom(EncodeAll(fields) + rest, at, m) == ParseFrom(rest, at + |EncodeAll(fields)|, Applied(m, fields))
  {
    hide ParseFrom, Encode;
    if fields == [] {
      assert EncodeAll(fields) + rest == rest;
    } else {
      var f, others := fields[0], EncodeAll(fields[1..]);
      assert EncodeAll(fields) + rest == Encode(f) + (others + rest);
      if f.num == 1 || f.num == 2 {
        ParsesKnown(f.num, f.payload, others + rest, at, m);
      } else {
        ParsesUnknown(f, others + rest, at, m);
      }
      ParsesAll(fields[1..], rest, at + |Encode(f)|, if f.BytesField? then Assign(m, f.num, f.payload) else m);
    }
  }

  const EMPTY: Request := Request([], [])

  function Parse(d: seq<byte>): Parsed<Request> {
    ParseFrom(d, 0, EMPTY)
  }

  /** The parser accepts every well-formed sequence of records; the last value of a field counts. */
  lemma ParsesRecords(fields: seq<Field>)
    requires forall f :: f in fields ==> WellFormed(f) && WellTyped(f)
    requires |EncodeAll(fields)| < TWO63
    ensures Parse(EncodeAll(fields)) == Ok(Applied(EMPTY, fields))
  {
    ParsesAll(fields, [], 0, EMPTY);
    assert EncodeAll(fields) + [] == EncodeAll(fields);
  }

  // ---------- messages ----------

  function StringRecord(num: nat, value: seq<byte>): seq<Field> {
    if value == [] then [] else [BytesField(num, value)]
  }

  /** The records a message is written as: empty strings are left out. */
  function Records(m: Request): seq<Field> {
    StringRecord(1, m.offerCoin) + StringRecord(2, m.askDenom)
  }

  function Marshalled(m: Request): seq<byte> {
    EncodeAll(Records(m))
  }

  lemma {:induction false} EncodeAppend(a: seq<Field>, b: seq<Field>)
    ensures EncodeAll(a + b) == EncodeAll(a) + EncodeAll(b)
  {
    if a == [] {
      assert a + b == b;
    } else {
      assert (a + b)[1..] == a[1..] + b;
      EncodeAppend(a[1..], b);
    }
  }

  lemma {:induction false} AppliedAppend(m: Request, a: seq<Field>, b: seq<Field>)
    ensures Applied(m, a + b) == Applied(Applied(m, a), b)
    decreases |a|
  {
    if a == [] {
      assert a + b == b;
    } else {
      assert (a + b)[1..] == a[1..] + b;
      AppliedAppend(if a[0].BytesField? then Assign(m, a[0].num, a[0].payload) else m, a[1..], b);
    }
  }

  lemma AppliedRecords(m: Request)
    ensures Applied(EMPTY, Records(m)) == m
  {
    AppliedAppend(EMPTY, StringRecord(1, m.offerCoin), StringRecord(2, m.askDenom));
  }

  lemma {:induction false} AppliedUnknown(m: Request, extra: seq<Field>)
    requires forall f :: f in extra ==> f.num != 1 && f.num != 2
    ensures Applied(m, extra) == m
  {
    if extra != [] {
      AppliedUnknown(m, extra[1..]);
    }
  }

  /**
   * Unmarshalling the bytes of a message, with any well-formed unknown fields appended, returns the
   * message.
   */
  lemma RoundTrip(m: Request, extra: seq<Field>)
    requires forall f :: f in extra ==> WellFormed(f) && f.num != 1 && f.num != 2
    requires |Marshalled(m)| + |EncodeAll(extra)| < TWO63
    ensures Parse(Marshalled(m) + EncodeAll(extra)) == Ok(m)
  {
    hide Encode, Parse;
    PayloadsFit(m);
    EncodeAppend(Records(m), extra);
    ParsesRecords(Records(m) + extra);
    AppliedAppend(EMPTY, Records(m), extra);
    AppliedRecords(m);
    AppliedUnknown(m, extra);
  }

  lemma PayloadsFit(m: Request)
    requires |Marshalled(m)| < TWO63
    ensures |m.offerCoin| < TWO63 && |m.askDenom| < TWO63
  {
    MarshalledIs(m);
  }

  function StringBytes(tag: byte, value: seq<byte>): seq<byte> {
    if value == [] then [] else [tag] + Varint(|value|) + value
  }

  lemma MarshalledIs(m: Request)
    ensures Marshalled(m) == StringBytes(0xa, m.offerCoin) + StringBytes(0x12, m.askDenom)
  {
    EncodeAppend(StringRecord(1, m.offerCoin), StringRecord(2, m.askDenom));
    OneRecord(1, m.offerCoin);
    OneRecord(2, m.askDenom);
  }

  lemma OneRecord(num: nat, value: seq<byte>)
    requires num == 1 || num == 2
    ensures EncodeAll(StringRecord(num, value)) == StringBytes(num * 8 + 2, value)
  {
    if value != [] {
      var f := BytesField(num, value);
      assert EncodeAll([f]) == Encode(f) + EncodeAll([f][1..]);
      assert Tag(num, 2) == [num * 8 + 2];
    }
  }
}
