/**
 * The generated code of QuerySwapRequest itself (x/market/types/query.pb.go): the marshaller fills a
 * buffer from its end, the unmarshaller and the skipper advance an index through the bytes.
 */
module SwapQueryCodec {
  import opened Outcome
  import opened Words
  import opened Wire
  import opened SwapQuery

  // ---------- marshalling ----------

  /** `s` with the stretch from `i` to `end` replaced by `part`. */
  function Splice(s: seq<byte>, i: nat, part: seq<byte>, end: nat): seq<byte>
    requires i <= end <= |s|
  {
    s[..i] + part + s[end..]
  }

  /** Filling backwards: a stretch written just before another one joins it. */
  lemma SpliceBefore(s: seq<byte>, i: nat, a: seq<byte>, j: nat, b: seq<byte>, end: nat)
    requires i <= j <= end <= |s| && |a| == j - i && |b| == end - j
    ensures Splice(Splice(s, j, b, end), i, a, j) == Splice(s, i, a + b, end)
  {
    var t := Splice(s, j, b, end);
    assert t[..i] == s[..i];
    assert t[j..] == b + s[end..];
  }

  lemma SpliceAfter(s: seq<byte>, base: nat, done: seq<byte>, i: nat, b: byte)
    requires base <= i < |s| && |done| == i - base
    ensures |Splice(s, base, done, i)| == |s|
    ensures Splice(Splice(s, base, done, i), i, [b], i + 1) == Splice(s, base, done + [b], i + 1)
  {
    var t := Splice(s, base, done, i);
    assert t[..i] == s[..base] + done;
    assert t[i + 1..] == s[i + 1..];
  }

  lemma SpliceNothing(s: seq<byte>, i: nat)
    requires i <= |s|
    ensures Splice(s, i, [], i) == s
  {
  }

  lemma VarintStep(done: seq<byte>, w: nat)
    ensures w >= 128 ==> done + Varint(w) == (done + [w % 128 + 128]) + Varint(w / 128)
    ensures w < 128 ==> Varint(w) == [w]
    ensures |Varint(w)| >= 1
  {
  }

  method PutByte(buf: array<byte>, i: nat, b: byte)
    requires i < buf.Length
    modifies buf
    ensures buf[..] == Splice(old(buf[..]), i, [b], i + 1)
  {
    buf[i] := b;
  }

  /** Writes a varint so that it ends at `offset`; returns where it starts. */
  method EncodeVarint(buf: array<byte>, offset: nat, v: nat) returns (base: nat)
    requires |Varint(v)| <= offset <= buf.Length
    modifies buf
    ensures base == offset - |Varint(v)|
    ensures buf[..] == Splice(old(buf[..]), base, Varint(v), offset)
  {
    hide Varint, Splice, Sov;
    SovIsLength(v);
    base := offset - Sov(v);
    var i, w := base, v;
    ghost var was, done: seq<byte> := buf[..], [];
    SpliceNothing(was, base);
    assert done + Varint(w) == Varint(v);
    while w >= 128
      invariant base <= i && |done| == i - base && i + |Varint(w)| == offset
      invariant done + Varint(w) == Varint(v)
      invariant buf[..] == Splice(was, base, done, i)
    {
      VarintStep(done, w);
      VarintStep(done, w / 128);
      SpliceAfter(was, base, done, i, w % 128 + 128);
      PutByte(buf, i, w % 128 + 128);
      done := done + [w % 128 + 128];
      w := w / 128;
      i := i + 1;
    }
    VarintStep(done, w);
    SpliceAfter(was, base, done, i, w);
    PutByte(buf, i, w);
  }

  method CopyInto(buf: array<byte>, start: nat, src: seq<byte>)
    requires start + |src| <= buf.Length
    modifies buf
    ensures buf[..] == Splice(old(buf[..]), start, src, start + |src|)
  {
    ghost var was := buf[..];
    for k := 0 to |src|
      invariant buf[..] == was[..start] + src[..k] + was[start + k..]
    {
      buf[start + k] := src[k];
    }
    assert src[..|src|] == src;
  }

  /** Writes tag, length and value of a string field so that it ends at `end`. */
  method PutRecord(buf: array<byte>, end: nat, tag: byte, value: seq<byte>) returns (i: nat)
    requires 1 + |Varint(|value|)| + |value| <= end <= buf.Length
    modifies buf
    ensures i == end - (1 + |Varint(|value|)| + |value|)
    ensures buf[..] == Splice(old(buf[..]), i, [tag] + (Varint(|value|) + value), end)
  {
    hide Varint, Splice;
    ghost var was := buf[..];
    var copied := end - |value|;
    CopyInto(buf, copied, value);
    var sized := EncodeVarint(buf, copied, |value|);
    SpliceBefore(was, sized, Varint(|value|), copied, value, end);
    i := sized - 1;
    PutByte(buf, i, tag);
    SpliceBefore(was, i, [tag], sized, Varint(|value|) + value, end);
  }

  /** An empty string is left out. */
  method PutString(buf: array<byte>, end: nat, tag: byte, value: seq<byte>) returns (i: nat)
    requires |StringBytes(tag, value)| <= end <= buf.Length
    modifies buf
    ensures i == end - |StringBytes(tag, value)|
    ensures buf[..] == Splice(old(buf[..]), i, StringBytes(tag, value), end)
  {
    hide Varint, Splice;
    if |value| > 0 {
      i := PutRecord(buf, end, tag, value);
      assert [tag] + (Varint(|value|) + value) == [tag] + Varint(|value|) + value;
    } else {
      i := end;
      SpliceNothing(buf[..], end);
    }
  }

  method MarshalToSizedBuffer(m: Request, buf: array<byte>) returns (n: nat)
    requires |Marshalled(m)| <= buf.Length
    modifies buf
    ensures n == |Marshalled(m)|
    ensures buf[..] == old(buf[..])[..buf.Length - n] + Marshalled(m)
  {
    MarshalledIs(m);
    ghost var was := buf[..];
    ghost var asked, offered := StringBytes(0x12, m.askDenom), StringBytes(0xa, m.offerCoin);
    var i := PutString(buf, buf.Length, 0x12, m.askDenom);
    i := PutString(buf, i, 0xa, m.offerCoin);
    SpliceBefore(was, i, offered, i + |offered|, asked, buf.Length);
    n := buf.Length - i;
  }

  /** The size computed beforehand is the number of bytes written. */
  method Size(m: Request) returns (n: nat)
    ensures n == |Marshalled(m)|
  {
    MarshalledIs(m);
    n := 0;
    var l := |m.offerCoin|;
    SovIsLength(l);
    if l > 0 {
      n := n + 1 + l + Sov(l);
    }
    l := |m.askDenom|;
    SovIsLength(l);
    if l > 0 {
      n := n + 1 + l + Sov(l);
    }
  }

  method Marshal(m: Request) returns (bytes: seq<byte>)
    ensures bytes == Marshalled(m)
  {
    var size := Size(m);
    var buf := new byte[size];
    var n := MarshalToSizedBuffer(m, buf);
    bytes := buf[..n];
  }

  // ---------- unmarshalling ----------

  function Bump(r: Parsed<Read>, n: nat): Parsed<Read> {
    match r
    case Err(error) => Err(error)
    case Ok(read) => Ok(Read(read.value, read.size + n))
  }

  /** Adding one byte to a varint under way. */
  function Accumulate(value: nat, b: byte, shift: nat): nat {
    (value + (b % 128) * Pow2(shift)) % TWO64
  }

  lemma DecodeNext(data: seq<byte>, start: nat, index: nat, shift: nat, value: nat)
    requires start <= index <= |data|
    ensures shift >= 64 ==> Bump(ReadVarint(data[index..], shift, value), index - start) == Err(IntOverflow)
    ensures shift < 64 && index == |data| ==>
              Bump(ReadVarint(data[index..], shift, value), index - start) == Err(UnexpectedEOF)
    ensures shift < 64 && index < |data| ==>
              var value' := Accumulate(value, data[index], shift);
              Bump(ReadVarint(data[index..], shift, value), index - start) ==
              if data[index] < 128 then Ok(Read(value', index + 1 - start))
              else Bump(ReadVarint(data[index + 1..], shift + 7, value'), index + 1 - start)
  {
    hide Pow2;
    if index < |data| {
      assert data[index..][1..] == data[index + 1..];
    }
  }

  method DecodeVarint(data: seq<byte>, start: nat) returns (r: Parsed<Read>)
    requires start <= |data|
    ensures r == Varint64(data[start..])
  {
    hide ReadVarint, Accumulate;
    var index, shift, value := start, 0, 0;
    while true
      invariant start <= index <= |data| && 0 <= shift <= 70 && value >= 0
      invariant Bump(ReadVarint(data[index..], shift, value), index - start) == Varint64(data[start..])
      decreases 70 - shift
    {
      DecodeNext(data, start, index, shift, value);
      if shift >= 64 {
        return Err(IntOverflow);
      }
      if index >= |data| {
        return Err(UnexpectedEOF);
      }
      var b := data[index];
      index := index + 1;
      value := Accumulate(value, b, shift);
      if b < 128 {
        return Ok(Read(value, index - start));
      }
      shift := shift + 7;
    }
  }

  /** One pass of the switch over wire types. */
  method SkipOne(data: seq<byte>, start: nat, wireType: int, depth: nat) returns (r: Parsed<Skipped>)
    requires start <= |data|
    ensures r == SkipBody(data[start..], start, wireType, depth)
  {
    hide Varint64;
    match wireType {
      case 0 =>
        var read := DecodeVarint(data, start);
        if read.Err? {
          return Err(read.error);
        }
        return Ok(Skipped(start + read.value.size, depth));
      case 1 => return Ok(Skipped(start + 8, depth));
      case 2 =>
        var read := DecodeVarint(data, start);
        if read.Err? {
          return Err(read.error);
        }
        var length := AsInt64(read.value.value);
        if length < 0 {
          return Err(InvalidLength);
        }
        return Ok(Skipped(start + read.value.size + length, depth));
      case 3 => return Ok(Skipped(start, depth + 1));
      case 4 =>
        if depth == 0 {
          return Err(UnexpectedEndOfGroup);
        }
        return Ok(Skipped(start, depth - 1));
      case 5 => return Ok(Skipped(start + 4, depth));
      case _ => return Err(IllegalWireType);
    }
  }

  method SkipQuery(data: seq<byte>) returns (r: Parsed<nat>)
    ensures r == SkipFrom(data, 0, 0)
  {
    hide Varint64, SkipBody;
    var index, depth := 0, 0;
    assert data[0..] == data;
    while index < |data|
      invariant 0 <= index && 0 <= depth
      invariant index <= |data| ==> SkipFrom(data[index..], index, depth) == SkipFrom(data, 0, 0)
      invariant index > |data| ==> SkipFrom(data, 0, 0) == Err(UnexpectedEOF)
      decreases |data| - index
    {
      var tag := DecodeVarint(data, index);
      if tag.Err? {
        return Err(tag.error);
      }
      assert data[index..][tag.value.size..] == data[index + tag.value.size..];
      var body := SkipOne(data, index + tag.value.size, tag.value.value % 8, depth);
      if body.Err? {
        return Err(body.error);
      }
      if body.value.next >= TWO63 {
        return Err(InvalidLength);
      }
      if body.value.depth == 0 {
        return Ok(body.value.next);
      }
      if body.value.next <= |data| {
        assert data[index..][body.value.next - index..] == data[body.value.next..];
      }
      index, depth := body.value.next, body.value.depth;
    }
    return Err(UnexpectedEOF);
  }

  /** Reads the string value of a known field; the result is the index after it and the string. */
  method ReadString(data: seq<byte>, start: nat) returns (r: Parsed<(nat, seq<byte>)>)
    requires start <= |data|
    ensures r == match Varint64(data[start..])
                 case Err(error) => Err(error)
                 case Ok(read) =>
                   var first, length := start + read.size, AsInt64(read.value);
                   if length < 0 || first + length >= TWO63 then Err(InvalidLength)
                   else if first + length > |data| then Err(UnexpectedEOF)
                   else Ok((first + length, data[first..first + length]))
  {
    hide Varint64;
    var read := DecodeVarint(data, start);
    if read.Err? {
      return Err(read.error);
    }
    var length, index := AsInt64(read.value.value), start + read.value.size;
    if length < 0 {
      return Err(InvalidLength);
    }
    var postIndex := index + length;
    if postIndex >= TWO63 {
      return Err(InvalidLength);
    }
    if postIndex > |data| {
      return Err(UnexpectedEOF);
    }
    return Ok((postIndex, data[index..postIndex]));
  }

  method Unmarshal(data: seq<byte>) returns (r: Parsed<Request>)
    ensures r == Parse(data)
  {
    hide Varint64, SkipFrom, AsInt32, AsInt64;
    var m, index := EMPTY, 0;
    assert data[0..] == data;
    while index < |data|
      invariant 0 <= index <= |data|
      invariant ParseFrom(data[index..], index, m) == Parse(data)
      decreases |data| - index
    {
      var tag := DecodeVarint(data, index);
      if tag.Err? {
        return Err(tag.error);
      }
      var num, wireType := AsInt32(tag.value.value / 8), tag.value.value % 8;
      if wireType == 4 {
        return Err(EndGroup);
      }
      if num <= 0 {
        return Err(IllegalTag);
      }
      if num == 1 || num == 2 {
        if wireType != 2 {
          return Err(WrongWireType);
        }
        var value := ReadString(data, index + tag.value.size);
        KnownStep(data, index, m, num, tag.value.size);
        if value.Err? {
          return Err(value.error);
        }
        index, m := value.value.0, Assign(m, num, value.value.1);
      } else {
        var skippy := SkipQuery(data[index..]);
        if skippy.Err? {
          return Err(skippy.error);
        }
        if index + skippy.value >= TWO63 {
          return Err(InvalidLength);
        }
        if index + skippy.value > |data| {
          return Err(UnexpectedEOF);
        }
        assert data[index..][skippy.value..] == data[index + skippy.value..];
        index := index + skippy.value;
      }
    }
    return Ok(m);
  }

  /** A known field, seen from the whole data instead of from what remains. */
  lemma KnownStep(data: seq<byte>, at: nat, m: Request, num: int, tagSize: nat)
    requires at < |data| && 1 <= tagSize <= |data| - at
    ensures ParseKnown(data[at..], at, m, num, tagSize) ==
            match Varint64(data[at + tagSize..])
            case Err(error) => Err(error)
            case Ok(read) =>
              var first, length := at + tagSize + read.size, AsInt64(read.value);
              if length < 0 || first + length >= TWO63 then Err(InvalidLength)
              else if first + length > |data| then Err(UnexpectedEOF)
              else ParseFrom(data[first + length..], first + length, Assign(m, num, data[first..first + length]))
  {
    hide Varint64, ParseFrom, AsInt64;
    var d := data[at..];
    assert d[tagSize..] == data[at + tagSize..];
    var read := Varint64(data[at + tagSize..]);
    if read.Ok? {
      var start, length := tagSize + read.value.size, AsInt64(read.value.value);
      if 0 <= length && start + length <= |d| {
        assert d[start + length..] == data[at + start + length..];
        assert d[start..start + length] == data[at + start..at + start + length];
      }
    }
  }
}
