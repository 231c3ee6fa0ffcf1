/** One Modbus TCP frame: the MBAP header (transaction id, protocol id, length,
    unit id), the function code, and `length - 2` data bytes, all big-endian
    (section 3.1.3 of the MODBUS Messaging on TCP/IP Implementation Guide V1.0b).
    `Frame` is the value a message stands for; `Message` is the object the client
    builds with a write cursor, serialises, decodes and reads with a read cursor. */
module ModbusMessage {
  import opened JavaTypes
  import opened Failures
  import P = ModbusProtocol

  datatype Frame = Frame(
    transactionId: JShort,
    protocolId: JShort,
    length: JShort,
    unitId: Octet,
    functionCode: Octet,
    data: seq<Octet>)

  /** The length field counts the unit id, the function code and the data. */
  predicate WellFormed(f: Frame)
  {
    2 <= f.length && |f.data| == f.length - 2
  }

  /** The bytes `getBytes` produces for a frame. */
  function Encode(f: Frame): (b: seq<Octet>)
    requires WellFormed(f)
    ensures |b| == P.HeaderLength + f.length - 2
  {
    ShortBytes(f.transactionId) + ShortBytes(f.protocolId) + ShortBytes(f.length)
      + [f.unitId, f.functionCode] + f.data
  }

  /** Where each field sits on the wire. */
  lemma EncodeLayout(f: Frame)
    requires WellFormed(f)
    ensures var b := Encode(f);
      && Be16(b[0], b[1]) == f.transactionId % 0x1_0000
      && Be16(b[2], b[3]) == f.protocolId % 0x1_0000
      && Be16(b[4], b[5]) == f.length
      && b[6] == f.unitId && b[7] == f.functionCode
      && b[8..] == f.data
  {
    var t, p, l := ShortBytes(f.transactionId), ShortBytes(f.protocolId), ShortBytes(f.length);
    var b := Encode(f);
    assert b == t + p + l + [f.unitId, f.functionCode] + f.data;
    assert b[0] == t[0] && b[1] == t[1];
    assert b[2] == p[0] && b[3] == p[1];
    assert b[4] == l[0] && b[5] == l[1];
    assert b[8..] == f.data;
  }

  /** The decoding constructor on a buffer whose position is 0: five header
      reads, `allocate(length - 2)`, then a bulk copy of `length - 2` bytes. */
  function DecodeFrame(buf: seq<Octet>): (r: Result<Frame>)
    ensures r.Ok? <==>
      |buf| >= P.HeaderLength && 2 <= ShortOf(buf[4], buf[5]) <= |buf| - P.HeaderLength + 2
    ensures r.Ok? ==> WellFormed(r.value) && P.HeaderLength + r.value.length - 2 <= |buf|
    ensures r.Ok? ==> Encode(r.value) == buf[..P.HeaderLength + r.value.length - 2]
  {
    if |buf| < P.HeaderLength then Err(BufferUnderflow)
    else
      var length := ShortOf(buf[4], buf[5]);
      if length - 2 < 0 then Err(IllegalArgument)
      else if |buf| - P.HeaderLength < length - 2 then Err(BufferUnderflow)
      else
        var f := Frame(ShortOf(buf[0], buf[1]), ShortOf(buf[2], buf[3]), length, buf[6], buf[7],
                       buf[P.HeaderLength..P.HeaderLength + length - 2]);
        ShortRoundTripOctets(buf[0], buf[1]);
        ShortRoundTripOctets(buf[2], buf[3]);
        ShortRoundTripOctets(buf[4], buf[5]);
        assert Encode(f) == buf[..P.HeaderLength + length - 2];
        Ok(f)
  }

  /** Reading two octets as a short and writing it back gives the octets. */
  lemma ShortRoundTripOctets(hi: Octet, lo: Octet)
    ensures ShortBytes(ShortOf(hi, lo)) == [hi, lo]
  {
    var u := hi * 256 + lo;
    assert ShortOf(hi, lo) % 0x1_0000 == u;
    assert u / 256 == hi && u % 256 == lo;
  }

  /** Decoding the bytes of a frame, whatever follows them, gives the frame back. */
  lemma {:induction false} DecodeEncode(f: Frame, rest: seq<Octet>)
    requires WellFormed(f)
    ensures DecodeFrame(Encode(f) + rest) == Ok(f)
  {
    var b := Encode(f) + rest;
    EncodeLayout(f);
    ShortRoundTrip(f.transactionId);
    ShortRoundTrip(f.protocolId);
    ShortRoundTrip(f.length);
    assert b[..8] == Encode(f)[..8];
    assert ShortOf(b[4], b[5]) == f.length;
    assert b[8..8 + f.length - 2] == f.data;
  }

  /** `buf` with `bytes` written over it from index `at`. */
  function Overwrite(buf: seq<Octet>, at: nat, bytes: seq<Octet>): (r: seq<Octet>)
    requires at + |bytes| <= |buf|
    ensures |r| == |buf| && r[at..at + |bytes|] == bytes
    ensures r[..at] == buf[..at] && r[at + |bytes|..] == buf[at + |bytes|..]
  {
    buf[..at] + bytes + buf[at + |bytes|..]
  }

  class Message {
    var transactionIdent: JShort
    var protocolIdent: JShort
    var length: JShort
    var unitIdent: JByte
    var functionCode: JByte
    /** The data ByteBuffer: its backing array and its position; its limit is
        its capacity, `data.Length`. */
    var data: array<Octet>
    var position: nat

    ghost predicate Valid()
      reads this
    {
      position <= data.Length
    }

    /** The length field and the buffer agree, so `getBytes` succeeds. */
    predicate Sound()
      reads this
    {
      2 <= length && length - 2 <= data.Length
    }

    /** A message being built: the write cursor sits just after the data. */
    predicate Building()
      reads this
    {
      Sound() && position == length - 2
    }

    /** The frame this message stands for. */
    function AsFrame(): (f: Frame)
      reads this, data
      requires Sound()
      ensures WellFormed(f)
    {
      Frame(transactionIdent, protocolIdent, length, Unsigned8(unitIdent), Unsigned8(functionCode),
            data[..length - 2])
    }

    /** A new request with function code `code`: an empty payload, protocol id 0,
        unit id 0xFF, transaction id not yet set, and a 300-byte data buffer. */
    constructor (code: JInt)
      ensures Valid() && Building() && fresh(data)
      ensures data.Length == P.MaxSegmentSize && position == 0
      ensures length == 2 && protocolIdent == P.ProtocolIdent && unitIdent == P.UnitIdent
      ensures transactionIdent == 0 && Unsigned8(functionCode) == code % 256
    {
      transactionIdent := 0;
      functionCode := Signed8(code % 256);
      length := 2;
      unitIdent := P.UnitIdent;
      protocolIdent := P.ProtocolIdent;
      data := new Octet[P.MaxSegmentSize](_ => 0);
      position := 0;
    }

    method SetTransactionIdentifier(t: JShort)
      modifies this`transactionIdent
      ensures transactionIdent == t
    {
      transactionIdent := t;
    }

    /** `function_code & 0xff`: the function code as an unsigned value. */
    function GetFunctionCode(): (c: int)
      reads this
      ensures 0 <= c < 256 && Signed8(c) == functionCode
      ensures Sound() ==> c == AsFrame().functionCode
    {
      Unsigned8(functionCode)
    }

    function GetTransactionIdentifier(): (t: JShort)
      reads this
      ensures Sound() ==> t == AsFrame().transactionId
    {
      transactionIdent
    }

    function GetProtocolIdentifier(): (p: JShort)
      reads this
      ensures Sound() ==> p == AsFrame().protocolId
    {
      protocolIdent
    }

    /** Puts `bytes` at the cursor and raises `length` by as many, or fails with
        BufferOverflow, changing nothing, when they do not fit. */
    method Put(bytes: seq<Octet>) returns (r: Outcome)
      requires Valid() && 1 <= |bytes| <= 4
      modifies this`position, this`length, data
      ensures Valid() && data == old(data)
      ensures r.Pass? <==> old(position) + |bytes| <= data.Length
      ensures r.Pass? ==>
        && data[..] == Overwrite(old(data[..]), old(position), bytes)
        && position == old(position) + |bytes|
        && length == ToShort(old(length) + |bytes|)
      ensures r.Fail? ==> r.error == BufferOverflow && unchanged(this) && unchanged(data)
      ensures r.Pass? && old(Building()) && old(length) + |bytes| < 0x8000 ==>
        Building() && AsFrame().data == old(AsFrame().data) + bytes
    {
      if position + |bytes| > data.Length {
        return Fail(BufferOverflow);
      }
      ghost var before := data[..];
      forall i | 0 <= i < |bytes| {
        data[position + i] := bytes[i];
      }
      assert data[..] == Overwrite(before, position, bytes);
      position := position + |bytes|;
      length := ToShort(length + |bytes|);
      r := Pass;
      if old(Building()) && old(length) + |bytes| < 0x8000 {
        assert data[..length - 2] == before[..old(position)] + bytes;
      }
    }

    /** `addDataByte`: appends one byte. */
    method AddDataByte(b: JByte) returns (r: Outcome)
      requires Valid()
      modifies this`position, this`length, data
      ensures Valid() && data == old(data)
      ensures r.Pass? <==> old(position) + 1 <= data.Length
      ensures r.Pass? ==> data[..] == Overwrite(old(data[..]), old(position), [Unsigned8(b)])
      ensures r.Pass? ==> position == old(position) + 1 && length == ToShort(old(length) + 1)
      ensures r.Fail? ==> r.error == BufferOverflow && unchanged(this) && unchanged(data)
      ensures r.Pass? && old(Building()) && old(length) + 1 < 0x8000 ==>
        Building() && AsFrame().data == old(AsFrame().data) + [Unsigned8(b)]
    {
      r := Put([Unsigned8(b)]);
    }

    /** `addDataShort`: appends two bytes, big-endian. */
    method AddDataShort(s: JShort) returns (r: Outcome)
      requires Valid()
      modifies this`position, this`length, data
      ensures Valid() && data == old(data)
      ensures r.Pass? <==> old(position) + 2 <= data.Length
      ensures r.Pass? ==> data[..] == Overwrite(old(data[..]), old(position), ShortBytes(s))
      ensures r.Pass? ==> position == old(position) + 2 && length == ToShort(old(length) + 2)
      ensures r.Fail? ==> r.error == BufferOverflow && unchanged(this) && unchanged(data)
      ensures r.Pass? && old(Building()) && old(length) + 2 < 0x8000 ==>
        Building() && AsFrame().data == old(AsFrame().data) + ShortBytes(s)
    {
      r := Put(ShortBytes(s));
    }

    /** `addDataInt`: appends four bytes, big-endian. */
    method AddDataInt(i: JInt) returns (r: Outcome)
      requires Valid()
      modifies this`position, this`length, data
      ensures Valid() && data == old(data)
      ensures r.Pass? <==> old(position) + 4 <= data.Length
      ensures r.Pass? ==> data[..] == Overwrite(old(data[..]), old(position), IntBytes(i))
      ensures r.Pass? ==> position == old(position) + 4 && length == ToShort(old(length) + 4)
      ensures r.Fail? ==> r.error == BufferOverflow && unchanged(this) && unchanged(data)
      ensures r.Pass? && old(Building()) && old(length) + 4 < 0x8000 ==>
        Building() && AsFrame().data == old(AsFrame().data) + IntBytes(i)
    {
      r := Put(IntBytes(i));
    }

    /** `getDataByte`: the signed byte at the cursor, or BufferUnderflow. */
    method GetDataByte() returns (r: Result<JByte>)
      requires Valid()
      modifies this`position
      ensures Valid()
      ensures r.Ok? <==> old(position) + 1 <= data.Length
      ensures r.Ok? ==> r.value == Signed8(data[old(position)]) && position == old(position) + 1
      ensures r.Err? ==> r.error == BufferUnderflow && position == old(position)
    {
      if position + 1 > data.Length {
        return Err(BufferUnderflow);
      }
      r := Ok(Signed8(data[position]));
      position := position + 1;
    }

    /** `getDataShort`: the big-endian signed short at the cursor. */
    method GetDataShort() returns (r: Result<JShort>)
      requires Valid()
      modifies this`position
      ensures Valid()
      ensures r.Ok? <==> old(position) + 2 <= data.Length
      ensures r.Ok? ==> position == old(position) + 2
      ensures r.Ok? ==> ShortBytes(r.value) == data[old(position)..position]
      ensures r.Err? ==> r.error == BufferUnderflow && position == old(position)
    {
      if position + 2 > data.Length {
        return Err(BufferUnderflow);
      }
      ShortRoundTripOctets(data[position], data[position + 1]);
      r := Ok(ShortOf(data[position], data[position + 1]));
      position := position + 2;
    }

    /** `getDataInt`: the big-endian signed int at the cursor. */
    method GetDataInt() returns (r: Result<JInt>)
      requires Valid()
      modifies this`position
      ensures Valid()
      ensures r.Ok? <==> old(position) + 4 <= data.Length
      ensures r.Ok? ==> position == old(position) + 4
      ensures r.Ok? ==> IntBytes(r.value) == data[old(position)..position]
      ensures r.Err? ==> r.error == BufferUnderflow && position == old(position)
    {
      if position + 4 > data.Length {
        return Err(BufferUnderflow);
      }
      var p := position;
      r := Ok(IntOf(data[p], data[p + 1], data[p + 2], data[p + 3]));
      IntBytesOfIntOf(data[p], data[p + 1], data[p + 2], data[p + 3]);
      position := position + 4;
    }

    /** `getDataBytes(n)`: the next n bytes; a negative n fails allocating the
        array, too large an n underflows. */
    method GetDataBytes(n: JInt) returns (r: Result<seq<Octet>>)
      requires Valid()
      modifies this`position
      ensures Valid()
      ensures r.Ok? <==> 0 <= n && old(position) + n <= data.Length
      ensures r.Ok? ==> position == old(position) + n && r.value == data[old(position)..position]
      ensures r.Err? ==> position == old(position)
      ensures r.Err? ==> r.error == (if n < 0 then NegativeArraySize else BufferUnderflow)
    {
      if n < 0 {
        return Err(NegativeArraySize);
      }
      if position + n > data.Length {
        return Err(BufferUnderflow);
      }
      r := Ok(data[position..position + n]);
      position := position + n;
    }

    /** `getBytes`: the header followed by the first `length - 2` bytes of the
        data buffer; a length field the buffer cannot back is an error. */
    method GetBytes() returns (r: Result<seq<Octet>>)
      ensures r.Ok? <==> Sound()
      ensures r.Ok? ==> r.value == Encode(AsFrame())
    {
      if length < -6 {
        return Err(IllegalArgument);
      }
      if length < 2 {
        return Err(BufferOverflow);
      }
      if length - 2 > data.Length {
        return Err(IndexOutOfBounds);
      }
      r := Ok(ShortBytes(transactionIdent) + ShortBytes(protocolIdent) + ShortBytes(length)
              + [Unsigned8(unitIdent), Unsigned8(functionCode)] + data[..length - 2]);
    }
  }

  lemma U16BytesOfBe16(hi: Octet, lo: Octet)
    ensures U16Bytes(Be16(hi, lo)) == [hi, lo]
  {
  }

  lemma SplitWord(a: nat, c: nat)
    requires a < 0x1_0000 && c < 0x1_0000
    ensures (a * 0x1_0000 + c) / 0x1_0000 == a && (a * 0x1_0000 + c) % 0x1_0000 == c
  {
  }

  lemma IntBytesOfIntOf(b0: Octet, b1: Octet, b2: Octet, b3: Octet)
    ensures IntBytes(IntOf(b0, b1, b2, b3)) == [b0, b1, b2, b3]
  {
    var hi, lo := Be16(b0, b1), Be16(b2, b3);
    var u := hi * 0x1_0000 + lo;
    assert IntOf(b0, b1, b2, b3) % 0x1_0000_0000 == u;
    SplitWord(hi, lo);
    U16BytesOfBe16(b0, b1);
    U16BytesOfBe16(b2, b3);
    assert IntBytes(IntOf(b0, b1, b2, b3)) == U16Bytes(hi) + U16Bytes(lo);
  }

  /** The decoding constructor: reads the header from `buf` (position 0) and
      copies the payload into a data buffer of exactly `length - 2` bytes whose
      read cursor starts at 0. */
  method Decode(buf: seq<Octet>) returns (r: Result<Message>)
    ensures r.Ok? <==> DecodeFrame(buf).Ok?
    ensures r.Err? ==> r.error == DecodeFrame(buf).error
    ensures r.Ok? ==> fresh(r.value) && fresh(r.value.data)
    ensures r.Ok? ==> r.value.Valid() && r.value.Sound() && r.value.position == 0
    ensures r.Ok? ==> r.value.data.Length == r.value.length - 2
    ensures r.Ok? ==> r.value.AsFrame() == DecodeFrame(buf).value
  {
    var d := DecodeFrame(buf);
    if d.Err? {
      return Err(d.error);
    }
    var f := d.value;
    var m := new Message(f.functionCode);
    m.transactionIdent := f.transactionId;
    m.protocolIdent := f.protocolId;
    m.length := f.length;
    m.unitIdent := Signed8(f.unitId);
    m.functionCode := Signed8(f.functionCode);
    m.data := new Octet[f.length - 2](i requires 0 <= i < f.length - 2 => f.data[i]);
    m.position := 0;
    assert m.data[..m.length - 2] == f.data;
    r := Ok(m);
  }
}
