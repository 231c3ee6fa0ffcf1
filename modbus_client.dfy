/** The Modbus TCP client: builds read-coils (0x01), read-discrete-inputs (0x02)
    and write-single-coil (0x05) requests (sections 6.1, 6.2 and 6.5 of the
    MODBUS Application Protocol Specification V1.1b3), stamps each with the next
    transaction id, writes it, accumulates the response from the socket, and
    validates it, decoding exception responses (section 7 of the same
    specification). The socket is an input stream of chunks and a record of the
    bytes written. */
module ModbusClient {
  import opened JavaTypes
  import opened Numerals
  import opened Failures
  import opened ModbusMessage
  import opened ModbusExceptions
  import P = ModbusProtocol

  function Flatten(chunks: seq<seq<Octet>>): (s: seq<Octet>)
  {
    if chunks == [] then [] else chunks[0] + Flatten(chunks[1..])
  }

  function Zeros(n: nat): (s: seq<Octet>)
    ensures |s| == n && forall i :: 0 <= i < n ==> s[i] == 0
  {
    seq(n, _ => 0)
  }

  /** The socket's input stream: the bytes the peer sends, cut into the chunks
      successive reads deliver. A read returns between 1 and the requested number
      of bytes, or -1 once the peer has closed and nothing is left. */
  class InStream {
    var chunks: seq<seq<Octet>>

    ghost predicate Valid()
      reads this
    {
      forall i :: 0 <= i < |chunks| ==> |chunks[i]| > 0
    }

    /** Everything not read yet. */
    function Pending(): seq<Octet>
      reads this
    {
      Flatten(chunks)
    }

    constructor (chunks: seq<seq<Octet>>)
      requires forall i :: 0 <= i < |chunks| ==> |chunks[i]| > 0
      ensures Valid() && this.chunks == chunks
    {
      this.chunks := chunks;
    }

    /** `read(b, off, len)`: the count and the bytes it delivers. */
    method Read(len: nat) returns (n: int, got: seq<Octet>)
      requires Valid() && len >= 1
      modifies this
      ensures Valid()
      ensures n == -1 <==> old(Pending()) == []
      ensures n == -1 ==> got == [] && Pending() == []
      ensures n != -1 ==> 1 <= n <= len && |got| == n && old(Pending()) == got + Pending()
    {
      if chunks == [] {
        return -1, [];
      }
      var head := chunks[0];
      if |head| <= len {
        got := head;
        chunks := chunks[1..];
      } else {
        got := head[..len];
        chunks := [head[len..]] + chunks[1..];
        assert Flatten(chunks) == head[len..] + Flatten(old(chunks)[1..]);
        assert head == got + head[len..];
      }
      n := |got|;
    }
  }

  lemma {:induction false} FlattenEmpty(chunks: seq<seq<Octet>>)
    requires forall i :: 0 <= i < |chunks| ==> |chunks[i]| > 0
    ensures Flatten(chunks) == [] <==> chunks == []
  {
    if chunks != [] {
      assert |Flatten(chunks)| >= |chunks[0]|;
    }
  }

  /** `(short) (length - 2)`: the number of data bytes `receiveResponse` waits
      for, from the length field at header bytes 4 and 5. */
  function DataLength(hi: Octet, lo: Octet): (n: JShort)
    ensures 2 <= ShortOf(hi, lo) ==> n == ShortOf(hi, lo) - 2
  {
    ToShort(ShortOf(hi, lo) - 2)
  }

  /** The outcome of `receiveResponse` on the bytes still to come: the decoded
      frame or the error, and how many bytes it took from the stream. */
  datatype Received = Received(result: Result<Frame>, consumed: nat)

  const DataRoom: nat := P.MaxSegmentSize - P.HeaderLength

  /** What `receiveResponse` does with the pending bytes: 8 header bytes, then
      `DataLength` more (a count the 300-byte buffer cannot hold makes the read
      throw), then decoding of the buffer, which is zero past what was read. */
  function Receive(pending: seq<Octet>): (r: Received)
    ensures r.consumed <= |pending|
  {
    if |pending| < P.HeaderLength then Received(Err(StreamEnded), |pending|)
    else
      var dl := DataLength(pending[4], pending[5]);
      if dl > DataRoom then Received(Err(IndexOutOfBounds), P.HeaderLength)
      else if dl > 0 && |pending| < P.HeaderLength + dl then Received(Err(StreamEnded), |pending|)
      else
        var n := if dl > 0 then P.HeaderLength + dl else P.HeaderLength;
        Received(DecodeFrame(pending[..n] + Zeros(P.MaxSegmentSize - n)), n)
  }

  /** The last case of `Receive`: a header and all the data it announces. */
  lemma ReceiveDecodes(pending: seq<Octet>, n: nat)
    requires |pending| >= P.HeaderLength
    requires DataLength(pending[4], pending[5]) <= DataRoom
    requires n == P.HeaderLength + (if DataLength(pending[4], pending[5]) > 0 then DataLength(pending[4], pending[5]) else 0)
    requires n <= |pending|
    ensures Receive(pending) == Received(DecodeFrame(pending[..n] + Zeros(P.MaxSegmentSize - n)), n)
  {
  }

  /** A response is taken whole and alone: exactly its header and its
      `length - 2` data bytes, which encode the decoded frame. */
  lemma {:induction false} ReceiveTakesOneFrame(pending: seq<Octet>)
    requires Receive(pending).result.Ok?
    ensures var r := Receive(pending);
      && WellFormed(r.result.value)
      && r.consumed == P.HeaderLength + r.result.value.length - 2
      && Encode(r.result.value) == pending[..r.consumed]
  {
    var dl := DataLength(pending[4], pending[5]);
    var n := if dl > 0 then P.HeaderLength + dl else P.HeaderLength;
    var buf := pending[..n] + Zeros(P.MaxSegmentSize - n);
    var f := DecodeFrame(buf).value;
    assert buf[4] == pending[4] && buf[5] == pending[5];
    assert f.length - 2 == dl;
    assert buf[..n] == pending[..n];
  }

  /** A frame the device sends, followed by anything, is received intact and
      nothing after it is consumed. */
  lemma {:induction false} ReceiveEncoded(f: Frame, rest: seq<Octet>)
    requires WellFormed(f) && f.length - 2 <= DataRoom
    ensures Receive(Encode(f) + rest) == Received(Ok(f), |Encode(f)|)
  {
    var b := Encode(f) + rest;
    EncodeLayout(f);
    ShortRoundTrip(f.length);
    assert b[4] == Encode(f)[4] && b[5] == Encode(f)[5];
    assert ShortOf(b[4], b[5]) == f.length;
    var n := |Encode(f)|;
    assert b[..n] == Encode(f);
    DecodeEncode(f, Zeros(P.MaxSegmentSize - n));
  }

  /** Where `read(b, off, len)` puts the bytes it delivers: `b[off..]`. */
  method Store(buff: array<Octet>, off: nat, got: seq<Octet>)
    requires off + |got| <= buff.Length
    modifies buff
    ensures buff[..] == old(buff[..])[..off] + got + old(buff[..])[off + |got|..]
  {
    forall i | 0 <= i < |got| {
      buff[off + i] := got[i];
    }
    assert buff[..] == old(buff[..])[..off] + got + old(buff[..])[off + |got|..];
  }

  /** `before` with its `k` bytes from `at` on replaced by the first `k` of `start`. */
  function Spliced(before: seq<Octet>, start: seq<Octet>, at: nat, k: nat): (s: seq<Octet>)
    requires at + k <= |before| && k <= |start|
    ensures |s| == |before|
  {
    before[..at] + start[..k] + before[at + k..]
  }

  /** Copying the next `n` bytes of `start` into the buffer after the `read`
      bytes already there extends the copied run by `n`. */
  lemma SpliceStep(before: seq<Octet>, start: seq<Octet>, at: nat, read: nat, n: nat,
                   cur: seq<Octet>, next: seq<Octet>)
    requires at + read + n <= |before| == |cur| && read + n <= |start|
    requires cur == Spliced(before, start, at, read)
    requires next == cur[..at + read] + start[read..read + n] + cur[at + read + n..]
    ensures next == Spliced(before, start, at, read + n)
  {
    var want := before[..at] + start[..read + n] + before[at + read + n..];
    assert |want| == |next|;
    forall j | 0 <= j < |next|
      ensures next[j] == want[j]
    {
    }
  }

  /** The zeroed buffer after the 8 header bytes are read into it. */
  lemma FillHeader(start: seq<Octet>, zeros: seq<Octet>, buff: seq<Octet>)
    requires |start| >= P.HeaderLength && zeros == Zeros(P.MaxSegmentSize)
    requires buff == zeros[..0] + start[..P.HeaderLength] + zeros[P.HeaderLength..]
    ensures buff == start[..P.HeaderLength] + Zeros(DataRoom)
    ensures buff[4] == start[4] && buff[5] == start[5]
  {
    assert zeros[P.HeaderLength..] == Zeros(DataRoom);
  }

  /** The buffer after the `dl` data bytes that follow the header are read in. */
  lemma FillData(start: seq<Octet>, mid: seq<Octet>, head: seq<Octet>, buff: seq<Octet>, dl: nat)
    requires |start| >= P.HeaderLength && mid == start[P.HeaderLength..]
    requires 0 < dl <= DataRoom && dl <= |mid|
    requires head == start[..P.HeaderLength] + Zeros(DataRoom)
    requires buff == head[..P.HeaderLength] + mid[..dl] + head[P.HeaderLength + dl..]
    ensures buff == start[..P.HeaderLength + dl] + Zeros(P.MaxSegmentSize - (P.HeaderLength + dl))
  {
    assert head[..P.HeaderLength] + mid[..dl] == start[..P.HeaderLength + dl];
    assert head[P.HeaderLength + dl..] == Zeros(P.MaxSegmentSize - (P.HeaderLength + dl));
  }

  /** One read of `n` bytes moves `read` forward by `n` over the pending bytes. */
  lemma PendingStep(start: seq<Octet>, read: nat, got: seq<Octet>, rest: seq<Octet>)
    requires read <= |start| && start[read..] == got + rest
    ensures read + |got| <= |start|
    ensures got == start[read..read + |got|] && rest == start[read + |got|..]
  {
    assert start[read..][..|got|] == got;
    assert start[read..][|got|..] == rest;
  }

  /** One of `receiveResponse`'s loops: `while (read < count) read +=
      is.read(buff, at + read, count - read)`. Each read checks that
      `at + count` lies within the buffer, and -1 (end of stream) stops it. */
  method ReadFully(input: InStream, buff: array<Octet>, at: nat, count: int) returns (r: Outcome)
    requires input.Valid()
    modifies input, buff
    ensures input.Valid()
    ensures count <= 0 ==> r == Pass && input.Pending() == old(input.Pending()) && buff[..] == old(buff[..])
    ensures 0 < count && buff.Length < at + count ==>
      r == Fail(IndexOutOfBounds) && input.Pending() == old(input.Pending())
    ensures 0 < count && at + count <= buff.Length && |old(input.Pending())| < count ==>
      r == Fail(StreamEnded) && input.Pending() == []
    ensures 0 < count && at + count <= buff.Length && count <= |old(input.Pending())| ==>
      r == Pass && input.Pending() == old(input.Pending())[count..]
    ensures 0 < count && at + count <= buff.Length && count <= |old(input.Pending())| ==>
      buff[..] == old(buff[..])[..at] + old(input.Pending())[..count] + old(buff[..])[at + count..]
  {
    if count <= 0 {
      return Pass;
    }
    // The first read already rejects a range past the end of the buffer, and
    // every later read asks for the same end.
    if at + count > buff.Length {
      return Fail(IndexOutOfBounds);
    }
    r := ReadLoop(input, buff, at, count);
  }

  /** One pass of that loop: a read of at most `count - read` bytes into the
      buffer after the `read` bytes already there. */
  method ReadStep(input: InStream, buff: array<Octet>, at: nat, count: nat, read: nat,
                  ghost start: seq<Octet>, ghost before: seq<Octet>) returns (n: int)
    requires input.Valid() && read < count && at + count <= buff.Length == |before|
    requires read <= |start| && input.Pending() == start[read..]
    requires buff[..] == Spliced(before, start, at, read)
    modifies input, buff
    ensures input.Valid()
    ensures n == -1 ==> |start| == read && input.Pending() == []
    ensures n != -1 ==> 1 <= n <= count - read && read + n <= |start|
    ensures n != -1 ==> input.Pending() == start[read + n..] && buff[..] == Spliced(before, start, at, read + n)
  {
    var got;
    n, got := input.Read(count - read);
    if n == -1 {
      return;
    }
    ghost var cur := buff[..];
    Store(buff, at + read, got);
    PendingStep(start, read, got, input.Pending());
    SpliceStep(before, start, at, read, n, cur, buff[..]);
  }

  /** The loop of `ReadFully` once the range is known to fit the buffer. */
  method ReadLoop(input: InStream, buff: array<Octet>, at: nat, count: nat) returns (r: Outcome)
    requires input.Valid() && 0 < count && at + count <= buff.Length
    modifies input, buff
    ensures input.Valid()
    ensures |old(input.Pending())| < count ==> r == Fail(StreamEnded) && input.Pending() == []
    ensures count <= |old(input.Pending())| ==> r == Pass && input.Pending() == old(input.Pending())[count..]
    ensures count <= |old(input.Pending())| ==>
      buff[..] == old(buff[..])[..at] + old(input.Pending())[..count] + old(buff[..])[at + count..]
  {
    ghost var start := input.Pending();
    ghost var before := buff[..];
    var read := 0;
    assert Spliced(before, start, at, 0) == before;
    while read < count
      invariant 0 <= read <= count && read <= |start| && input.Valid()
      invariant input.Pending() == start[read..]
      invariant buff[..] == Spliced(before, start, at, read)
      decreases count - read
    {
      var n := ReadStep(input, buff, at, count, read, start, before);
      if n == -1 {
        return Fail(StreamEnded);
      }
      read := read + n;
    }
    assert buff[..] == before[..at] + start[..count] + before[at + count..];
    r := Pass;
  }

  /** `receiveResponse`: 8 header bytes, then the data bytes the length field
      announces, into a zeroed 300-byte buffer that is then decoded. */
  method ReceiveResponse(input: InStream) returns (r: Result<Message>)
    requires input.Valid()
    modifies input
    ensures input.Valid()
    ensures input.Pending() == old(input.Pending())[Receive(old(input.Pending())).consumed..]
    ensures r.Ok? <==> Receive(old(input.Pending())).result.Ok?
    ensures r.Err? ==> r.error == Receive(old(input.Pending())).result.error
    ensures r.Ok? ==> fresh(r.value) && fresh(r.value.data)
    ensures r.Ok? ==> r.value.Valid() && r.value.Sound() && r.value.position == 0
    ensures r.Ok? ==> r.value.data.Length == r.value.length - 2
    ensures r.Ok? ==> r.value.AsFrame() == Receive(old(input.Pending())).result.value
  {
    var read, buff := ReceiveBytes(input);
    if read.Fail? {
      return Err(read.error);
    }
    r := Decode(buff[..]);
  }

  /** The reading half of `receiveResponse`: the buffer it fills, or the
      exception a read throws. */
  method ReceiveBytes(input: InStream) returns (r: Outcome, buff: array<Octet>)
    requires input.Valid()
    modifies input
    ensures input.Valid()
    ensures input.Pending() == old(input.Pending())[Receive(old(input.Pending())).consumed..]
    ensures r.Fail? ==> Receive(old(input.Pending())).result == Err(r.error)
    ensures r.Pass? ==> Receive(old(input.Pending())).result == DecodeFrame(buff[..])
  {
    ghost var start := input.Pending();
    buff := new Octet[P.MaxSegmentSize](_ => 0);
    ghost var zeros := buff[..];
    assert zeros == Zeros(P.MaxSegmentSize);
    var header := ReadFully(input, buff, 0, P.HeaderLength);
    if header.Fail? {
      return header, buff;
    }
    ghost var mid := input.Pending();
    FillHeader(start, zeros, buff[..]);
    var dataLength := DataLength(buff[4], buff[5]);
    ghost var head := buff[..];
    r := ReadFully(input, buff, P.HeaderLength, dataLength);
    if r.Fail? {
      return;
    }
    var n := if dataLength > 0 then P.HeaderLength + dataLength else P.HeaderLength;
    if dataLength > 0 {
      FillData(start, mid, head, buff[..], dataLength);
    }
    ReceiveDecodes(start, n);
  }

  /** The transaction id after `t`: one more with 16-bit signed wrap-around,
      and 1 where that would be 0. */
  function NextTransactionId(t: JShort): (next: JShort)
    ensures next != 0 && next != t
    ensures t != -1 ==> (next - t - 1) % 0x1_0000 == 0
    ensures t == -1 ==> next == 1
  {
    var n := ToShort(t + 1);
    if n == 0 then 1 else n
  }

  /** Away from the wrap the id just counts up; after 32767 it wraps to -32768
      (the signed short), and -1 steps over 0 to 1. */
  lemma NextTransactionIdSteps(t: JShort)
    ensures t < 32767 && t != -1 ==> NextTransactionId(t) == t + 1
    ensures NextTransactionId(32767) == -32768
  {
  }

  const TransactionMismatch: string :=
    "connection.modbus-header: transaction_ident from request differs from response"
  const UnexpectedFunctionPrefix: string := "connection.modbus-header: unexpected function code 0x"
  const NonZeroProtocol: string := "connection.modbus-header: protocol_ident should be zero"

  /** The checks `sendRequest` makes of a response, in order: transaction id,
      function code (an exception response is code + 0x80, whose first data byte,
      read as a signed byte, is the exception code), protocol id. */
  function Validate(req: Frame, res: Frame): (r: Result<Frame>)
    ensures r.Ok? <==>
      res.transactionId == req.transactionId && res.functionCode == req.functionCode && res.protocolId == 0
    ensures r.Ok? ==> r.value == res
  {
    if req.transactionId != res.transactionId then Err(Modbus(Described(TransactionMismatch)))
    else if req.functionCode != res.functionCode then
      if req.functionCode + 0x80 == res.functionCode then
        if res.data == [] then Err(BufferUnderflow)
        else Err(Modbus(Coded(res.functionCode, Signed8(res.data[0]))))
      else Err(Modbus(Described(UnexpectedFunctionPrefix + ToHexString(res.functionCode))))
    else if res.protocolId != P.ProtocolIdent then Err(Modbus(Described(NonZeroProtocol)))
    else Ok(res)
  }

  /** A response to another transaction is refused before anything else is looked at. */
  lemma MismatchComesFirst(req: Frame, res: Frame)
    requires res.transactionId != req.transactionId
    ensures Validate(req, res) == Err(Modbus(Described(TransactionMismatch)))
  {
  }

  /** An exception response surfaces as a device exception carrying the
      response's function code and the signed exception byte, whatever its
      protocol id. */
  lemma ExceptionResponse(req: Frame, res: Frame)
    requires res.transactionId == req.transactionId
    requires res.functionCode == req.functionCode + 0x80 && res.data != []
    ensures Validate(req, res).Err? && Validate(req, res).error.Modbus?
    ensures var e := Validate(req, res).error.exception;
      GetErrorCode(e) == res.functionCode && GetExceptionCode(e) == Signed8(res.data[0])
    ensures var m := GetMessage(Validate(req, res).error.exception);
      m[|m| - |Reason(Signed8(res.data[0]))|..] == Reason(Signed8(res.data[0]))
  {
  }

  /** A function code that is neither the request's nor its exception code is
      "unexpected", whatever the data and protocol id. */
  lemma UnexpectedFunction(req: Frame, res: Frame)
    requires res.transactionId == req.transactionId
    requires res.functionCode != req.functionCode && res.functionCode != req.functionCode + 0x80
    ensures Validate(req, res) ==
      Err(Modbus(Described(UnexpectedFunctionPrefix + ToHexString(res.functionCode))))
  {
  }

  /** The protocol id is checked last: only a response that passed the id and
      function-code checks is refused for it. */
  lemma ProtocolCheckedLast(req: Frame, res: Frame)
    requires res.protocolId != 0
    ensures Validate(req, res) == Err(Modbus(Described(NonZeroProtocol)))
      <==> res.transactionId == req.transactionId && res.functionCode == req.functionCode
  {
    assert NonZeroProtocol[26] == 'p';
    if res.transactionId != req.transactionId {
      assert |TransactionMismatch| != |NonZeroProtocol|;
    } else if res.functionCode != req.functionCode && req.functionCode + 0x80 != res.functionCode {
      var m := UnexpectedFunctionPrefix + ToHexString(res.functionCode);
      assert m[26] == UnexpectedFunctionPrefix[26] == 'u';
    }
  }

  /** What one `sendRequest` writes, how many response bytes it consumes, and
      what it returns. */
  datatype Transaction = Transaction(sent: seq<Octet>, consumed: nat, result: Result<Frame>)

  function Exchange(req: Frame, tid: JShort, closed: bool, pending: seq<Octet>): (tx: Transaction)
    requires WellFormed(req)
    ensures tx.consumed <= |pending|
  {
    var stamped := req.(transactionId := tid);
    if closed then Transaction([], 0, Err(SocketClosed))
    else Transaction(Encode(stamped), Receive(pending).consumed, Response(stamped, pending))
  }

  /** The answer to the stamped request `req`: the received frame once it passes
      validation, or the error from receiving or validating it. */
  function Response(req: Frame, pending: seq<Octet>): (r: Result<Frame>)
  {
    var rcv := Receive(pending);
    if rcv.result.Err? then rcv.result else Validate(req, rcv.result.value)
  }

  /** A device that echoes the transaction id and function code with protocol id
      0 gets its answer accepted unchanged, and nothing after it is consumed. */
  lemma {:induction false} ExchangeWithEcho(req: Frame, tid: JShort, res: Frame, rest: seq<Octet>)
    requires WellFormed(req) && WellFormed(res) && res.length - 2 <= DataRoom
    requires res.transactionId == tid && res.functionCode == req.functionCode && res.protocolId == 0
    ensures Exchange(req, tid, false, Encode(res) + rest)
      == Transaction(Encode(req.(transactionId := tid)), |Encode(res)|, Ok(res))
  {
    ReceiveEncoded(res, rest);
  }

  /** `BitSet.valueOf(bytes)`: bit i is bit i mod 8 of byte i / 8; missing bits are false. */
  datatype BitSet = BitSet(bytes: seq<Octet>) {
    predicate Get(i: nat)
    {
      i / 8 < |bytes| && Bit(bytes[i / 8], i % 8)
    }
  }

  /** The request `readOutputs`, `readInputs` and `writeOutput` build: two shorts of payload. */
  function TwoShortRequest(code: int, a: int, b: int): (f: Frame)
    requires 0 <= code < 256
    ensures WellFormed(f) && f.length == 6 && f.functionCode == code
    ensures f.protocolId == 0 && f.unitId == 0xFF
    ensures Be16(f.data[0], f.data[1]) == a % 0x1_0000 && Be16(f.data[2], f.data[3]) == b % 0x1_0000
  {
    Frame(0, 0, 6, 0xFF, code, U16Bytes(a % 0x1_0000) + U16Bytes(b % 0x1_0000))
  }

  /** The coil value `writeOutput` sends: 0xFF00 for on, 0x0000 for off. */
  function CoilValue(value: bool): (v: int)
  {
    if value then 0xff00 else 0x0000
  }

  /** The payload of a read response: a byte count read as a signed byte, then
      that many bytes of packed bits. */
  function ParseBits(res: Frame): (r: Result<BitSet>)
    ensures r.Ok? <==> |res.data| >= 1 && 0 <= Signed8(res.data[0]) <= |res.data| - 1
    ensures r.Ok? ==> r.value.bytes == res.data[1..1 + Signed8(res.data[0])]
  {
    if res.data == [] then Err(BufferUnderflow)
    else
      var count := Signed8(res.data[0]);
      if count < 0 then Err(NegativeArraySize)
      else if count > |res.data| - 1 then Err(BufferUnderflow)
      else Ok(BitSet(res.data[1..1 + count]))
  }

  /** Read results: bit i is bit i mod 8 of response data byte 1 + i / 8, the
      first byte being the byte count. */
  lemma ReadBitMeaning(res: Frame, i: nat)
    requires ParseBits(res).Ok?
    ensures ParseBits(res).value.Get(i) <==>
      i / 8 < Signed8(res.data[0]) && Bit(res.data[1 + i / 8], i % 8)
  {
  }

  /** What a read of `n` bits from `start` with function `code` returns. */
  function ReadResult(tx: Transaction): (r: Result<BitSet>)
  {
    if tx.result.Err? then Err(tx.result.error) else ParseBits(tx.result.value)
  }

  /** The end of `readOutputs` and `readInputs`: `getDataByte()` as the byte
      count, then `BitSet.valueOf(getDataBytes(count))`. */
  method TakeBits(res: Message) returns (r: Result<BitSet>)
    requires res.Valid() && res.Sound() && res.position == 0 && res.data.Length == res.length - 2
    modifies res`position
    ensures r == ParseBits(old(res.AsFrame()))
  {
    ghost var f := res.AsFrame();
    assert res.data[..] == f.data;
    var count := res.GetDataByte();
    if count.Err? {
      return Err(count.error);
    }
    assert count.value == Signed8(f.data[0]);
    var bytes := res.GetDataBytes(count.value);
    if bytes.Err? {
      return Err(bytes.error);
    }
    assert bytes.value == f.data[1..1 + count.value];
    r := Ok(BitSet(bytes.value));
  }

  /** `get(0)` of a read's result: its first bit, or the read's failure. */
  function FirstBit(bits: Result<BitSet>): (r: Result<bool>)
    ensures r.Ok? <==> bits.Ok?
    ensures r.Ok? ==> (r.value <==> bits.value.Get(0))
  {
    if bits.Ok? then Ok(bits.value.Get(0)) else Err(bits.error)
  }

  /** A read's result from what `sendRequest` returned: its failure, or the
      bits of the response. */
  method BitsOf(res: Result<Message>) returns (r: Result<BitSet>)
    requires res.Ok? ==> res.value.Valid() && res.value.Sound() && res.value.position == 0
    requires res.Ok? ==> res.value.data.Length == res.value.length - 2
    modifies if res.Ok? then {res.value} else {}
    ensures res.Err? ==> r == Err(res.error)
    ensures res.Ok? ==> r == ParseBits(old(res.value.AsFrame()))
  {
    if res.Err? {
      return Err(res.error);
    }
    r := TakeBits(res.value);
  }

  /** The second half of `sendRequest`: receive the response and validate it
      against the request it answers. */
  method AwaitResponse(input: InStream, req: Message) returns (r: Result<Message>)
    requires input.Valid() && req.Valid() && req.Sound()
    modifies input
    ensures input.Valid()
    ensures input.Pending() == old(input.Pending())[Receive(old(input.Pending())).consumed..]
    ensures r.Ok? ==> fresh(r.value) && fresh(r.value.data)
    ensures r.Ok? ==> r.value.Valid() && r.value.Sound() && r.value.position == 0
    ensures r.Ok? ==> r.value.data.Length == r.value.length - 2
    ensures r.Ok? <==> Response(req.AsFrame(), old(input.Pending())).Ok?
    ensures r.Err? ==> r.error == Response(req.AsFrame(), old(input.Pending())).error
    ensures r.Ok? ==> r.value.AsFrame() == Response(req.AsFrame(), old(input.Pending())).value
  {
    var res := ReceiveResponse(input);
    if res.Err? {
      return res;
    }
    var check := Validate(req.AsFrame(), res.value.AsFrame());
    if check.Err? {
      return Err(check.error);
    }
    r := res;
  }

  class Client {
    var currentTransactionIdent: JShort
    var closed: bool
    /** Every byte written to the socket's output stream. */
    var written: seq<Octet>
    const input: InStream

    ghost predicate Valid()
      reads this, input
    {
      input.Valid()
    }

    /** A client on an open connection whose peer sends `input`. */
    constructor (input: InStream)
      requires input.Valid()
      ensures Valid() && this.input == input
      ensures currentTransactionIdent == 0 && !closed && written == []
    {
      this.input := input;
      currentTransactionIdent := 0;
      closed := false;
      written := [];
    }

    /** `disconnect`: closes the socket and never fails. */
    method Disconnect()
      modifies this`closed
      ensures closed
    {
      closed := true;
    }

    /** `sendRequest`: next transaction id, stamp, write, receive, validate. */
    method SendRequest(req: Message) returns (r: Result<Message>)
      requires Valid() && req.Valid() && req.Sound()
      modifies this`currentTransactionIdent, this`written, input, req`transactionIdent
      ensures Valid()
      ensures currentTransactionIdent == NextTransactionId(old(currentTransactionIdent))
      ensures req.transactionIdent == currentTransactionIdent
      ensures r.Ok? ==> fresh(r.value) && fresh(r.value.data)
      ensures r.Ok? ==> r.value.Valid() && r.value.Sound() && r.value.position == 0
      ensures r.Ok? ==> r.value.data.Length == r.value.length - 2
      ensures var tx := Exchange(old(req.AsFrame()), currentTransactionIdent, closed, old(input.Pending()));
        && written == old(written) + tx.sent
        && input.Pending() == old(input.Pending())[tx.consumed..]
        && (r.Ok? <==> tx.result.Ok?)
        && (r.Err? ==> r.error == tx.result.error)
        && (r.Ok? ==> r.value.AsFrame() == tx.result.value)
    {
      ghost var request := req.AsFrame();
      ghost var pending := input.Pending();
      currentTransactionIdent := NextTransactionId(currentTransactionIdent);
      req.SetTransactionIdentifier(currentTransactionIdent);
      ghost var stamped := request.(transactionId := currentTransactionIdent);
      assert req.AsFrame() == stamped;
      ghost var tx := Exchange(request, currentTransactionIdent, closed, pending);
      var bytes := req.GetBytes();
      if closed {
        assert tx == Transaction([], 0, Err(SocketClosed));
        return Err(SocketClosed);
      }
      assert tx.sent == bytes.value && tx.consumed == Receive(pending).consumed;
      written := written + bytes.value;
      r := AwaitResponse(input, req);
    }

    /** Builds a request of `code` with two shorts of payload. */
    method TwoShorts(code: int, a: JInt, b: JInt) returns (req: Message)
      requires 0 <= code < 256
      ensures fresh(req) && fresh(req.data)
      ensures req.Valid() && req.Sound() && req.AsFrame() == TwoShortRequest(code, a, b)
    {
      assert code % 256 == code;
      ShortBytesOfInt(a);
      ShortBytesOfInt(b);
      req := new Message(code);
      ghost var fc := req.functionCode;
      assert Unsigned8(fc) == code;
      assert req.AsFrame().data == [];
      var ok := req.AddDataShort(ToShort(a));
      assert ok.Pass? && req.length == 4;
      assert req.Building() && req.AsFrame().data == ShortBytes(ToShort(a));
      ok := req.AddDataShort(ToShort(b));
      assert ok.Pass? && req.length == 6;
      ghost var f := req.AsFrame();
      assert f.data == TwoShortRequest(code, a, b).data;
      assert f.transactionId == 0 && f.protocolId == 0 && f.length == 6;
      assert req.functionCode == fc;
      assert f.unitId == 0xFF && f.functionCode == code;
    }

    /** The reads `readOutputs` and `readInputs` share, with their function code. */
    method ReadBits(code: int, start: JInt, n: JInt) returns (r: Result<BitSet>)
      requires Valid() && 0 <= code < 256
      modifies this`currentTransactionIdent, this`written, input
      ensures Valid()
      ensures currentTransactionIdent == NextTransactionId(old(currentTransactionIdent))
      ensures var tx := Exchange(TwoShortRequest(code, start, n), currentTransactionIdent, closed, old(input.Pending()));
        && written == old(written) + tx.sent
        && input.Pending() == old(input.Pending())[tx.consumed..]
        && r == ReadResult(tx)
    {
      var req := TwoShorts(code, start, n);
      var res := SendRequest(req);
      r := BitsOf(res);
    }

    /** `readOutputs`: function 0x01, read coils. */
    method ReadOutputs(start: JInt, n: JInt) returns (r: Result<BitSet>)
      requires Valid()
      modifies this`currentTransactionIdent, this`written, input
      ensures Valid()
      ensures currentTransactionIdent == NextTransactionId(old(currentTransactionIdent))
      ensures written == old(written) + Exchange(TwoShortRequest(P.ReadCoils, start, n), currentTransactionIdent, closed, old(input.Pending())).sent
      ensures r == ReadResult(Exchange(TwoShortRequest(P.ReadCoils, start, n), currentTransactionIdent, closed, old(input.Pending())))
      ensures input.Pending() == old(input.Pending())[Exchange(TwoShortRequest(P.ReadCoils, start, n), currentTransactionIdent, closed, old(input.Pending())).consumed..]
    {
      r := ReadBits(P.ReadCoils, start, n);
    }

    /** `readInputs`: documented as function 0x01 but sends 0x02, read discrete inputs. */
    method ReadInputs(start: JInt, n: JInt) returns (r: Result<BitSet>)
      requires Valid()
      modifies this`currentTransactionIdent, this`written, input
      ensures Valid()
      ensures currentTransactionIdent == NextTransactionId(old(currentTransactionIdent))
      ensures written == old(written) + Exchange(TwoShortRequest(P.ReadDiscreteInputs, start, n), currentTransactionIdent, closed, old(input.Pending())).sent
      ensures r == ReadResult(Exchange(TwoShortRequest(P.ReadDiscreteInputs, start, n), currentTransactionIdent, closed, old(input.Pending())))
      ensures input.Pending() == old(input.Pending())[Exchange(TwoShortRequest(P.ReadDiscreteInputs, start, n), currentTransactionIdent, closed, old(input.Pending())).consumed..]
    {
      r := ReadBits(P.ReadDiscreteInputs, start, n);
    }

    /** `readOutput(n)`: bit 0 of a one-bit read of coils at n. */
    method ReadOutput(n: JInt) returns (r: Result<bool>)
      requires Valid()
      modifies this`currentTransactionIdent, this`written, input
      ensures Valid()
      ensures currentTransactionIdent == NextTransactionId(old(currentTransactionIdent))
      ensures written == old(written) + Exchange(TwoShortRequest(P.ReadCoils, n, 1), currentTransactionIdent, closed, old(input.Pending())).sent
      ensures r == FirstBit(ReadResult(Exchange(TwoShortRequest(P.ReadCoils, n, 1), currentTransactionIdent, closed, old(input.Pending()))))
      ensures input.Pending() == old(input.Pending())[Exchange(TwoShortRequest(P.ReadCoils, n, 1), currentTransactionIdent, closed, old(input.Pending())).consumed..]
    {
      var bits := ReadOutputs(n, 1);
      r := FirstBit(bits);
    }

    /** `readInput(n)`: bit 0 of a one-bit read of discrete inputs at n. */
    method ReadInput(n: JInt) returns (r: Result<bool>)
      requires Valid()
      modifies this`currentTransactionIdent, this`written, input
      ensures Valid()
      ensures currentTransactionIdent == NextTransactionId(old(currentTransactionIdent))
      ensures written == old(written) + Exchange(TwoShortRequest(P.ReadDiscreteInputs, n, 1), currentTransactionIdent, closed, old(input.Pending())).sent
      ensures r == FirstBit(ReadResult(Exchange(TwoShortRequest(P.ReadDiscreteInputs, n, 1), currentTransactionIdent, closed, old(input.Pending()))))
      ensures input.Pending() == old(input.Pending())[Exchange(TwoShortRequest(P.ReadDiscreteInputs, n, 1), currentTransactionIdent, closed, old(input.Pending())).consumed..]
    {
      var bits := ReadInputs(n, 1);
      r := FirstBit(bits);
    }

    /** `writeOutput`: function 0x05 with the address and 0xFF00 or 0x0000. */
    method WriteOutput(addr: JInt, value: bool) returns (r: Outcome)
      requires Valid()
      modifies this`currentTransactionIdent, this`written, input
      ensures Valid()
      ensures currentTransactionIdent == NextTransactionId(old(currentTransactionIdent))
      ensures written == old(written) + Exchange(TwoShortRequest(P.WriteSingleCoil, addr, CoilValue(value)), currentTransactionIdent, closed, old(input.Pending())).sent
      ensures r.Pass? <==> Exchange(TwoShortRequest(P.WriteSingleCoil, addr, CoilValue(value)), currentTransactionIdent, closed, old(input.Pending())).result.Ok?
      ensures r.Fail? ==> r.error == Exchange(TwoShortRequest(P.WriteSingleCoil, addr, CoilValue(value)), currentTransactionIdent, closed, old(input.Pending())).result.error
      ensures input.Pending() == old(input.Pending())[Exchange(TwoShortRequest(P.WriteSingleCoil, addr, CoilValue(value)), currentTransactionIdent, closed, old(input.Pending())).consumed..]
    {
      ghost var pending := input.Pending();
      var req := TwoShorts(P.WriteSingleCoil, addr, CoilValue(value));
      var res := SendRequest(req);
      ghost var tx := Exchange(TwoShortRequest(P.WriteSingleCoil, addr, CoilValue(value)),
                               currentTransactionIdent, closed, pending);
      assert res.Ok? <==> tx.result.Ok?;
      r := if res.Ok? then Pass else Fail(res.error);
    }
  }
}
