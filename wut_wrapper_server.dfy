/** One client connection of the adapter's TCP server: the request is the
    bytes up to the first 0 byte, the adapter answers it once, and a reply is
    written back with a 0 terminator. */
module WutWrapperServer {
  import opened JavaTypes
  import opened Failures
  import opened WutWrapper

  /** The connection's input stream: `read` yields the next byte, or -1 once
      the peer has closed the connection. */
  class ByteSource {
    var rest: seq<Octet>

    constructor (bytes: seq<Octet>)
      ensures rest == bytes
    {
      rest := bytes;
    }

    method Read() returns (ch: int)
      modifies this
      ensures old(rest) == [] ==> ch == -1 && rest == []
      ensures old(rest) != [] ==> ch == old(rest)[0] && rest == old(rest)[1..]
    {
      if rest == [] {
        ch := -1;
      } else {
        ch := rest[0];
        rest := rest[1..];
      }
    }
  }

  /** `(char) ch` for each byte read. */
  function Chars(bytes: seq<Octet>): (s: string)
    ensures |s| == |bytes|
    ensures forall i :: 0 <= i < |bytes| ==> s[i] as int == bytes[i]
  {
    seq(|bytes|, i requires 0 <= i < |bytes| => bytes[i] as char)
  }

  /** `getBytes()` of text without NUL or non-ASCII characters: one octet each. */
  function Octets(s: string): (bytes: seq<Octet>)
    requires WireText(s)
    ensures |bytes| == |s|
    ensures forall i :: 0 <= i < |s| ==> bytes[i] == s[i] as int
  {
    seq(|s|, i requires 0 <= i < |s| => s[i] as int)
  }

  /** What the connection writes and whether an error escapes the handler,
      given what `doRequest` returned or threw. */
  function Respond(reply: Result<Option<string>>): (out: (seq<Octet>, bool))
    requires reply.Ok? && reply.value.Some? ==> WireText(reply.value.value)
  {
    match reply
    case Ok(Some(text)) => (Octets(text) + [0], false)
    case Ok(None) => ([], false)
    case Err(e) => ([], e.NoSuchMethod?)
  }

  /** A written reply is the reply's octets and exactly one 0 byte, at the end;
      a thrown exception writes nothing, and only `NoSuchMethodError` escapes
      `catch (Exception)`. */
  lemma RespondFraming(reply: Result<Option<string>>)
    requires reply.Ok? && reply.value.Some? ==> WireText(reply.value.value)
    ensures reply.Ok? && reply.value.Some? ==>
      |Respond(reply).0| == |reply.value.value| + 1 && IndexOf(Respond(reply).0, 0) == |reply.value.value|
    ensures reply.Ok? && reply.value.None? ==> Respond(reply).0 == []
    ensures reply.Err? ==> Respond(reply).0 == [] && (Respond(reply).1 <==> reply.error.NoSuchMethod?)
  {
    if reply.Ok? && reply.value.Some? {
      var text := reply.value.value;
      var bytes := Octets(text) + [0];
      assert bytes[..|text|] == Octets(text);
      IndexOfFirst(bytes, 0, |text|);
    }
  }

  /** The text a reader takes from `bytes`: the characters before the first 0
      byte, or nothing when there is no 0 byte. */
  function RequestText(bytes: seq<Octet>): (text: Option<string>)
  {
    var k := IndexOf(bytes, 0);
    if k == -1 then None else Some(Chars(bytes[..k]))
  }

  /** What is left unread after that: the bytes after the first 0 byte. */
  function Unread(bytes: seq<Octet>): (rest: seq<Octet>)
  {
    var k := IndexOf(bytes, 0);
    if k == -1 then [] else bytes[k + 1..]
  }

  /** A request sent as its octets and a 0 byte is read back as the same text,
      and whatever follows the terminator is left unread. */
  lemma RequestRoundTrip(text: string, tail: seq<Octet>)
    requires WireText(text)
    ensures RequestText(Octets(text) + [0] + tail) == Some(text)
    ensures Unread(Octets(text) + [0] + tail) == tail
  {
    var bytes := Octets(text) + [0] + tail;
    assert bytes[..|text|] == Octets(text);
    IndexOfFirst(bytes, 0, |text|);
    assert Chars(Octets(text)) == text;
    assert bytes[|text| + 1..] == tail;
  }

  /** A peer that reads a written reply the same way gets the reply text back,
      and nothing is left over. */
  lemma ReplyRoundTrip(text: string)
    requires WireText(text)
    ensures RequestText(Respond(Ok(Some(text))).0) == Some(text)
    ensures Unread(Respond(Ok(Some(text))).0) == []
  {
    RequestRoundTrip(text, []);
    assert Octets(text) + [0] + [] == Octets(text) + [0];
  }

  /** Without a 0 byte there is no request, and the stream is used up. */
  lemma NoTerminator(bytes: seq<Octet>)
    requires 0 !in bytes
    ensures RequestText(bytes) == None && Unread(bytes) == []
  {
  }

  /** One more byte read that is not the terminator. */
  lemma CharsStep(bytes: seq<Octet>, n: nat)
    requires n < |bytes| && bytes[n] != 0 && 0 !in bytes[..n]
    ensures Chars(bytes[..n + 1]) == Chars(bytes[..n]) + [bytes[n] as char]
    ensures 0 !in bytes[..n + 1]
  {
    assert bytes[..n + 1] == bytes[..n] + [bytes[n]];
  }

  /** The inner loop of `ClientHandler.run`: reads until a 0 byte or the end
      of the stream. Returns the text before the 0 byte, or nothing when the
      stream ended first. */
  method ReadRequest(input: ByteSource) returns (request: Option<string>)
    modifies input
    ensures request == RequestText(old(input.rest))
    ensures input.rest == Unread(old(input.rest))
  {
    ghost var bytes := input.rest;
    var text: string := "";
    var ch := input.Read();
    while ch != 0 && ch != -1
      invariant |text| <= |bytes| && 0 !in bytes[..|text|]
      invariant text == Chars(bytes[..|text|])
      invariant ch == -1 ==> |bytes| == |text| && input.rest == []
      invariant ch != -1 ==> |text| < |bytes| && ch == bytes[|text|] && input.rest == bytes[|text| + 1..]
      decreases |bytes| - |text|
    {
      CharsStep(bytes, |text|);
      text := text + [ch as char];
      ch := input.Read();
    }
    if ch == -1 {
      assert bytes[..|text|] == bytes;
      return None;
    }
    IndexOfFirst(bytes, 0, |text|);
    request := Some(text);
  }

  /** `ClientHandler.run`: one request per connection. End of stream before a
      0 byte ends the connection without calling the adapter; otherwise the
      adapter answers the text read, and bytes after the 0 are never read. */
  method HandleClient(wut: WutWrapper, input: ByteSource) returns (written: seq<Octet>, uncaught: bool)
    requires wut.service.Valid()
    modifies input, wut.service.Footprint()
    ensures wut.service.Valid()
    ensures input.rest == Unread(old(input.rest))
    ensures RequestText(old(input.rest)).None? ==>
      written == [] && !uncaught && unchanged(wut.service.Footprint())
    ensures RequestText(old(input.rest)).Some? ==>
      (written, uncaught) == Respond(old(wut.RequestNow(RequestText(input.rest).value)))
    ensures RequestText(old(input.rest)).Some? ==> wut.Served(RequestText(old(input.rest)).value)
  {
    var request := ReadRequest(input);
    if request.None? {
      return [], false;
    }
    assert unchanged(wut.service.Footprint());
    written, uncaught := Answer(wut, request.value);
  }

  /** The rest of `ClientHandler.run`: one `doRequest` call, then the reply
      with its terminator when there is one; an exception writes nothing. */
  method Answer(wut: WutWrapper, request: string) returns (written: seq<Octet>, uncaught: bool)
    requires wut.service.Valid()
    modifies wut.service.Footprint()
    ensures wut.service.Valid()
    ensures (written, uncaught) == Respond(old(wut.RequestNow(request)))
    ensures wut.Served(request)
  {
    var reply := wut.DoRequest(request);
    match reply
    case Ok(Some(text)) =>
      written, uncaught := Octets(text) + [0], false;
    case Ok(None) =>
      written, uncaught := [], false;
    case Err(e) =>
      written, uncaught := [], e.NoSuchMethod?;
  }
}
