/** The request adapter: a text request names an operation on the port
    service, and the reply reports sixteen ports as four upper-case hex digits
    (`input=XXXX`, `output=XXXX`) or, for a write, nothing. */
module WutWrapper {
  import opened JavaTypes
  import opened Numerals
  import opened Failures
  import opened Services

  const InputRequest: string := "GET /input?"
  const OutputRequest: string := "GET /output?"
  const WriteRequest: string := "GET /outputaccess"
  const InputReply: string := "input="
  const OutputReply: string := "output="
  const StateOn: string := "State=ON"
  const StateOff: string := "State=OFF"

  /** `s.startsWith(p)`. */
  predicate StartsWith(s: string, p: string)
  {
    |p| <= |s| && s[..|p|] == p
  }

  /** `s.contains(p)`, tried at each position from the left. */
  predicate Contains(s: string, p: string)
    decreases |s|
  {
    StartsWith(s, p) || (|p| < |s| && Contains(s[1..], p))
  }

  /** `p` occurs in `s` starting at position `i`. */
  predicate OccursAt(s: string, p: string, i: nat)
  {
    i + |p| <= |s| && s[i..i + |p|] == p
  }

  /** `contains` holds exactly when `p` occurs at some position of `s`. */
  lemma {:induction false} ContainsOccurs(s: string, p: string)
    ensures Contains(s, p) <==> exists i: nat :: OccursAt(s, p, i)
    decreases |s|
  {
    if StartsWith(s, p) {
      assert OccursAt(s, p, 0);
    }
    if |p| < |s| {
      ContainsOccurs(s[1..], p);
      if exists i: nat :: OccursAt(s, p, i) {
        var i: nat :| OccursAt(s, p, i);
        if i > 0 {
          assert s[1..][i - 1..i - 1 + |p|] == p;
          assert OccursAt(s[1..], p, i - 1);
        }
      }
      if Contains(s[1..], p) {
        var i: nat :| OccursAt(s[1..], p, i);
        assert s[i + 1..i + 1 + |p|] == p;
        assert OccursAt(s, p, i + 1);
      }
    } else if exists i: nat :: OccursAt(s, p, i) {
      var i: nat :| OccursAt(s, p, i);
      assert i == 0;
    }
  }

  /** `indexOf(x)`: the first position holding `x`, or -1. */
  function IndexOf<T(==)>(s: seq<T>, x: T): (k: int)
    ensures -1 <= k < |s|
    ensures k == -1 <==> x !in s
    ensures k >= 0 ==> s[k] == x && x !in s[..k]
  {
    if s == [] then -1
    else if s[0] == x then 0
    else
      var k := IndexOf(s[1..], x);
      if k == -1 then -1
      else
        assert s[..k + 1] == [s[0]] + s[1..][..k];
        k + 1
  }

  /** The character the loop prepends for one port. */
  function BitChar(b: bool): char
  {
    if b then '1' else '0'
  }

  /** The binary string `getInputs` builds by prepending each port's digit:
      the last port comes first, port 0 last. */
  function Binary(values: seq<bool>): (s: string)
    ensures |s| == |values|
  {
    if values == [] then "" else Binary(values[1..]) + [BitChar(values[0])]
  }

  /** Prepending the digit of one more port extends the string on the left. */
  lemma {:induction false} BinaryPush(values: seq<bool>, b: bool)
    ensures Binary(values + [b]) == [BitChar(b)] + Binary(values)
  {
    if values != [] {
      assert (values + [b])[1..] == values[1..] + [b];
      BinaryPush(values[1..], b);
    }
  }

  /** The binary string is all binary digits, and its value is the ports'
      value, port i weighing 2^i. */
  lemma {:induction false} BinaryDigits(values: seq<bool>)
    ensures AllDigits(Binary(values), 2)
    ensures DigitsValue(Binary(values), 2) == BitsValue(values)
  {
    if values != [] {
      BinaryDigits(values[1..]);
      var s := Binary(values);
      assert s[..|s| - 1] == Binary(values[1..]);
      assert Digit(s[|s| - 1], 2) == if values[0] then 1 else 0;
    }
  }

  lemma {:induction false} Pow2Monotone(a: nat, b: nat)
    requires a <= b
    ensures Pow2(a) <= Pow2(b)
    decreases b
  {
    if a < b {
      Pow2Monotone(a, b - 1);
    }
  }

  lemma Pow2Of31()
    ensures Pow2(31) == 0x8000_0000
  {
    Pow2Of16();
    assert Pow2(20) == 0x10_0000;
    assert Pow2(24) == 0x100_0000;
    assert Pow2(28) == 0x1000_0000;
  }

  /** `Integer.parseInt(binary, 2)` reads back the ports' value when there are
      between 1 and 31 ports. */
  lemma ParseBinary(values: seq<bool>)
    requires 1 <= |values| <= 31
    ensures ParseInt(Binary(values), 2) == Some(BitsValue(values))
  {
    BinaryDigits(values);
    assert BitsValue(values) < 0x8000_0000 by {
      Pow2Monotone(|values|, 31);
      Pow2Of31();
    }
    ParseUnsigned(Binary(values), 2);
  }

  /** `"input=" + String.format("%04X", Integer.parseInt(binary, 2))`, or the
      exception `parseInt` throws. */
  function BitsReply(prefix: string, values: seq<bool>): (r: Result<string>)
  {
    var binary := Binary(values);
    match ParseInt(binary, 2)
    case None => Err(NumberFormat(binary))
    case Some(v) => Ok(prefix + Format04X(v))
  }

  /** Sixteen ports give the prefix and exactly the four upper-case hex digits
      of the ports' value. */
  lemma SixteenPortsReply(prefix: string, values: seq<bool>)
    requires |values| == 16
    ensures BitsValue(values) < 0x1_0000
    ensures BitsReply(prefix, values) == Ok(prefix + Hex4Digits(BitsValue(values)))
    ensures |BitsReply(prefix, values).value| == |prefix| + 4
  {
    ParseBinary(values);
    Pow2Of16();
    Format04XOf16Bit(BitsValue(values));
  }

  /** No ports give an empty binary string, which `parseInt` refuses. */
  lemma NoPortsReply(prefix: string)
    ensures BitsReply(prefix, []) == Err(NumberFormat(""))
  {
  }

  /** Sixteen ports whose value has the hex digits `digits` reply with them. */
  lemma SixteenPortsDigits(prefix: string, values: seq<bool>, v: nat, digits: string)
    requires |values| == 16 && BitsValue(values) == v
    requires v < 0x1_0000 && Hex4Digits(v) == digits
    ensures BitsReply(prefix, values) == Ok(prefix + digits)
  {
    SixteenPortsReply(prefix, values);
  }

  /** Port 0 alone on reads as 0001. */
  lemma PortZeroReply(values: seq<bool>)
    requires |values| == 16 && values[0]
    requires forall i :: 1 <= i < 16 ==> !values[i]
    ensures BitsReply(InputReply, values) == Ok(InputReply + "0001")
  {
    PortZeroValue(values);
    Hex4Literals();
    SixteenPortsDigits(InputReply, values, 1, "0001");
  }

  /** Ports 0 and 1 on read as 0003. */
  lemma PortsZeroOneReply(values: seq<bool>)
    requires |values| == 16 && values[0] && values[1]
    requires forall i :: 2 <= i < 16 ==> !values[i]
    ensures BitsReply(InputReply, values) == Ok(InputReply + "0003")
  {
    LowPortsThree(values);
    Hex4Literals();
    SixteenPortsDigits(InputReply, values, 3, "0003");
  }

  /** Ports 0, 1 and 15 on read as 8003. */
  lemma PortsZeroOneFifteenReply(values: seq<bool>)
    requires |values| == 16 && values[0] && values[1] && values[15]
    requires forall i :: 2 <= i < 15 ==> !values[i]
    ensures BitsReply(InputReply, values) == Ok(InputReply + "8003")
  {
    PortsZeroOneFifteenValue(values);
    Hex4Literals();
    SixteenPortsDigits(InputReply, values, 0x8003, "8003");
  }

  lemma PortZeroValue(values: seq<bool>)
    requires 1 <= |values| && values[0]
    requires forall i :: 1 <= i < |values| ==> !values[i]
    ensures BitsValue(values) == 1
  {
    BitsValueOfLowPorts(values, 1);
    assert values[..1] == [true];
  }

  lemma PortsZeroOneFifteenValue(values: seq<bool>)
    requires |values| == 16 && values[0] && values[1] && values[15]
    requires forall i :: 2 <= i < 15 ==> !values[i]
    ensures BitsValue(values) == 0x8003
  {
    var low := values[..15];
    assert values == low + [true];
    LowPortsThree(low);
    BitsValueAppend(low, [true]);
    assert BitsValue([true]) == 1;
    assert Pow2(15) == 0x8000 by { Pow2Of16(); }
  }

  lemma Hex4Literals()
    ensures Hex4Digits(1) == "0001"
    ensures Hex4Digits(3) == "0003"
    ensures Hex4Digits(0x8003) == "8003"
  {
    assert DigitChar(0, true) == '0' && DigitChar(1, true) == '1';
    assert DigitChar(3, true) == '3' && DigitChar(8, true) == '8';
  }

  /** Ports 0 and 1 on, the rest off, weigh 3. */
  lemma LowPortsThree(values: seq<bool>)
    requires 2 <= |values| && values[0] && values[1]
    requires forall i :: 2 <= i < |values| ==> !values[i]
    ensures BitsValue(values) == 3
  {
    BitsValueOfLowPorts(values, 2);
    assert values[..2] == [true, true];
    assert [true, true][1..] == [true];
  }

  /** The ports after `a` weigh 2^|a| times their own value. */
  lemma {:induction false} BitsValueAppend(a: seq<bool>, b: seq<bool>)
    ensures BitsValue(a + b) == BitsValue(a) + Pow2(|a|) * BitsValue(b)
  {
    if a == [] {
      assert a + b == b;
    } else {
      assert (a + b)[1..] == a[1..] + b;
      BitsValueAppend(a[1..], b);
      var x := if a[0] then 1 else 0;
      AppendStep(x, BitsValue(a[1..]), Pow2(|a| - 1), BitsValue(b));
    }
  }

  lemma AppendStep(x: int, r: int, p: int, w: int)
    ensures x + 2 * (r + p * w) == (x + 2 * r) + (2 * p) * w
  {
  }

  /** Ports at or above `n` that are all off add nothing. */
  lemma {:induction false} BitsValueOfLowPorts(values: seq<bool>, n: nat)
    requires n <= |values| && forall i :: n <= i < |values| ==> !values[i]
    ensures BitsValue(values) == BitsValue(values[..n])
    decreases n
  {
    if n == 0 {
      ZeroPorts(values);
    } else {
      BitsValueOfLowPorts(values[1..], n - 1);
      assert values[1..][..n - 1] == values[..n][1..];
    }
  }

  lemma {:induction false} ZeroPorts(values: seq<bool>)
    requires forall i :: 0 <= i < |values| ==> !values[i]
    ensures BitsValue(values) == 0
  {
    if values != [] {
      ZeroPorts(values[1..]);
    }
  }

  /** A virtual service whose outputs were set from four hex digits reports
      them back in upper case. */
  lemma OutputsRoundTrip(h: string)
    requires |h| == 4 && AllDigits(h, 16)
    ensures ParseInt(h, 16).Some?
    ensures BitsReply(OutputReply, LowBits(ParseInt(h, 16).value, PortCount)) == Ok(OutputReply + UpperHex(h))
  {
    ParseHex4(h);
    var v := DigitsValue(h, 16);
    UpperHexDigits(h);
    var bits := LowBits(v, PortCount);
    assert BitsValue(bits) == v by {
      LowBitsValue(v);
      ModSmall(v, 0x1_0000);
    }
    SixteenPortsDigits(OutputReply, bits, v, UpperHex(h));
  }

  /** Four hex digits written back by `%04X` come out in upper case. */
  lemma UpperHexDigits(h: string)
    requires |h| == 4 && AllDigits(h, 16)
    ensures DigitsValue(h, 16) < 0x1_0000
    ensures Hex4Digits(DigitsValue(h, 16)) == UpperHex(h)
  {
    Hex4DigitsOfValue(h);
    UpperHex4(h);
  }

  /** The reply to a read: the service's failure, or the formatted ports. */
  function Reply(prefix: string, read: Result<seq<bool>>): (r: Result<string>)
    ensures read.Err? ==> r == Err(read.error)
    ensures read.Ok? ==> r == BitsReply(prefix, read.value)
  {
    if read.Err? then Err(read.error) else BitsReply(prefix, read.value)
  }

  /** What `writeOutput` asks of the service: a port and a state, nothing when
      the request names neither state, or the exception the parsing throws.
      The port is parsed first, so a non-numeric port throws even when no
      state follows. */
  function ParseWrite(req: string): (r: Result<Option<(JInt, bool)>>)
    ensures '?' !in req ==> r == Err(StringIndexOutOfBounds)
    ensures IndexOf(req, '?') < |WriteRequest| ==> r == Err(StringIndexOutOfBounds)
    ensures var q := IndexOf(req, '?');
      |WriteRequest| <= q && ParseInt(req[|WriteRequest|..q], 10).None? ==>
        r == Err(NumberFormat(req[|WriteRequest|..q]))
    ensures var q := IndexOf(req, '?');
      |WriteRequest| <= q && ParseInt(req[|WriteRequest|..q], 10).Some? ==>
        r.Ok? && (r.value.Some? ==> r.value.value.0 == ParseInt(req[|WriteRequest|..q], 10).value)
    ensures r.Ok? ==> exists q :: |WriteRequest| <= q < |req| && req[q] == '?' && '?' !in req[..q]
    ensures r.Ok? && r.value.Some? ==> exists q :: (|WriteRequest| <= q < |req| && req[q] == '?'
      && '?' !in req[..q] && ParseInt(req[|WriteRequest|..q], 10) == Some(r.value.value.0))
    ensures r.Ok? ==> (r.value.None? <==> !Contains(req, StateOn) && !Contains(req, StateOff))
    ensures r.Ok? && r.value.Some? ==> (r.value.value.1 <==> Contains(req, StateOn))
  {
    var q := IndexOf(req, '?');
    if q < |WriteRequest| then Err(StringIndexOutOfBounds)
    else
      match ParseInt(req[|WriteRequest|..q], 10)
      case None => Err(NumberFormat(req[|WriteRequest|..q]))
      case Some(port) =>
        if Contains(req, StateOn) then Ok(Some((port, true)))
        else if Contains(req, StateOff) then Ok(Some((port, false)))
        else Ok(None)
  }

  /** The position of the first `x` is the index of `x`. */
  lemma IndexOfFirst<T>(s: seq<T>, x: T, q: nat)
    requires q < |s| && s[q] == x && x !in s[..q]
    ensures IndexOf(s, x) == q
  {
    assert forall j :: 0 <= j < q ==> s[..q][j] == s[j];
  }

  /** The port number of a write request sits between the path and the `?`. */
  lemma WritePort(digits: string, state: string)
    requires '?' !in digits
    ensures IndexOf(WriteRequest + digits + "?" + state, '?') == |WriteRequest| + |digits|
    ensures (WriteRequest + digits + "?" + state)[|WriteRequest|..|WriteRequest| + |digits|] == digits
  {
    var req := WriteRequest + digits + "?" + state;
    var q := |WriteRequest| + |digits|;
    assert req[..q] == WriteRequest + digits;
    assert '?' !in WriteRequest;
    IndexOfFirst(req, '?', q);
  }

  /** `GET /outputaccess<port>?State=ON` switches the port on. */
  lemma WriteOnRequest(digits: string, port: JInt)
    requires '?' !in digits && ParseInt(digits, 10) == Some(port)
    ensures ParseWrite(WriteRequest + digits + "?" + StateOn) == Ok(Some((port, true)))
  {
    WritePort(digits, StateOn);
    ContainsSuffix(WriteRequest + digits + "?", StateOn);
  }

  /** A string contains what it ends with. */
  lemma ContainsSuffix(s: string, p: string)
    ensures Contains(s + p, p)
  {
    assert (s + p)[|s|..|s| + |p|] == p;
    assert OccursAt(s + p, p, |s|);
    ContainsOccurs(s + p, p);
  }

  /** `GET /outputaccess<port>?State=OFF` switches the port off: the request
      does not contain `State=ON`. */
  lemma WriteOffRequest(digits: string, port: JInt)
    requires AllDigits(digits, 10) && ParseInt(digits, 10) == Some(port)
    ensures ParseWrite(WriteRequest + digits + "?" + StateOff) == Ok(Some((port, false)))
  {
    var req := WriteRequest + digits + "?" + StateOff;
    var q := |WriteRequest| + |digits|;
    assert '?' !in digits by {
      forall i | 0 <= i < |digits|
        ensures digits[i] != '?'
      {
        assert Digit(digits[i], 10) >= 0;
      }
    }
    WritePort(digits, StateOff);
    ContainsSuffix(WriteRequest + digits + "?", StateOff);
    forall i: nat
      ensures !OccursAt(req, StateOn, i)
    {
      NoStateOnAt(digits, i);
    }
    ContainsOccurs(req, StateOn);
  }

  lemma NoStateOnAt(digits: string, i: nat)
    requires AllDigits(digits, 10)
    ensures !OccursAt(WriteRequest + digits + "?" + StateOff, StateOn, i)
  {
    var req := WriteRequest + digits + "?" + StateOff;
    var q := |WriteRequest| + |digits|;
    if i + |StateOn| <= |req| {
      var w := req[i..i + |StateOn|];
      assert w[0] == req[i] && w[7] == req[i + 7];
      if i < |WriteRequest| {
        assert req[i] == WriteRequest[i];
        assert 'S' !in WriteRequest;
      } else if i < q {
        assert req[i] == digits[i - |WriteRequest|];
        assert Digit(digits[i - |WriteRequest|], 10) >= 0;
      } else if i == q + 1 {
        assert req[i + 7] == 'F';
      } else {
        assert req[i] == if i == q then '?' else 't';
      }
    }
  }

  /** ASCII without NUL: `getBytes` writes one non-zero octet for each character,
      so the terminator cannot occur inside the text. */
  predicate WireText(s: string)
  {
    forall i :: 0 <= i < |s| ==> 0 < s[i] as int < 128
  }

  lemma {:induction false} HexDigitsWireText(n: nat)
    ensures WireText(HexDigits(n, true))
  {
    if n >= 16 {
      HexDigitsWireText(n / 16);
    }
  }

  /** Every reply the adapter gives is ASCII. */
  lemma ReplyWireText(prefix: string, read: Result<seq<bool>>)
    requires WireText(prefix)
    ensures Reply(prefix, read).Ok? ==> WireText(Reply(prefix, read).value)
  {
    if read.Ok? {
      var p := ParseInt(Binary(read.value), 2);
      if p.Some? {
        HexDigitsWireText(p.value as int % 0x1_0000_0000);
      }
    }
  }

  /** The adapter over one port service. */
  class WutWrapper {
    const service: Service

    constructor (service: Service)
      ensures this.service == service
    {
      this.service := service;
    }

    /** What `doRequest(req)` returns if called now: a reply, null, or an exception. */
    ghost function RequestNow(req: string): (r: Result<Option<string>>)
      reads service.Footprint()
      ensures r.Ok? && r.value.Some? ==> WireText(r.value.value)
    {
      if StartsWith(req, InputRequest) then
        ReplyWireText(InputReply, service.InputsNow());
        Lift(Reply(InputReply, service.InputsNow()))
      else if StartsWith(req, OutputRequest) then
        ReplyWireText(OutputReply, service.OutputsNow());
        Lift(Reply(OutputReply, service.OutputsNow()))
      else if StartsWith(req, WriteRequest) then
        match WriteNow(req)
        case Pass => Ok(None)
        case Fail(e) => Err(e)
      else Err(NoSuchMethod(req))
    }

    /** What `writeOutput(req)` does if called now. */
    ghost function WriteNow(req: string): Outcome
      reads service.Footprint()
    {
      match ParseWrite(req)
      case Err(e) => Fail(e)
      case Ok(None) => Pass
      case Ok(Some((port, value))) => service.SetOutputNow(port, value)
    }

    /** The service's state after `writeOutput(req)`: one `setOutput` call
        when the request names a port and a state, untouched otherwise. */
    twostate predicate Written(req: string)
      reads service.Footprint()
    {
      match ParseWrite(req)
      case Ok(Some((port, value))) => service.OutputSet(port, value)
      case _ => unchanged(service.Footprint())
    }

    /** The service's state after `doRequest(req)`, following the same
        dispatch: a read of the inputs or outputs, a write, or nothing. */
    twostate predicate Served(req: string)
      reads service.Footprint()
    {
      if StartsWith(req, InputRequest) then service.InputsRead()
      else if StartsWith(req, OutputRequest) then service.OutputsRead()
      else if StartsWith(req, WriteRequest) then Written(req)
      else unchanged(service.Footprint())
    }

    /** `getInputs`: the inputs as `input=` and four hex digits. */
    method GetInputs() returns (r: Result<string>)
      requires service.Valid()
      modifies service.Footprint()
      ensures service.Valid()
      ensures r == Reply(InputReply, old(service.InputsNow()))
      ensures service.InputsRead()
      ensures service.VirtualBacked? ==> unchanged(service.Footprint())
    {
      var values := service.GetInputs();
      if values.Err? {
        return Err(values.error);
      }
      var binary := BinaryString(values.value);
      var parsed := ParseInt(binary, 2);
      if parsed.None? {
        return Err(NumberFormat(binary));
      }
      r := Ok(InputReply + Format04X(parsed.value));
    }

    /** `getOutputs`: the outputs as `output=` and four hex digits. */
    method GetOutputs() returns (r: Result<string>)
      requires service.Valid()
      modifies service.Footprint()
      ensures service.Valid()
      ensures r == Reply(OutputReply, old(service.OutputsNow()))
      ensures service.OutputsRead()
      ensures service.VirtualBacked? ==> unchanged(service.Footprint())
    {
      var values := service.GetOutputs();
      if values.Err? {
        return Err(values.error);
      }
      var binary := BinaryString(values.value);
      var parsed := ParseInt(binary, 2);
      if parsed.None? {
        return Err(NumberFormat(binary));
      }
      r := Ok(OutputReply + Format04X(parsed.value));
    }

    /** `writeOutput`: parses the port and state, then one `setOutput` call. */
    method WriteOutput(req: string) returns (r: Outcome)
      requires service.Valid()
      modifies service.Footprint()
      ensures service.Valid()
      ensures r == old(WriteNow(req))
      ensures Written(req)
      ensures ParseWrite(req).Err? || ParseWrite(req).value.None? ==> unchanged(service.Footprint())
      ensures service.VirtualBacked? && ParseWrite(req).Ok? && ParseWrite(req).value.Some? && r.Pass? ==>
        service.v.outputs[..] == old(service.v.outputs[..])[ParseWrite(req).value.value.0 := ParseWrite(req).value.value.1]
    {
      var command := ParseWrite(req);
      if command.Err? {
        return Fail(command.error);
      }
      if command.value.None? {
        return Pass;
      }
      var (port, value) := command.value.value;
      r := service.SetOutput(port, value);
    }

    /** `doRequest`: the prefixes are tried in order; anything else is refused
      without touching the service. */
    method DoRequest(req: string) returns (r: Result<Option<string>>)
      requires service.Valid()
      modifies service.Footprint()
      ensures service.Valid()
      ensures r == old(RequestNow(req))
      ensures Served(req)
      ensures StartsWith(req, InputRequest) ==> r == Lift(Reply(InputReply, old(service.InputsNow())))
      ensures !StartsWith(req, InputRequest) && StartsWith(req, OutputRequest) ==>
        r == Lift(Reply(OutputReply, old(service.OutputsNow())))
      ensures !StartsWith(req, InputRequest) && !StartsWith(req, OutputRequest) && StartsWith(req, WriteRequest) ==>
        r.Ok? ==> r.value.None?
      ensures !StartsWith(req, InputRequest) && !StartsWith(req, OutputRequest) && !StartsWith(req, WriteRequest) ==>
        r == Err(NoSuchMethod(req)) && unchanged(service.Footprint())
      ensures r.Ok? && r.value.Some? ==> WireText(r.value.value)
    {
      if StartsWith(req, InputRequest) {
        var reply := GetInputs();
        r := Lift(reply);
      } else if StartsWith(req, OutputRequest) {
        var reply := GetOutputs();
        r := Lift(reply);
      } else if StartsWith(req, WriteRequest) {
        var outcome := WriteOutput(req);
        r := if outcome.Pass? then Ok(None) else Err(outcome.error);
      } else {
        r := Err(NoSuchMethod(req));
      }
    }

    /** `shutdown`: closes the service. */
    method Shutdown()
      modifies service.Footprint()
      ensures service.Closed()
    {
      service.Close();
    }
  }

  /** A reply as `doRequest` returns it: present on success. */
  function Lift(reply: Result<string>): (r: Result<Option<string>>)
    ensures r.Ok? <==> reply.Ok?
    ensures r.Ok? ==> r.value == Some(reply.value)
    ensures r.Err? ==> r.error == reply.error
  {
    if reply.Ok? then Ok(Some(reply.value)) else Err(reply.error)
  }

  /** The loop of `getInputs` and `getOutputs`: each port's digit is put in
      front of the string built so far. */
  method BinaryString(values: array<bool>) returns (s: string)
    ensures s == Binary(values[..])
  {
    s := "";
    for i := 0 to values.Length
      invariant s == Binary(values[..i])
    {
      BinaryPush(values[..i], values[i]);
      assert values[..i + 1] == values[..i] + [values[i]];
      s := [BitChar(values[i])] + s;
    }
    assert values[..values.Length] == values[..];
  }

  /** A write request goes to `writeOutput`: it begins with the write path
      and with neither read path. */
  lemma WriteDispatch(digits: string, state: string)
    ensures StartsWith(WriteRequest + digits + "?" + state, WriteRequest)
    ensures !StartsWith(WriteRequest + digits + "?" + state, InputRequest)
    ensures !StartsWith(WriteRequest + digits + "?" + state, OutputRequest)
  {
    var req := WriteRequest + digits + "?" + state;
    assert req[..|WriteRequest|] == WriteRequest;
    assert req[5] == 'o' != InputRequest[5];
    assert req[11] == 'a' != OutputRequest[11];
  }

  /** One write request on a virtual service: `doRequest` stores `value` at
      `port` and nothing else. */
  method WriteVirtual(wut: WutWrapper, req: string, port: JInt, value: bool)
    requires wut.service.VirtualBacked? && wut.service.Valid()
    requires StartsWith(req, WriteRequest) && !StartsWith(req, InputRequest) && !StartsWith(req, OutputRequest)
    requires ParseWrite(req) == Ok(Some((port, value))) && 0 <= port < PortCount
    modifies wut.service.Footprint()
    ensures wut.service.Valid()
    ensures wut.service.v.outputs[..] == old(wut.service.v.outputs[..])[port := value]
    ensures unchanged(wut.service.v.inputs)
  {
    var r := wut.DoRequest(req);
  }

  /** The adapter's write test on a virtual service: `GET /outputaccess<N>?State=ON`
      switches output N on, then `GET /outputaccess<N>?State=OFF` switches it off
      again, and no other port changes on the way. */
  method SwitchOnOff(wut: WutWrapper, digits: string, port: JInt) returns (on: bool, off: bool)
    requires wut.service.VirtualBacked? && wut.service.Valid()
    requires AllDigits(digits, 10) && ParseInt(digits, 10) == Some(port) && 0 <= port < PortCount
    modifies wut.service.Footprint()
    ensures on && !off
    ensures wut.service.v.outputs[..] == old(wut.service.v.outputs[..])[port := false]
    ensures unchanged(wut.service.v.inputs)
  {
    var outputs := wut.service.v.outputs;
    ghost var before := outputs[..];
    var request := WriteRequest + digits + "?" + StateOn;
    assert '?' !in digits by {
      forall i | 0 <= i < |digits|
        ensures digits[i] != '?'
      {
        assert Digit(digits[i], 10) >= 0;
      }
    }
    WriteOnRequest(digits, port);
    WriteDispatch(digits, StateOn);
    WriteVirtual(wut, request, port, true);
    on := outputs[port];
    request := WriteRequest + digits + "?" + StateOff;
    WriteOffRequest(digits, port);
    WriteDispatch(digits, StateOff);
    WriteVirtual(wut, request, port, false);
    off := outputs[port];
    assert before[port := true][port := false] == before[port := false];
  }
}
