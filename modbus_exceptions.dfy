/** The protocol error a Modbus transaction raises: either a plain message, or
    a device-reported exception carrying the response's function code and the
    exception code, with a reason text for the exception code. */
module ModbusExceptions {
  import opened JavaTypes
  import opened Numerals
  import P = ModbusProtocol

  /** The two constructors: a plain message, or a device exception with the
      response's function code and the exception code, whose message is built
      from the two codes. */
  datatype ModbusException =
    | Described(text: string)
    | Coded(errorCode: JInt, exceptionCode: JInt)

  /** `getErrorCode()`: 0 for a plain message, as the field is never set. */
  function GetErrorCode(e: ModbusException): (c: int)
    ensures e.Described? ==> c == 0
    ensures e.Coded? ==> c == e.errorCode
  {
    if e.Coded? then e.errorCode else 0
  }

  /** `getExceptionCode()`: 0 for a plain message. */
  function GetExceptionCode(e: ModbusException): (c: int)
    ensures e.Described? ==> c == 0
    ensures e.Coded? ==> c == e.exceptionCode
  {
    if e.Coded? then e.exceptionCode else 0
  }

  const MessagePrefix: string := "Modbus protocl error: 0x"
  const Unknown: string := "unknow errorcode"

  /** The exception codes the switch names. */
  predicate KnownCode(code: int)
  {
    code in {P.IllegalFunction, P.IllegalDataAddress, P.IllegalDataValue, P.SlaveDeviceFailure,
             P.Acknowledge, P.SlaveDeviceBusy, P.MemoryParityError, P.GatewayPathUnavailable,
             P.GatewayTargetFailedToRespond}
  }

  /** The reason text the switch appends for an exception code. */
  function Reason(code: int): (text: string)
    ensures text == Unknown <==> !KnownCode(code)
  {
    if code == P.IllegalFunction then "illegal function"
    else if code == P.IllegalDataAddress then "illegal data address"
    else if code == P.IllegalDataValue then "illegal data value"
    else if code == P.SlaveDeviceFailure then "slave device failure"
    else if code == P.Acknowledge then "acknowledge"
    else if code == P.SlaveDeviceBusy then "slave device busy"
    else if code == P.MemoryParityError then "memory parity error"
    else if code == P.GatewayPathUnavailable then "gateway path unavailable"
    else if code == P.GatewayTargetFailedToRespond then "gateway target device failed to respond"
    else Unknown
  }

  /** `getMessage()`: the plain message, or for a device exception
      "Modbus protocl error: 0x<error>:0x<exception>: <reason>". */
  function GetMessage(e: ModbusException): (m: string)
    ensures e.Described? ==> m == e.text
    ensures e.Coded? ==> |m| > |MessagePrefix| + |Reason(e.exceptionCode)|
    ensures e.Coded? ==> m[..|MessagePrefix|] == MessagePrefix
    ensures e.Coded? ==> m[|m| - |Reason(e.exceptionCode)|..] == Reason(e.exceptionCode)
  {
    match e
    case Described(text) => text
    case Coded(err, exc) =>
      MessagePrefix + ToHexString(err) + ":0x" + ToHexString(exc) + ": " + Reason(exc)
  }

  /** The message spells both codes in hex, the error code right after the
      prefix and the exception code after ":0x", and ends with ": " and the
      reason; by `HexStringRoundTrip` those
      digits read back as the codes (as Java's unsigned 32-bit view). */
  lemma {:induction false} MessageCarriesCodes(errorCode: JInt, exceptionCode: JInt)
    ensures var m, h1 := GetMessage(Coded(errorCode, exceptionCode)), ToHexString(errorCode);
      |m| > |MessagePrefix| + |h1| && m[|MessagePrefix|..|MessagePrefix| + |h1|] == h1
    ensures var m, h1 := GetMessage(Coded(errorCode, exceptionCode)), ToHexString(errorCode);
      var k := |MessagePrefix| + |h1|;
      |m| >= k + 3 && m[k..k + 3] == ":0x"
    ensures var m, h1, h2 := GetMessage(Coded(errorCode, exceptionCode)), ToHexString(errorCode), ToHexString(exceptionCode);
      var k := |MessagePrefix| + |h1| + 3;
      |m| >= k + |h2| && m[k..k + |h2|] == h2
  ensures var m, h1, h2 := GetMessage(Coded(errorCode, exceptionCode)), ToHexString(errorCode), ToHexString(exceptionCode);
      var k := |MessagePrefix| + |h1| + 3 + |h2|;
      |m| == k + 2 + |Reason(exceptionCode)| && m[k..k + 2] == ": " && m[k + 2..] == Reason(exceptionCode)
  {
    Layout(MessagePrefix, ToHexString(errorCode), ":0x", ToHexString(exceptionCode), ": ", Reason(exceptionCode));
  }

  /** Where the parts of `p + h1 + sep + h2 + sep2 + r` sit. */
  lemma Layout(p: string, h1: string, sep: string, h2: string, sep2: string, r: string)
    ensures var m := p + h1 + sep + h2 + sep2 + r;
      && |m| == |p| + |h1| + |sep| + |h2| + |sep2| + |r|
      && m[|p|..|p| + |h1|] == h1
      && m[|p| + |h1|..|p| + |h1| + |sep|] == sep
      && m[|p| + |h1| + |sep|..|p| + |h1| + |sep| + |h2|] == h2
      && m[|p| + |h1| + |sep| + |h2|..|p| + |h1| + |sep| + |h2| + |sep2|] == sep2
      && m[|p| + |h1| + |sep| + |h2| + |sep2|..] == r
  {
    var m := p + h1 + sep + h2 + sep2 + r;
    assert m[|p|..|p| + |h1|] == (p + h1)[|p|..];
    assert m[|p| + |h1|..|p| + |h1| + |sep|] == (p + h1 + sep)[|p| + |h1|..];
    assert m[|p| + |h1| + |sep|..|p| + |h1| + |sep| + |h2|] == (p + h1 + sep + h2)[|p| + |h1| + |sep|..];
    assert m[|p| + |h1| + |sep| + |h2|..|p| + |h1| + |sep| + |h2| + |sep2|] == (p + h1 + sep + h2 + sep2)[|p| + |h1| + |sep| + |h2|..];
  }
}
