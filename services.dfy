/** The two port services behind the adapter. `ModbusConnectionService` reads
    sixteen discrete inputs and sixteen coils of a Modbus device through the
    client and writes single coils; `VirtualConnectionService` keeps sixteen
    inputs and sixteen outputs in memory, set from hex strings. The
    `ConnectionService` interface is the sum `Service` of the two. */
module Services {
  import opened JavaTypes
  import opened Numerals
  import opened Failures
  import opened ModbusClient
  import P = ModbusProtocol

  /** `input_count`, `output_count`, and the length of the virtual arrays. */
  const PortCount: nat := 16

  /** The first `n` bits of a bit set, as `values[i] = set.get(i)` copies them. */
  function BitsOf(bits: BitSet, n: nat): (values: seq<bool>)
    ensures |values| == n && forall i :: 0 <= i < n ==> values[i] == bits.Get(i)
  {
    seq(n, i requires 0 <= i => bits.Get(i))
  }

  /** The first sixteen bits of a read, or the read's failure. */
  function Sixteen(read: Result<BitSet>): (r: Result<seq<bool>>)
    ensures r.Ok? <==> read.Ok?
    ensures r.Ok? ==> r.value == BitsOf(read.value, PortCount)
    ensures r.Err? ==> r.error == read.error
  {
    if read.Ok? then Ok(BitsOf(read.value, PortCount)) else Err(read.error)
  }

  /** The value of a bit sequence, bit 0 first: the sum of `2^i` over the set bits. */
  function BitsValue(bits: seq<bool>): (v: nat)
    ensures v < Pow2(|bits|)
  {
    if bits == [] then 0 else (if bits[0] then 1 else 0) + 2 * BitsValue(bits[1..])
  }

  /** The first `n` bits of a non-negative number, least significant first. */
  function NatBits(u: nat, n: nat): (bits: seq<bool>)
    ensures |bits| == n && forall i :: 0 <= i < n ==> bits[i] == Bit(u, i)
  {
    seq(n, i requires 0 <= i => Bit(u, i))
  }

  /** `((1 << i) & v) != 0` for i below `n` (at most 32): bit i of the int's
      two's complement. */
  function LowBits(v: JInt, n: nat): (bits: seq<bool>)
    requires n <= 32
    ensures |bits| == n && forall i :: 0 <= i < n ==> bits[i] == Bit(v % 0x1_0000_0000, i)
  {
    NatBits(v % 0x1_0000_0000, n)
  }

  /** Division with remainder has one answer. */
  lemma ModUnique(u: int, d: int, k: int, r: int)
    requires d > 0 && u == d * k + r && 0 <= r < d
    ensures u % d == r
  {
    var m := k - u / d;
    assert d * m == u % d - r;
    assert m == 0;
  }

  /** The remainder modulo 2p, taken one bit at a time. */
  lemma ModSplit(u: nat, p: nat)
    requires p >= 1
    ensures u % (2 * p) == u % 2 + 2 * ((u / 2) % p)
  {
    var q := u / 2;
    assert u == 2 * q + u % 2;
    assert q == p * (q / p) + q % p;
    assert u == (2 * p) * (q / p) + (u % 2 + 2 * (q % p));
    ModUnique(u, 2 * p, q / p, u % 2 + 2 * (q % p));
  }

  /** The first n bits of u, read back as a number, are u modulo 2^n. */
  lemma {:induction false} BitsValueOfBits(u: nat, n: nat)
    ensures BitsValue(NatBits(u, n)) == u % Pow2(n)
  {
    if n > 0 {
      var bits := NatBits(u, n);
      BitsValueOfBits(u / 2, n - 1);
      assert bits[1..] == NatBits(u / 2, n - 1);
      assert bits[0] <==> u % 2 == 1;
      ModSplit(u, Pow2(n - 1));
    }
  }

  lemma Pow2Of16()
    ensures Pow2(16) == 0x1_0000
  {
    assert Pow2(4) == 16;
    assert Pow2(8) == 256;
    assert Pow2(12) == 4096;
  }

  /** A service's sixteen ports hold the low sixteen bits of the int: bits 16
      and above are dropped. */
  lemma LowBitsValue(v: JInt)
    ensures BitsValue(LowBits(v, PortCount)) == v % 0x1_0000
  {
    var u := v % 0x1_0000_0000;
    var bits := NatBits(u, PortCount);
    assert LowBits(v, PortCount) == bits;
    var w := BitsValue(bits);
    assert w == u % 0x1_0000 by {
      BitsValueOfBits(u, PortCount);
      Pow2Of16();
    }
    assert u % 0x1_0000 == v % 0x1_0000 by {
      ModUnique(v, 0x1_0000, v / 0x1_0000_0000 * 0x1_0000 + u / 0x1_0000, u % 0x1_0000);
    }
  }

  /** Copies the first sixteen bits of a bit set into a fresh array. */
  method ToArray(bits: BitSet) returns (values: array<bool>)
    ensures fresh(values) && values[..] == BitsOf(bits, PortCount)
  {
    values := new bool[PortCount];
    for i := 0 to PortCount
      invariant forall j :: 0 <= j < i ==> values[j] == bits.Get(j)
    {
      values[i] := bits.Get(i);
    }
  }

  /** The loop of `setInputs` and `setOutputs`: element i becomes bit i of `v`. */
  method Fill(a: array<bool>, v: JInt)
    requires a.Length == PortCount
    modifies a
    ensures a[..] == LowBits(v, PortCount)
  {
    for i := 0 to a.Length
      invariant forall j :: 0 <= j < i ==> a[j] == Bit(v % 0x1_0000_0000, j)
    {
      a[i] := Bit(v % 0x1_0000_0000, i);
    }
  }

  /** A service backed by a Modbus device. */
  class ModbusConnectionService {
    const client: Client

    ghost predicate Valid()
      reads client, client.input
    {
      client.Valid()
    }

    /** Wraps a connected client. */
    constructor (client: Client)
      requires client.Valid()
      ensures Valid() && this.client == client
    {
      this.client := client;
    }

    /** The transaction `readInputs(0, 16)` performs if called now. */
    ghost function InputsTx(): Transaction
      reads client, client.input
    {
      Exchange(TwoShortRequest(P.ReadDiscreteInputs, 0, PortCount),
               NextTransactionId(client.currentTransactionIdent), client.closed, client.input.Pending())
    }

    /** The transaction `readOutputs(0, 16)` performs if called now. */
    ghost function OutputsTx(): Transaction
      reads client, client.input
    {
      Exchange(TwoShortRequest(P.ReadCoils, 0, PortCount),
               NextTransactionId(client.currentTransactionIdent), client.closed, client.input.Pending())
    }

    /** The transaction `writeOutput(port, value)` performs if called now. */
    ghost function SetOutputTx(port: JInt, value: bool): Transaction
      reads client, client.input
    {
      Exchange(TwoShortRequest(P.WriteSingleCoil, port, CoilValue(value)),
               NextTransactionId(client.currentTransactionIdent), client.closed, client.input.Pending())
    }

    /** The client has gone through `tx` since the old state: the counter
        stepped once, `tx.sent` was written, `tx.consumed` bytes were read,
        and the socket is as open or closed as it was. */
    twostate predicate Performed(tx: Transaction)
      reads client, client.input
    {
      && client.currentTransactionIdent == NextTransactionId(old(client.currentTransactionIdent))
      && client.closed == old(client.closed)
      && client.written == old(client.written) + tx.sent
      && tx.consumed <= |old(client.input.Pending())|
      && client.input.Pending() == old(client.input.Pending())[tx.consumed..]
    }

    /** What `readInputs(0, 16)` followed by `getInputs`' copy returns if called now. */
    ghost function InputsNow(): Result<seq<bool>>
      reads client, client.input
    {
      Sixteen(ReadResult(InputsTx()))
    }

    /** What `readOutputs(0, 16)` followed by `getOutputs`' copy returns if called now. */
    ghost function OutputsNow(): Result<seq<bool>>
      reads client, client.input
    {
      Sixteen(ReadResult(OutputsTx()))
    }

    /** What `writeOutput(port, value)` does to the caller if called now. */
    ghost function SetOutputNow(port: JInt, value: bool): Outcome
      reads client, client.input
    {
      var tx := SetOutputTx(port, value);
      if tx.result.Ok? then Pass else Fail(tx.result.error)
    }

    /** `getInputs`: reads inputs 0..15 and copies the bits into a fresh array. */
    method GetInputs() returns (r: Result<array<bool>>)
      requires Valid()
      modifies client`currentTransactionIdent, client`written, client.input
      ensures Valid()
      ensures Performed(old(InputsTx()))
      ensures r.Ok? ==> fresh(r.value)
      ensures r.Ok? <==> old(InputsNow()).Ok?
      ensures r.Ok? ==> r.value[..] == old(InputsNow()).value
      ensures r.Err? ==> r.error == old(InputsNow()).error
    {
      var bits := client.ReadInputs(0, PortCount);
      if bits.Err? {
        return Err(bits.error);
      }
      var values := ToArray(bits.value);
      r := Ok(values);
    }

    /** `getOutputs`: reads coils 0..15 and copies the bits into a fresh array. */
    method GetOutputs() returns (r: Result<array<bool>>)
      requires Valid()
      modifies client`currentTransactionIdent, client`written, client.input
      ensures Valid()
      ensures Performed(old(OutputsTx()))
      ensures r.Ok? ==> fresh(r.value)
      ensures r.Ok? <==> old(OutputsNow()).Ok?
      ensures r.Ok? ==> r.value[..] == old(OutputsNow()).value
      ensures r.Err? ==> r.error == old(OutputsNow()).error
    {
      var bits := client.ReadOutputs(0, PortCount);
      if bits.Err? {
        return Err(bits.error);
      }
      var values := ToArray(bits.value);
      r := Ok(values);
    }

    /** `setOutput`: forwards the port and value to `writeOutput` unchecked. */
    method SetOutput(port: JInt, value: bool) returns (r: Outcome)
      requires Valid()
      modifies client`currentTransactionIdent, client`written, client.input
      ensures Valid()
      ensures Performed(old(SetOutputTx(port, value)))
      ensures r == old(SetOutputNow(port, value))
    {
      r := client.WriteOutput(port, value);
    }

    /** `close`: disconnects the client. */
    method Close()
      modifies client`closed
      ensures client.closed
    {
      client.Disconnect();
    }
  }

  /** A service whose ports live in two arrays of sixteen booleans. */
  class VirtualConnectionService {
    var running: bool
    const inputs: array<bool>
    const outputs: array<bool>

    ghost predicate Valid()
    {
      inputs.Length == PortCount && outputs.Length == PortCount && inputs != outputs
    }

    /** All ports low; the console thread is not part of this model. */
    constructor ()
      ensures Valid() && running && fresh(inputs) && fresh(outputs)
      ensures inputs[..] == seq(PortCount, _ => false) && outputs[..] == seq(PortCount, _ => false)
    {
      running := true;
      inputs := new bool[PortCount](_ => false);
      outputs := new bool[PortCount](_ => false);
    }

    /** `setInputs`: parses hex, then sets input i to bit i of the value. */
    method SetInputs(values: string) returns (r: Outcome)
      requires Valid()
      modifies inputs
      ensures ParseInt(values, 16).None? ==> r == Fail(NumberFormat(values)) && unchanged(inputs)
      ensures ParseInt(values, 16).Some? ==> r == Pass && inputs[..] == LowBits(ParseInt(values, 16).value, PortCount)
    {
      var parsed := ParseInt(values, 16);
      if parsed.None? {
        return Fail(NumberFormat(values));
      }
      Fill(inputs, parsed.value);
      r := Pass;
    }

    /** `setOutputs`: parses hex, then sets output i to bit i of the value. */
    method SetOutputs(values: string) returns (r: Outcome)
      requires Valid()
      modifies outputs
      ensures ParseInt(values, 16).None? ==> r == Fail(NumberFormat(values)) && unchanged(outputs)
      ensures ParseInt(values, 16).Some? ==> r == Pass && outputs[..] == LowBits(ParseInt(values, 16).value, PortCount)
    {
      var parsed := ParseInt(values, 16);
      if parsed.None? {
        return Fail(NumberFormat(values));
      }
      Fill(outputs, parsed.value);
      r := Pass;
    }

    /** `getInputs`: the live array itself, not a copy. */
    method GetInputs() returns (r: Result<array<bool>>)
      ensures r == Ok(inputs)
    {
      r := Ok(inputs);
    }

    /** `getOutputs`: the live array itself, not a copy. */
    method GetOutputs() returns (r: Result<array<bool>>)
      ensures r == Ok(outputs)
    {
      r := Ok(outputs);
    }

    /** `setOutput`: stores into the array; a port outside 0..15 throws. */
    method SetOutput(port: JInt, value: bool) returns (r: Outcome)
      requires Valid()
      modifies outputs
      ensures 0 <= port < PortCount ==> r == Pass && outputs[..] == old(outputs[..])[port := value]
      ensures !(0 <= port < PortCount) ==> r == Fail(ArrayIndexOutOfBounds(port)) && unchanged(outputs)
    {
      if !(0 <= port < outputs.Length) {
        return Fail(ArrayIndexOutOfBounds(port));
      }
      outputs[port] := value;
      r := Pass;
    }

    /** `close`: stops the console loop. */
    method Close()
      modifies this`running
      ensures !running
    {
      running := false;
    }
  }

  /** A `ConnectionService`: one of the two implementations. */
  datatype Service = ModbusBacked(m: ModbusConnectionService) | VirtualBacked(v: VirtualConnectionService)
  {
    ghost function Footprint(): set<object>
    {
      match this
      case ModbusBacked(m) => {m.client, m.client.input}
      case VirtualBacked(v) => {v, v.inputs, v.outputs}
    }

    ghost predicate Valid()
      reads Footprint()
    {
      match this
      case ModbusBacked(m) => m.Valid()
      case VirtualBacked(v) => v.Valid()
    }

    /** What `getInputs` returns if called now. */
    ghost function InputsNow(): Result<seq<bool>>
      reads Footprint()
    {
      match this
      case ModbusBacked(m) => m.InputsNow()
      case VirtualBacked(v) => Ok(v.inputs[..])
    }

    /** What `getOutputs` returns if called now. */
    ghost function OutputsNow(): Result<seq<bool>>
      reads Footprint()
    {
      match this
      case ModbusBacked(m) => m.OutputsNow()
      case VirtualBacked(v) => Ok(v.outputs[..])
    }

    /** Whether `setOutput(port, value)` returns or throws, if called now. */
    ghost function SetOutputNow(port: JInt, value: bool): Outcome
      reads Footprint()
    {
      match this
      case ModbusBacked(m) => m.SetOutputNow(port, value)
      case VirtualBacked(v) =>
        if 0 <= port < PortCount then Pass else Fail(ArrayIndexOutOfBounds(port))
    }

    /** The state after `getInputs`: a virtual service is untouched; a
        Modbus-backed one has gone through the `readInputs(0, 16)` transaction. */
    twostate predicate InputsRead()
      reads Footprint()
    {
      match this
      case ModbusBacked(m) => m.Performed(old(m.InputsTx()))
      case VirtualBacked(v) => unchanged(v, v.inputs, v.outputs)
    }

    /** The state after `getOutputs`: a virtual service is untouched; a
        Modbus-backed one has gone through the `readOutputs(0, 16)` transaction. */
    twostate predicate OutputsRead()
      reads Footprint()
    {
      match this
      case ModbusBacked(m) => m.Performed(old(m.OutputsTx()))
      case VirtualBacked(v) => unchanged(v, v.inputs, v.outputs)
    }

    /** The state after `setOutput(port, value)`: a virtual service has output
        `port` set to `value` and nothing else changed (nothing at all when the
        port is out of range); a Modbus-backed one has gone through the
        `writeOutput(port, value)` transaction. */
    twostate predicate OutputSet(port: JInt, value: bool)
      reads Footprint()
    {
      match this
      case ModbusBacked(m) => m.Performed(old(m.SetOutputTx(port, value)))
      case VirtualBacked(v) =>
        && unchanged(v, v.inputs)
        && if 0 <= port < v.outputs.Length then v.outputs[..] == old(v.outputs[..])[port := value]
           else unchanged(v.outputs)
    }

    /** The state after `close`: the client is disconnected or the console loop
        stopped, and nothing else changed. */
    twostate predicate Closed()
      reads Footprint()
    {
      match this
      case ModbusBacked(m) =>
        && m.client.closed
        && m.client.currentTransactionIdent == old(m.client.currentTransactionIdent)
        && m.client.written == old(m.client.written)
        && unchanged(m.client.input)
      case VirtualBacked(v) => !v.running && unchanged(v.inputs, v.outputs)
    }

    method GetInputs() returns (r: Result<array<bool>>)
      requires Valid()
      modifies Footprint()
      ensures Valid()
      ensures r.Ok? <==> old(InputsNow()).Ok?
      ensures r.Ok? ==> r.value[..] == old(InputsNow()).value
      ensures r.Err? ==> r.error == old(InputsNow()).error
      ensures InputsRead()
      ensures VirtualBacked? ==> unchanged(Footprint()) && r == Ok(v.inputs)
      ensures ModbusBacked? ==> r.Ok? ==> fresh(r.value)
    {
      match this
      case ModbusBacked(m) =>
        r := m.GetInputs();
      case VirtualBacked(v) =>
        r := v.GetInputs();
    }

    method GetOutputs() returns (r: Result<array<bool>>)
      requires Valid()
      modifies Footprint()
      ensures Valid()
      ensures r.Ok? <==> old(OutputsNow()).Ok?
      ensures r.Ok? ==> r.value[..] == old(OutputsNow()).value
      ensures r.Err? ==> r.error == old(OutputsNow()).error
      ensures OutputsRead()
      ensures VirtualBacked? ==> unchanged(Footprint()) && r == Ok(v.outputs)
      ensures ModbusBacked? ==> r.Ok? ==> fresh(r.value)
    {
      match this
      case ModbusBacked(m) =>
        r := m.GetOutputs();
      case VirtualBacked(v) =>
        r := v.GetOutputs();
    }

    method SetOutput(port: JInt, value: bool) returns (r: Outcome)
      requires Valid()
      modifies Footprint()
      ensures Valid()
      ensures r == old(SetOutputNow(port, value))
      ensures OutputSet(port, value)
      ensures VirtualBacked? && r.Pass? ==> v.outputs[..] == old(v.outputs[..])[port := value]
      ensures VirtualBacked? ==> unchanged(v, v.inputs)
      ensures VirtualBacked? && r.Fail? ==> unchanged(v.outputs)
    {
      match this
      case ModbusBacked(m) =>
        r := m.SetOutput(port, value);
      case VirtualBacked(v) =>
        r := v.SetOutput(port, value);
    }

    method Close()
      modifies Footprint()
      ensures Closed()
    {
      match this
      case ModbusBacked(m) =>
        m.Close();
      case VirtualBacked(v) =>
        v.Close();
    }
  }
}
