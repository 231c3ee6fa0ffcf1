# wutmodbuswrapper in Dafny

A gateway that speaks a small text protocol on one side and Modbus TCP on the
other. A client connects and sends one NUL-terminated request:

- `GET /input?` asks for the sixteen inputs;
- `GET /output?` asks for the sixteen outputs;
- `GET /outputaccess<N>?State=ON|OFF` switches output N.

The adapter answers a read with `input=XXXX` or `output=XXXX`, four upper-case
hex digits of the ports' value (port i has weight 2^i). It answers a write with
nothing. The ports come from a port service. The Modbus-backed service reads
discrete inputs (function 0x02) and coils (0x01) and writes single coils (0x05)
on a device, through a Modbus TCP client. The virtual service keeps two arrays
of sixteen booleans that are set from hex strings.

The model has one module per part of the program:

- `JavaTypes` holds Java's `byte`/`short`/`int`, narrowing casts and
  `ByteBuffer`'s big-endian layout.
- `Numerals` holds `Integer.parseInt`, `Integer.toHexString` and `%04X`.
- `ModbusProtocol` holds the protocol constants.
- `ModbusExceptions` holds `ModbusException` and its reason texts.
- `Failures` holds the exceptions the core throws, as a `Result` and an
  `Outcome`.
- `ModbusMessage` holds the frame value `Frame`, its byte encoding and
  decoding, and the `Message` object with its write and read cursors.
- `ModbusClient` holds the client. Its socket is an input stream of chunks
  (each read delivers 1 to `len` bytes, or -1 at the end) plus a record of the
  bytes written.
- `Services` holds the two port services. The `ConnectionService` interface
  is the sum type `Service`.
- `WutWrapper` holds the adapter.
- `WutWrapperServer` holds the per-connection handler.

Methods that change state are proved against pure functions. For example,
`Client.SendRequest` is specified by `Exchange`, which says what one
transaction writes, how many input bytes it consumes and what it returns.
`WutWrapper.DoRequest` is specified by `RequestNow`, which is what
`doRequest` would return in the current state, and by `Served`, which is the
state the service is left in. The round trips and other
properties are lemmas about those functions.

## Model

| member | source | states |
|---|---|---|
| JavaTypes.ToShort | src/modbus/ModbusClient.java:230 | A `(short)` cast keeps the value modulo 2^16, and leaves values already in short range unchanged |
| JavaTypes.Signed8 | src/modbus/ModbusClient.java:111 | The Java byte read from an octet is congruent to it modulo 256, and negative exactly when the octet is 0x80 or above |
| JavaTypes.Unsigned8 | src/modbus/ModbusMessage.java:86 | `b & 0xff` is the octet whose signed reading is `b` |
| JavaTypes.ShortBytes | src/modbus/ModbusMessage.java:107 | `putShort` writes two octets whose big-endian value is the short modulo 2^16 |
| JavaTypes.ShortOf | src/modbus/ModbusMessage.java:52-54 | `getShort` reads back a short congruent to the two octets' big-endian value |
| JavaTypes.IntBytes | src/modbus/ModbusMessage.java:113 | `putInt` writes four octets whose big-endian value is the int modulo 2^32 |
| JavaTypes.IntOf | src/modbus/ModbusMessage.java:129 | `getInt` reads an int congruent to the four octets' big-endian value |
| JavaTypes.ShortRoundTrip | src/modbus/ModbusMessage.java:52-54 | Reading back the two octets `putShort` wrote gives the same short |
| JavaTypes.IntRoundTrip | src/modbus/ModbusMessage.java:113 | Reading back the four octets `putInt` wrote gives the same int |
| Numerals.Digit | src/WutWrapper.java:40 | `Character.digit` on ASCII gives -1 or a value below the radix |
| Numerals.DigitChar | src/modbus/ModbusException.java:22-23 | Each hex digit character is read back by `Character.digit` as its value |
| Numerals.DigitsValueOfHexDigits | src/modbus/ModbusException.java:22-23 | The hex digits written for n are all digits, and their value is n |
| Numerals.HexStringRoundTrip | src/modbus/ModbusException.java:22-23 | `Integer.toHexString(i)` spells the unsigned 32-bit value of i: its digits read back as `i mod 2^32` |
| Numerals.Format04XOf16Bit | src/WutWrapper.java:42 | `%04X` of a 16-bit value is exactly its four upper-case hex digits, zero-padded |
| Numerals.Format04XWidth | src/WutWrapper.java:42 | `%04X` gives exactly four characters if and only if the int lies in 0..0xFFFF |
| Numerals.Hex4DigitsOfValue | src/services/VirtualConnectionService.java:72 | Four hex digits have a value below 2^16 whose `%04X` digits are the same digits, in upper case |
| Numerals.Hex4RoundTrip | src/services/VirtualConnectionService.java:72 | Four hex digits parsed with radix 16 and formatted back with `%04X` give the same digits in upper case |
| Numerals.UpperHex | src/WutWrapper.java:42 | The upper-case spelling keeps the length and changes each character by itself |
| Numerals.ParseHex4 | src/services/VirtualConnectionService.java:72 | `parseInt(h, 16)` of four hex digits succeeds with their value |
| Numerals.ParseUnsigned | src/WutWrapper.java:40 | `parseInt` of an unsigned digit string succeeds with its value when that value fits an int |
| ModbusExceptions.GetErrorCode | src/modbus/ModbusException.java:60-63 | A device exception returns the stored error code; a plain message returns 0 |
| ModbusExceptions.GetExceptionCode | src/modbus/ModbusException.java:65-68 | A device exception returns the stored exception code; a plain message returns 0 |
| ModbusExceptions.Reason | src/modbus/ModbusException.java:25-57 | The reason is "unknow errorcode" exactly for codes outside 0x01-0x06, 0x08, 0x0A and 0x0B |
| ModbusExceptions.GetMessage | src/modbus/ModbusException.java:12-74 | A plain message is returned as given. A device exception's message starts with "Modbus protocl error: 0x" and ends with the reason |
| ModbusExceptions.MessageCarriesCodes | src/modbus/ModbusException.java:22-23 | The error code's hex follows the prefix, then ":0x", then the exception code's hex, then ": ", and the message ends with the reason |
| ModbusMessage.Encode | src/modbus/ModbusMessage.java:139-155 | The bytes of a frame number 8 + length - 2 |
| ModbusMessage.EncodeLayout | src/modbus/ModbusMessage.java:145-152 | Bytes 0-1 hold the transaction id, 2-3 the protocol id, 4-5 the length, 6 the unit id and 7 the function code; the data follows |
| ModbusMessage.DecodeFrame | src/modbus/ModbusMessage.java:49-61 | Decoding succeeds exactly when 8 header bytes are present and 2 <= length <= what follows. The frame it gives encodes back to the bytes it consumed |
| ModbusMessage.DecodeEncode | src/modbus/ModbusMessage.java:49-61 | Decoding a frame's bytes, whatever follows them, gives the frame back |
| ModbusMessage.ShortRoundTripOctets | src/modbus/ModbusMessage.java:52-54 | Two octets read as a short and written back are the same octets |
| ModbusMessage.Overwrite | src/modbus/ModbusMessage.java:99-115 | A relative put replaces exactly the bytes at the cursor and keeps the others |
| ModbusMessage.Message.AsFrame | src/modbus/ModbusMessage.java:37-42 | A message whose length field its buffer can back stands for a well-formed frame |
| ModbusMessage.Message.constructor | src/modbus/ModbusMessage.java:68-77 | A new message has length 2, protocol id 0, unit id 0xFF, the function code's low byte, an empty payload and a 300-byte buffer |
| ModbusMessage.Message.SetTransactionIdentifier | src/modbus/ModbusMessage.java:79-82 | Sets the transaction id and nothing else |
| ModbusMessage.Message.GetFunctionCode | src/modbus/ModbusMessage.java:84-87 | The function code always comes back in 0..255, as the frame's function code |
| ModbusMessage.Message.GetTransactionIdentifier | src/modbus/ModbusMessage.java:89-92 | Returns the frame's transaction id |
| ModbusMessage.Message.GetProtocolIdentifier | src/modbus/ModbusMessage.java:94-97 | Returns the frame's protocol id |
| ModbusMessage.Message.Put | src/modbus/ModbusMessage.java:99-115 | Writes the bytes at the cursor and raises length by as many, with short wrap-around. Fails with BufferOverflow, changing nothing, when they do not fit. On a message being built, the payload grows by exactly those bytes |
| ModbusMessage.Message.AddDataByte | src/modbus/ModbusMessage.java:99-103 | Appends one byte and raises length by 1, or overflows and changes nothing |
| ModbusMessage.Message.AddDataShort | src/modbus/ModbusMessage.java:105-109 | Appends two big-endian bytes and raises length by 2, or overflows and changes nothing |
| ModbusMessage.Message.AddDataInt | src/modbus/ModbusMessage.java:111-115 | Appends four big-endian bytes and raises length by 4, or overflows and changes nothing |
| ModbusMessage.Message.GetDataByte | src/modbus/ModbusMessage.java:117-120 | Returns the signed byte at the cursor and advances it by 1; past the end it underflows and the cursor stays |
| ModbusMessage.Message.GetDataShort | src/modbus/ModbusMessage.java:122-125 | Returns the short whose bytes are the next two, and advances by 2; past the end it underflows |
| ModbusMessage.Message.GetDataInt | src/modbus/ModbusMessage.java:127-130 | Returns the int whose bytes are the next four, and advances by 4; past the end it underflows |
| ModbusMessage.Message.GetDataBytes | src/modbus/ModbusMessage.java:132-137 | Returns the next n bytes and advances by n. A negative n fails to allocate; too large an n underflows |
| ModbusMessage.Message.GetBytes | src/modbus/ModbusMessage.java:139-155 | Succeeds exactly when the length field is backed by the buffer, and then returns the frame's encoding |
| ModbusMessage.IntBytesOfIntOf | src/modbus/ModbusMessage.java:111-130 | Four octets read as an int and written back are the same octets |
| ModbusMessage.Decode | src/modbus/ModbusMessage.java:49-61 | The decoding constructor fails exactly when `DecodeFrame` does, with the same error. Otherwise it gives a fresh message whose buffer holds exactly length - 2 bytes, with the read cursor at 0, standing for the decoded frame |
| ModbusClient.InStream.Read | src/modbus/ModbusClient.java:226-235 | A read takes 1 to `len` bytes off the front of the pending input, or returns -1 exactly when nothing is pending |
| ModbusClient.DataLength | src/modbus/ModbusClient.java:230 | `(short)(length - 2)` is length - 2 whenever the length field is at least 2 |
| ModbusClient.Receive | src/modbus/ModbusClient.java:221-238 | `receiveResponse` never consumes more bytes than are pending |
| ModbusClient.ReceiveTakesOneFrame | src/modbus/ModbusClient.java:224-237 | A received response consumed exactly 8 + length - 2 bytes, and those bytes are the response's encoding: nothing of a following frame is taken |
| ModbusClient.ReceiveEncoded | src/modbus/ModbusClient.java:224-237 | A frame that fits the 300-byte buffer, followed by anything, is received intact, consuming exactly its own bytes |
| ModbusClient.ReadFully | src/modbus/ModbusClient.java:226-235 | An accumulation loop leaves the buffer alone when the count is 0 or negative. It fails with IndexOutOfBounds when the range passes the buffer's end. When the stream ends early it consumes everything and fails. Otherwise it consumes exactly `count` bytes and copies them to `at..at+count`, changing nothing else |
| ModbusClient.ReadLoop | src/modbus/ModbusClient.java:226-235 | The loop, once the range fits: on success the buffer holds exactly the next `count` pending bytes at `at` and the rest of the input is untouched |
| ModbusClient.ReadStep | src/modbus/ModbusClient.java:226-235 | One read extends the copied run by the bytes delivered and consumes exactly those |
| ModbusClient.Store | src/modbus/ModbusClient.java:226-235 | `read(b, off, len)` puts the bytes it delivers at `b[off..]` and changes nothing else |
| ModbusClient.ReceiveBytes | src/modbus/ModbusClient.java:224-235 | The two loops consume exactly what `Receive` says. On failure they give `Receive`'s error; on success the buffer decodes to `Receive`'s result |
| ModbusClient.ReceiveResponse | src/modbus/ModbusClient.java:221-238 | `receiveResponse` consumes exactly `Receive`'s count and fails exactly when `Receive` does, with its error. Otherwise it gives a fresh message, read cursor at 0, standing for the received frame |
| ModbusClient.NextTransactionId | src/modbus/ModbusClient.java:190-191 | The next id is never 0 and never the previous one. It is the previous + 1 modulo 2^16, except that -1 steps to 1 |
| ModbusClient.Validate | src/modbus/ModbusClient.java:203-218 | A response is accepted unchanged exactly when its transaction id and function code match the request and its protocol id is 0 |
| ModbusClient.MismatchComesFirst | src/modbus/ModbusClient.java:203-204 | A transaction-id mismatch is reported before anything else is looked at |
| ModbusClient.ExceptionResponse | src/modbus/ModbusClient.java:206-209 | A response with function code + 0x80 raises a device exception with that code and the signed first data byte, whatever its protocol id |
| ModbusClient.UnexpectedFunction | src/modbus/ModbusClient.java:206-212 | Any other function-code mismatch raises "unexpected function code 0x" + the hex code |
| ModbusClient.ProtocolCheckedLast | src/modbus/ModbusClient.java:215-216 | A non-zero protocol id is reported if and only if the id and function-code checks passed |
| ModbusClient.Exchange | src/modbus/ModbusClient.java:187-219 | One transaction never consumes more than is pending |
| ModbusClient.ExchangeWithEcho | src/modbus/ModbusClient.java:187-219 | A device that echoes the id and function code with protocol id 0 has its answer accepted. The request goes out stamped with the new id, and exactly the answer's bytes are consumed |
| ModbusClient.TwoShortRequest | src/modbus/ModbusClient.java:105-107 | A read or write request carries the function code, protocol id 0, unit id 0xFF, length 6, and its two arguments as 16-bit big-endian values |
| ModbusClient.ParseBits | src/modbus/ModbusClient.java:111-112 | A read result succeeds exactly when the signed byte count is 0 or more and no more than the bytes that follow. The bit set then holds those bytes |
| ModbusClient.ReadBitMeaning | src/modbus/ModbusClient.java:111-112 | Bit i of a read is bit i mod 8 of data byte 1 + i/8 while i/8 is below the byte count, and false beyond |
| ModbusClient.TakeBits | src/modbus/ModbusClient.java:111-112 | Reading the byte count and then that many bytes from a fresh response gives `ParseBits` of its frame |
| ModbusClient.FirstBit | src/modbus/ModbusClient.java:125-126 | `set.get(0)` fails exactly when the read failed; otherwise it is bit 0 of the set |
| ModbusClient.BitsOf | src/modbus/ModbusClient.java:109-112 | A read's result is the transaction's failure or `ParseBits` of the response |
| ModbusClient.AwaitResponse | src/modbus/ModbusClient.java:200-218 | Receiving and validating consume what `Receive` says, and return the validated response or the first error |
| ModbusClient.Client.constructor | src/modbus/ModbusClient.java:50-54 | A new client has transaction id 0 and has written nothing |
| ModbusClient.Client.Disconnect | src/modbus/ModbusClient.java:83-89 | Closing never fails and leaves the socket closed |
| ModbusClient.Client.SendRequest | src/modbus/ModbusClient.java:187-219 | The counter steps to `NextTransactionId`, and the request is stamped with it. The written bytes, the consumed input and the result are exactly those of `Exchange` |
| ModbusClient.Client.TwoShorts | src/modbus/ModbusClient.java:105-107 | Building a request with two `addDataShort` calls gives `TwoShortRequest` |
| ModbusClient.Client.ReadBits | src/modbus/ModbusClient.java:103-113 | The shared read: one transaction of `TwoShortRequest(code, start, n)`, whose result is `ReadResult` of it |
| ModbusClient.Client.ReadOutputs | src/modbus/ModbusClient.java:103-113 | `readOutputs` sends function 0x01 with start and n and returns the response's bits |
| ModbusClient.Client.ReadInputs | src/modbus/ModbusClient.java:141-151 | `readInputs` sends function 0x02 (not 0x01) with start and n and returns the response's bits |
| ModbusClient.Client.ReadOutput | src/modbus/ModbusClient.java:123-127 | `readOutput(n)` steps the counter once, sends a one-bit coil read at n stamped with the new id, consumes that transaction's bytes, and returns bit 0 of the result |
| ModbusClient.Client.ReadInput | src/modbus/ModbusClient.java:161-165 | `readInput(n)` steps the counter once, sends a one-bit discrete-input read at n stamped with the new id, consumes that transaction's bytes, and returns bit 0 of the result |
| ModbusClient.Client.WriteOutput | src/modbus/ModbusClient.java:178-185 | `writeOutput` sends function 0x05 with the address and 0xFF00 or 0x0000, and succeeds exactly when the transaction does |
| Services.BitsOf | src/services/ModbusConnectionService.java:27-28 | The copied values are exactly the first sixteen bits of the set, with missing bits false |
| Services.Sixteen | src/services/ModbusConnectionService.java:23-30 | A service read fails exactly when the client read fails, with its error, and otherwise gives the first sixteen bits |
| Services.BitsValue | src/WutWrapper.java:38-40 | The ports' value is below 2^n for n ports |
| Services.NatBits | src/services/VirtualConnectionService.java:74-75 | Element i is bit i of the value |
| Services.LowBits | src/services/VirtualConnectionService.java:74-75 | `((1 << i) & v) != 0` is bit i of v's two's complement |
| Services.BitsValueOfBits | src/services/VirtualConnectionService.java:74-75 | The first n bits of u, read back as a number, are u mod 2^n |
| Services.LowBitsValue | src/services/VirtualConnectionService.java:72-75 | Sixteen ports set from an int hold its low sixteen bits: bits 16 and above are dropped |
| Services.ToArray | src/services/ModbusConnectionService.java:25-30 | The copy loop fills a fresh array with the first sixteen bits |
| Services.Fill | src/services/VirtualConnectionService.java:74-75 | The set loop leaves element i equal to bit i of the value |
| Services.ModbusConnectionService.constructor | src/services/ModbusConnectionService.java:14-18 | The service wraps the given connected client |
| Services.ModbusConnectionService.GetInputs | src/services/ModbusConnectionService.java:20-31 | Performs exactly the `readInputs(0, 16)` transaction: the counter steps once, the read request of function 0x02 over ports 0..15 is written, and its response bytes are consumed. Returns a fresh 16-element array of the bits, or the client's error unchanged |
| Services.ModbusConnectionService.GetOutputs | src/services/ModbusConnectionService.java:33-44 | Performs exactly the `readOutputs(0, 16)` transaction: the counter steps once, the read request of function 0x01 over ports 0..15 is written, and its response bytes are consumed. Returns a fresh 16-element array of the bits, or the client's error unchanged |
| Services.ModbusConnectionService.SetOutput | src/services/ModbusConnectionService.java:46-50 | Performs exactly the `writeOutput(port, value)` transaction, with the port and value passed on unchanged and unchecked: the function 0x05 request for them is written and its response consumed. The outcome is that transaction's |
| Services.ModbusConnectionService.Close | src/services/ModbusConnectionService.java:52-56 | Disconnects the client |
| Services.VirtualConnectionService.constructor | src/services/VirtualConnectionService.java:7-15 | Two distinct fresh 16-element arrays, all false |
| Services.VirtualConnectionService.SetInputs | src/services/VirtualConnectionService.java:70-77 | Non-hex text throws before the loop and leaves the inputs unchanged. Otherwise input i becomes bit i of the parsed value |
| Services.VirtualConnectionService.SetOutputs | src/services/VirtualConnectionService.java:79-85 | Non-hex text throws before the loop and leaves the outputs unchanged. Otherwise output i becomes bit i of the parsed value |
| Services.VirtualConnectionService.GetInputs | src/services/VirtualConnectionService.java:87-91 | Returns the live inputs array itself, not a copy |
| Services.VirtualConnectionService.GetOutputs | src/services/VirtualConnectionService.java:93-97 | Returns the live outputs array itself, not a copy |
| Services.VirtualConnectionService.SetOutput | src/services/VirtualConnectionService.java:99-103 | A port in 0..15 changes only that output. Any other port throws and changes nothing |
| Services.VirtualConnectionService.Close | src/services/VirtualConnectionService.java:105-109 | Stops the console loop |
| Services.Service.GetInputs | src/services/ConnectionService.java:5 | `getInputs` through the interface returns what the implementation's `InputsNow` says. A virtual service changes nothing; a Modbus-backed one performs the `readInputs(0, 16)` transaction and nothing else |
| Services.Service.GetOutputs | src/services/ConnectionService.java:6 | `getOutputs` through the interface returns what the implementation's `OutputsNow` says. A virtual service changes nothing; a Modbus-backed one performs the `readOutputs(0, 16)` transaction and nothing else |
| Services.Service.SetOutput | src/services/ConnectionService.java:7 | `setOutput` through the interface does what the implementation's `SetOutputNow` says. A virtual service changes only output `port`, or nothing when the port is out of range; a Modbus-backed one performs the `writeOutput(port, value)` transaction |
| Services.Service.Close | src/services/ConnectionService.java:8 | `close` through the interface disconnects the client or stops the console loop, and changes no port, written byte, counter or pending input |
| WutWrapper.ContainsOccurs | src/WutWrapper.java:65-67 | `contains` holds exactly when the text occurs at some position |
| WutWrapper.IndexOf | src/WutWrapper.java:61 | `indexOf` is the first position holding the character, or -1 exactly when there is none |
| WutWrapper.Binary | src/WutWrapper.java:35-38 | The binary string has one digit per port |
| WutWrapper.BinaryPush | src/WutWrapper.java:35-38 | Each port's digit is prepended: the last port comes first |
| WutWrapper.BinaryDigits | src/WutWrapper.java:38-40 | The binary string is all binary digits, and its value is the sum of 2^i over the ports that are on |
| WutWrapper.ParseBinary | src/WutWrapper.java:40 | `parseInt(binary, 2)` reads back the ports' value for 1 to 31 ports |
| WutWrapper.SixteenPortsReply | src/WutWrapper.java:38-42 | Sixteen ports reply with the prefix and exactly the four upper-case hex digits of their value |
| WutWrapper.NoPortsReply | src/WutWrapper.java:40 | No ports give an empty binary string, which `parseInt` rejects |
| WutWrapper.SixteenPortsDigits | src/WutWrapper.java:38-42 | Sixteen ports whose value has the hex digits `digits` reply with them |
| WutWrapper.PortZeroReply | test/WutWrapperTest.java:50-51 | Port 0 alone on replies `input=0001` |
| WutWrapper.PortsZeroOneReply | test/WutWrapperTest.java:52-53 | Ports 0 and 1 on reply `input=0003` |
| WutWrapper.PortsZeroOneFifteenReply | test/WutWrapperTest.java:54-55 | Ports 0, 1 and 15 on reply `input=8003` |
| WutWrapper.BitsValueAppend | src/WutWrapper.java:38 | The ports after the first k weigh 2^k times their own value |
| WutWrapper.OutputsRoundTrip | src/services/VirtualConnectionService.java:81-84 | Outputs set from four hex digits are reported by `getOutputs` as `output=` and the same digits in upper case |
| WutWrapper.UpperHexDigits | src/WutWrapper.java:55 | Four hex digits read as a number and formatted with `%04X` are the same digits in upper case |
| WutWrapper.Reply | src/WutWrapper.java:32-56 | A read reply is the service's exception unchanged, or the formatted ports |
| WutWrapper.ParseWrite | src/WutWrapper.java:58-72 | A request without '?', or whose first '?' lies before the end of the path, throws StringIndexOutOfBounds. The port is parsed first: a non-numeric port throws NumberFormat with that text even when no state follows, and a numeric one always succeeds and carries the parsed port. "State=ON" is tested before "State=OFF", and nothing is written when neither occurs |
| WutWrapper.WritePort | src/WutWrapper.java:61 | The port digits of a write request are exactly the text between the path and the '?' |
| WutWrapper.WriteOnRequest | test/WutWrapperTest.java:73 | `GET /outputaccess<N>?State=ON` asks to switch port N on |
| WutWrapper.WriteOffRequest | test/WutWrapperTest.java:75 | `GET /outputaccess<N>?State=OFF` asks to switch port N off |
| WutWrapper.WriteDispatch | src/WutWrapper.java:20-27 | A request beginning with `GET /outputaccess` matches neither read prefix, so `doRequest` sends it to `writeOutput` |
| WutWrapper.WriteVirtual | src/WutWrapper.java:15-30 | A write request naming a port and a state, on a virtual service, stores the state at that port and changes nothing else |
| WutWrapper.SwitchOnOff | test/WutWrapperTest.java:70-83 | On a virtual service, `GET /outputaccess<N>?State=ON` turns output N on, then `...State=OFF` turns it off; the other outputs and all inputs keep their values |
| WutWrapper.ReplyWireText | src/WutWrapper.java:42 | Every reply is ASCII without NUL |
| WutWrapper.WutWrapper.constructor | src/WutWrapper.java:10-13 | The adapter keeps the given service |
| WutWrapper.WutWrapper.RequestNow | src/WutWrapper.java:15-30 | Any reply `doRequest` can give is ASCII without NUL |
| WutWrapper.WutWrapper.GetInputs | src/WutWrapper.java:32-43 | Returns `Reply("input=", ...)` of what the service's `getInputs` gives. The service goes through one `getInputs` and nothing else: a virtual one is left unchanged |
| WutWrapper.WutWrapper.GetOutputs | src/WutWrapper.java:45-56 | Returns `Reply("output=", ...)` of what the service's `getOutputs` gives. The service goes through one `getOutputs` and nothing else: a virtual one is left unchanged |
| WutWrapper.WutWrapper.WriteOutput | src/WutWrapper.java:58-76 | A parse failure or a missing state changes nothing. Otherwise `setOutput(port, state)` is called once, with that call's effect on the service: on a virtual service exactly that output changes |
| WutWrapper.WutWrapper.DoRequest | src/WutWrapper.java:15-30 | The prefixes are tried in the order input, output, outputaccess. A read returns the reply, a write returns null, and anything else throws `NoSuchMethodError`. The service's new state is that of the one operation dispatched to, or unchanged for a refused request |
| WutWrapper.WutWrapper.Shutdown | src/WutWrapper.java:78-81 | Closes the service, and changes no port, written byte, counter or pending input |
| WutWrapper.Lift | src/WutWrapper.java:29 | A reply is returned as present on success, and an exception is passed on unchanged |
| WutWrapper.BinaryString | src/WutWrapper.java:35-38 | The prepend loop builds exactly `Binary` of the array |
| WutWrapperServer.ByteSource.Read | src/WutWrapperServer.java:41 | `is.read()` returns the next byte, or -1 once the stream is used up |
| WutWrapperServer.Chars | src/WutWrapperServer.java:42 | Each byte becomes the character with the same code |
| WutWrapperServer.Octets | src/WutWrapperServer.java:55 | `getBytes` of ASCII text is one octet per character, with the same code |
| WutWrapperServer.RespondFraming | src/WutWrapperServer.java:51-58 | A written reply is the text followed by exactly one 0 byte, at the end. A null reply writes nothing. An exception writes nothing, and only `NoSuchMethodError` escapes the catch |
| WutWrapperServer.RequestRoundTrip | src/WutWrapperServer.java:41-48 | Text sent as its octets and a 0 byte is read back as the same text, and the bytes after the 0 stay unread |
| WutWrapperServer.ReplyRoundTrip | src/WutWrapperServer.java:41-55 | A peer reading the written reply the same way gets the reply text back, with nothing left over |
| WutWrapperServer.NoTerminator | src/WutWrapperServer.java:45-46 | Without a 0 byte there is no request, and the whole stream is read |
| WutWrapperServer.ReadRequest | src/WutWrapperServer.java:37-48 | The read loop returns exactly the characters before the first 0 byte and leaves what follows unread. With no 0 byte it returns nothing and reads everything |
| WutWrapperServer.HandleClient | src/WutWrapperServer.java:33-61 | End of stream before a 0 byte writes nothing and leaves the service untouched. Otherwise the adapter is called once with the request: the reply is framed by `Respond`, the service ends in the state that request leaves it in, and bytes after the 0 are never read |
| WutWrapperServer.Answer | src/WutWrapperServer.java:51-58 | One `doRequest` call, then the reply with its terminator, or nothing for null or an exception. The service ends in the state that request leaves it in |

## Left out

- Sockets: `ModbusClient.connect`, the host/port constructors and the socket options are not modelled. The client works on an input stream of chunks and a record of written bytes, and `disconnect` sets a closed flag. A closed socket makes the next transaction fail with an IOException before anything is written.
- `ModbusClient.Client.SendRequest`: an IOException from `os.write` on an open socket is not modelled, and neither is `synchronized`; transactions run one at a time.
- `ModbusClient.ReadFully`: when `is.read` returns -1, the source adds -1 to its counter and loops on. What happens after that depends on the JDK's stream (it may keep returning -1 or throw). The model stops with a stream-ended error and has consumed the whole input.
- `ModbusClient.ReadFully`: `read(b, off, len)` checks its range on every call. The model makes that check once, before the loop, because every call asks for the same end of the range. The outcome is the same.
- `Services.Service`: the `ConnectionService` interface is a sum of its two implementations, not an open interface, so other implementations (such as the test's anonymous one) are not covered. The test's write scenario (`SwitchOnOff`) is stated on the virtual service instead, whose `setOutput` stores into its outputs array just as the anonymous one does.
- `Services.VirtualConnectionService.constructor`: the console thread, the `Scanner` on standard input and the commands it reads are not modelled. Only `running` is kept, for `close`.
- `Numerals.Digit`: only ASCII digits and letters are digits. `Character.digit` also accepts other Unicode digits.
- `WutWrapperServer.Octets`: `getBytes` is modelled for ASCII text without NUL only. Every reply is such text (`ReplyWireText`), so no reply falls outside the model.
- `WutWrapperServer.HandleClient`: the accept loop, the thread per connection, `printStackTrace`, `main` and `printHelp` are not modelled, and neither are IOExceptions from the socket streams. An error escaping `run` is reported as a flag.
- `WutWrapper.WutWrapper.WriteOutput`: the "wrong State" console message is not modelled.
- `ModbusMessage.toString` and `ModbusServer` are not part of this model: the first is debug formatting, the second a test stub.
- The test's example requests are stated for every port array with the same pattern of ports on (`PortZeroReply` and the two after it), and for every decimal port (`WriteOnRequest`, `WriteOffRequest`). They are not stated for the literal arrays and strings alone.
