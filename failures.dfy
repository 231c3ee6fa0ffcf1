/** The exceptions the core throws, and the result of an operation that may
    throw one. */
module Failures {
  import opened ModbusExceptions

  datatype Error =
    | BufferUnderflow            // a ByteBuffer read past its limit
    | BufferOverflow             // a ByteBuffer write past its limit
    | IllegalArgument            // ByteBuffer.allocate with a negative size
    | IndexOutOfBounds           // a bulk copy or stream read outside its array
    | NegativeArraySize          // `new byte[n]` with n < 0
    | ArrayIndexOutOfBounds(index: int)
    | StringIndexOutOfBounds     // `substring` with bad bounds
    | NumberFormat(text: string) // Integer.parseInt refused the text
    | NoSuchMethod(request: string) // a java.lang.Error, not an Exception
    | SocketClosed               // an IOException from a closed socket
    | StreamEnded                // the peer closed the stream mid-frame
    | Modbus(exception: ModbusException)

  datatype Result<+T> = Ok(value: T) | Err(error: Error)

  /** The result of an operation that returns nothing. */
  datatype Outcome = Pass | Fail(error: Error)
}
