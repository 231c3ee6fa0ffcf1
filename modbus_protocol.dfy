/** The constants of the Modbus TCP protocol the gateway speaks
    (MODBUS Messaging on TCP/IP Implementation Guide V1.0b, section 3.1.3, and
    MODBUS Application Protocol Specification V1.1b3, sections 6 and 7). */
module ModbusProtocol {
  import opened JavaTypes

  /** Default TCP port of a Modbus server. */
  const DefaultPort: int := 502
  /** MBAP header plus the function code, in bytes. */
  const HeaderLength: nat := 8
  /** Largest Modbus TCP frame, in bytes. */
  const MaxSegmentSize: nat := 300
  /** Unit identifier: unused over TCP, so always 0xFF (stored as a Java byte). */
  const UnitIdent: JByte := -1
  /** The protocol identifier field is always zero. */
  const ProtocolIdent: JShort := 0

  const ReadCoils: int := 0x01
  const ReadDiscreteInputs: int := 0x02
  const WriteSingleCoil: int := 0x05

  const IllegalFunction: int := 0x01
  const IllegalDataAddress: int := 0x02
  const IllegalDataValue: int := 0x03
  const SlaveDeviceFailure: int := 0x04
  const Acknowledge: int := 0x05
  const SlaveDeviceBusy: int := 0x06
  const MemoryParityError: int := 0x08
  const GatewayPathUnavailable: int := 0x0a
  const GatewayTargetFailedToRespond: int := 0x0b
}
