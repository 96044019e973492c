/** The two-wire bus as the driver sees it: a fixed device address and the
    transfers the driver asks for. What the bus hands back is supplied to each
    operation as data (the burst bytes, the read-back bytes), so the transport
    itself stays outside the model. */
module Bus {
  import opened CInt

  /** I2CADDR: the device address in mbed's 8-bit form (0x68 shifted left). */
  const DeviceAddress: Byte := 0xD0

  /** One bus transaction: a write of some bytes, or a read of some count. */
  datatype Transfer =
    | Write(device: Byte, bytes: seq<Byte>)
    | Read(device: Byte, count: nat)
}
