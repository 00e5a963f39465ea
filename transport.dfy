/**
 * The register transport the program hands to the vendor driver: `i2c_read`
 * and `i2c_write` over an open I2C character device.  The device itself is not
 * modelled; what `write` and `read` return, and the bytes `read` delivers, are
 * inputs.
 */
module Transport {
  import opened Bme280

  /** One transfer issued on the bus file descriptor. */
  datatype Transfer =
    | BusWrite(bytes: seq<Byte>)
    | BusRead(count: nat)

  /** The C cast `(uint16_t)n`: the low 16 bits of `n`. */
  function Uint16(n: nat): (r: nat)
    ensures r < 0x1_0000
    ensures n < 0x1_0000 ==> r == n
    ensures (n - r) % 0x1_0000 == 0
  {
    n % 0x1_0000
  }

  /**
   * `i2c_write`: frame the register address and the payload in one buffer and
   * send it in a single `write`.  `accepted` is what that `write` returned
   * (-1 on error, otherwise the number of bytes the driver took).  The buffer
   * is built in a fresh array, byte 0 first and then the payload copied in.
   */
  method I2cWrite(regAddr: Byte, data: seq<Byte>, accepted: int) returns (sent: seq<Byte>, status: Status)
    requires |data| < 0xFFFF_FFFF  // len + 1 must not wrap around in uint32_t
    ensures |sent| == |data| + 1
    ensures sent[0] == regAddr && sent[1..] == data
    ensures status == CommFail <==> accepted < Uint16(|data|)
    ensures status == Ok <==> accepted >= Uint16(|data|)
    // for every payload shorter than 64 KiB, a driver that took all but the last byte still reports success
    ensures |data| < 0x1_0000 && accepted == |data| ==> status == Ok
  {
    var len := |data|;
    var buf := new Byte[len + 1];
    buf[0] := regAddr;
    var i := 0;
    while i < len
      invariant 0 <= i <= len
      invariant buf[0] == regAddr
      invariant buf[1..i + 1] == data[..i]
    {
      buf[i + 1] := data[i];
      i := i + 1;
    }
    assert data[..len] == data;
    assert buf[1..] == buf[1..len + 1];
    sent := buf[..];
    assert sent[1..] == buf[1..];
    if accepted < Uint16(len) {
      status := CommFail;
      return;
    }
    status := Ok;
  }

  /**
   * `i2c_read`: send the one-byte register address, then read `len` bytes into
   * the caller's buffer.  `delivered` is what the driver copied in (it may be
   * short, or empty on error); `writeReturn` and `readReturn` are what the two
   * system calls returned.  Neither is looked at.
   */
  method I2cRead(regAddr: Byte, data: array<Byte>, len: nat, delivered: seq<Byte>, writeReturn: int, readReturn: int)
    returns (transfers: seq<Transfer>, status: Status)
    requires len <= data.Length && |delivered| <= len
    modifies data
    ensures transfers == [BusWrite([regAddr]), BusRead(len)]
    ensures status == Ok
    ensures data[..|delivered|] == delivered
    ensures data[|delivered|..] == old(data[|delivered|..])
  {
    transfers := [BusWrite([regAddr])];
    transfers := transfers + [BusRead(len)];
    forall k | 0 <= k < |delivered| {
      data[k] := delivered[k];
    }
    status := Ok;
  }
}
