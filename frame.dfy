/**
 * Modbus/TCP write requests and their byte layout: the 7-byte MBAP header of
 * section 3.1.3 of the Modbus Messaging on TCP/IP Implementation Guide V1.0b,
 * followed by the PDU of Write Single Coil (0x05), Write Single Register (0x06),
 * Write Multiple Coils (0x0F) and Write Multiple Registers (0x10), sections 6.5,
 * 6.6, 6.11 and 6.12 of the Modbus Application Protocol Specification V1.1b3.
 *
 * Encode is the reference layout, written field by field; the session's
 * imperative encoder is proved to produce exactly these bytes. Decode reads a
 * frame back and is Encode's partner in the round-trip lemma.
 */
module Frame {
  import opened Bytes
  import opened Wrappers

  const WriteCoilCode: byte := 0x05
  const WriteRegCode: byte := 0x06
  const WriteCoilsCode: byte := 0x0F
  const WriteRegsCode: byte := 0x10

  /** One write request; the quantity of a multiple write is the length of its sequence. */
  datatype Request =
    | WriteSingleCoil(address: uint16, value: uint16)
    | WriteSingleRegister(address: uint16, value: uint16)
    | WriteMultipleCoils(address: uint16, coils: seq<uint16>)
    | WriteMultipleRegisters(address: uint16, values: seq<uint16>)

  /** A decoded frame: transaction identifier, unit (slave) identifier and request. */
  datatype Adu = Adu(transactionId: uint16, unit: byte, request: Request)

  function FunctionCode(r: Request): byte
  {
    match r
    case WriteSingleCoil(_, _) => WriteCoilCode
    case WriteSingleRegister(_, _) => WriteRegCode
    case WriteMultipleCoils(_, _) => WriteCoilsCode
    case WriteMultipleRegisters(_, _) => WriteRegsCode
  }

  /**
   * The request a call `modbus_write(address, amount, func, value)` stands for:
   * a single write uses value[0] and ignores amount, a multiple write uses the
   * first amount values, and any other function code stands for no request.
   */
  function RequestOf(address: uint16, amount: uint16, func: int, value: seq<uint16>): (r: Option<Request>)
    requires func == WriteCoilCode as int || func == WriteRegCode as int ==> |value| >= 1
    requires func == WriteCoilsCode as int || func == WriteRegsCode as int ==> |value| >= amount
    ensures r.Some? <==> func in {WriteCoilCode as int, WriteRegCode as int, WriteCoilsCode as int, WriteRegsCode as int}
    ensures r.Some? ==> FunctionCode(r.value) as int == func && r.value.address == address
    ensures r.Some? && r.value.WriteMultipleCoils? ==> r.value.coils == value[..amount]
    ensures r.Some? && r.value.WriteMultipleRegisters? ==> r.value.values == value[..amount]
    ensures r.Some? && (r.value.WriteSingleCoil? || r.value.WriteSingleRegister?) ==> r.value.value == value[0]
  {
    if func == WriteCoilCode as int then Some(WriteSingleCoil(address, value[0]))
    else if func == WriteRegCode as int then Some(WriteSingleRegister(address, value[0]))
    else if func == WriteCoilsCode as int then Some(WriteMultipleCoils(address, value[..amount]))
    else if func == WriteRegsCode as int then Some(WriteMultipleRegisters(address, value[..amount]))
    else None
  }

  /** The register values, two bytes each, high byte first. */
  function RegisterBytes(values: seq<uint16>): (r: seq<byte>)
    ensures |r| == 2 * |values|
  {
    if values == [] then []
    else RegisterBytes(values[..|values| - 1]) + BigEndian16(values[|values| - 1])
  }

  /** `(uint8_t)(value[i] << (i % 8u))`: what coil i adds to its byte. */
  function CoilTerm(v: uint16, i: nat): byte
  {
    Trunc8(ShiftLeft(v, i % 8))
  }

  /**
   * The packed coil bytes as the client computes them: bytes start at zero and
   * coil i adds CoilTerm(coils[i], i) to byte i / 8 with `uint8_t` wrap-around.
   */
  function CoilBytes(coils: seq<uint16>): (r: seq<byte>)
    ensures |r| == (|coils| + 7) / 8
  {
    if coils == [] then []
    else
      var i := |coils| - 1;
      var prev := CoilBytes(coils[..i]);
      var term := CoilTerm(coils[i], i);
      if i % 8 == 0 then prev + [term]
      else prev[..|prev| - 1] + [Trunc8(prev[|prev| - 1] as int + term)]
  }

  /** The PDU: function code, address, then the value (single writes) or quantity, byte count and data. */
  function Pdu(r: Request): seq<byte>
  {
    match r
    case WriteSingleCoil(a, v) => [WriteCoilCode, Trunc8(a / 0x100), Trunc8(a), Trunc8(v / 0x100), Trunc8(v)]
    case WriteSingleRegister(a, v) => [WriteRegCode, Trunc8(a / 0x100), Trunc8(a), Trunc8(v / 0x100), Trunc8(v)]
    case WriteMultipleCoils(a, cs) =>
      MultiplePdu(WriteCoilsCode, a, |cs|, (|cs| + 7) / 8, CoilBytes(cs))
    case WriteMultipleRegisters(a, vs) =>
      MultiplePdu(WriteRegsCode, a, |vs|, 2 * |vs|, RegisterBytes(vs))
  }

  /** Function code, address, quantity, byte count truncated to a byte, and the data bytes. */
  function MultiplePdu(code: byte, address: uint16, quantity: nat, byteCount: nat, data: seq<byte>): (p: seq<byte>)
    ensures |p| == 6 + |data|
  {
    [code, Trunc8(address / 0x100), Trunc8(address), Trunc8(quantity / 0x100), Trunc8(quantity), Trunc8(byteCount)] + data
  }

  /**
   * The MBAP header: transaction identifier (low 16 bits, high byte first),
   * protocol identifier 0, a length whose high byte is always 0 and whose low
   * byte is the given length truncated, and the unit identifier truncated.
   */
  function Mbap(transactionId: nat, length: nat, unit: int): seq<byte>
  {
    [Trunc8(transactionId / 0x100), Trunc8(transactionId), 0, 0, 0, Trunc8(length), Trunc8(unit)]
  }

  /** The frame for request r: the header, whose length counts the unit identifier and the PDU, then the PDU. */
  function Encode(transactionId: nat, unit: int, r: Request): (f: seq<byte>)
    ensures |f| == 7 + |Pdu(r)|
  {
    Mbap(transactionId, 1 + |Pdu(r)|, unit) + Pdu(r)
  }

  /** The transaction identifier a receiver reads from bytes 0 and 1. */
  function TransactionIdOf(frame: seq<byte>): uint16
    requires |frame| >= 2
  {
    Word(frame[0], frame[1])
  }

  /** Coil values that are 0 or 1, the only ones for which `+=` packs bits. */
  predicate Binary(coils: seq<uint16>)
  {
    forall i :: 0 <= i < |coils| ==> coils[i] <= 1
  }

  // ---------------------------------------------------------------- decoding

  function DecodeRegisters(data: seq<byte>): seq<uint16>
  {
    seq(|data| / 2, i requires 0 <= i < |data| / 2 => Word(data[2 * i], data[2 * i + 1]))
  }

  function UnpackCoils(data: seq<byte>, quantity: nat): seq<uint16>
    requires quantity <= 8 * |data|
  {
    seq(quantity, i requires 0 <= i < quantity => Bit(data[i / 8], i % 8))
  }

  /**
   * Reads a write-request frame: protocol identifier 0, a length field equal to
   * the number of bytes after it, and a PDU whose size and byte count agree with
   * its function code and quantity.
   */
  function Decode(frame: seq<byte>): Option<Adu>
  {
    if |frame| < 12 || frame[2] != 0 || frame[3] != 0 || frame[4] != 0 || frame[5] as int != |frame| - 6 then None
    else
      var t := Word(frame[0], frame[1]);
      var unit := frame[6];
      var address := Word(frame[8], frame[9]);
      var field := Word(frame[10], frame[11]);
      if frame[7] == WriteCoilCode && |frame| == 12 then
        Some(Adu(t, unit, WriteSingleCoil(address, field)))
      else if frame[7] == WriteRegCode && |frame| == 12 then
        Some(Adu(t, unit, WriteSingleRegister(address, field)))
      else if frame[7] == WriteRegsCode && |frame| == 13 + 2 * field && frame[12] as int == 2 * field then
        Some(Adu(t, unit, WriteMultipleRegisters(address, DecodeRegisters(frame[13..]))))
      else if frame[7] == WriteCoilsCode && |frame| == 13 + (field + 7) / 8 && frame[12] as int == (field + 7) / 8 then
        Some(Adu(t, unit, WriteMultipleCoils(address, UnpackCoils(frame[13..], field))))
      else None
  }

  // ---------------------------------------------------------------- lemmas

  /** Register i sits at offsets 2i (high byte) and 2i + 1 (low byte). */
  lemma {:induction false} RegisterBytesAt(values: seq<uint16>, i: nat)
    requires i < |values|
    ensures RegisterBytes(values)[2 * i] == Trunc8(values[i] / 0x100)
    ensures RegisterBytes(values)[2 * i + 1] == Trunc8(values[i])
  {
    var n := |values| - 1;
    if i < n {
      RegisterBytesAt(values[..n], i);
    }
  }

  lemma {:induction false} DecodeRegisterBytes(values: seq<uint16>)
    ensures DecodeRegisters(RegisterBytes(values)) == values
  {
    var d := DecodeRegisters(RegisterBytes(values));
    forall i | 0 <= i < |values|
      ensures d[i] == values[i]
    {
      RegisterBytesAt(values, i);
      WordOfBytes(values[i]);
    }
  }

  /** Least-significant-bit-first value of a run of binary coils. */
  function PackBits(bits: seq<uint16>): nat
  {
    if bits == [] then 0 else bits[0] + 2 * PackBits(bits[1..])
  }

  lemma {:induction false} PackBitsAppend(bits: seq<uint16>, b: uint16)
    requires b <= 1
    ensures PackBits(bits + [b]) == PackBits(bits) + if b == 0 then 0 else Pow2(|bits|)
  {
    if bits != [] {
      assert (bits + [b])[1..] == bits[1..] + [b];
      PackBitsAppend(bits[1..], b);
    }
  }

  lemma {:induction false} PackBitsBound(bits: seq<uint16>)
    requires Binary(bits)
    ensures PackBits(bits) < Pow2(|bits|)
  {
    if bits != [] {
      PackBitsBound(bits[1..]);
    }
  }

  lemma {:induction false} PackBitsBit(bits: seq<uint16>, j: nat)
    requires Binary(bits)
    ensures Bit(PackBits(bits), j) == if j < |bits| then bits[j] else 0
  {
    if bits == [] {
      BitOfZero(j);
    } else if j > 0 {
      PackBitsBit(bits[1..], j - 1);
    }
  }

  function Min(a: int, b: int): int
  {
    if a <= b then a else b
  }

  /** The coils that land in byte k. */
  function Chunk(coils: seq<uint16>, k: nat): seq<uint16>
    requires 8 * k <= |coils|
  {
    coils[8 * k .. Min(8 * k + 8, |coils|)]
  }

  /** A coil value of 0 or 1 shifted by fewer than eight places fits its byte. */
  lemma {:induction false} CoilTermBinary(b: uint16, i: nat)
    requires b <= 1
    ensures CoilTerm(b, i) == if b == 0 then 0 else Pow2(i % 8)
  {
    ShiftLeftOfBit(b, i % 8);
    Pow2Monotone(i % 8, 7);
    assert Pow2(7) == 0x80;
    Trunc8OfByte(ShiftLeft(b, i % 8));
  }

  /** Adding bit b at position |s| to the packed value of fewer than eight binary coils never wraps. */
  lemma {:induction false} AddCoilToByte(s: seq<uint16>, b: uint16, i: nat)
    requires Binary(s) && |s| == i % 8 && b <= 1
    ensures PackBits(s) < 0x100
    ensures PackBits(s) + CoilTerm(b, i) == PackBits(s + [b]) < 0x100
    ensures Trunc8(PackBits(s) + CoilTerm(b, i)) == PackBits(s + [b])
  {
    PackBitsBound(s);
    PackBitsBound(s + [b]);
    Pow2Monotone(|s|, 7);
    Pow2Monotone(|s| + 1, 8);
    assert Pow2(7) == 0x80 && Pow2(8) == 0x100;
    CoilTermBinary(b, i);
    PackBitsAppend(s, b);
    Trunc8OfByte(PackBits(s) + CoilTerm(b, i));
  }

  /** Coil i = |coils| - 1 leaves the bytes before byte i / 8 as they were. */
  lemma {:induction false} CoilBytesKeep(coils: seq<uint16>, k: nat)
    requires coils != [] && k < (|coils| - 1) / 8
    ensures k < |CoilBytes(coils[..|coils| - 1])| && k < |CoilBytes(coils)|
    ensures CoilBytes(coils)[k] == CoilBytes(coils[..|coils| - 1])[k]
  {
    CeilStep(|coils|, |coils|);
  }

  /** Coil i = |coils| - 1 with i a multiple of 8 starts byte i / 8 with its own term. */
  lemma {:induction false} CoilBytesStart(coils: seq<uint16>)
    requires coils != [] && (|coils| - 1) % 8 == 0
    ensures (|coils| - 1) / 8 < |CoilBytes(coils)|
    ensures CoilBytes(coils)[(|coils| - 1) / 8] == CoilTerm(coils[|coils| - 1], |coils| - 1)
  {
    CeilStep(|coils|, |coils|);
  }

  /** Coil i = |coils| - 1 with i not a multiple of 8 adds its term into byte i / 8, modulo 256. */
  lemma {:induction false} CoilBytesAdd(coils: seq<uint16>)
    requires coils != [] && (|coils| - 1) % 8 != 0
    ensures var i := |coils| - 1;
      && i / 8 < |CoilBytes(coils[..i])| && i / 8 < |CoilBytes(coils)|
      && CoilBytes(coils)[i / 8] == Trunc8(CoilBytes(coils[..i])[i / 8] as int + CoilTerm(coils[i], i))
  {
    var i := |coils| - 1;
    var prev := CoilBytes(coils[..i]);
    CeilStep(|coils|, |coils|);
    assert CoilBytes(coils) == prev[..|prev| - 1] + [Trunc8(prev[|prev| - 1] as int + CoilTerm(coils[i], i))];
  }

  /** A chunk before the last one is the same with or without the last coil. */
  lemma {:induction false} ChunkKeep(coils: seq<uint16>, k: nat)
    requires coils != [] && k < (|coils| - 1) / 8
    ensures Chunk(coils, k) == Chunk(coils[..|coils| - 1], k)
  {
    assert 8 * k + 8 <= |coils| - 1;
  }

  /** The last chunk, when the last coil i is a multiple of 8, holds that coil alone. */
  lemma {:induction false} ChunkStart(coils: seq<uint16>)
    requires coils != [] && (|coils| - 1) % 8 == 0
    ensures Chunk(coils, (|coils| - 1) / 8) == [coils[|coils| - 1]]
  {
  }

  /** The last chunk, when the last coil i is not a multiple of 8, extends the chunk without it. */
  lemma {:induction false} ChunkAdd(coils: seq<uint16>)
    requires coils != [] && (|coils| - 1) % 8 != 0
    ensures var i := |coils| - 1;
      && |Chunk(coils[..i], i / 8)| == i % 8
      && Chunk(coils, i / 8) == Chunk(coils[..i], i / 8) + [coils[i]]
  {
  }

  /** The chunk of byte i / 8 among the coils before coil i holds only 0/1 values. */
  lemma {:induction false} ChunkBinary(coils: seq<uint16>, i: nat)
    requires Binary(coils) && i < |coils|
    ensures 8 * (i / 8) <= i && Binary(Chunk(coils[..i], i / 8))
  {
    var c := Chunk(coils[..i], i / 8);
    forall j | 0 <= j < |c|
      ensures c[j] <= 1
    {
      assert c[j] == coils[8 * (i / 8) + j];
    }
  }

  /** The step of CoilByteAt for a last coil i that is not a multiple of 8: byte i / 8 stays the packed value of its coils. */
  lemma {:induction false} LastCoilOfByte(coils: seq<uint16>)
    requires Binary(coils) && coils != [] && (|coils| - 1) % 8 != 0
    requires var i := |coils| - 1;
      i / 8 < |CoilBytes(coils[..i])| && CoilBytes(coils[..i])[i / 8] == PackBits(Chunk(coils[..i], i / 8))
    ensures var i := |coils| - 1;
      i / 8 < |CoilBytes(coils)| && CoilBytes(coils)[i / 8] == PackBits(Chunk(coils, i / 8))
  {
    var i := |coils| - 1;
    var c := Chunk(coils[..i], i / 8);
    CoilBytesAdd(coils);
    ChunkAdd(coils);
    ChunkBinary(coils, i);
    AddCoilToByte(c, coils[i], i);
  }

  /** With binary coils no byte wraps: byte k is the packed value of its (at most eight) coils. */
  lemma {:induction false} CoilByteAt(coils: seq<uint16>, k: nat)
    requires Binary(coils) && k < |CoilBytes(coils)|
    ensures CoilBytes(coils)[k] == PackBits(Chunk(coils, k))
  {
    var i := |coils| - 1;
    var prev := coils[..i];
    assert Binary(prev);
    if k < i / 8 {
      CoilBytesKeep(coils, k);
      ChunkKeep(coils, k);
      CoilByteAt(prev, k);
    } else if i % 8 == 0 {
      assert k == i / 8;
      CoilBytesStart(coils);
      ChunkStart(coils);
      assert PackBits([coils[i]]) == coils[i] + 2 * PackBits([]);
      CoilTermBinary(coils[i], i);
    } else {
      assert k == i / 8;
      CoilByteAt(prev, k);
      LastCoilOfByte(coils);
    }
  }

  /** Coil i is bit i mod 8 of packed byte i / 8. */
  lemma {:induction false} CoilBitAt(coils: seq<uint16>, i: nat)
    requires Binary(coils) && i < |coils|
    ensures i / 8 < |CoilBytes(coils)|
    ensures Bit(CoilBytes(coils)[i / 8], i % 8) == coils[i]
  {
    ChunkIndex(coils, i);
    CoilByteAt(coils, i / 8);
    PackBitsBit(Chunk(coils, i / 8), i % 8);
  }

  /** Coil i is element i mod 8 of the chunk of byte i / 8. */
  lemma {:induction false} ChunkIndex(coils: seq<uint16>, i: nat)
    requires i < |coils|
    ensures i / 8 < |CoilBytes(coils)| && 8 * (i / 8) <= |coils|
    ensures i % 8 < |Chunk(coils, i / 8)| && Chunk(coils, i / 8)[i % 8] == coils[i]
  {
    DivMod8(i, |coils|);
  }

  /** The bits of the last packed byte beyond the last coil are 0: the bytes are zeroed before packing. */
  lemma {:induction false} CoilPaddingZero(coils: seq<uint16>, k: nat, j: nat)
    requires Binary(coils) && k < |CoilBytes(coils)| && j < 8 && 8 * k + j >= |coils|
    ensures Bit(CoilBytes(coils)[k], j) == 0
  {
    CoilByteAt(coils, k);
    PackBitsBit(Chunk(coils, k), j);
  }

  lemma {:induction false} UnpackCoilBytes(coils: seq<uint16>)
    requires Binary(coils)
    ensures |coils| <= 8 * |CoilBytes(coils)|
    ensures UnpackCoils(CoilBytes(coils), |coils|) == coils
  {
    var u := UnpackCoils(CoilBytes(coils), |coils|);
    forall i | 0 <= i < |coils|
      ensures u[i] == coils[i]
    {
      CoilBitAt(coils, i);
    }
  }

  /** The 13 bytes before the data of a multiple write. */
  function MultipleHead(t: nat, u: int, code: byte, address: uint16, quantity: uint16, byteCount: nat, dataLength: nat): seq<byte>
  {
    [Trunc8(t / 0x100), Trunc8(t), 0, 0, 0, Trunc8(7 + dataLength), Trunc8(u), code,
     Trunc8(address / 0x100), Trunc8(address), Trunc8(quantity / 0x100), Trunc8(quantity), Trunc8(byteCount)]
  }

  /** A multiple-write frame is its 13 head bytes followed by the data. */
  lemma {:induction false} MultipleSplit(t: nat, u: int, code: byte, address: uint16, quantity: uint16, byteCount: nat, data: seq<byte>)
    ensures Mbap(t, 1 + |MultiplePdu(code, address, quantity, byteCount, data)|, u)
            + MultiplePdu(code, address, quantity, byteCount, data)
         == MultipleHead(t, u, code, address, quantity, byteCount, |data|) + data
  {
    var m := Mbap(t, 1 + |MultiplePdu(code, address, quantity, byteCount, data)|, u);
    var fields := [code, Trunc8(address / 0x100), Trunc8(address), Trunc8(quantity / 0x100), Trunc8(quantity), Trunc8(byteCount)];
    assert m + (fields + data) == (m + fields) + data;
    assert m + fields == MultipleHead(t, u, code, address, quantity, byteCount, |data|);
  }

  /** The data of a frame made of 13 head bytes and the data. */
  lemma {:induction false} DropHead(head: seq<byte>, data: seq<byte>)
    requires |head| == 13
    ensures (head + data)[13..] == data
  {
  }

  /** Frame length for each function code. */
  lemma {:induction false} EncodeLength(t: nat, u: int, r: Request)
    ensures |Encode(t, u, r)| == match r
      case WriteSingleCoil(_, _) => 12
      case WriteSingleRegister(_, _) => 12
      case WriteMultipleCoils(_, cs) => 13 + (|cs| + 7) / 8
      case WriteMultipleRegisters(_, vs) => 13 + 2 * |vs|
  {
  }

  /**
   * The MBAP header and the first PDU fields, common to all four function codes:
   * transaction identifier modulo 2^16 big-endian, protocol identifier 0, length
   * high byte 0 and low byte the truncated count of the remaining bytes, unit
   * identifier modulo 256, function code and address big-endian.
   */
  lemma {:induction false} HeaderLayout(t: nat, u: int, r: Request)
    ensures |Encode(t, u, r)| >= 12
    ensures Encode(t, u, r)[0] == (t / 0x100) % 0x100 && Encode(t, u, r)[1] == t % 0x100
    ensures TransactionIdOf(Encode(t, u, r)) == t % 0x1_0000
    ensures Encode(t, u, r)[2] == 0 && Encode(t, u, r)[3] == 0 && Encode(t, u, r)[4] == 0
    ensures Encode(t, u, r)[5] == (|Encode(t, u, r)| - 6) % 0x100
    ensures Encode(t, u, r)[6] == u % 0x100
    ensures Encode(t, u, r)[7] == FunctionCode(r)
    ensures Word(Encode(t, u, r)[8], Encode(t, u, r)[9]) == r.address
  {
    var f := Encode(t, u, r);
    MbapBytes(t, u, r);
    PduHead(r);
    PduAt(t, u, r, 0);
    PduAt(t, u, r, 1);
    PduAt(t, u, r, 2);
    WordOfBigEndian16(t);
    WordOfBigEndian16(r.address);
  }

  /** The seven MBAP bytes at the front of a frame. */
  lemma {:induction false} MbapBytes(t: nat, u: int, r: Request)
    ensures var f := Encode(t, u, r);
      && |f| >= 7
      && f[0] == Trunc8(t / 0x100) && f[1] == Trunc8(t)
      && f[2] == 0 && f[3] == 0 && f[4] == 0
      && f[5] == Trunc8(|f| - 6) && f[6] == Trunc8(u)
  {
  }

  /** The function code and address at the front of every PDU. */
  lemma {:induction false} PduHead(r: Request)
    ensures |Pdu(r)| >= 5
    ensures Pdu(r)[0] == FunctionCode(r)
    ensures Pdu(r)[1] == Trunc8(r.address / 0x100) && Pdu(r)[2] == Trunc8(r.address)
  {
  }

  /** Byte k of the PDU is byte 7 + k of the frame. */
  lemma {:induction false} PduAt(t: nat, u: int, r: Request, k: nat)
    requires k < |Pdu(r)|
    ensures Encode(t, u, r)[7 + k] == Pdu(r)[k]
  {
  }

  /** Write Single Coil and Write Single Register: 12 bytes, length 6, value big-endian in bytes 10 and 11. */
  lemma {:induction false} SingleWriteLayout(t: nat, u: int, r: Request)
    requires r.WriteSingleCoil? || r.WriteSingleRegister?
    ensures |Encode(t, u, r)| == 12 && Encode(t, u, r)[5] == 6
    ensures Encode(t, u, r)[10] == r.value / 0x100 && Encode(t, u, r)[11] == r.value % 0x100
  {
  }

  /** The quantity, byte count and data of a multiple-write frame at their offsets. */
  lemma {:induction false} MultipleFields(t: nat, u: int, code: byte, address: uint16, quantity: uint16, byteCount: nat, data: seq<byte>)
    ensures var f := Mbap(t, 1 + |MultiplePdu(code, address, quantity, byteCount, data)|, u)
                     + MultiplePdu(code, address, quantity, byteCount, data);
      && f == MultipleHead(t, u, code, address, quantity, byteCount, |data|) + data
      && |f| == 13 + |data|
      && f[5] == Trunc8(7 + |data|)
      && Word(f[10], f[11]) == quantity
      && f[12] == Trunc8(byteCount)
  {
    MultipleSplit(t, u, code, address, quantity, byteCount, data);
    WordOfBigEndian16(quantity);
  }

  /** Byte k of the data is byte 13 + k of the frame. */
  lemma {:induction false} DataAt(head: seq<byte>, data: seq<byte>, k: nat)
    requires |head| == 13 && k < |data|
    ensures (head + data)[13 + k] == data[k]
  {
  }

  /**
   * Write Multiple Registers: 13 + 2n bytes, quantity n big-endian in bytes 10
   * and 11, length byte (7 + 2n) mod 256, byte count (2n) mod 256, register i
   * high byte at 13 + 2i and low byte at 14 + 2i.
   */
  lemma {:induction false} MultipleRegistersLayout(t: nat, u: int, address: uint16, values: seq<uint16>)
    requires |values| < 0x1_0000
    ensures var f := Encode(t, u, WriteMultipleRegisters(address, values));
      && |f| == 13 + 2 * |values|
      && Word(f[10], f[11]) == |values|
      && f[5] == (7 + 2 * |values|) % 0x100
      && f[12] == (2 * |values|) % 0x100
      && forall i :: 0 <= i < |values| ==> f[13 + 2 * i] == values[i] / 0x100 && f[14 + 2 * i] == values[i] % 0x100
  {
    var f := Encode(t, u, WriteMultipleRegisters(address, values));
    var data := RegisterBytes(values);
    var head := MultipleHead(t, u, WriteRegsCode, address, |values|, 2 * |values|, |data|);
    MultipleFields(t, u, WriteRegsCode, address, |values|, 2 * |values|, data);
    forall i | 0 <= i < |values|
      ensures f[13 + 2 * i] == values[i] / 0x100 && f[14 + 2 * i] == values[i] % 0x100
    {
      RegisterBytesAt(values, i);
      HighByte(values[i]);
      DataAt(head, data, 2 * i);
      DataAt(head, data, 2 * i + 1);
    }
  }

  /**
   * Write Multiple Coils with coil values 0 or 1: 13 + ceil(n / 8) bytes, quantity
   * big-endian in bytes 10 and 11, length byte (7 + ceil(n / 8)) mod 256, byte count
   * ceil(n / 8) mod 256, coil i at bit i mod 8 of byte 13 + i / 8, and every packed
   * bit at a position >= n is 0.
   */
  lemma {:induction false} MultipleCoilsLayout(t: nat, u: int, address: uint16, coils: seq<uint16>)
    requires |coils| < 0x1_0000 && Binary(coils)
    ensures var f := Encode(t, u, WriteMultipleCoils(address, coils));
      && |f| == 13 + (|coils| + 7) / 8
      && Word(f[10], f[11]) == |coils|
      && f[5] == (7 + (|coils| + 7) / 8) % 0x100
      && f[12] == ((|coils| + 7) / 8) % 0x100
      && (forall i :: 0 <= i < |coils| ==> Bit(f[13 + i / 8], i % 8) == coils[i])
      && (forall p :: |coils| <= p < 8 * ((|coils| + 7) / 8) ==> Bit(f[13 + p / 8], p % 8) == 0)
  {
    var data := CoilBytes(coils);
    var head := MultipleHead(t, u, WriteCoilsCode, address, |coils|, (|coils| + 7) / 8, |data|);
    MultipleFields(t, u, WriteCoilsCode, address, |coils|, (|coils| + 7) / 8, data);
    PackedAfterHead(head, coils);
  }

  /** Behind any 13-byte head, coil i sits at bit i mod 8 of byte 13 + i / 8 and the padding bits are 0. */
  lemma {:induction false} PackedAfterHead(head: seq<byte>, coils: seq<uint16>)
    requires |head| == 13 && Binary(coils)
    ensures var f := head + CoilBytes(coils);
      && (forall i :: 0 <= i < |coils| ==> Bit(f[13 + i / 8], i % 8) == coils[i])
      && (forall p :: |coils| <= p < 8 * ((|coils| + 7) / 8) ==> Bit(f[13 + p / 8], p % 8) == 0)
  {
    var data := CoilBytes(coils);
    forall i | 0 <= i < |coils|
      ensures Bit((head + data)[13 + i / 8], i % 8) == coils[i]
    {
      CoilBitAt(coils, i);
      DataAt(head, data, i / 8);
    }
    forall p | |coils| <= p < 8 * ((|coils| + 7) / 8)
      ensures Bit((head + data)[13 + p / 8], p % 8) == 0
    {
      CoilPaddingZero(coils, p / 8, p % 8);
      DataAt(head, data, p / 8);
    }
  }

  /** The length field is exact (bytes 4-5 equal the frame length minus 6) iff that count fits in one byte. */
  lemma {:induction false} LengthFieldExact(t: nat, u: int, r: Request)
    ensures var f := Encode(t, u, r);
      Word(f[4], f[5]) == |f| - 6 <==> |f| - 6 < 0x100
  {
    MbapBytes(t, u, r);
    Trunc8Exact(|Encode(t, u, r)| - 6);
  }

  lemma {:induction false} DecodeEncodeRegisters(t: nat, u: int, address: uint16, values: seq<uint16>)
    requires |values| <= 124
    ensures Decode(Encode(t, u, WriteMultipleRegisters(address, values)))
         == Some(Adu(t % 0x1_0000, Trunc8(u), WriteMultipleRegisters(address, values)))
  {
    var r := WriteMultipleRegisters(address, values);
    var f := Encode(t, u, r);
    HeaderLayout(t, u, r);
    MultipleFields(t, u, WriteRegsCode, address, |values|, 2 * |values|, RegisterBytes(values));
    DropHead(MultipleHead(t, u, WriteRegsCode, address, |values|, 2 * |values|, 2 * |values|), RegisterBytes(values));
    DecodeRegisterBytes(values);
    Trunc8OfByte(2 * |values|);
    Trunc8OfByte(7 + 2 * |values|);
  }

  lemma {:induction false} DecodeEncodeCoils(t: nat, u: int, address: uint16, coils: seq<uint16>)
    requires |coils| <= 1984 && Binary(coils)
    ensures Decode(Encode(t, u, WriteMultipleCoils(address, coils)))
         == Some(Adu(t % 0x1_0000, Trunc8(u), WriteMultipleCoils(address, coils)))
  {
    var r := WriteMultipleCoils(address, coils);
    var f := Encode(t, u, r);
    HeaderLayout(t, u, r);
    MultipleFields(t, u, WriteCoilsCode, address, |coils|, (|coils| + 7) / 8, CoilBytes(coils));
    DropHead(MultipleHead(t, u, WriteCoilsCode, address, |coils|, (|coils| + 7) / 8, (|coils| + 7) / 8), CoilBytes(coils));
    UnpackCoilBytes(coils);
    Trunc8OfByte((|coils| + 7) / 8);
    Trunc8OfByte(7 + (|coils| + 7) / 8);
  }

  /** The 12 bytes of a single-write frame. */
  lemma {:induction false} SingleFrame(t: nat, u: int, r: Request)
    requires r.WriteSingleCoil? || r.WriteSingleRegister?
    ensures Encode(t, u, r) == [Trunc8(t / 0x100), Trunc8(t), 0, 0, 0, 6, Trunc8(u), FunctionCode(r),
                                Trunc8(r.address / 0x100), Trunc8(r.address), Trunc8(r.value / 0x100), Trunc8(r.value)]
  {
  }

  /**
   * Whenever the length byte does not wrap (at most 124 registers or 1984 coils),
   * decoding an encoded frame gives back its header fields and request.
   */
  lemma {:induction false} DecodeEncode(t: nat, u: int, r: Request)
    requires |Encode(t, u, r)| - 6 < 0x100
    requires r.WriteMultipleCoils? ==> Binary(r.coils)
    ensures Decode(Encode(t, u, r)) == Some(Adu(t % 0x1_0000, Trunc8(u), r))
  {
    EncodeLength(t, u, r);
    match r
    case WriteSingleCoil(_, _) =>
      DecodeEncodeSingle(t, u, r);
    case WriteSingleRegister(_, _) =>
      DecodeEncodeSingle(t, u, r);
    case WriteMultipleRegisters(a, vs) =>
      assert |vs| <= 124;
      DecodeEncodeRegisters(t, u, a, vs);
    case WriteMultipleCoils(a, cs) =>
      assert |cs| <= 1984;
      DecodeEncodeCoils(t, u, a, cs);
  }

  lemma {:induction false} DecodeEncodeSingle(t: nat, u: int, r: Request)
    requires r.WriteSingleCoil? || r.WriteSingleRegister?
    ensures Decode(Encode(t, u, r)) == Some(Adu(t % 0x1_0000, Trunc8(u), r))
  {
    HeaderLayout(t, u, r);
    WordOfBigEndian16(r.value);
  }

  /** Write Single Register of 222 to register 0, from slave 1 with message id 1. */
  lemma {:induction false} WriteRegister0Of222Frame()
    ensures Encode(1, 1, WriteSingleRegister(0, 222)) == [0x00, 0x01, 0x00, 0x00, 0x00, 0x06, 0x01, 0x06, 0x00, 0x00, 0x00, 0xDE]
  {
  }
}
