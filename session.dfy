/**
 * The client session, class `modbus`: configuration, connection flag, the
 * 32-bit transaction counter, the slave identifier and the error fields, and
 * the write path that fills a fresh byte buffer in place and hands it to the
 * transport.
 *
 * The socket is abstract: whether connecting succeeds is a parameter of
 * Connect, and the ghost field `sent` logs every frame handed to the transport.
 */
module Session {
  import opened Bytes
  import opened Frame
  import opened Wrappers

  /**
   * A frame as the client hands it to the transport: the encoded bytes, except
   * that Write Multiple Coils with quantity 0 allocates and sends one byte more,
   * which is never written.
   */
  predicate SentAs(frame: seq<byte>, t: nat, u: int, r: Request)
  {
    var e := Encode(t, u, r);
    if r.WriteMultipleCoils? && r.coils == [] then |frame| == |e| + 1 && frame[..|e|] == e
    else frame == e
  }

  /** The 13 head bytes followed by the register bytes are the encoded Write Multiple Registers frame. */
  lemma {:induction false} RegistersSentAs(frame: seq<byte>, t: nat, u: int, address: uint16, values: seq<uint16>)
    requires |values| < 0x1_0000
    requires frame == MultipleHead(t, u, WriteRegsCode, address, |values|, 2 * |values|, 2 * |values|) + RegisterBytes(values)
    ensures SentAs(frame, t, u, WriteMultipleRegisters(address, values))
  {
    MultipleSplit(t, u, WriteRegsCode, address, |values|, 2 * |values|, RegisterBytes(values));
  }

  /**
   * A buffer of 14 + (n - 1) / 8 bytes (C division) that starts with the 13 head
   * bytes and the packed coil bytes is the Write Multiple Coils frame as sent: the
   * encoded frame, plus one byte that is never written when n is 0.
   */
  lemma {:induction false} CoilsSentAs(frame: seq<byte>, t: nat, u: int, address: uint16, amount: uint16, value: seq<uint16>)
    requires amount <= |value| && |frame| == 14 + TruncDiv(amount - 1, 8)
    requires frame[..13 + (amount + 7) / 8]
          == MultipleHead(t, u, WriteCoilsCode, address, amount, (amount + 7) / 8, (amount + 7) / 8) + CoilBytes(value[..amount])
    ensures SentAs(frame, t, u, WriteMultipleCoils(address, value[..amount]))
  {
    var coils := value[..amount];
    MultipleSplit(t, u, WriteCoilsCode, address, amount, (amount + 7) / 8, CoilBytes(coils));
    if coils != [] {
      assert frame == frame[..13 + (amount + 7) / 8];
    }
  }

  /** A slice of s from 0 to k is its slice up to n followed by the slice from n to k. */
  lemma {:induction false} SplitSlice(s: seq<byte>, n: nat, k: nat)
    requires n <= k <= |s|
    ensures s[..k] == s[..n] + s[n..k]
  {
  }

  /** A frame sent as the encoding of r is at least 12 bytes long and starts with r's transaction identifier. */
  lemma {:induction false} SentAsHeader(frame: seq<byte>, t: nat, u: int, r: Request)
    requires SentAs(frame, t, u, r)
    ensures |frame| >= 12 && TransactionIdOf(frame) == t % 0x1_0000
  {
    HeaderLayout(t, u, r);
    var e := Encode(t, u, r);
    assert frame[..|e|] == e;
  }

  /**
   * Write Multiple Coils with amount 0 sends 14 bytes whose length byte says 7:
   * no receiver can decode such a frame, whatever its unwritten byte 13 holds.
   */
  lemma {:induction false} EmptyCoilsUndecodable(frame: seq<byte>, t: nat, u: int, address: uint16)
    requires SentAs(frame, t, u, WriteMultipleCoils(address, []))
    ensures |frame| == 14 && frame[5] == 7 && Decode(frame) == None
  {
    var r := WriteMultipleCoils(address, []);
    var e := Encode(t, u, r);
    EncodeLength(t, u, r);
    HeaderLayout(t, u, r);
    assert |e| == 13 && e[5] == 7;
    assert frame[..13] == e;
    assert frame[5] == e[5];
    assert frame[5] as int != |frame| - 6;
  }

  /** Frame k of a log carries transaction identifier (1 + k) mod 2^16. */
  ghost predicate NumberedLog(frames: seq<seq<byte>>)
  {
    forall k :: 0 <= k < |frames| ==> |frames[k]| >= 12 && TransactionIdOf(frames[k]) == (1 + k) % 0x1_0000
  }

  /** Sending a frame built with the counter at (1 + frames) mod 2^32 keeps the log numbered. */
  lemma LogAppend(frames: seq<seq<byte>>, frame: seq<byte>, t: uint32, u: int, r: Request)
    requires NumberedLog(frames) && t == (1 + |frames|) % 0x1_0000_0000
    requires SentAs(frame, t, u, r)
    ensures NumberedLog(frames + [frame])
    ensures Next(t) == (1 + |frames + [frame]|) % 0x1_0000_0000
  {
    SentAsHeader(frame, t, u, r);
    LowBitsOfWrapped(1 + |frames|);
    NextOfWrapped(1 + |frames|);
  }

  /** Coil i - 1 extends CoilBytes of the first i - 1 coils exactly as one iteration of the packing loop does. */
  lemma {:induction false} CoilBytesPrefix(coils: seq<uint16>, i: nat)
    requires 0 < i <= |coils|
    ensures var prev := CoilBytes(coils[..i - 1]);
      CoilBytes(coils[..i]) ==
        if (i - 1) % 8 == 0 then prev + [CoilTerm(coils[i - 1], i - 1)]
        else prev[..|prev| - 1] + [Trunc8(prev[|prev| - 1] as int + CoilTerm(coils[i - 1], i - 1))]
  {
    assert coils[..i][..i - 1] == coils[..i - 1];
  }

  /** `n` zero bytes: the packed coil bytes before any coil is added. */
  function Zeros(n: nat): (z: seq<byte>)
    ensures |z| == n && forall k :: 0 <= k < n ==> z[k] == 0
  {
    seq(n, _ => 0)
  }

  /** Before the coil-summing loop: all-zero bytes are the packing of no coils followed by zeros. */
  lemma {:induction false} NothingPacked(buf: seq<byte>, value: seq<uint16>)
    requires forall k :: 0 <= k < |buf| ==> buf[k] == 0
    ensures buf == CoilBytes(value[..0]) + Zeros(|buf|)
  {
    assert value[..0] == [];
  }

  /** After the coil-summing loop: no zero bytes remain after the packed ones. */
  lemma {:induction false} AllPacked(value: seq<uint16>, amount: nat)
    requires amount <= |value|
    ensures CoilBytes(value[..amount]) + Zeros((amount + 7) / 8 - (amount + 7) / 8) == CoilBytes(value[..amount])
  {
    assert Zeros(0) == [];
  }

  /**
   * One step of the coil-summing loop over a buffer of `(amount + 7) / 8` bytes:
   * adding coil i - 1 into byte (i - 1) / 8 of the bytes packed so far (followed
   * by the still-zero bytes) gives the bytes packed from the first i coils.
   */
  lemma {:induction false} SumCoilStep(value: seq<uint16>, amount: nat, i: nat, buf: seq<byte>)
    requires 0 < i <= amount <= |value|
    requires buf == CoilBytes(value[..i - 1]) + Zeros((amount + 7) / 8 - (i - 1 + 7) / 8)
    ensures (i - 1) / 8 < |buf|
    ensures buf[(i - 1) / 8 := Trunc8(buf[(i - 1) / 8] as int + CoilTerm(value[i - 1], i - 1))]
         == CoilBytes(value[..i]) + Zeros((amount + 7) / 8 - (i + 7) / 8)
  {
    if (i - 1) % 8 == 0 {
      SumCoilStepStart(value, amount, i, buf);
    } else {
      SumCoilStepAdd(value, amount, i, buf);
    }
  }

  lemma {:induction false} SumCoilStepStart(value: seq<uint16>, amount: nat, i: nat, buf: seq<byte>)
    requires 0 < i <= amount <= |value| && (i - 1) % 8 == 0
    requires buf == CoilBytes(value[..i - 1]) + Zeros((amount + 7) / 8 - (i - 1 + 7) / 8)
    ensures (i - 1) / 8 < |buf|
    ensures buf[(i - 1) / 8 := Trunc8(buf[(i - 1) / 8] as int + CoilTerm(value[i - 1], i - 1))]
         == CoilBytes(value[..i]) + Zeros((amount + 7) / 8 - (i + 7) / 8)
  {
    CeilStep(i, amount);
    CoilBytesPrefix(value, i);
    SumCoilStart(CoilBytes(value[..i - 1]), CoilTerm(value[i - 1], i - 1), (amount + 7) / 8 - (i - 1 + 7) / 8, buf);
  }

  lemma {:induction false} SumCoilStepAdd(value: seq<uint16>, amount: nat, i: nat, buf: seq<byte>)
    requires 0 < i <= amount <= |value| && (i - 1) % 8 != 0
    requires buf == CoilBytes(value[..i - 1]) + Zeros((amount + 7) / 8 - (i - 1 + 7) / 8)
    ensures (i - 1) / 8 < |buf|
    ensures buf[(i - 1) / 8 := Trunc8(buf[(i - 1) / 8] as int + CoilTerm(value[i - 1], i - 1))]
         == CoilBytes(value[..i]) + Zeros((amount + 7) / 8 - (i + 7) / 8)
  {
    var prev := CoilBytes(value[..i - 1]);
    var zeros := (amount + 7) / 8 - (i - 1 + 7) / 8;
    CeilStep(i, amount);
    assert |prev| - 1 == (i - 1) / 8 && (amount + 7) / 8 - (i + 7) / 8 == zeros;
    CoilBytesPrefix(value, i);
    SumCoilAdd(prev, CoilTerm(value[i - 1], i - 1), zeros, buf);
  }

  /** Adding a term into the first zero byte after the packed bytes appends it. */
  lemma {:induction false} SumCoilStart(prev: seq<byte>, term: byte, zeros: nat, buf: seq<byte>)
    requires zeros > 0 && buf == prev + Zeros(zeros)
    ensures buf[|prev| := Trunc8(buf[|prev|] as int + term)] == (prev + [term]) + Zeros(zeros - 1)
  {
    Trunc8OfByte(term);
  }

  /** Adding a term into the last packed byte replaces it by the wrapped sum. */
  lemma {:induction false} SumCoilAdd(prev: seq<byte>, term: byte, zeros: nat, buf: seq<byte>)
    requires prev != [] && buf == prev + Zeros(zeros)
    ensures var j := |prev| - 1;
      buf[j := Trunc8(buf[j] as int + term)] == (prev[..j] + [Trunc8(prev[j] as int + term)]) + Zeros(zeros)
  {
  }

  /**
   * The buffer after the coil-summing loop has added coils 0 .. i - 1, each into
   * byte 13 + j / 8 with `uint8_t` wrap-around.
   */
  ghost function CoilsSummed(buf: seq<byte>, value: seq<uint16>, i: nat): (r: seq<byte>)
    requires i <= |value| && |buf| >= 13 + (i + 7) / 8
    ensures |r| == |buf|
  {
    if i == 0 then buf
    else
      var prev := CoilsSummed(buf, value, i - 1);
      prev[13 + (i - 1) / 8 := Trunc8(prev[13 + (i - 1) / 8] as int + CoilTerm(value[i - 1], i - 1))]
  }

  /** The summing loop never touches the bytes after the packed ones. */
  lemma {:induction false} SummedBeyond(buf: seq<byte>, value: seq<uint16>, i: nat, k: nat)
    requires i <= |value| && 13 + (i + 7) / 8 <= k < |buf|
    ensures CoilsSummed(buf, value, i)[k] == buf[k]
  {
    if i > 0 {
      SummedBeyond(buf, value, i - 1, k);
    }
  }

  /** The summing loop keeps the first 13 bytes and packs the first i coils into the zeroed bytes after them. */
  lemma {:induction false} SummedPrefix(buf: seq<byte>, value: seq<uint16>, amount: nat, i: nat)
    requires i <= amount <= |value| && |buf| >= 13 + (amount + 7) / 8
    requires buf[13..13 + (amount + 7) / 8] == CoilBytes(value[..0]) + Zeros((amount + 7) / 8 - (0 + 7) / 8)
    ensures |buf| >= 13 + (i + 7) / 8
    ensures CoilsSummed(buf, value, i)[..13] == buf[..13]
    ensures CoilsSummed(buf, value, i)[13..13 + (amount + 7) / 8]
         == CoilBytes(value[..i]) + Zeros((amount + 7) / 8 - (i + 7) / 8)
  {
    if i > 0 {
      SummedPrefix(buf, value, amount, i - 1);
      SummedStep(buf, value, amount, i);
    }
  }

  /** One pass of the summing loop, for coil i - 1, keeps the head and packs one coil more. */
  lemma {:induction false} SummedStep(buf: seq<byte>, value: seq<uint16>, amount: nat, i: nat)
    requires 0 < i <= amount <= |value| && |buf| >= 13 + (amount + 7) / 8
    requires CoilsSummed(buf, value, i - 1)[..13] == buf[..13]
    requires CoilsSummed(buf, value, i - 1)[13..13 + (amount + 7) / 8]
          == CoilBytes(value[..i - 1]) + Zeros((amount + 7) / 8 - (i - 1 + 7) / 8)
    ensures CoilsSummed(buf, value, i)[..13] == buf[..13]
    ensures CoilsSummed(buf, value, i)[13..13 + (amount + 7) / 8]
         == CoilBytes(value[..i]) + Zeros((amount + 7) / 8 - (i + 7) / 8)
  {
    var prev := CoilsSummed(buf, value, i - 1);
    SlotStep(prev, buf[..13], value, amount, i);
    assert CoilsSummed(buf, value, i)
        == prev[13 + (i - 1) / 8 := Trunc8(prev[13 + (i - 1) / 8] as int + CoilTerm(value[i - 1], i - 1))];
  }

  /** Adding coil i - 1 into byte 13 + (i - 1) / 8 keeps the head and packs one coil more. */
  lemma {:induction false} SlotStep(prev: seq<byte>, head: seq<byte>, value: seq<uint16>, amount: nat, i: nat)
    requires 0 < i <= amount <= |value| && |prev| >= 13 + (amount + 7) / 8
    requires prev[..13] == head
    requires prev[13..13 + (amount + 7) / 8] == CoilBytes(value[..i - 1]) + Zeros((amount + 7) / 8 - (i - 1 + 7) / 8)
    ensures 13 + (i - 1) / 8 < 13 + (amount + 7) / 8
    ensures var next := prev[13 + (i - 1) / 8 := Trunc8(prev[13 + (i - 1) / 8] as int + CoilTerm(value[i - 1], i - 1))];
      && next[..13] == head
      && next[13..13 + (amount + 7) / 8] == CoilBytes(value[..i]) + Zeros((amount + 7) / 8 - (i + 7) / 8)
  {
    var m := (amount + 7) / 8;
    CeilStep(i, amount);
    var sum := Trunc8(prev[13 + (i - 1) / 8] as int + CoilTerm(value[i - 1], i - 1));
    SumCoilStep(value, amount, i, prev[13..13 + m]);
    SliceOfUpdate(prev, 13, 13 + m, 13 + (i - 1) / 8, sum);
    assert prev[13 + (i - 1) / 8 := sum][..13] == prev[..13];
  }

  /** After all amount coils: the head is kept and the packed bytes are CoilBytes of the coils. */
  lemma {:induction false} SummedPacks(buf: seq<byte>, value: seq<uint16>, amount: nat)
    requires amount <= |value| && |buf| >= 13 + (amount + 7) / 8
    requires forall k :: 13 <= k < 13 + (amount + 7) / 8 ==> buf[k] == 0
    ensures CoilsSummed(buf, value, amount)[..13] == buf[..13]
    ensures CoilsSummed(buf, value, amount)[13..13 + (amount + 7) / 8] == CoilBytes(value[..amount])
  {
    NothingPacked(buf[13..13 + (amount + 7) / 8], value);
    SummedPrefix(buf, value, amount, amount);
    AllPacked(value, amount);
  }

  class Modbus {
    var err: bool
    var errNo: int32
    var errorMsg: string

    var connected: bool
    var port: uint16
    var msgId: uint32
    var slaveId: int32
    var host: string

    /** The frames handed to the transport, oldest first. */
    ghost var sent: seq<seq<byte>>

    /**
     * The counter starts at 1 and moves once per frame, so frame k of the log
     * carries transaction identifier (1 + k) mod 2^16 and the counter is
     * (1 + number of frames) mod 2^32.
     */
    ghost predicate Numbered()
      reads this
    {
      msgId == (1 + |sent|) % 0x1_0000_0000 && NumberedLog(sent)
    }

    /** Numbered, and a session that is not connected has sent nothing. */
    ghost predicate Valid()
      reads this
    {
      Numbered() && (!connected ==> sent == [])
    }

    constructor(host: string, port: uint16 := 502)
      ensures Valid()
      ensures this.host == host && this.port == port
      ensures slaveId == 1 && msgId == 1 && !connected
      ensures !err && errNo == 0 && errorMsg == ""
      ensures sent == []
    {
      this.host := host;
      this.port := port;
      slaveId := 1;
      msgId := 1;
      connected := false;
      err := false;
      errNo := 0;
      errorMsg := "";
      sent := [];
    }

    method SetSlaveId(id: int32)
      modifies this`slaveId
      ensures slaveId == id
      ensures old(Valid()) ==> Valid()
    {
      slaveId := id;
    }

    /**
     * An empty host or port 0 fails before the transport is consulted; otherwise
     * the outcome is the transport's (socket creation, timeouts and connect).
     * Only success sets the connected flag; failure leaves it as it was.
     */
    method Connect(transportConnects: bool) returns (ok: bool)
      requires Valid()
      modifies this`connected
      ensures Valid()
      ensures ok <==> host != "" && port != 0 && transportConnects
      ensures connected == (old(connected) || ok)
    {
      if host == "" || port == 0 {
        return false;
      }
      if !transportConnects {
        return false;
      }
      connected := true;
      return true;
    }

    /** Releases the socket; the method is `const`, so no field changes and the connected flag stays set. */
    method Close()
      ensures unchanged(this)
    {
    }

    /**
     * Writes the header fields every request shares into bytes 0-4 and 6-9:
     * the counter's low 16 bits big-endian, three zero bytes, the slave
     * identifier and the function code truncated to a byte, the address
     * big-endian. Byte 5 and the bytes after 9 are left as they were.
     */
    method BuildRequest(toSend: array<byte>, address: uint16, func: int)
      requires toSend.Length >= 10
      modifies toSend
      ensures toSend[0] == Trunc8(msgId / 0x100) && toSend[1] == Trunc8(msgId)
      ensures toSend[2] == 0 && toSend[3] == 0 && toSend[4] == 0
      ensures toSend[5] == old(toSend[5])
      ensures toSend[6] == Trunc8(slaveId) && toSend[7] == Trunc8(func)
      ensures toSend[8] == Trunc8(address / 0x100) && toSend[9] == Trunc8(address)
      ensures forall k :: 10 <= k < toSend.Length ==> toSend[k] == old(toSend[k])
    {
      toSend[0] := Trunc8(msgId / 0x100);
      toSend[1] := Trunc8(msgId);
      toSend[2] := 0;
      toSend[3] := 0;
      toSend[4] := 0;
      toSend[6] := Trunc8(slaveId);
      toSend[7] := Trunc8(func);
      toSend[8] := Trunc8(address / 0x100);
      toSend[9] := Trunc8(address);
    }

    /** Hands the first length bytes to the transport and moves the counter on, wrapping at 2^32. */
    method Send(toSend: array<byte>, length: nat) returns (n: int)
      requires length <= toSend.Length
      modifies this`msgId, this`sent
      ensures msgId == Next(old(msgId))
      ensures sent == old(sent) + [toSend[..length]]
      ensures -1 <= n <= length
    {
      msgId := Next(msgId);
      sent := sent + [toSend[..length]];
      n :| -1 <= n <= length;
    }

    /** The 12-byte buffer of Write Single Coil or Write Single Register: header, length 6, value big-endian. */
    method SingleWriteFrame(address: uint16, func: int, v: uint16) returns (toSend: array<byte>)
      requires func == WriteCoilCode as int || func == WriteRegCode as int
      ensures fresh(toSend)
      ensures toSend.Length == 12
      ensures SentAs(toSend[..], msgId, slaveId,
                     if func == WriteCoilCode as int then WriteSingleCoil(address, v) else WriteSingleRegister(address, v))
    {
      toSend := new byte[12];
      BuildRequest(toSend, address, func);
      toSend[5] := 6;
      toSend[10] := Trunc8(v / 0x100);
      toSend[11] := Trunc8(v);
      SingleFrame(msgId, slaveId, if func == WriteCoilCode as int then WriteSingleCoil(address, v) else WriteSingleRegister(address, v));
    }

    /** The loop of Write Multiple Registers: register i goes to bytes 13 + 2i (high) and 14 + 2i (low). */
    static method PutRegisters(toSend: array<byte>, amount: uint16, value: seq<uint16>)
      requires |value| >= amount && toSend.Length == 13 + 2 * amount
      modifies toSend
      ensures toSend[..13] == old(toSend[..13])
      ensures toSend[13..] == RegisterBytes(value[..amount])
    {
      var i := 0;
      while i < amount
        invariant 0 <= i <= amount
        invariant toSend[..13] == old(toSend[..13])
        invariant toSend[13..13 + 2 * i] == RegisterBytes(value[..i])
      {
        ghost var done := toSend[13..13 + 2 * i];
        toSend[13 + 2 * i] := Trunc8(value[i] / 0x100);
        toSend[14 + 2 * i] := Trunc8(value[i]);
        assert toSend[13..13 + 2 * (i + 1)] == done + BigEndian16(value[i]);
        assert value[..i + 1][..i] == value[..i];
        i := i + 1;
      }
    }

    /** The buffer of Write Multiple Registers: header, quantity, byte count, then each register big-endian. */
    method MultipleRegistersFrame(address: uint16, amount: uint16, value: seq<uint16>) returns (toSend: array<byte>)
      requires |value| >= amount
      ensures fresh(toSend)
      ensures toSend.Length == 13 + 2 * amount
      ensures SentAs(toSend[..], msgId, slaveId, WriteMultipleRegisters(address, value[..amount]))
    {
      toSend := new byte[13 + 2 * amount];
      BuildRequest(toSend, address, WriteRegsCode as int);
      toSend[5] := Trunc8(7 + 2 * amount);
      toSend[10] := Trunc8(amount / 0x100);
      toSend[11] := Trunc8(amount);
      toSend[12] := Trunc8(2 * amount);
      assert toSend[..13] == MultipleHead(msgId, slaveId, WriteRegsCode, address, amount, 2 * amount, 2 * amount);
      PutRegisters(toSend, amount, value);
      SplitSlice(toSend[..], 13, toSend.Length);
      RegistersSentAs(toSend[..], msgId, slaveId, address, value[..amount]);
    }

    /** The first loop of Write Multiple Coils: the packed bytes start at zero. */
    static method ZeroCoilBytes(toSend: array<byte>, amount: uint16)
      requires toSend.Length >= 13 + (amount + 7) / 8
      modifies toSend
      ensures toSend[..13] == old(toSend[..13])
      ensures forall k :: 13 <= k < 13 + (amount + 7) / 8 ==> toSend[k] == 0
      ensures forall k :: 13 + (amount + 7) / 8 <= k < toSend.Length ==> toSend[k] == old(toSend[k])
    {
      var i := 0;
      while i < (amount + 7) / 8
        invariant 0 <= i <= (amount + 7) / 8
        invariant toSend[..13] == old(toSend[..13])
        invariant forall k :: 13 <= k < 13 + i ==> toSend[k] == 0
        invariant forall k :: 13 + i <= k < toSend.Length ==> toSend[k] == old(toSend[k])
      {
        toSend[13 + i] := 0;
        i := i + 1;
      }
    }

    /** The second loop of Write Multiple Coils: `to_send[13 + i / 8] += (uint8_t)(value[i] << (i % 8u))` for each coil i. */
    static method SumCoils(toSend: array<byte>, amount: uint16, value: seq<uint16>)
      requires |value| >= amount && toSend.Length >= 13 + (amount + 7) / 8
      requires forall k :: 13 <= k < 13 + (amount + 7) / 8 ==> toSend[k] == 0
      modifies toSend
      ensures toSend[..13] == old(toSend[..13])
      ensures toSend[13..13 + (amount + 7) / 8] == CoilBytes(value[..amount])
      ensures forall k :: 13 + (amount + 7) / 8 <= k < toSend.Length ==> toSend[k] == old(toSend[k])
    {
      var i := 0;
      while i < amount
        invariant 0 <= i <= amount
        invariant toSend[..] == CoilsSummed(old(toSend[..]), value, i)
      {
        CeilStep(i + 1, amount);
        toSend[13 + i / 8] := Trunc8(toSend[13 + i / 8] as int + CoilTerm(value[i], i));
        i := i + 1;
      }
      SummedPacks(old(toSend[..]), value, amount);
      forall k | 13 + (amount + 7) / 8 <= k < toSend.Length
        ensures toSend[k] == old(toSend[k])
      {
        SummedBeyond(old(toSend[..]), value, amount, k);
      }
    }

    /**
     * The buffer of Write Multiple Coils: header, quantity, byte count, then the
     * packed bytes, zeroed first and then summed into coil by coil. Its size is
     * 14 + (amount - 1) / 8 in C's truncating division, one byte more than the
     * frame when amount is 0; that byte is never written.
     */
    method MultipleCoilsFrame(address: uint16, amount: uint16, value: seq<uint16>) returns (toSend: array<byte>)
      requires |value| >= amount
      ensures fresh(toSend)
      ensures toSend.Length == 14 + TruncDiv(amount - 1, 8)
      ensures SentAs(toSend[..], msgId, slaveId, WriteMultipleCoils(address, value[..amount]))
    {
      toSend := new byte[14 + TruncDiv(amount - 1, 8)];
      BuildRequest(toSend, address, WriteCoilsCode as int);
      toSend[5] := Trunc8(7 + (amount + 7) / 8);
      toSend[10] := Trunc8(amount / 0x100);
      toSend[11] := Trunc8(amount);
      toSend[12] := Trunc8((amount + 7) / 8);
      assert toSend[..13] == MultipleHead(msgId, slaveId, WriteCoilsCode, address, amount, (amount + 7) / 8, (amount + 7) / 8);
      ZeroCoilBytes(toSend, amount);
      SumCoils(toSend, amount, value);
      SplitSlice(toSend[..], 13, 13 + (amount + 7) / 8);
      CoilsSentAs(toSend[..], msgId, slaveId, address, amount, value);
    }

    /**
     * `modbus_write`: builds the frame for one of the four write function codes in
     * a fresh buffer and sends it, returning what the transport reports; any other
     * function code sends nothing and returns 0. The frame carries the counter's
     * value before Send moves it on.
     */
    method Write(address: uint16, amount: uint16, func: int, value: seq<uint16>) returns (status: int)
      requires Numbered()
      requires func == WriteCoilCode as int || func == WriteRegCode as int ==> |value| >= 1
      requires func == WriteCoilsCode as int || func == WriteRegsCode as int ==> |value| >= amount
      modifies this`msgId, this`sent
      ensures Numbered()
      ensures RequestOf(address, amount, func, value).None? ==>
        status == 0 && msgId == old(msgId) && sent == old(sent)
      ensures RequestOf(address, amount, func, value).Some? ==>
        && msgId == Next(old(msgId))
        && |sent| == |old(sent)| + 1 && sent[..|old(sent)|] == old(sent)
        && SentAs(sent[|old(sent)|], old(msgId), slaveId, RequestOf(address, amount, func, value).value)
        && -1 <= status <= |sent[|old(sent)|]|
    {
      status := 0;
      if func == WriteCoilCode as int || func == WriteRegCode as int {
        var toSend := SingleWriteFrame(address, func, value[0]);
        assert RequestOf(address, amount, func, value).value
            == if func == WriteCoilCode as int then WriteSingleCoil(address, value[0]) else WriteSingleRegister(address, value[0]);
        status := SendNumbered(toSend, 12, RequestOf(address, amount, func, value).value);
      } else if func == WriteRegsCode as int {
        var toSend := MultipleRegistersFrame(address, amount, value);
        status := SendNumbered(toSend, 13 + 2 * amount, RequestOf(address, amount, func, value).value);
      } else if func == WriteCoilsCode as int {
        var toSend := MultipleCoilsFrame(address, amount, value);
        status := SendNumbered(toSend, 14 + TruncDiv(amount - 1, 8), RequestOf(address, amount, func, value).value);
      }
    }

    /**
     * `modbus_send` of a whole buffer that holds request r encoded with the
     * current counter: the counter moves on, and the log stays numbered.
     */
    method SendNumbered(toSend: array<byte>, length: nat, ghost r: Request) returns (n: int)
      requires Numbered() && length == toSend.Length
      requires SentAs(toSend[..], msgId, slaveId, r)
      modifies this`msgId, this`sent
      ensures Numbered()
      ensures msgId == Next(old(msgId))
      ensures sent == old(sent) + [toSend[..]]
      ensures -1 <= n <= toSend.Length
    {
      LogAppend(sent, toSend[..], msgId, slaveId, r);
      n := Send(toSend, length);
      assert toSend[..length] == toSend[..];
    }

    /**
     * `modbus_write_register`: Write Single Register (0x06) of one value, sent
     * only while connected; the transport's answer is dropped and the result is
     * always 0.
     */
    method WriteRegister(address: uint16, value: uint16) returns (r: int)
      requires Valid()
      modifies this`msgId, this`sent
      ensures Valid()
      ensures r == 0
      ensures !connected ==> msgId == old(msgId) && sent == old(sent)
      ensures connected ==>
        && msgId == Next(old(msgId))
        && sent == old(sent) + [Encode(old(msgId), slaveId, WriteSingleRegister(address, value))]
    {
      if connected {
        var _ := Write(address, 1, WriteRegCode as int, [value]);
        assert RequestOf(address, 1, WriteRegCode as int, [value]) == Some(WriteSingleRegister(address, value));
        assert sent == old(sent) + [sent[|old(sent)|]];
      }
      return 0;
    }
  }
}
