# Modbus/TCP write client, modelled in Dafny

This project models the header-only C++ client `modbus` of `ModbusTcpEx/modbus.h`:
the session object (host, port, slave identifier, connection flag, 32-bit
message counter, error fields) and its write path, which builds Modbus/TCP
request frames byte by byte in a freshly allocated buffer and hands them to
the socket.

- `bytes.dfy` (module `Bytes`): the C integer widths and conversions the
  client uses: the `(uint8_t)` cast, big-endian splitting, truncating
  division, `uint32_t` wrap-around and the bits of a byte.
- `frame.dfy` (module `Frame`): the four write requests and their reference
  byte layout. `Encode` is the 7-byte MBAP header of section 3.1.3 of the
  Modbus Messaging on TCP/IP Implementation Guide V1.0b, followed by the PDU
  of Write Single Coil (0x05), Write Single Register (0x06), Write Multiple
  Coils (0x0F) and Write Multiple Registers (0x10), sections 6.5, 6.6, 6.11 and
  6.12 of the Modbus Application Protocol Specification V1.1b3. `Decode` reads
  a frame back, and the layout lemmas state every byte offset.
- `session.dfy` (module `Session`): class `Modbus`. Its methods fill
  `array<byte>` buffers in place with the same loops as the C++ code. They
  are proved to produce exactly `Encode` of the request, with the message
  counter read before the send increments it. The socket is an abstract
  transport. Whether connecting succeeds is a parameter of `Connect`. A ghost
  field `sent` logs every frame handed to the transport, and `Send` may
  report any count from -1 to the frame length.
- `driver.dfy` (module `Driver`): the call sequence of `ModbusTcpEx/Source.cpp`,
  proved to send the single frame
  `00 01 00 00 00 06 01 06 00 00 00 DE` when the server accepts, and nothing
  otherwise.

The class invariant `Valid` says three things:
- the counter equals (1 + number of frames sent) mod 2^32;
- frame k carries transaction identifier (1 + k) mod 2^16;
- an unconnected session has sent nothing.

The constructor establishes it, and `SetSlaveId`, `Connect` and `WriteRegister` preserve it. `Close` changes no field. The private write path (`Write`, `SendNumbered`) keeps its numbering part, `Numbered`.

Write Multiple Coils with amount 0 is modelled as the code behaves, not as a
well-formed empty frame. The buffer has `14 + (amount - 1) / 8` bytes in C's
truncating division, which is 14. Neither loop writes byte 13, and all 14 bytes
are sent. The sent frame is therefore the 13-byte encoding followed by one
unconstrained byte, while the length field says 7 (predicate `Session.SentAs`),
and no receiver can decode it (`Session.EmptyCoilsUndecodable`). `Frame.Encode`
is the intended frame; see "## Findings".
Coil values other than 0 and 1 are summed into their byte with `uint8_t`
wrap-around, exactly as `+=` does (`Frame.CoilBytes`). Only for values 0 and 1
does this amount to setting bits, so the bit-level lemmas require it.

## Model

| member | source | states |
|---|---|---|
| `Session.Modbus.constructor` | ModbusTcpEx/modbus.h:101-111 | host and port as given (the port defaults to 502); slave id 1, counter 1, not connected, no error, empty message, nothing sent; the invariant holds |
| `Session.Modbus.SetSlaveId` | ModbusTcpEx/modbus.h:122-125 | sets the slave id and may change no other field; the invariant is kept |
| `Session.Modbus.Connect` | ModbusTcpEx/modbus.h:131-192 | succeeds iff the host is non-empty, the port is non-zero and the transport connects; only success sets the connected flag, and failure leaves it as it was |
| `Session.Modbus.Close` | ModbusTcpEx/modbus.h:197-204 | changes no field; the connected flag stays as it was |
| `Session.Modbus.BuildRequest` | ModbusTcpEx/modbus.h:212-223 | bytes 0-1 are the counter's low 16 bits big-endian; bytes 2-4 are 0; byte 6 is the slave id mod 256; byte 7 is the function code mod 256; bytes 8-9 are the address big-endian; byte 5 and bytes from 10 on are untouched |
| `Session.Modbus.Send` | ModbusTcpEx/modbus.h:295-299 | the counter moves on by one with 2^32 wrap-around, and exactly the first `length` bytes are appended to the log of sent frames |
| `Session.Modbus.SingleWriteFrame` | ModbusTcpEx/modbus.h:230-237 | a fresh 12-byte buffer that is exactly the encoded Write Single Coil or Write Single Register frame for value[0] |
| `Session.Modbus.PutRegisters` | ModbusTcpEx/modbus.h:247-251 | the loop leaves bytes 0-12 alone and writes each register big-endian from byte 13 on |
| `Session.Modbus.MultipleRegistersFrame` | ModbusTcpEx/modbus.h:239-252 | a fresh buffer of 13 + 2·amount bytes that is exactly the encoded Write Multiple Registers frame of the first amount values |
| `Session.Modbus.ZeroCoilBytes` | ModbusTcpEx/modbus.h:262-263 | the loop zeroes bytes 13 to 12 + ceil(amount/8) and leaves every other byte as it was |
| `Session.Modbus.SumCoils` | ModbusTcpEx/modbus.h:264-267 | starting from zeroed bytes, the `+=` loop leaves exactly the packed coil bytes of the first amount values after the head, and changes neither the head nor the bytes after the packed ones |
| `Session.Modbus.MultipleCoilsFrame` | ModbusTcpEx/modbus.h:254-268 | a fresh buffer of 14 + (amount - 1) / 8 bytes (C division): the encoded Write Multiple Coils frame, plus one unwritten byte when amount is 0 |
| `Session.Modbus.Write` | ModbusTcpEx/modbus.h:226-272 | a recognised function code sends exactly one frame, the encoding of its request (`SentAs`: plus one unwritten byte for Write Multiple Coils with amount 0), carrying the counter before the increment; the counter then moves on by one (mod 2^32). Any other code sends nothing, keeps the counter and returns 0; the numbering invariant `Numbered` is kept |
| `Session.Modbus.WriteRegister` | ModbusTcpEx/modbus.h:280-286 | always returns 0. Unconnected, it sends nothing and keeps the counter. Connected, it sends exactly the Write Single Register frame of the value and moves the counter on |
| `Session.Modbus.SendNumbered` | ModbusTcpEx/modbus.h:237-268 | each of the three `status = modbus_send(to_send, n)` calls (lines 237, 252 and 268) with n the buffer size, for a buffer holding a request encoded with the current counter: the counter moves on by one, the whole buffer is appended to the log, and the log stays numbered |
| `Session.LogAppend` | ModbusTcpEx/modbus.h:295-299 | sending a frame that carries the current counter keeps the log numbered, and the incremented counter matches the longer log |
| `Session.SummedPacks` | ModbusTcpEx/modbus.h:262-267 | summing every coil into zeroed bytes gives the packed coil bytes and keeps the 13 head bytes |
| `Session.SummedBeyond` | ModbusTcpEx/modbus.h:264-267 | the summing loop never changes a byte after the packed ones |
| `Session.SummedPrefix` | ModbusTcpEx/modbus.h:264-267 | after i passes of the summing loop, the bytes hold the packing of the first i coils followed by zeros |
| `Frame.RequestOf` | ModbusTcpEx/modbus.h:226-272 | a request exists iff the function code is one of the four write codes; it has that code and address, value[0] for single writes, the first amount values for multiple writes |
| `Frame.HeaderLayout` | ModbusTcpEx/modbus.h:212-223 | every frame has at least 12 bytes. Bytes 0-1 hold the transaction id mod 2^16 big-endian, and a receiver reads it back. Bytes 2-4 are 0, byte 5 is the remaining length mod 256, byte 6 the unit id mod 256, byte 7 the function code, bytes 8-9 the address |
| `Frame.SingleWriteLayout` | ModbusTcpEx/modbus.h:230-237 | single writes are 12 bytes with length byte 6 and the value big-endian in bytes 10-11 |
| `Frame.MultipleRegistersLayout` | ModbusTcpEx/modbus.h:239-252 | 13 + 2n bytes; quantity n big-endian in bytes 10-11; byte 5 is (7 + 2n) mod 256 and byte 12 is 2n mod 256; register i at bytes 13 + 2i (high) and 14 + 2i (low) |
| `Frame.MultipleCoilsLayout` | ModbusTcpEx/modbus.h:254-268 | for coil values 0 and 1: 13 + ceil(n/8) bytes; quantity big-endian in bytes 10-11; byte 5 is (7 + ceil(n/8)) mod 256 and byte 12 ceil(n/8) mod 256; coil i is bit i mod 8 of byte 13 + i/8, and all padding bits are 0 |
| `Frame.LengthFieldExact` | ModbusTcpEx/modbus.h:243 | the MBAP length field equals the number of bytes after it iff that number is below 256; above that the truncating cast loses it |
| `Frame.RegisterBytesAt` | ModbusTcpEx/modbus.h:249-250 | register i is packed at offsets 2i (high byte) and 2i + 1 (low byte) |
| `Frame.DecodeRegisterBytes` | ModbusTcpEx/modbus.h:247-251 | reading the register bytes back as words gives the registers |
| `Frame.CoilBitAt` | ModbusTcpEx/modbus.h:266 | for coil values 0 and 1, coil i is bit i mod 8 of packed byte i / 8 |
| `Frame.CoilPaddingZero` | ModbusTcpEx/modbus.h:262-267 | for coil values 0 and 1, the packed bits beyond the last coil are 0, because the bytes are zeroed first |
| `Frame.UnpackCoilBytes` | ModbusTcpEx/modbus.h:262-267 | unpacking the packed bytes gives back the 0/1 coil values |
| `Frame.CoilBytes` | ModbusTcpEx/modbus.h:264-267 | the packed coil bytes as the wrapping `uint8_t` `+=` loop leaves them, starting from zero: one byte per started group of eight coils |
| `Frame.AddCoilToByte` | ModbusTcpEx/modbus.h:266 | while fewer than eight 0/1 coils are in a byte, the byte stays below 256, and adding the next coil with the wrapping `+=` equals setting it as the next bit, so the `+=` never wraps |
| `Frame.DecodeEncode` | ModbusTcpEx/modbus.h:212-268 | whenever the length byte does not wrap (at most 124 registers or 1984 coils, quantity 0 included) and coils are 0 or 1, decoding an encoded frame gives back the transaction id mod 2^16, the unit id mod 256 and the request |
| `Session.EmptyCoilsUndecodable` | ModbusTcpEx/modbus.h:256-268 | the 14-byte frame that Write Multiple Coils sends for amount 0 has length byte 7, so `Decode` rejects it whatever its unwritten byte holds |
| `Session.SentAsHeader` | ModbusTcpEx/modbus.h:214-215 | every sent frame has at least 12 bytes and carries the counter's low 16 bits as its transaction id |
| `Bytes.WordOfBigEndian16` | ModbusTcpEx/modbus.h:214-215 | the two bytes `(uint8_t)(x >> 8)` and `(uint8_t)(x & 0xFF)` read back as x mod 2^16 |
| `Bytes.NextOfWrapped` | ModbusTcpEx/modbus.h:297 | incrementing the wrapped counter equals wrapping the incremented count |
| `Driver.Run` | ModbusTcpEx/Source.cpp:6-18 | constructing the client for 127.0.0.1:502, slave 1, connecting, writing 222 to register 0 and closing sends `00 01 00 00 00 06 01 06 00 00 00 DE` if the server accepts, and nothing if it does not |

## Left out

- Socket calls (`socket`, `setsockopt` with the 20-second timeouts, `inet_addr`, `htons`, `connect`, `send`, `close`/`closesocket`, `WSAStartup`/`WSACleanup`) are foreign I/O. The model has an abstract transport instead: a connect outcome passed in and a ghost log of sent frames.
- The socket handle and server address fields are not modelled, since only the socket calls use them.
- The byte count that `send` returns, and partial sends, depend on the operating system: `Send` may return any value from -1 to the frame length.
- `Session.Modbus.Send`: states that the whole buffer prefix is logged as sent; a partial send is not distinguished.
- The `LOG` macro and the Windows/Berkeley preprocessor selection are diagnostics and platform plumbing.
- The read function codes and `MAX_MSG_LENGTH` are defined but never used.
- The buffer that `modbus_write` allocates is never freed (`delete[]` is commented out). The model allocates a fresh array per frame and does not model the leak.
- `Session.Modbus.Write`: reading `value` beyond its end is undefined behaviour in C++. The model requires at least one value for a single write and at least amount values for a multiple write.
- `Frame.MultipleCoilsLayout`: requires coil values 0 and 1. For other values the model computes the wrapping `+=` sums (`Frame.CoilBytes`), but states no bit meaning for them.
- `Frame.CoilBitAt`: requires coil values 0 and 1. For other values the model computes the wrapping `+=` sums (`Frame.CoilBytes`), but states no bit meaning for them.
- `Frame.CoilPaddingZero`: requires coil values 0 and 1. For other values the model computes the wrapping `+=` sums (`Frame.CoilBytes`), but states no bit meaning for them.
- `Frame.UnpackCoilBytes`: requires coil values 0 and 1. For other values the model computes the wrapping `+=` sums (`Frame.CoilBytes`), but states no bit meaning for them.
- `Frame.DecodeEncode`: for Write Multiple Coils, requires coil values 0 and 1, because other values do not unpack to themselves.
- `Frame.DecodeEncode`: stated only while the length byte does not wrap. From 125 registers or 1985 coils the truncated length byte no longer matches the frame, and `Decode` rejects it (`Frame.LengthFieldExact`).
- `ModbusTcpEx/Source.cpp` is a process entry point. Only its call sequence is modelled (`Driver.Run`); the process exit code is not.

## Findings

| source | as written | input that shows it | evidently intended | confidence | as-written member | corrected member |
|---|---|---|---|---|---|---|
| ModbusTcpEx/modbus.h:256-268 | Write Multiple Coils allocates `14 + (amount - 1) / 8` bytes, writes the length byte `7 + (amount + 7) / 8`, and sends the whole buffer | `modbus_write(address, 0, WRITE_COILS, value)`: 14 bytes are sent, byte 13 is never written, and the length byte says 7 where 8 bytes follow | a frame of `13 + (amount + 7) / 8` bytes, so that the length byte matches the bytes that follow | high; not executed | `Session.EmptyCoilsUndecodable` | `Frame.DecodeEncode` |
