/**
 * The example client program: connect to 127.0.0.1:502 as slave 1, write 222
 * into holding register 0, close. Whether the server accepts the connection is
 * a parameter; the result is the list of frames handed to the transport.
 */
module Driver {
  import opened Bytes
  import opened Frame
  import Session

  /** The one frame the program puts on the wire when the connection succeeds. */
  const WriteRegisterFrame: seq<byte> := [0x00, 0x01, 0x00, 0x00, 0x00, 0x06, 0x01, 0x06, 0x00, 0x00, 0x00, 0xDE]

  method Run(serverAccepts: bool) returns (ghost frames: seq<seq<byte>>, connected: bool)
    ensures connected == serverAccepts
    ensures frames == if serverAccepts then [WriteRegisterFrame] else []
  {
    var mb := new Session.Modbus("127.0.0.1", 502);
    mb.SetSlaveId(1);
    var _ := mb.Connect(serverAccepts);
    var _ := mb.WriteRegister(0, 222);
    mb.Close();
    WriteRegister0Of222Frame();
    frames := mb.sent;
    connected := mb.connected;
  }
}
