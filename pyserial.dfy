/** The part of the pyserial library the bridge touches: opening a port,
    writing to it, closing it, and the records `list_ports.comports()` yields.
    What the device does is outside the model, so every operation takes its
    outcome as a parameter. */
module Pyserial {
  import opened Wrappers
  import opened Text

  newtype byte = x: int | 0 <= x < 256

  /** The bytes `create_package()` returns; their layout is opaque here. */
  type Packet = seq<byte>

  /** The baud rate every port is opened with. */
  const BaudRate := 115200

  /** What `serial.Serial(name, 115200)` did: opened the port, or raised a
      `serial.SerialException` whose `str(e)` is `message`. */
  datatype OpenResult = Opened | Failed(message: string)

  /** How `init_ports` sorts a failed open by the text of the exception. */
  datatype FailureKind = DeviceNotFound | PermissionDenied | OtherFailure

  /** The `if "FileNotFoundError" in str(e) ... elif "PermissionError" in str(e) ... else`
      chain of `init_ports`. */
  function Classify(message: string): FailureKind {
    if Contains(message, "FileNotFoundError") then DeviceNotFound
    else if Contains(message, "PermissionError") then PermissionDenied
    else OtherFailure
  }

  /** The classification looks for "FileNotFoundError" first, then for
      "PermissionError", anywhere in the message; everything else is another failure. */
  lemma ClassifyByText(message: string)
    ensures Classify(message) == DeviceNotFound <==> exists i: nat :: OccursAt(message, "FileNotFoundError", i)
    ensures Classify(message) == PermissionDenied <==>
      (!exists i: nat :: OccursAt(message, "FileNotFoundError", i)) && exists i: nat :: OccursAt(message, "PermissionError", i)
    ensures Classify(message) == OtherFailure <==>
      (!exists i: nat :: OccursAt(message, "FileNotFoundError", i)) && !exists i: nat :: OccursAt(message, "PermissionError", i)
  {
    ContainsIff(message, "FileNotFoundError");
    ContainsIff(message, "PermissionError");
  }

  /** One `serial.Serial` object. Objects are distinct by identity, as in Python. */
  class SerialPort {
    /** The device name the port was opened with (`port.port`). */
    const port: string
    const baudrate: int
    var isOpen: bool
    /** Every packet a successful `write` delivered, oldest first. */
    var received: seq<Packet>

    /** A successful `serial.Serial(name, baudrate)`. */
    constructor (name: string, baudrate: int)
      ensures port == name && this.baudrate == baudrate
      ensures isOpen && received == []
    {
      port := name;
      this.baudrate := baudrate;
      isOpen := true;
      received := [];
    }

    /** `port.write(data)`; `fails` says whether the device makes it raise. */
    method Write(data: Packet, fails: bool) returns (ok: bool)
      modifies this`received
      ensures ok == !fails
      ensures received == if ok then old(received) + [data] else old(received)
      ensures isOpen == old(isOpen)
    {
      ok := !fails;
      if ok {
        received := received + [data];
      }
    }

    /** `port.close()`; `fails` says whether it raises, in which case the port stays as it was. */
    method Close(fails: bool)
      modifies this`isOpen
      ensures isOpen == (old(isOpen) && fails)
      ensures received == old(received)
    {
      if !fails {
        isOpen := false;
      }
    }
  }

  /** One record of `list_ports.comports()`: its device name and its USB vendor and product ids. */
  datatype PortInfo = PortInfo(device: string, vid: Option<int>, pid: Option<int>)
}
