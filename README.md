# umap2: Facedancer framing protocol and USB setup-request builder, in Dafny

This project models two byte-level pieces of umap2, a USB device emulator.

**The Facedancer adapter protocol** (`umap2/phy/facedancer/facedancer.py`, module `Facedancer`).
A command (`FacedancerCommand`: `app`, `verb`, `data`) goes on the wire as a 4-byte
little-endian header `app | verb | len(data) as u16`, followed by the payload.
- `readcmd` reads the 4-byte header and then exactly the declared number of payload bytes.
  If fewer bytes arrive, it fails instead of truncating.
- `reset` is a bounded retry loop. Each attempt raises RTS and DTR (`halt`), lowers DTR and reads up to 1024 bytes.
  It accepts the first response that is a whole frame with verb `0x7f`. If `count` attempts go unacknowledged, it raises a reset fault.
- The driver holds its serial port and updates it in place. So the port and the driver are classes (`SerialPort`, `Facedancer`).
  Each method's new port state is tied to a specification function on a `PortState` value.
  The properties are proved as lemmas about those functions.

The serial port is abstract. It has:
- the RTS and DTR line flags;
- a queue of bytes waiting to be read;
- the buffer of bytes written;
- the adapter's scripted replies, one of which is queued each time DTR falls from high to low, i.e. when the adapter is released from reset.

A read of `n` bytes returns the first `min(n, queued)` bytes. It returns fewer than `n` only when the queue runs dry, which is how a read timeout appears. A ghost log records the RTS/DTR levels at every read. This lets the model state how many reads happened and the line levels at each one.

**The USB setup-request builder** (`tests/test_devices.py`, module `TestDevices`).
`setup_request` packs the 8-byte control-transfer header of section 9.3 of the USB 2.0 specification, `bmRequestType | bRequest | wValue | wIndex | wLength`, then appends the data stage.
- `bmRequestType` is `dir | type | recipient`. Python's `|` on non-negative integers is modelled bit by bit (`BitOr`).
- `wValue` is split into descriptor index (low byte) and descriptor type (high byte), as in section 9.4.3 of the USB 2.0 specification.
- The `build_get_*` helpers and the CDC class-request frame of `_testClassRequestHandling` are fixed instances of it.
- `ParseSetup` is an independent reading of the header. The round-trip lemmas relate the builder to it in both directions.

`Bytes` holds the shared byte type, the little-endian u16 field of Python's `struct` (`'<H'`) and the result types that stand for the source's exceptions.

A reset fault is fatal only at construction. If the reset in `__init__` fails, no driver object exists (`Facedancer.Open` returns an error). A later explicit `reset()` that fails leaves the driver usable, and the model allows this.

## Model

| member | source | states |
|---|---|---|
| `Bytes.LeU16` | umap2/phy/facedancer/facedancer.py:49 | the `'<H'` field of two bytes is a value below 65536 |
| `Bytes.U16Le` | umap2/phy/facedancer/facedancer.py:95 | `'<H'` packing gives two bytes, low byte first, whose value is the packed number |
| `Bytes.U16LeOfLeU16` | umap2/phy/facedancer/facedancer.py:28 | any two bytes are the packing of the value they encode (decode then encode is the identity) |
| `Facedancer.AsBytestring` | umap2/phy/facedancer/facedancer.py:94-95 | packing succeeds exactly when `app` and `verb` are bytes and the payload is shorter than 65536; the frame is then `4 + len(data)` bytes: `app`, `verb`, the payload length little-endian, then the payload unchanged; otherwise a packing error |
| `Facedancer.ResetAckIsAckFrame` | umap2/phy/facedancer/facedancer.py:26-29 | a reset response is accepted exactly when it is the whole encoding of some command with verb `0x7f`, whatever its `app` byte |
| `Facedancer.ReadSpec` | umap2/phy/facedancer/facedancer.py:35-43 | a read of `n` returns the first `min(n, queued)` bytes, the queue loses exactly those, the read is logged with the current line levels, nothing else changes |
| `Facedancer.HaltSpec` | umap2/phy/facedancer/facedancer.py:16-18 | `halt` leaves RTS and DTR high and the queues, replies, output and read log unchanged |
| `Facedancer.ReadCmdRoundTrip` | umap2/phy/facedancer/facedancer.py:45-56 | on a stream starting with the encoding of a packable command, `readcmd` returns that same command, leaves exactly the rest of the stream, and makes one read for an empty payload and two otherwise |
| `Facedancer.ReadCmdConsumesWholeFrame` | umap2/phy/facedancer/facedancer.py:48-54 | `readcmd` returns a command only if the stream began with that command's exact encoding, and consumes exactly that encoding: never a truncated command |
| `Facedancer.ReadCmdOutcome` | umap2/phy/facedancer/facedancer.py:48-53 | fewer than 4 header bytes is an unpack error; otherwise `readcmd` succeeds exactly when the whole declared payload is queued, and else fails with the short read `(declared, received)` after draining the queue |
| `Facedancer.ReadCmdEmptyPayload` | umap2/phy/facedancer/facedancer.py:51 | a header declaring length 0 gives a command with empty data after a single read, consuming only the header |
| `Facedancer.ResetReadLog` | umap2/phy/facedancer/facedancer.py:20-33 | whatever the adapter sends, reset writes nothing and reads at most `count` times, every read with RTS high and DTR low; a fault comes only after exactly `count` reads (none when `count <= 0`); success leaves RTS high and DTR low |
| `Facedancer.ResetAcksOnAttempt` | umap2/phy/facedancer/facedancer.py:22-32 | with nothing queued before the reset and each reply fitting one 1024-byte read: if the adapter's first `k-1` replies are not acknowledgements and its `k`-th is, with `k <= count`, reset succeeds after exactly `k` reads and consumes exactly `k` replies |
| `Facedancer.ResetFaultsWithoutAck` | umap2/phy/facedancer/facedancer.py:22-33 | with nothing queued before the reset and each reply fitting one 1024-byte read: if none of the adapter's first `count` replies is an acknowledgement, reset raises the reset fault after exactly `count` reads |
| `Facedancer.Facedancer.Open` | umap2/phy/facedancer/facedancer.py:11-14 | construction binds the port and runs reset with the default count 10; a reset fault yields no driver |
| `Facedancer.Facedancer.Halt` | umap2/phy/facedancer/facedancer.py:16-18 | the port's new state is `HaltSpec` of its old state |
| `Facedancer.Facedancer.Reset` | umap2/phy/facedancer/facedancer.py:20-33 | the retry loop's outcome and the port's new state are those of `ResetSpec` on the old state |
| `Facedancer.Facedancer.Read` | umap2/phy/facedancer/facedancer.py:35-43 | returns the bytes and leaves the port state that `ReadSpec` gives |
| `Facedancer.Facedancer.ReadCmd` | umap2/phy/facedancer/facedancer.py:45-56 | the result and the port's new state are those of `ReadCmdSpec` on the old state |
| `Facedancer.Facedancer.Write` | umap2/phy/facedancer/facedancer.py:58-61 | appends the bytes to the port output and changes nothing else |
| `Facedancer.Facedancer.WriteCmd` | umap2/phy/facedancer/facedancer.py:63-66 | appends exactly the command's encoding to the output and changes nothing else; a command that cannot be packed writes nothing and fails |
| `TestDevices.BitOrBounds` | tests/test_devices.py:79 | the or of two numbers is at least each operand and stays below any power of two that bounds both |
| `TestDevices.BitOrDisjoint` | tests/test_devices.py:79 | or-ing a number below `2^k` into a multiple of `2^k` is addition |
| `TestDevices.RequestType` | tests/test_devices.py:79 | the or of direction, type and recipient fits the `'B'` field exactly when all three operands are bytes |
| `TestDevices.RequestTypeIsSum` | tests/test_devices.py:13-22 | with the direction and type constants and a recipient below 32, the request-type byte is the sum of the three fields |
| `TestDevices.RequestTypeFields` | tests/test_devices.py:13-22 | bit 7, bits 6-5 and bits 4-0 of the request-type byte give back the direction, type and recipient, so the byte is injective in them |
| `TestDevices.RequestTypeOfFields` | tests/test_devices.py:79 | every request-type byte is the or of its own direction, type and recipient fields |
| `TestDevices.PackSetup` | tests/test_devices.py:77-88 | packing succeeds exactly when every field fits its `'<BBBBHH'` slot, and gives the 8 header bytes then the data, `8 + len(data)` bytes in all; otherwise a packing error |
| `TestDevices.PackSetupRoundTrip` | tests/test_devices.py:77-87 | the packed header reads back as the request type, request, descriptor index (wValue low byte), descriptor type (wValue high byte), wIndex and wLength given, followed by the data unchanged |
| `TestDevices.SetupRequest` | tests/test_devices.py:61-88 | no length and no data raises; data without a length fails at packing (line 74 compares instead of assigning); with a length it succeeds exactly when every field fits, giving `8 + len(data)` bytes |
| `TestDevices.SetupRequestRoundTrip` | tests/test_devices.py:77-88 | a successful request reads back as exactly the fields it was given, with wLength the supplied length, followed by the data unchanged (nothing for absent or empty data) |
| `TestDevices.SetupRequestCoversEveryHeader` | tests/test_devices.py:77-88 | conversely, every byte string of at least 8 bytes is what `setup_request` builds from its own decoded fields and trailing data |
| `TestDevices.BuildGetDeviceDescriptor` | tests/test_devices.py:91-95 | the request is the bytes `80 06 00 01 00 00 12 00` |
| `TestDevices.BuildGetConfigurationDescriptor` | tests/test_devices.py:98-102 | succeeds exactly when `idx` is a byte and the length a u16; it then reads back as a device-to-host standard GET_DESCRIPTOR with index `idx`, type configuration (2), wIndex 0, wLength `length` (default 9) and no data |
| `TestDevices.BuildGetStringDescriptor` | tests/test_devices.py:105-109 | succeeds exactly when the index is a byte and language and length are u16; it then reads back as GET_DESCRIPTOR of a string descriptor with those index, wIndex and wLength and no data |
| `TestDevices.BuildGetStringDescriptorDefaults` | tests/test_devices.py:105 | with the defaults, bytes 4-7 are `03 04 ff 00` |
| `TestDevices.ClassRequest` | tests/test_devices.py:175-181 | the frame is built exactly when the request code is a byte and the length (the data's, or `req_length` without data) is a u16 |
| `TestDevices.ClassRequestIsSetupRequest` | tests/test_devices.py:175-181 | the class-request frame is the `setup_request` of a host-to-device class request to interface 1, with wValue 0 and wLength the data stage's length; its request-type byte is `0x21` |
| `TestDevices.SetupRequestIntended` | tests/test_devices.py:72-76 | as intended at line 74: no length and no data raises; otherwise it succeeds exactly when every field fits, the length being the supplied one or else `len(data)`, and reads back as the given fields with that wLength, followed by the data unchanged |
| `TestDevices.DataWithoutLengthDiscrepancy` | tests/test_devices.py:72-85 | for data without a length, the code as written always fails at packing, while the intended version succeeds and reads back with wLength = len(data) |
| `TestDevices.SetupRequestIntendedAgrees` | tests/test_devices.py:72-76 | whenever a length is supplied, as every helper here does, the intended and the written versions build the same bytes |

## Findings

| source | as written | input that shows it | evidently intended | confidence | as-written member | corrected member |
|---|---|---|---|---|---|---|
| tests/test_devices.py:74 | `s_length == len(s_data)` compares and discards the result, so `s_length` stays `None` and `struct.pack` raises | `setup_request(DIR_OUT, TYPE_CLASS, RECIPIENT_INTERFACE, 0, 0, 0, 1, s_data=b'\x01\x02\x03')` | `s_length = len(s_data)`, giving wLength 3 | high; not executed | `TestDevices.SetupRequest` (discrepancy shown by `TestDevices.DataWithoutLengthDiscrepancy`) | `TestDevices.SetupRequestIntended` |

Every helper and the class-request frame supply a length. For such calls `TestDevices.SetupRequestIntendedAgrees` shows that the two versions coincide, so the helpers are modelled on the code as written.

## Left out

- Logging (`logger.info`, `debug`, `verbose`) and hex formatting: diagnostics only.
- `FacedancerCommand.__str__` and `long_string`: text formatting for diagnostics, including UTF-8 decoding with a hex fallback.
- The real serial-port driver: `setRTS`, `setDTR`, `read`, `write`, `inWaiting`, blocking and timeouts. It is replaced by the abstract `SerialPort`, where a timeout is the input queue running dry.
- The adapter's reaction to the control lines is an assumption about the environment, not code of this repository. It is modelled as one scripted reply queued per DTR falling edge.
- `FacedancerCommand.__init__` defaults every field to `None`. The model's `Command` always carries an integer `app`, an integer `verb` and a byte payload, as `readcmd` constructs it. A `None` field fails at packing in the source, and the model does not represent that case.
- Negative integers and non-integer arguments to `setup_request`, the `build_get_*` helpers and the class-request frame. Arguments are modelled as non-negative integers.
- The unittest classes, `EventHandler`, `TestApp`, `load_phy`/`load_device` and the emulated device classes. The control engine behind `device.handle_request` is not part of this model. The idempotence, length and setter/getter assertions in the tests (tests/test_devices.py:141-157, 175-207) describe that engine, so they are not modelled.
- `INTERFACE_REQUEST_SET_INTERFACE` and `ENDPOINT_REQUEST_SYNCH_FRAME` (tests/test_devices.py:37, 42) and the other request-code constants are not modelled because nothing modelled here uses them.
