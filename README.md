# framework-system core, modelled in Dafny

This project models the library behind `framework_tool`, the system tool for
Framework laptops, and proves properties of that model.

## The EC link and its transports

The library talks to the laptop's embedded controller (EC) through Chrome EC
host commands, protocol version 3:

- the 8-byte request and response headers, and the checksums that make a packet add up to zero;
- the port-I/O driver. Its `init` state machine is a class. Its LPC transfers move bytes through a 64 KiB I/O space.
- the Microchip MEC memory interface. It is a class holding the EC's RAM and an address register. Its `transfer_read` and `transfer_write` loops run over that class.
- the typed command layer: command ids, versions and packed parameters;
- I2C passthrough and the input-deck decoders;
- the `CrosEc` facade: driver choice, memory-map reads, the board-ID lookup, the chunked flash erase, read and write loops, and the keyboard backlight.

## Data the library decodes

On top of that link the library decodes:

- power, fan and battery data from the EC memory map;
- PD-controller versions, from the device and from the CCGx and PD firmware files;
- the EC firmware version record;
- UEFI capsule headers and the markers inside BIOS capsules;
- ESRT entries and GUIDs, including the `guid!` macro's parser;
- Framework serial numbers and the Intel CSME version;
- SSD and NVMe identify strings;
- the SMBIOS entry point of the UEFI builds;
- the UEFI shell's file paths;
- the ILI touchscreen's HID reports;
- the UEFI command line;
- the optional TOML platform configuration;
- the Windows driver-version baseline.

The Python sparsifier that shrinks the test capsules is modelled as well.

## How the model is built

- Each source file is a module: `chromium_ec/portio.rs` is `PortIo`, `ccgx/binary.rs` is `CcgxBinary`, and so on.
- `Common` holds the fixed-width integers, `Option`/`Result`, and `Outcome`.
- `Outcome` is `Returns(v)` or `Panics(reason)`. It stands for Rust's `unwrap`, `assert!` and out-of-range indexing. A panic is therefore a result the contracts speak about, not a precondition.
- `Text` and `Utf8` hold the `str` operations the source relies on: `trim`, `split`, integer parsing and formatting, `from_utf8` and `from_utf8_lossy`.
- Loops in the source are methods with loop invariants, proved against specification functions. In-place state is a class: the port-I/O driver, the MEC interface and the UEFI `Cli`. In-place buffers are arrays: the sparsified capsule, the touchscreen report and the ATA command block.
- Hardware, the operating system and foreign crates are parameters: the EC is a reply function, and WMI, hidapi, sysfs and the TOML parser are passed in.
- The model follows a release build: integer overflow wraps. The wrap is written out as an explicit modulus wherever it matters.

## Model

| member | source | states |
|---|---|---|
| EcProtocol.BusyMask | framework_lib/src/chromium_ec/protocol.rs:11-26 | the busy mask is FROM_HOST \| PROCESSING = 0x06, and a status byte is busy exactly when one of those two bits is set |
| EcProtocol.EncodeRequest | framework_lib/src/chromium_ec/protocol.rs:65-86 | a packed request header is exactly 8 bytes |
| EcProtocol.EncodeResponse | framework_lib/src/chromium_ec/protocol.rs:90-108 | a packed response header is exactly `HEADER_LEN` = 8 bytes |
| EcProtocol.RequestLayout | framework_lib/src/chromium_ec/protocol.rs:65-86 | byte order of the request header: struct_version, checksum, command (u16 LE), command_version, reserved, data_len (u16 LE) |
| EcProtocol.ResponseLayout | framework_lib/src/chromium_ec/protocol.rs:90-107 | byte order of the response header: struct_version, checksum, result (u16 LE), data_len (u16 LE), reserved (u16 LE) |
| EcProtocol.DecodeEncodeRequest | framework_lib/src/chromium_ec/protocol.rs:65-86 | reading back a packed request header gives every field unchanged |
| EcProtocol.EncodeDecodeRequest | framework_lib/src/chromium_ec/protocol.rs:65-86 | every 8-byte buffer is a packing of the header read from it (the layout has no padding) |
| EcProtocol.DecodeEncodeResponse | framework_lib/src/chromium_ec/protocol.rs:90-107 | reading back a packed response header gives every field unchanged |
| EcProtocol.EncodeDecodeResponse | framework_lib/src/chromium_ec/protocol.rs:90-107 | every 8-byte buffer is a packing of the response header read from it |
| PortIo.ChecksumFold | framework_lib/src/chromium_ec/portio.rs:257-259 | the wrapping u8 fold is the byte sum modulo 256 |
| PortIo.WrappingNeg | framework_lib/src/chromium_ec/portio.rs:287 | `wrapping_neg` gives the byte that adds to x to make 0 modulo 256 |
| PortIo.ChecksumBuffer | framework_lib/src/chromium_ec/portio.rs:279-293 | the checksum brings the byte sum of the buffer to 0 modulo 256 (it is the two's complement, not a plain sum) |
| PortIo.ChecksumUnique | framework_lib/src/chromium_ec/portio.rs:279-293 | a byte completes the buffer to a zero sum if and only if it is `checksum_buffer` of it |
| PortIo.ChecksumBuffers | framework_lib/src/chromium_ec/portio.rs:261-278 | the checksum of several buffers is `checksum_buffer` of their concatenation |
| PortIo.FoldsAreConcatFold | framework_lib/src/chromium_ec/portio.rs:268-271 | folding the per-buffer folds equals folding the concatenation |
| PortIo.PackedRequest | framework_lib/src/chromium_ec/portio.rs:295-329 | a request packet is 8 + min(248, len(data)) bytes long |
| PortIo.PackedRequestFields | framework_lib/src/chromium_ec/portio.rs:311-328 | a request packet is the header with its checksum replaced by the computed one, followed by the data cut to 248 bytes |
| PortIo.PackedRequestSumsToZero | framework_lib/src/chromium_ec/portio.rs:319-328 | a packet built from a zero-checksum header sums to 0 modulo 256 |
| PortIo.LongPayloadTruncated | framework_lib/src/chromium_ec/portio.rs:299 | a payload over 248 bytes is cut off in the request packet while the header's data_len still carries the full `data.len()` |
| PortIo.CopyFromSlice | framework_lib/src/chromium_ec/portio.rs:315-317 | `copy_from_slice` replaces exactly `buffer[at..at+len]` by the source and leaves the rest |
| PortIo.PackRequest | framework_lib/src/chromium_ec/portio.rs:295-329 | the in-place buffer algorithm returns exactly `PackedRequest` |
| PortIo.StatusDecidesFirst | framework_lib/src/chromium_ec/portio.rs:384-389 | an unknown status byte is `UnknownResponseCode`, a known non-zero one `Response(status)`, whatever the response area holds |
| PortIo.ResponseAccepted | framework_lib/src/chromium_ec/portio.rs:391-436 | the command succeeds if and only if status and header result are 0, struct_version is 3, reserved is 0 and data_len is at most 0x100; the body is the data_len bytes after the header |
| PortIo.BadHeaderIsDeviceError | framework_lib/src/chromium_ec/portio.rs:405-422 | a wrong struct_version, non-zero reserved field or data_len above 0x100 is a `DeviceError`, not a panic |
| PortIo.ChecksumIgnored | framework_lib/src/chromium_ec/portio.rs:423-436 | the response checksum is never checked: changing the checksum byte changes no outcome |
| PortIo.InitSettled | framework_lib/src/chromium_ec/portio.rs:196-204 | `Failed` is sticky and `Succeeded` is cached; both answer without probing |
| PortIo.InitNonRoot | framework_lib/src/chromium_ec/portio.rs:206-210 | a non-root user moves the state to `Failed` and every later call fails |
| PortIo.InitRetries | framework_lib/src/chromium_ec/portio.rs:217-223 | a refused `ioperm` on the argument window returns false but leaves `NotYet`, so a later call probes again |
| PortIo.InitTrueMeansUsable | framework_lib/src/chromium_ec/portio.rs:196-240 | `init` returns true if and only if the state it leaves is `Succeeded` |
| PortIo.InitIdempotent | framework_lib/src/chromium_ec/portio.rs:196-240 | once `init` has returned true, calling it again changes nothing |
| PortIo.FirstReady | framework_lib/src/chromium_ec/portio.rs:248-254 | the first status read with no busy bit, and every earlier read busy; None when all are busy |
| PortIo.WaitForReady | framework_lib/src/chromium_ec/portio.rs:242-255 | the polling loop stops at exactly the first non-busy status read |
| PortIo.WritePortsContents | framework_lib/src/chromium_ec/portio.rs:142-144 | after the write loop, port base+i holds byte i and every other port is unchanged |
| PortIo.ReadPorts | framework_lib/src/chromium_ec/portio.rs:160-165 | the read loop returns `size` bytes, byte i from port `port + address + i` (u16 arithmetic) |
| PortIo.ReadBackWritten | framework_lib/src/chromium_ec/portio.rs:132-173 | reading back a window just written returns what was written |
| PortIo.Driver.Init | framework_lib/src/chromium_ec/portio.rs:196-240 | `init` answers and moves the state as `InitTransition` says, touching no port |
| PortIo.Driver.LpcTransferWrite | framework_lib/src/chromium_ec/portio.rs:142-144 | byte i goes to port 0x800 + i |
| PortIo.Driver.LpcTransferRead | framework_lib/src/chromium_ec/portio.rs:160-172 | the buffer holds the bytes of ports `port + address + i` |
| PortIo.Driver.TransferWrite | framework_lib/src/chromium_ec/portio.rs:132-145 | on MEC the EC RAM starts with the buffer and no port changes (a buffer over 0xFFFF bytes panics in the length cast); otherwise the LPC window is written |
| PortIo.Driver.TransferRead | framework_lib/src/chromium_ec/portio.rs:148-173 | on MEC the read goes through the EMI at `address`, the port is unused and the result is `transfer_read` as written (`AsWrittenRead`); otherwise the buffer holds ports `port + address + i` |
| PortIo.Driver.WindowSlice | framework_lib/src/chromium_ec/portio.rs:392-396 | reading the host arguments gives the matching slice of the response area: always through the LPC ports, and on MEC for a word-aligned offset, as the header read at 0 and the body read at 8 are |
| PortIo.Driver.SendCommand | framework_lib/src/chromium_ec/portio.rs:352-437 | a failed `init` is `DeviceError("Failed to initialize")`; otherwise exactly one packed request is written and the outcome is that of the status byte and the response header; a data length over 0xFFFF panics in `try_into().unwrap()` |
| PortIo.Driver.ReceiveResponse | framework_lib/src/chromium_ec/portio.rs:384-436 | the outcome is `ResponseOutcome` of the status byte and the response area, on MEC too despite the as-written EMI read, and EC RAM is unchanged |
| PortIo.Driver.ReadMemory | framework_lib/src/chromium_ec/portio.rs:439-449 | on MEC, the as-written EMI read of `length` bytes at EC address 0x100 + offset (u16 wrapping); otherwise the ports at 0xE00 + offset; an init failure is a `DeviceError` |
| PortIo.MecReadMemoryCorrectIff | framework_lib/src/chromium_ec/portio.rs:446-447 | on MEC, `read_memory` returns consecutive memory-map bytes for every EC RAM content exactly when the offset is word-aligned, or the length is 0 or at least 4 |
| PortIo.MecBatteryCountRead | framework_lib/src/power.rs:482 | on MEC, the one-byte battery-count read at offset 0x4D returns EC RAM byte 0x150 where 0x14D is meant |
| PortIoMec.Align | framework_lib/src/chromium_ec/portio_mec.rs:141 | `offset & 0xFFFC` is the multiple of 4 at or just below the offset |
| PortIoMec.AddressWordFields | framework_lib/src/chromium_ec/portio_mec.rs:15-16 | an address-register word is `(offset & 0xFFFC) \| mode`: it names the word of the offset and carries the mode (0x00 byte or 0x03 auto-increment) in its two low bits |
| PortIoMec.MecEmi.SelectWord | framework_lib/src/chromium_ec/portio_mec.rs:141 | one write `(offset & 0xFFFC) \| mode` to the address register, recorded, nothing else changed |
| PortIoMec.MecEmi.ReadByte | framework_lib/src/chromium_ec/portio_mec.rs:144 | a u8 read of data register `0x804 + lane` returns that lane of the selected word |
| PortIoMec.MecEmi.WriteByte | framework_lib/src/chromium_ec/portio_mec.rs:117 | a u8 write of data register `0x804 + lane` stores that lane of the selected word |
| PortIoMec.MecEmi.ReadWord | framework_lib/src/chromium_ec/portio_mec.rs:162-163 | a u16 read of 0x804 or 0x806 returns two lanes little-endian; in auto-increment mode the read of 0x806 moves to the next word |
| PortIoMec.MecEmi.WriteWord | framework_lib/src/chromium_ec/portio_mec.rs:101-102 | a u16 write of 0x804 or 0x806 stores two lanes little-endian; in auto-increment mode the write of 0x806 moves to the next word |
| PortIoMec.MecEmi.ReadOneWord | framework_lib/src/chromium_ec/portio_mec.rs:162-168 | one iteration of the word loop copies the four bytes of the current word and moves to the next word |
| PortIoMec.MecEmi.ReadWords | framework_lib/src/chromium_ec/portio_mec.rs:154-173 | pos and offset advance together by 4 while size - pos >= 4; every byte read comes from consecutive EC RAM from the start word |
| PortIoMec.MecEmi.ReadPrefix | framework_lib/src/chromium_ec/portio_mec.rs:137-151 | the unaligned phase reads lanes offset%4 .. prefixEnd byte by byte and resumes at the next multiple of 4; pos never exceeds size |
| PortIoMec.MecEmi.ReadTail | framework_lib/src/chromium_ec/portio_mec.rs:176-188 | the remaining size - pos (< 4) bytes come byte-wise from lanes 0.. of the current word, after one byte-mode address write |
| PortIoMec.MecEmi.ReadChunked | framework_lib/src/chromium_ec/portio_mec.rs:123-196 | the whole read returns `ChunkedRead`: exactly `size` bytes, each from the EC address `ChunkedAddress` gives, and every address write uses mode 0x00 or 0x03 |
| PortIoMec.MecEmi.TransferReadAsWritten | framework_lib/src/chromium_ec/portio_mec.rs:123-196 | `transfer_read` as written returns `AsWrittenRead` (prefix loop ending at lane min(4, size)) and changes no RAM |
| PortIoMec.MecEmi.TransferRead | framework_lib/src/chromium_ec/portio_mec.rs:123-196 | the corrected read returns `size` consecutive bytes of EC RAM from `address` |
| PortIoMec.MecEmi.WriteOneWord | framework_lib/src/chromium_ec/portio_mec.rs:90-106 | one iteration of the write loop stores `buffer[pos..pos+4]` at EC addresses pos..pos+3 and nothing else |
| PortIoMec.MecEmi.WriteWords | framework_lib/src/chromium_ec/portio_mec.rs:76-107 | the word phase writes whole words from EC address 0 until fewer than 4 bytes remain, with one auto-increment address write |
| PortIoMec.MecEmi.WriteTail | framework_lib/src/chromium_ec/portio_mec.rs:110-119 | the tail stores the last (< 4) bytes byte-wise at their own addresses |
| PortIoMec.MecEmi.TransferWrite | framework_lib/src/chromium_ec/portio_mec.rs:43-120 | EC RAM afterwards starts with the buffer and is otherwise unchanged; a buffer over 0xFFFF bytes panics in `try_into().unwrap()` |
| PortIoMec.IntendedRead | framework_lib/src/chromium_ec/portio_mec.rs:123 | the intended result: `size` bytes, byte i from EC address address + i (wrapping at 64 KiB) |
| PortIoMec.CorrectedReadIsIntended | framework_lib/src/chromium_ec/portio_mec.rs:137-188 | with the prefix loop ending at lane min(4, address%4 + size), the chunked read is exactly consecutive EC RAM |
| PortIoMec.AsWrittenAddress | framework_lib/src/chromium_ec/portio_mec.rs:143 | as written, an unaligned read of fewer than 4 bytes takes its last byte from the next word rather than the next address |
| PortIoMec.AsWrittenReadCorrectIff | framework_lib/src/chromium_ec/portio_mec.rs:137-188 | the read as written returns consecutive EC RAM for every RAM content if and only if the address is aligned, size >= 4 or size = 0 |
| PortIoMec.AlignedReadAsWritten | framework_lib/src/chromium_ec/portio_mec.rs:137-188 | a read as written at a word-aligned address returns consecutive EC RAM, whatever its length |
| PortIoMec.AsWrittenExampleTwoBytes | framework_lib/src/chromium_ec/portio_mec.rs:143 | a two-byte read at address 1 returns EC RAM byte 4 as its second byte |
| PortIoMec.AsWrittenExampleOneByte | framework_lib/src/chromium_ec/portio_mec.rs:143 | a one-byte read at 0x14D reads nothing in the prefix and returns EC RAM byte 0x150 |
| EcResult.Code | framework_lib/src/chromium_ec/mod.rs:98-126 | status discriminants run 0..16 and only `Success` is 0 |
| EcResult.FromCode | framework_lib/src/chromium_ec/mod.rs:98-126 | `from_u8`/`from_u16` yields a status if and only if the code is at most 16 |
| EcResult.FromCodeInverse | framework_lib/src/chromium_ec/mod.rs:98-126 | decoding a status's code gives the status back, and every decoded code is that status's own |
| EcCommand.IdInverse | framework_lib/src/chromium_ec/command.rs:17-108 | the `EcCommands` discriminants are distinct: decoding a command's discriminant (`from_u16`) gives that command back |
| EcCommand.Payload | framework_lib/src/chromium_ec/command.rs:149-157 | the request sent is the params when extra is empty, otherwise a buffer of both lengths holding params then extra |
| EcCommand.SendCommandVecExtra | framework_lib/src/chromium_ec/command.rs:145-167 | the transport gets the request's command id, its version and params ++ extra, and its answer comes back unchanged |
| EcCommand.SendCommandVec | framework_lib/src/chromium_ec/command.rs:138-143 | with no extra data exactly the params are sent |
| EcCommand.CheckSize | framework_lib/src/chromium_ec/command.rs:181-195 | a transport error comes back unchanged; a response is accepted if and only if its length is size_of::<R>() (+20 on Windows), and a rejected one is a `DeviceError`; the struct is read from the first size_of::<R>() bytes |
| EcCommand.SendCommandExtra | framework_lib/src/chromium_ec/command.rs:177-196 | the result is the size check applied to the response to params ++ extra |
| EcCommand.SendCommand | framework_lib/src/chromium_ec/command.rs:169-175 | the result is the size check applied to the response to the params alone |
| Commands.VersionOf | framework_lib/src/chromium_ec/commands.rs:36-61 | the command version is 0 unless the request type overrides it; only GetCmdVersions V1 and ConsoleRead use 1 (V0 uses 0) |
| Commands.ToRequest | framework_lib/src/chromium_ec/command.rs:110-125 | the id sent is the `EcCommands` discriminant of the request type and the version is its `command_version` |
| Commands.RequestRoundTrip | framework_lib/src/chromium_ec/commands.rs:7-274 | packed request structs are unambiguous: from id, version and payload the request sent is recovered exactly |
| Commands.DecodeGetVersion | framework_lib/src/chromium_ec/commands.rs:10-20 | the 100-byte response decodes into three 32-byte strings and a u32 current_image |
| Commands.GetVersionEncodeDecode | framework_lib/src/chromium_ec/commands.rs:10-20 | the GetVersion layout is 32+32+32+4 = 100 bytes with no padding: every such buffer is the layout of what it decodes to |
| Commands.GetVersionDecodeEncode | framework_lib/src/chromium_ec/commands.rs:10-20 | decoding the layout of a response gives the response back |
| Commands.DecodeExpansionBayStatus | framework_lib/src/chromium_ec/commands.rs:315-321 | the three response bytes are state, board_id_0 and board_id_1, in that order |
| Commands.StateFlags | framework_lib/src/chromium_ec/commands.rs:276-280 | `module_enabled`, `module_fault` and `hatch_switch_closed` read bits 0x01, 0x02 and 0x04 of state: each reports exactly its own flag whatever the other bits are |
| Commands.ExpansionBayBoardIff | framework_lib/src/chromium_ec/commands.rs:333-346 | (12,12) is DualInterposer, (13,15) UmaFans, (11,15) SingleInterposer, (15,15) `NoModule`, and any other pair is `BadConnection` carrying both IDs, in both directions |
| Commands.DecodeHwDiag | framework_lib/src/chromium_ec/commands.rs:392-397 | the response is hw_diag (u32 LE) followed by bios_complete |
| Commands.FanFault | framework_lib/src/chromium_ec/commands.rs:399-406 | `fan_fault` is (bit 7, bit 8) of hw_diag |
| Commands.DecodeDeckState | framework_lib/src/chromium_ec/commands.rs:237-241 | the deck response is exactly 8 board IDs followed by the deck state |
| I2cPassthrough.IsSuccessfulCases | framework_lib/src/chromium_ec/i2c_passthrough.rs:43-56 | status 0 succeeds; bit 0 ("not acknowledged") or bit 1 ("timeout") set is an error; any other status fails the assertion |
| I2cPassthrough.AddrBytes | framework_lib/src/chromium_ec/i2c_passthrough.rs:82-86 | the register address is one byte when addr < 0xFF, otherwise two bytes little-endian |
| I2cPassthrough.Msg | framework_lib/src/chromium_ec/i2c_passthrough.rs:13-18 | a packed message is 4 bytes: addr_and_flags then transfer_len, both u16 LE |
| I2cPassthrough.ReadRequestLayout | framework_lib/src/chromium_ec/i2c_passthrough.rs:87-111 | the read request is [port, 2], msg{i2c_addr, addr_len}, msg{i2c_addr + 0x8000, len}, then the address bytes |
| I2cPassthrough.WriteRequestLayout | framework_lib/src/chromium_ec/i2c_passthrough.rs:137-158 | the write request is [port, 1], msg{i2c_addr, 2 + data.len() as u16}, the address as two LE bytes, then the data |
| I2cPassthrough.CopyInto | framework_lib/src/chromium_ec/i2c_passthrough.rs:109-111 | `copy_from_slice` replaces exactly the target range and leaves the rest of the buffer |
| I2cPassthrough.I2cReadOf | framework_lib/src/chromium_ec/i2c_passthrough.rs:76-81 | a read longer than 128 bytes is a `DeviceError` |
| I2cPassthrough.I2cRead | framework_lib/src/chromium_ec/i2c_passthrough.rs:62-122 | nothing is sent if and only if len > 128; otherwise exactly the read request is sent as command `I2cPassthrough` version 0 and the reply is decoded by `ReadReply` |
| I2cPassthrough.ReadReply | framework_lib/src/chromium_ec/i2c_passthrough.rs:113-121 | a transport error is propagated; otherwise the status is byte 0 and the data everything after the 2-byte header |
| I2cPassthrough.I2cWrite | framework_lib/src/chromium_ec/i2c_passthrough.rs:124-168 | exactly the write request is sent as command `I2cPassthrough` version 0 and the reply decoded by `WriteReply` |
| I2cPassthrough.WriteReply | framework_lib/src/chromium_ec/i2c_passthrough.rs:160-167 | a transport error is propagated; otherwise the status is returned with empty data |
| InputDeck.ModuleType | framework_lib/src/chromium_ec/input_deck.rs:50-72 | `InputModuleType::from` returns for 0..15 and panics above 15 |
| InputDeck.ModuleTypeInverse | framework_lib/src/chromium_ec/input_deck.rs:30-72 | the IDs map to the module types in declaration order: decoding a type's ID gives the type back, and every decoded ID is that type's own |
| InputDeck.DeckState | framework_lib/src/chromium_ec/input_deck.rs:85-98 | `InputDeckState::from` returns for 0..6 and panics above 6 |
| InputDeck.DeckStateInverse | framework_lib/src/chromium_ec/input_deck.rs:74-98 | the states follow declaration order: decoding a state's code gives it back, and every decoded code is that state's own |
| InputDeck.StatusFields | framework_lib/src/chromium_ec/input_deck.rs:106-123 | the status exists if and only if the state is at most 6 and slots 0..5 hold IDs of at most 15; touchpad_present is board_id[5] = 13 (Touchpad); pos0..pos4 decode board_id[0..4]; a bad state panics first |
| EcFacade.AvailableDrivers | framework_lib/src/chromium_ec/mod.rs:225-243 | Windows is listed exactly on Windows, the kernel driver exactly on Linux with its device node present, port I/O exactly off Windows; at least one driver, no duplicates, all compiled in |
| EcFacade.New | framework_lib/src/chromium_ec/mod.rs:246-251 | the default handle uses the first available driver: Windows on Windows, the kernel driver when present on Linux, otherwise port I/O |
| EcFacade.With | framework_lib/src/chromium_ec/mod.rs:253-260 | a handle exists if and only if the requested driver is available, and then it uses that driver |
| EcFacade.ConstructedHandlesAreCompiled | framework_lib/src/chromium_ec/mod.rs:1605-1610 | every handle made by `new` or `with` names a compiled-in driver, so the "No EC driver available" arm is unreachable |
| EcFacade.OkOf | framework_lib/src/chromium_ec/mod.rs:1657-1660 | `print_err` gives Some exactly for Ok, carrying its value |
| EcFacade.ReadMemory | framework_lib/src/chromium_ec/mod.rs:1592-1611 | nothing is read off a non-Framework machine, past the memory map (0xFF bytes) or with no compiled driver; otherwise the driver's answer with errors turned into None |
| EcFacade.ReadMemoryAgreesInRange | framework_lib/src/chromium_ec/mod.rs:1598-1600 | when offset + length does not overflow u16 the written bound and the intended one agree |
| EcFacade.Send | framework_lib/src/chromium_ec/mod.rs:1613-1634 | off Framework hardware the answer is `DeviceError("Not a Framework Laptop")`; otherwise it is the active driver's transport |
| EcFacade.LockPdBus | framework_lib/src/chromium_ec/mod.rs:264-277 | one `FlashNotified` command with FlashPd (lock) or FirmwareDone (unlock); an error is propagated, an empty reply is Ok and a non-empty reply is a `DeviceError` |
| EcFacade.CheckMemMagic | framework_lib/src/chromium_ec/mod.rs:279-298 | Ok exactly when two bytes 'E','C' are read at offset 0x20 of the memory map; every failure is a `DeviceError` |
| EcFacade.MagicNeedsFrameworkDriver | framework_lib/src/chromium_ec/mod.rs:279-298 | the magic check passes only on Framework hardware with a compiled driver whose memory read returns "EC" |
| EcFacade.MaskOfTwoVersions | framework_lib/src/chromium_ec/mod.rs:308 | the mask with bits 0 and 1 advertises exactly versions 0 and 1 |
| EcFacade.VersionSupport | framework_lib/src/chromium_ec/mod.rs:301-311 | the V1 mask is used when the V1 query succeeds, otherwise the V0 mask; when both fail the V0 error is returned; the answer is bit `version` of the mask |
| EcFacade.CmdVersionSupported | framework_lib/src/chromium_ec/mod.rs:301-311 | the V1 query is sent first and the V0 query only when it fails; the result is `VersionSupport` of the replies |
| EcFacade.BoardTablesIncreasing | framework_lib/src/chromium_ec/mod.rs:200-207 | both board-ID threshold tables have 16 strictly increasing entries |
| EcFacade.FirstAbove | framework_lib/src/chromium_ec/mod.rs:1531-1541 | the search returns the first index whose threshold exceeds the reading, or none when no threshold does |
| EcFacade.ReadBoardIdRaw | framework_lib/src/chromium_ec/mod.rs:1520-1550 | an ADC error is propagated; a negative reading is a `DeviceError`; the first band above the reading gives the ID, where bands 0, 1 and 15 mean no board; above every band is a `DeviceError` |
| EcFacade.BoardIdBand | framework_lib/src/chromium_ec/mod.rs:1520-1550 | with an increasing table a reading is board `id` (2..14) exactly when it lies in [table[id-1], table[id]) |
| EcFacade.BoardIdStandardExample | framework_lib/src/chromium_ec/mod.rs:201-203 | 1000 mV is board 7 in the standard table |
| EcFacade.BoardIdDaughterboardExample | framework_lib/src/chromium_ec/mod.rs:205-207 | 1000 mV is board 5 in the daughterboard table |
| EcFacade.BoardIdNotInstalledExample | framework_lib/src/chromium_ec/mod.rs:1535-1538 | a reading in band 15 means no board is installed |
| EcFacade.BoardIdUnknownExample | framework_lib/src/chromium_ec/mod.rs:1545-1549 | a reading at or above the last threshold is an unknown board |
| EcFacade.FirstAboveAt | framework_lib/src/chromium_ec/mod.rs:1531-1541 | in an increasing table the search stops at the first threshold above the reading |
| EcFacade.I32At | framework_lib/src/chromium_ec/mod.rs:1508-1511 | the `adc_value` field is a little-endian two's-complement i32: negative exactly when the top bit is set |
| EcFacade.AdcValue | framework_lib/src/chromium_ec/mod.rs:1508-1511 | `adc_read` succeeds exactly when the query succeeds |
| EcFacade.ReadBoardId | framework_lib/src/chromium_ec/mod.rs:1508-1518 | one `AdcRead` query on the channel, then `ReadBoardIdRaw` of its value |
| EcFacade.EraseChunksCover | framework_lib/src/chromium_ec/mod.rs:878-916 | the erase chunks start at the offset, follow one another, are non-empty, at most `chunk_size` long and add up to `size` |
| EcFacade.EraseChunksSizes | framework_lib/src/chromium_ec/mod.rs:891-896 | every erase chunk is non-empty and at most `chunk_size` |
| EcFacade.EraseChunksContiguous | framework_lib/src/chromium_ec/mod.rs:889-913 | each erase chunk starts where the previous one ends |
| EcFacade.EraseChunksSum | framework_lib/src/chromium_ec/mod.rs:889-913 | the erase chunk sizes add up to the requested size |
| EcFacade.EraseSentIsPlan | framework_lib/src/chromium_ec/mod.rs:889-913 | the requests sent are the planned chunks in order: all of them on success, otherwise a prefix ending at the failure |
| EcFacade.EraseStopsAtFailure | framework_lib/src/chromium_ec/mod.rs:904-910 | on failure the last request sent is the one that failed and its error is returned |
| EcFacade.EraseAdvance | framework_lib/src/chromium_ec/mod.rs:889-913 | one loop step: an Ok reply moves on to the next chunk, an error ends the erase with that error |
| EcFacade.EraseCursorAfter | framework_lib/src/chromium_ec/mod.rs:889-907 | the loop cursor never moves back, and each pass below the end moves it forward by at least `chunk_size` |
| EcFacade.ZeroChunkEraseNeverEnds | framework_lib/src/chromium_ec/mod.rs:889-907 | as written, with `chunk_size` 0 the cursor stays below the end after any number of passes and every pass asks for 0 bytes |
| EcFacade.EraseLoopEnds | framework_lib/src/chromium_ec/mod.rs:889-907 | with a positive `chunk_size` the loop reaches the end within `size` passes |
| EcFacade.EraseEcFlash | framework_lib/src/chromium_ec/mod.rs:878-916 | a dry run sends nothing and succeeds; otherwise the outcome and the requests sent are those of the erase plan over [offset, offset + size) |
| EcFacade.ReadPlanShape | framework_lib/src/chromium_ec/mod.rs:933-938 | a read of at most 0x80 bytes is one chunk; a larger one is `size / 0x80` full chunks at consecutive 0x80 offsets, dropping the last `size % 0x80` bytes |
| EcFacade.ReadChunk | framework_lib/src/chromium_ec/mod.rs:920-928 | a successful chunk read returns exactly `size` bytes; a shorter reply panics on the slice |
| EcFacade.ReadEcFlashChunk | framework_lib/src/chromium_ec/mod.rs:920-928 | sends one `FlashRead` and returns `ReadChunk` of the reply |
| EcFacade.ChunkReaderExact | framework_lib/src/chromium_ec/mod.rs:920-928 | every successful chunk read has exactly the requested length |
| EcFacade.ReadFrom | framework_lib/src/chromium_ec/mod.rs:966-974 | the bytes collected never exceed the planned sizes; failed chunks are skipped |
| EcFacade.ReadFromComplete | framework_lib/src/chromium_ec/mod.rs:966-978 | when every chunk reads, all planned bytes are returned |
| EcFacade.ReadAdvance | framework_lib/src/chromium_ec/mod.rs:966-974 | one loop step: a panic ends the read, an error skips the chunk, a success appends its bytes |
| EcFacade.ReadEcFlash | framework_lib/src/chromium_ec/mod.rs:930-979 | the chunks of the read plan are read in order, successes appended and failures skipped |
| EcFacade.ReadPlanned | framework_lib/src/chromium_ec/mod.rs:939-977 | the loop over the planned chunks returns `ReadFrom` of that plan |
| EcFacade.WritePlan | framework_lib/src/chromium_ec/mod.rs:840-860 | the intended chunk count covers the data: `ceil(len / 0x80)` chunks |
| EcFacade.WritePlanAgreesIff | framework_lib/src/chromium_ec/mod.rs:833-860 | the shipped `len / 0x80` chunks are the intended chunks exactly when `len` is a multiple of 0x80 |
| EcFacade.ReflashRegionsWrittenWhole | framework_lib/src/chromium_ec/mod.rs:65-67 | the RO (0x3C000) and RW (0x39000) region sizes are multiples of 0x80, so the shipped write plan covers them completely |
| EcFacade.WritePlanCovers | framework_lib/src/chromium_ec/mod.rs:840-860 | the intended chunks are contiguous from 0, non-empty, at most 0x80 bytes and add up to the data length |
| EcFacade.WritePlanSum | framework_lib/src/chromium_ec/mod.rs:840-860 | the chunk sizes from chunk k on add up to the data left after k chunks |
| EcFacade.WriteEcFlashChunk | framework_lib/src/chromium_ec/mod.rs:868-876 | one `FlashWrite` of a chunk of at most 0x80 bytes; a success carries no payload |
| EcFacade.WriteAdvance | framework_lib/src/chromium_ec/mod.rs:854-859 | one loop step: an error ends the write with that error, a success moves to the next chunk |
| EcFacade.WriteEcFlash | framework_lib/src/chromium_ec/mod.rs:825-866 | a dry run succeeds without sending; otherwise every intended chunk is written at `address + offset` in order until the first error |
| EcFacade.WritePlanned | framework_lib/src/chromium_ec/mod.rs:840-863 | the loop over the planned chunks returns `WriteAll` of that plan |
| EcFacade.DutyOfPercent | framework_lib/src/chromium_ec/mod.rs:630-639 | for 0..100 percent the duty is `percent` steps of `PWM_MAX_DUTY / 100` and never exceeds `PWM_MAX_DUTY` |
| EcFacade.PercentOfDuty | framework_lib/src/chromium_ec/mod.rs:642-650 | the reported percentage is the number of whole steps in the duty when it fits a u8 |
| EcFacade.BacklightRoundTrip | framework_lib/src/chromium_ec/mod.rs:630-650 | reading back a duty set from 0..100 percent gives that percentage |
| EcFacade.SetKeyboardBacklight | framework_lib/src/chromium_ec/mod.rs:630-639 | one `PwmSetDuty` for the keyboard light whose duty is `DutyOfPercent` |
| EcFacade.BacklightOf | framework_lib/src/chromium_ec/mod.rs:642-650 | the reply's error is propagated; otherwise the percentage of the reported duty |
| EcFacade.GetKeyboardBacklight | framework_lib/src/chromium_ec/mod.rs:642-650 | one `PwmGetDuty` for the keyboard light; the result is `BacklightOf` its reply |
| EcFacade.SetThenGet | framework_lib/src/chromium_ec/mod.rs:630-650 | when the EC reports the duty last set, the reported backlight is the percentage that was set |
| EcFacade.ReadMemoryBoundWraps | framework_lib/src/chromium_ec/mod.rs:1597-1599 | as written, a read of 2 bytes at 0xFFFF passes the u16 bound check, which wraps to 1, and reaches the driver although it lies beyond the memory map |
| EcFacade.WritePlanAsWritten | framework_lib/src/chromium_ec/mod.rs:832-860 | as written, `len / 0x80` chunks are written |
| EcFacade.WriteDropsTail | framework_lib/src/chromium_ec/mod.rs:832-860 | as written, 0x81 bytes of data are written as a single 0x80-byte chunk, so the last byte never reaches the flash |
| Esrt.AsWrittenPanicsExactly | framework_lib/src/esrt/mod.rs:55-59 | as written, `guid_from_str` panics exactly when a section is missing and every section before it parses |
| Esrt.AsWrittenPanicsOnOneSection | framework_lib/src/esrt/mod.rs:54-56 | as written, a single hexadecimal section with no dash panics on `sections[1]`; the corrected function gives None |
| Esrt.AbcPanics | framework_lib/src/esrt/mod.rs:54-56 | as written "abc" panics; the corrected function gives None |
| Power.TempSensorOf | framework_lib/src/power.rs:87-97 | 0xFF, 0xFE, 0xFD and 0xFC are exactly NotPresent, Error, NotPowered and NotCalibrated; any other byte t is `t - 73` in wrapping u8 arithmetic |
| Power.TempSensorRoundTrip | framework_lib/src/power.rs:87-97 | decoding loses nothing: every byte is recovered, and every reading whose byte is not a sentinel |
| Power.TempSensorWraps | framework_lib/src/power.rs:94 | a raw reading below 73 wraps to a high temperature (0 reads as 183, 72 as 255) |
| Power.LidAngleOf | framework_lib/src/power.rs:202-209 | 500 is exactly the unreliable sentinel; every other value is that angle |
| Power.LidAngleRoundTrip | framework_lib/src/power.rs:202-209 | the raw value is always recovered; an angle other than 500 is recovered |
| Power.I16Of | framework_lib/src/power.rs:181-183 | `i16::from_le_bytes` is the two's-complement reading: congruent mod 2^16 and negative exactly when the top bit is set |
| Power.AccelDataOf | framework_lib/src/power.rs:178-186 | decoding returns exactly when at least 6 bytes are present; x, y, z are the three LE i16 values |
| Power.AccelDataRoundTrip | framework_lib/src/power.rs:178-186 | decoding is the inverse of the 6-byte layout, in both directions |
| Power.PresentFans | framework_lib/src/power.rs:458-470 | the fan count is at most the number of entries |
| Power.PresentFansIsCardinality | framework_lib/src/power.rs:458-470 | the fan count is the number of entries that are not 0xFFFF |
| Power.PresentFansExtremes | framework_lib/src/power.rs:458-470 | the count is 4 exactly when no entry is 0xFFFF and 0 exactly when every entry is |
| Power.GetFanNum | framework_lib/src/power.rs:458-470 | a failed read panics on unwrap; otherwise the result is the number of present fans among the 4 entries |
| Power.ReadU32 | framework_lib/src/power.rs:224-236 | a missing read panics; a 4-byte read is the LE u32 of those bytes; any other length gives 0 |
| Power.ReadByte | framework_lib/src/power.rs:475 | returns exactly when the read yields at least one byte, and then that byte |
| Power.RemoveNul | framework_lib/src/power.rs:221 | the result has no NUL, is no longer than the input, and equals a NUL-free input |
| Power.RemoveNulAppend | framework_lib/src/power.rs:221 | removing NULs distributes over concatenation |
| Power.ReadString | framework_lib/src/power.rs:219-222 | panics exactly when the 8-byte read fails; the string read has no NUL |
| Power.ReadStringOfText | framework_lib/src/power.rs:219-222 | a NUL-free text stored as UTF-8 and padded with NULs reads back as that text |
| Power.ReadBattery | framework_lib/src/power.rs:476-490 | the battery reads return exactly when every read is answered |
| Power.PowerInfoFrom | framework_lib/src/power.rs:492-523 | AC is flag bit 0; a battery exists exactly when bit 1 is set, with the readings and `100 * capacity / LFCC` as charge (division by zero panics); discharging, charging and critical are bits 2, 3 and 4 |
| Power.PowerInfoOf | framework_lib/src/power.rs:473-524 | no flag byte means no information; an empty flag read panics; otherwise the record built from the flag and the readings |
| Power.UpdateReadyFromFlags | framework_lib/src/power.rs:616-630 | an update may proceed exactly when the battery bit is clear, or the AC bit is set and the charge is above 20% |
| Power.StandaloneFromFlags | framework_lib/src/power.rs:526-536 | standalone exactly when the flag byte is missing or its battery bit is clear |
| Power.ParsePdVer | framework_lib/src/power.rs:808-823 | the base version has the CCGx register layout and the application is always Notebook, with circuit byte 6 and version nibbles in byte 7 |
| Power.ParsePdVerSlice | framework_lib/src/power.rs:803-807 | returns exactly when the slice has at least 8 bytes, parsing the first 8 |
| Power.PdRecords | framework_lib/src/power.rs:843-851 | record i is the parse of bytes [1 + 8i, 1 + 8(i+1)) |
| Power.PdVersionsV1 | framework_lib/src/power.rs:840-853 | an empty reply panics; a reply shorter than its count byte announces is a `DeviceError`; otherwise all the announced records, as `Many` |
| Power.PdVersionsV0 | framework_lib/src/power.rs:831-838 | one controller exactly when the second record is all zeros; otherwise right and left |
| Power.ReadPdVersionSources | framework_lib/src/power.rs:826-853 | the records come from the V1 reply unless it was refused as InvalidVersion; only the V1 reply yields `Many` |
| Power.ReadPdVersion | framework_lib/src/power.rs:826-853 | V1 is sent first and V0 only when V1 is refused as InvalidVersion; the result is the decoded reply |
| Power.ReadManyVersions | framework_lib/src/power.rs:843-853 | the loop returns `PdVersionsV1` of the reply |
| Battery.RegistersDistinct | framework_lib/src/battery.rs:9-43 | every smart-battery and ManufacturerAccess register has its own number, and the two sets do not overlap |
| Battery.NewBattery | framework_lib/src/battery.rs:51-59 | the battery is on I2C port 3 at 8-bit address 0x16, that is 7-bit address 0x0B |
| Battery.BusAddress | framework_lib/src/battery.rs:62 | transfers use `i2c_addr >> 1`, the address without its read/write bit |
| Battery.SuccessfulData | framework_lib/src/battery.rs:73-74 | a transport error is returned, an unsuccessful status is an error, and what remains is the data the battery sent |
| Battery.ReadBytes | framework_lib/src/battery.rs:72-77 | reads `len + 1` bytes (wrapping u16), checks the status and drops the leading count byte; an empty reply panics on the slice |
| Battery.ReadI16 | framework_lib/src/battery.rs:78-85 | reads 2 bytes and returns their LE value; fewer than 2 data bytes panic |
| Battery.ReadString | framework_lib/src/battery.rs:86-93 | reads 32 bytes; byte 0 is the length L and bytes 1..=L are decoded lossily; an empty reply or L past the end panics |
| Battery.ReadBytesTooLong | framework_lib/src/battery.rs:73 | 128 bytes or more (with the extra count byte past the 128-byte limit) are refused before anything is sent, except 0xFFFF whose `len + 1` wraps to 0 |
| Battery.ReadBytesOfBlock | framework_lib/src/battery.rs:72-77 | a successful block read returns the block without its count byte |
| Battery.ReadI16OfWord | framework_lib/src/battery.rs:78-85 | a successful word read returns the value whose LE bytes the battery sent |
| Battery.ReadStringOfText | framework_lib/src/battery.rs:86-93 | a string sent as its UTF-8 length, its UTF-8 bytes and any padding reads back unchanged |
| Battery.ReadStringOverlong | framework_lib/src/battery.rs:91 | a length byte past the end of the reply panics instead of returning an error |
| Battery.Unseal | framework_lib/src/battery.rs:61-65 | `key1` then `key2` are written LE to register 0; the second write happens only if the first succeeded, and either error is returned |
| Battery.Seal | framework_lib/src/battery.rs:67-70 | the seal command 0x0030 is written to register 0; only a transport error fails it |
| Battery.SealRequest | framework_lib/src/battery.rs:67-70 | on the new battery `seal` sends one write request of 4 payload bytes to address 0x0B on port 3 |
| Battery.SealIgnoresStatus | framework_lib/src/battery.rs:67-70 | `seal` succeeds whatever status the battery answers with |
| Ccgx.BaseVersionOf | framework_lib/src/ccgx/mod.rs:32-41 | returns exactly when there are at least 4 bytes; the build number is the LE u16 of bytes 0-1, the patch byte 2, and major/minor the high/low nibbles of byte 3 |
| Ccgx.BaseVersionBytes | framework_lib/src/ccgx/mod.rs:32-41 | a base version is stored as 4 bytes |
| Ccgx.BaseVersionRoundTrip | framework_lib/src/ccgx/mod.rs:32-41 | decoding is the inverse of the 4-byte layout, in both directions |
| Ccgx.AppVersionOf | framework_lib/src/ccgx/mod.rs:65-82 | returns exactly when there are at least 4 bytes; Notebook exactly for tag bytes 0x62 0x6E and Monitor exactly for 0x64 0x6D; circuit is byte 2 and major/minor the nibbles of byte 3 |
| Ccgx.ControllerVersionOf | framework_lib/src/ccgx/mod.rs:84-88 | a controller version is a base record then an application record, 8 bytes in all |
| Ccgx.ParseBaseVersion | framework_lib/src/ccgx/mod.rs:23-31 | a parsed base version comes from exactly four dot-separated fields |
| Ccgx.ParseAppVersion | framework_lib/src/ccgx/mod.rs:59-63 | a parsed application version comes from exactly three dot-separated fields |
| Ccgx.DecimalHasNoDot | framework_lib/src/ccgx/mod.rs:27 | a decimal rendering contains no '.' |
| Ccgx.BaseVersionStringRoundTrip | framework_lib/src/ccgx/mod.rs:23-31 | the "major.minor.patch.build" rendering loses nothing |
| Ccgx.AppVersionStringRoundTrip | framework_lib/src/ccgx/mod.rs:59-63 | the "major.minor.circuit" rendering loses nothing but the tag |
| Ccgx.GetPdControllerVersions | framework_lib/src/ccgx/mod.rs:95-100 | the left controller is queried first and the right one only if that succeeded; versions exist exactly when both answer, and then they are the two answers |
| CcgxDevice.I2cAddress | framework_lib/src/ccgx/device.rs:24-31 | the left controller is at SMBus address 0x08 and the right one at 0x40 |
| CcgxDevice.I2cPort | framework_lib/src/ccgx/device.rs:32-45 | no configuration panics on unwrap and any platform other than 11th/12th-gen Intel panics; the port is 7 exactly for the right controller on 12th gen, otherwise 6 |
| CcgxDevice.PassthroughOffset | framework_lib/src/ccgx/device.rs:50-52 | device i's commands start at `i * 0x4000` (wrapping u16) |
| CcgxDevice.CommandId | framework_lib/src/ccgx/device.rs:117-120 | the command id is the code plus the device offset; for codes below 0x4000 and devices 0..3 both are recovered from it |
| CcgxDevice.ReadRequestLayout | framework_lib/src/ccgx/device.rs:126-155 | the request is [port, 2 messages], msg{addr, 2}, msg{addr + 0x8000, len}, then the register address LE |
| CcgxDevice.ReadReply | framework_lib/src/ccgx/device.rs:157-169 | a failed command is no response; an answer shorter than the 2-byte header panics; otherwise the status byte and the data after the header |
| CcgxDevice.I2cRead | framework_lib/src/ccgx/device.rs:122-169 | the request is assembled in a zeroed buffer and sent as the passthrough command of device 0, version 0; the result is `I2cReadOf` |
| CcgxDevice.IsSuccessful | framework_lib/src/ccgx/device.rs:84-99 | true exactly for status 0, false exactly when bit 0 or bit 1 is set; any other status fails the assertion |
| CcgxDevice.IsSuccessfulAgrees | framework_lib/src/ccgx/device.rs:84-99 | the controller's status check agrees outcome for outcome with the EC passthrough's `is_successful` |
| CcgxDevice.CcgxRead | framework_lib/src/ccgx/device.rs:171-182 | more than 128 bytes fails the assertion; a panic of the read is passed on; no response, or a status with bit 0 or 1 set, is None; status 0 returns the data read; any other status fails the assertion in `is_successful` |
| CcgxDevice.GetSiliconId | framework_lib/src/ccgx/device.rs:184-189 | a failed read is None and a panic of the read is passed on; a reply of fewer than two bytes fails the assertion; otherwise the silicon ID is the LE u16 of its first two bytes |
| CcgxDevice.DeviceInfoOf | framework_lib/src/ccgx/device.rs:191-216 | bits 0-1 give the running firmware (3 is None); bits 4-5 give the row size 128, 256 or 64, and the reserved value 2 panics |
| CcgxDevice.DeviceInfoRoundTrip | framework_lib/src/ccgx/device.rs:191-216 | every firmware mode and row size the byte can report is decoded back |
| CcgxDevice.GetDeviceInfo | framework_lib/src/ccgx/device.rs:191-216 | decodes the first byte of register 0; a panic of the read is passed on, no answer gives None, and an empty answer panics on the index |
| CcgxDevice.GetFwVersions | framework_lib/src/ccgx/device.rs:227-233 | the 8 bytes of the firmware 1 version register decode as a base and an application version; fewer bytes panic; a panic of the read is passed on and no answer gives None |
| CcgxDevice.PdControllerVersions | framework_lib/src/ccgx/mod.rs:95-100 | over real controllers, both must answer and the left one is asked first |
| CcgxBinary.Read256Bytes | framework_lib/src/ccgx/binary.rs:131-143 | 256 bytes are read exactly when row × row size + 256 is within the file, and they are the file's bytes from that offset |
| CcgxBinary.MetadataOf | framework_lib/src/ccgx/binary.rs:111-128 | metadata exists exactly when the magic 0x59 0x43 is at 0xC0 + 0x16; the firmware then starts at row 1 or later |
| CcgxBinary.MetadataLayout | framework_lib/src/ccgx/binary.rs:111-128 | a block that stores the last bootloader row (LE u16 at 0xC5) and the size (LE u32 at 0xC9) with the magic decodes to row + 1 and that size, and every decode reads those bytes |
| CcgxBinary.ReadMetadata | framework_lib/src/ccgx/binary.rs:106-129 | metadata is found exactly when its 256-byte block is readable and carries the magic, and it is that block's decoding |
| CcgxBinary.SiliconIdOf | framework_lib/src/ccgx/binary.rs:155-158 | the silicon ID is the LE u16 at 0xEA, two bytes into the silicon-ID field |
| CcgxBinary.FirmwareOf | framework_lib/src/ccgx/binary.rs:152-166 | the base version is read at 0xE0 and the application version at 0xE4 of the firmware's first block, with the silicon ID and the metadata's row and size |
| CcgxBinary.ReadVersion | framework_lib/src/ccgx/binary.rs:147-167 | a version is found exactly when the metadata is readable with the magic and the firmware row is readable, and it is that row's records |
| CcgxBinary.Geometry | framework_lib/src/ccgx/binary.rs:173-176 | CCG5 uses 0x100-byte rows and metadata row 0x1FF for the second image, CCG6 0x80 and 0x1FD; never the first image's row 0x1FE |
| CcgxBinary.ReadVersions | framework_lib/src/ccgx/binary.rs:172-181 | both images are read with the generation's row size, from rows 0x1FE and the second metadata row; None if either is unreadable |
| CcgxBinary.ReadVersionOfImage | framework_lib/src/ccgx/binary.rs:147-167 | a file that stores a last row, a size, the magic, a base version and a silicon ID reads back as exactly those values |
| PdBinary.Read256Bytes | framework_lib/src/pd_binary.rs:121-124 | returns exactly when the CCGx reader's read would, with the same bytes; a read past the end panics on the slice |
| PdBinary.ReadMetadata | framework_lib/src/pd_binary.rs:95-119 | panics exactly when the metadata row is past the end of the file; otherwise it is the CCGx reader's metadata |
| PdBinary.NibblesSplit | framework_lib/src/pd_binary.rs:140-141 | the two nibbles of a byte are below 16 and rebuild it |
| PdBinary.ReadVersion | framework_lib/src/pd_binary.rs:130-156 | None exactly when the metadata is invalid; otherwise major and minor are the nibbles of byte 0xE4+3, patch is byte 0xE4+2, the silicon ID is the LE u16 at 0xEA, with the metadata's row and size |
| PdBinary.ReadVersions | framework_lib/src/pd_binary.rs:158-163 | both images are read, from rows 0x1FE and 0x1FD; a result exists exactly when both have valid metadata |
| PdBinary.ReadVersionAgrees | framework_lib/src/pd_binary.rs:130-156 | where this reader succeeds the CCGx reader does too, and major, minor and patch are its application major, minor and circuit, with the same location, size and silicon ID |
| PdBinary.ReadVersionsAgreeCcg6 | framework_lib/src/pd_binary.rs:158-163 | with the CCG6 row size this reader reads the same rows as the CCGx reader for CCG6 |
| PdBinary.HexHasNoDot | framework_lib/src/pd_binary.rs:166 | a zero-padded hexadecimal rendering has no '.' |
| PdBinary.FormatPdAppVerFields | framework_lib/src/pd_binary.rs:165-167 | "major.minor.patch" splits at its dots into exactly the three renderings |
| PdBinary.FormatPdAppVerRoundTrip | framework_lib/src/pd_binary.rs:165-167 | major, minor and patch are recovered from the rendering |
| EcBinary.RawOf | framework_lib/src/ec_binary.rs:16-24 | a packed version structure read from 48 bytes has a 32-byte version |
| EcBinary.RawBytes | framework_lib/src/ec_binary.rs:16-24 | a packed version structure is 48 bytes |
| EcBinary.RawRoundTrip | framework_lib/src/ec_binary.rs:16-24 | a packed little-endian layout is read back exactly, in both directions |
| EcBinary.PlatformRunEnd | framework_lib/src/ec_binary.rs:120 | the run of `[a-z0-9]` characters from i ends at the first character outside the class |
| EcBinary.CommitRunEnd | framework_lib/src/ec_binary.rs:120 | the run of `[0-9a-f]` characters from i ends at the first character outside the class |
| EcBinary.MatchAt | framework_lib/src/ec_binary.rs:120 | a match has a non-empty platform and a non-empty commit |
| EcBinary.FindMatch | framework_lib/src/ec_binary.rs:120-121 | the leftmost position where the pattern matches, or none when it matches nowhere |
| EcBinary.ParseEcVersionStr | framework_lib/src/ec_binary.rs:119-136 | returns exactly when the pattern matches somewhere (otherwise `unwrap` panics), and then gives the captures of the leftmost match |
| EcBinary.ParseRendered | framework_lib/src/ec_binary.rs:119-136 | a rendered version followed by anything that does not continue the commit hash parses back to its details |
| EcBinary.MatchRendered | framework_lib/src/ec_binary.rs:120 | the pattern matches a rendered version string at its start with those captures |
| EcBinary.ParseExample | framework_lib/src/ec_binary.rs:105-117 | "hx30_v0.0.1-7a61a89" parses as platform hx30, version 0.0.1 and commit 7a61a89 |
| EcBinary.ParseEcVersion | framework_lib/src/ec_binary.rs:89-100 | bytes that are not UTF-8 give None; otherwise the version string without trailing NULs, its details, and the size and rollback version copied |
| EcBinary.ParseEcVersionUefi | framework_lib/src/ec_binary.rs:66-86 | the UEFI build gives None exactly for bytes that are not UTF-8; otherwise the version string without trailing NULs, empty details, and the size and rollback version copied |
| EcBinary.UefiAgreesOnVersion | framework_lib/src/ec_binary.rs:66-99 | whenever the regex build parses a version, the UEFI build reports the same string, size and rollback version, with empty details |
| EcBinary.ReadEcVersion | framework_lib/src/ec_binary.rs:138-152 | an image shorter than 0x1158 panics on the slice; the structure at 0x1158 is accepted only when both cookies match, and is then parsed |
| EcBinary.TrimNuls | framework_lib/src/ec_binary.rs:92-93 | `trim_end_matches('\0')` removes the NUL padding and nothing else |
| EcBinary.ReadEcVersionOfImage | framework_lib/src/ec_binary.rs:138-152 | an image whose structure has both cookies and a rendered version padded with NULs reads back as that version, its details, size and rollback version |
| EcBinary.ReadPlaced | framework_lib/src/ec_binary.rs:138-152 | a structure with both cookies at 0x1158 is parsed as it stands |
| EcBinary.ParsePadded | framework_lib/src/ec_binary.rs:89-100 | version bytes holding a rendered version and NUL padding parse back to it |
| EcBinary.DecodePadded | framework_lib/src/ec_binary.rs:89-100 | version bytes holding a parsable string and NUL padding decode and trim back to it |
| EcBinary.RawOfPrefix | framework_lib/src/ec_binary.rs:140 | only the first 48 bytes at the offset make up the structure |
| Capsule.HeaderBytes | framework_lib/src/capsule.rs:20-38 | a capsule header is stored as 28 bytes: the GUID, then header size, flags and image size as LE u32 |
| Capsule.HeaderRoundTrip | framework_lib/src/capsule.rs:115-119 | reading a header from its own bytes, followed by anything, gives that header |
| Capsule.ParseCapsuleHeader | framework_lib/src/capsule.rs:115-124 | data shorter than a header panics on the slice; otherwise the header in the first 28 bytes exactly when it is valid for the data |
| Capsule.ParseOfHeaderBytes | framework_lib/src/capsule.rs:44-58 | a file starting with a header's bytes parses to that header exactly when image size = file length and 28 ≤ header size ≤ image size |
| Capsule.ValidHeaderWithinData | framework_lib/src/capsule.rs:44-58 | a valid header is at least 28 bytes, no larger than the data, and its image size is the data length |
| Capsule.WinuxHeaderParses | framework_lib/src/capsule.rs:201-213 | any 676898-byte file that starts with the expected winux.bin header parses to it |
| Capsule.WinuxFlags | framework_lib/src/capsule.rs:94-113 | the winux.bin header's only flag is "persist across reset" |
| Capsule.ReportedFlags | framework_lib/src/capsule.rs:94-113 | the flags reported are exactly the three capsule flags set in the word, in the order checked |
| Capsule.FlagBits | framework_lib/src/capsule.rs:90-92 | the three capsule flags are bits 16, 17 and 18 |
| Capsule.ParseUxHeader | framework_lib/src/capsule.rs:143-148 | data shorter than 44 bytes panics on the slice; otherwise the capsule header, then version at byte 28, image type at byte 30 and the LE u32 fields up to offset_y at byte 40 |
| Capsule.UxImageSize | framework_lib/src/capsule.rs:173-175 | the image size is the capsule image size less the 44-byte header, wrapping as usize below 44 |
| Capsule.WinuxImageAsWritten | framework_lib/src/capsule.rs:173-177 | `data[44..image_size]` returns exactly when 44 ≤ image_size ≤ data length, and then has image_size − 44 bytes |
| Capsule.WinuxImage | framework_lib/src/capsule.rs:173-177 | the intended image returns exactly when the capsule image size lies in [44, data length], and then is the image_size bytes after the header |
| Capsule.WinuxImageIsRest | framework_lib/src/capsule.rs:173-177 | for a display capsule valid for the file, the intended image is everything after the 44-byte header |
| Capsule.WinuxImageAsWrittenShort | framework_lib/src/capsule.rs:177 | for a valid 100-byte display capsule the source writes bytes 44..56 where the image is bytes 44..100 |
| CapsuleContent.Slice | framework_lib/src/capsule_content.rs:19 | `data[from..from + len]` returns exactly when it lies within the data |
| CapsuleContent.FindRetimerVersion | framework_lib/src/capsule_content.rs:15-21 | no "$_RETIMER_PARAM_" gives None; otherwise the LE u16 at 8 bytes after the first occurrence's end, and a panic when that runs past the data |
| CapsuleContent.FindBiosVersion | framework_lib/src/capsule_content.rs:28-44 | no "$BVDT" gives None; otherwise the 5 bytes at found + 14 and at found + 20 decoded as UTF-8 (None if either is not), and a panic past the data |
| CapsuleContent.BiosVersionOfAscii | framework_lib/src/capsule_content.rs:28-44 | a capsule with "$BVDT" and an ASCII platform and version at offsets 14 and 20 reports exactly those strings |
| CapsuleContent.FindEcInBiosCap | framework_lib/src/capsule_content.rs:46-51 | no "$_IFLASH_EC_IMG_" gives None; otherwise the EC_LEN bytes at found + 24, and a panic past the data |
| CapsuleContent.PdAt | framework_lib/src/capsule_content.rs:61-65 | the PD image at an offset returns exactly when it lies within the data |
| CapsuleContent.FindPdInBiosCap | framework_lib/src/capsule_content.rs:53-69 | the image is taken at the first CCG5 signature if any, else at the first CCG6, else at the first CCG8; None exactly when no signature occurs |
| CapsuleContent.PdImageSignature | framework_lib/src/capsule_content.rs:57-65 | a PD image found in a capsule starts with the signature it was found by |
| Sparsify.AllFromOccur | framework_lib/test_bins/sparsify_capsule.py:28-35 | every offset `find_all` reports is an occurrence of the needle at or after the start |
| Sparsify.AllFromSpaced | framework_lib/test_bins/sparsify_capsule.py:28-35 | the reported offsets increase and are at least a needle length apart |
| Sparsify.AllFromComplete | framework_lib/test_bins/sparsify_capsule.py:28-35 | every occurrence at or after the start is reported or overlaps a reported one |
| Sparsify.FindAll | framework_lib/test_bins/sparsify_capsule.py:28-35 | the search loop returns exactly `AllFrom(data, needle, 0)`, all of them occurrences |
| Sparsify.Numbered | framework_lib/test_bins/sparsify_capsule.py:64-77 | one region per offset, each at that offset with the group's length |
| Sparsify.Marker | framework_lib/test_bins/sparsify_capsule.py:50-82 | a marker gives one region exactly when it occurs, at its first occurrence and with its length |
| Sparsify.Insert | framework_lib/test_bins/sparsify_capsule.py:85 | inserting a region keeps every other region (multiset) |
| Sparsify.InsertBound | framework_lib/test_bins/sparsify_capsule.py:85 | inserting keeps every region at or above a bound that all of them respect |
| Sparsify.InsertSorted | framework_lib/test_bins/sparsify_capsule.py:85 | inserting into a list sorted by offset keeps it sorted |
| Sparsify.SortByOffset | framework_lib/test_bins/sparsify_capsule.py:85 | the sort is a permutation of the regions |
| Sparsify.SortByOffsetSorted | framework_lib/test_bins/sparsify_capsule.py:85 | the sorted regions are ordered by offset |
| Sparsify.CollectRegions | framework_lib/test_bins/sparsify_capsule.py:45-82 | the header, $BVDT, EC, CCG8, CCG6, CCG5 and retimer regions are collected in that order |
| Sparsify.CopyRegions | framework_lib/test_bins/sparsify_capsule.py:88-91 | the result has the data's length; a byte is copied exactly when some region, clipped to the data, covers it, and is zero otherwise |
| Sparsify.SparsifyCapsule | framework_lib/test_bins/sparsify_capsule.py:38-93 | the regions are sorted by offset and a permutation of the candidates; the output keeps exactly the covered bytes and zeroes the rest |
| Sparsify.CandidatePreserved | framework_lib/test_bins/sparsify_capsule.py:85-91 | every byte of a candidate region that lies inside the data is kept |
| Sparsify.HeaderPreserved | framework_lib/test_bins/sparsify_capsule.py:47-48 | the first 64 bytes, or the whole file if shorter, are always kept |
| Sparsify.Ccg5Preserved | framework_lib/test_bins/sparsify_capsule.py:73-77 | every CCG5 image found is kept in full, as far as the data reaches |
| Sparsify.SplitExt | framework_lib/test_bins/sparsify_capsule.py:98-100 | `splitext` splits the path into a base and an extension that is empty or starts with the last '.' of the last component |
| Sparsify.LastIndexOf | framework_lib/test_bins/sparsify_capsule.py:98-100 | the index of the last occurrence of the character, or -1 when none |
| Sparsify.DefaultOutputPathInserts | framework_lib/test_bins/sparsify_capsule.py:98-100 | the default output path inserts ".sparse" before the extension, so it is 7 characters longer and never the input; "input.cap" gives "input.sparse.cap" |
| Sparsify.SplitExtExample | framework_lib/test_bins/sparsify_capsule.py:17 | "input.cap" splits into "input" and ".cap" |
| Esrt.StripNewline | framework_lib/src/esrt/mod.rs:53 | at most one trailing newline is removed, and exactly when there is one |
| Esrt.Section | framework_lib/src/esrt/mod.rs:55-59 | reading section k panics exactly when there is no section k, and otherwise parses it as hexadecimal within the field's width |
| Esrt.Field | framework_lib/src/esrt/mod.rs:55-59 | field k exists exactly when section k exists and parses within the field's width |
| Esrt.FromSections | framework_lib/src/esrt/mod.rs:52-68 | a GUID exists exactly when all five fields parse, and it is `Guid::from_values` of them |
| Esrt.AsWrittenAgrees | framework_lib/src/esrt/mod.rs:52-68 | where the code as written returns it agrees with the corrected function; it panics exactly when fewer than five sections exist and all present ones parse |
| Esrt.NotAllAsWritten | framework_lib/src/esrt/mod.rs:55-59 | a missing or unparsable field makes the code as written give None, if it returns |
| Esrt.InvalidGuid | framework_lib/src/esrt/mod.rs:49-50 | "invalid-guid" gives None, as written and corrected |
| Esrt.FirstFieldBad | framework_lib/src/esrt/mod.rs:55 | a first section that does not parse gives None, as written and corrected |
| Esrt.RenderEnd | framework_lib/src/esrt/mod.rs:53 | a rendered GUID never ends in a newline, so stripping one newline gives it back |
| Esrt.RenderedFields | framework_lib/src/esrt/mod.rs:55-59 | parsing the five rendered groups gives back the GUID's fields |
| Esrt.FieldsOfParses | framework_lib/src/esrt/mod.rs:55-59 | five sections that read as values within the field widths give those fields |
| Esrt.GuidFromRender | framework_lib/src/esrt/mod.rs:34-51 | the rendering in either case, with or without one trailing newline, parses back to the GUID, as written and corrected |
| Esrt.CaseInsensitive | framework_lib/src/esrt/mod.rs:42-47 | the lower- and upper-case renderings parse to the same GUID |
| Esrt.FromValuesBytes | framework_lib/src/esrt/mod.rs:61-67 | `Guid::from_values` stores the clock sequence and the 48-bit node big-endian in the last 8 bytes |
| Esrt.GuidMacroValues | framework_lib/src/esrt/mod.rs:70-83 | each firmware GUID constant is `Guid::from_values` of the five fields of its literal |
| Esrt.MatchGuidKind | framework_lib/src/esrt/mod.rs:98-111 | a kind other than Unknown is returned only for its own GUID, and Unknown exactly for a GUID that is none of the eight constants |
| Esrt.UefiMatchGuidKind | framework_lib/src/uefi/esrt.rs:44-52 | the UEFI build recognises only BIOS, RETIMER01, RETIMER23 and WINUX, agreeing with the full match on those and Unknown otherwise |
| Esrt.KnownGuidsDistinct | framework_lib/src/esrt/mod.rs:70-83 | the eight known GUIDs are pairwise different |
| Esrt.MatchGuidOfKind | framework_lib/src/esrt/mod.rs:98-111 | each known kind is recognised from its own constant |
| Esrt.SystemResourceTableUnknown | framework_lib/src/esrt/mod.rs:315 | the ESRT table GUID is not a firmware GUID |
| Esrt.ResourceTypeFromInt | framework_lib/src/esrt/mod.rs:140-152 | codes 1 to 5 name their type and every other code is Unknown |
| Esrt.ResourceTypeRoundTrip | framework_lib/src/esrt/mod.rs:130-152 | decoding a type's code gives the type back |
| Esrt.UpdateStatusFromInt | framework_lib/src/esrt/mod.rs:165-179 | codes 0 to 7 name their status and every other code is Reserved |
| Esrt.UpdateStatusRoundTrip | framework_lib/src/esrt/mod.rs:153-179 | decoding a status's code gives the status back |
| Esrt.GetEsrt | framework_lib/src/esrt/mod.rs:317-349 | None exactly when no configuration table has the ESRT GUID; otherwise the first such table, its header and exactly `resource_count` entries copied |
| Guid.Default | framework_lib/src/guid.rs:42 | the derived default GUID has every field zero |
| Guid.Be16Bytes | framework_lib/src/guid.rs:35-37 | `to_be_bytes` of a u16 is 2 bytes reading back big-endian as the value |
| Guid.Be32Bytes | framework_lib/src/guid.rs:36 | `to_be_bytes` of a u32 is 4 bytes reading back big-endian as the value |
| Guid.Be48Bytes | framework_lib/src/guid.rs:36-37 | a 48-bit node is 6 bytes: a big-endian u32 then a big-endian u16 |
| Guid.Node | framework_lib/src/guid.rs:51-55 | the node stored in the last six bytes of `d` is below 2^48 |
| Guid.FromValues | framework_lib/src/esrt/mod.rs:61-67 | `Guid::from_values` keeps the three time fields, stores the clock sequence and the low 48 bits of the node |
| Guid.FromValuesOfFields | framework_lib/src/esrt/mod.rs:61-67 | a GUID is determined by its five `from_values` fields |
| Guid.GroupsShape | framework_lib/src/guid.rs:27-39 | the rendered groups are 8, 4, 4, 4 and 12 ASCII hexadecimal digits with no dash |
| Guid.LastGroupShape | framework_lib/src/guid.rs:31-37 | the last group, `{:08X}{:04X}`, is 12 digits reading as the node |
| Guid.JoinedHex | framework_lib/src/guid.rs:31 | 8 digits of hi then 4 digits of lo read as hi × 2^16 + lo |
| Guid.DisplayShape | framework_lib/src/guid.rs:27-39 | the rendering is 36 characters with dashes at 8, 13, 18 and 23 |
| Guid.DisplayDefault | framework_lib/src/guid.rs:27-42 | the default GUID renders as "00000000-0000-0000-0000-000000000000" |
| Guid.BuildFromComponents | framework_lib/src/guid.rs:10-14 | `GUID::build_from_components` puts `d` in bytes 8..16 |
| Guid.CGuidRoundTrip | framework_lib/src/guid.rs:10-25 | converting a `CGuid` to `GUID` and back preserves a, b, c and d |
| Guid.GuidRoundTrip | framework_lib/src/guid.rs:10-25 | converting a `GUID` to `CGuid` and back gives every byte back |
| GuidMacros.Offset | guid_macros/src/lib.rs:60-83 | component k starts after the opening quote and each earlier component with its dash |
| GuidMacros.NextGuidInt | guid_macros/src/lib.rs:62-91 | the k-th call panics exactly when the split has run out of pieces; a success has 2 × width characters |
| GuidMacros.CheckComponent | guid_macros/src/lib.rs:75-90 | a component is accepted only with exactly 2 × width characters, then parsed as hexadecimal |
| GuidMacros.Components | guid_macros/src/lib.rs:94-100 | the calls from k on, each `?` stopping at the first error; a success gives 5 − k values |
| GuidMacros.ParseGuidOf | guid_macros/src/lib.rs:48-59 | a literal that is not 36 bytes is the "not a canonical GUID string" error with its length |
| GuidMacros.StepErr | guid_macros/src/lib.rs:94-100 | a call that returns an error ends the run with that error |
| GuidMacros.StepOk | guid_macros/src/lib.rs:94-100 | a call that succeeds contributes its value and the run continues |
| GuidMacros.ParseGuid | guid_macros/src/lib.rs:48-101 | the closure-driven parse, advancing the offset past each component and dash, gives `ParseGuidOf` |
| GuidMacros.StopsWith | guid_macros/src/lib.rs:94-100 | a call that fails or panics ends the whole parse with that outcome |
| GuidMacros.JoinByteLen | guid_macros/src/lib.rs:52-61 | the joined string is as long as its pieces plus the dashes between them |
| GuidMacros.ComponentsPanic | guid_macros/src/lib.rs:63 | a run panics only when the pieces ran out after components of the right widths |
| GuidMacros.ParseGuidNeverPanics | guid_macros/src/lib.rs:52-63 | the `unwrap` in `next_guid_int` never panics: with 36 bytes, fewer than five pieces cannot all have the expected widths |
| GuidMacros.ComponentFits | guid_macros/src/lib.rs:75-90 | a component of 2w characters parses to a value below 2^(8w) |
| GuidMacros.ParseGuidFits | guid_macros/src/lib.rs:94-100 | on success the literal is 36 bytes and the casts never truncate: each field is exactly its component and the node fits 48 bits |
| GuidMacros.FieldsFit | guid_macros/src/lib.rs:94-100 | the five values of a successful run fit 32, 16, 16, 16 and 48 bits |
| GuidMacros.SplitRender | guid_macros/src/lib.rs:61 | a rendered GUID is 36 bytes and splits at its dashes into its groups |
| GuidMacros.SplitGroups | guid_macros/src/lib.rs:61 | five dash-free groups of 8, 4, 4, 4 and 12 characters, joined and split again, give themselves |
| GuidMacros.ParseRender | guid_macros/src/lib.rs:28-101 | `guid!` reads a rendered `CGuid` (either case) back as its five fields, so `Guid::from_values` of them is the GUID |
| GuidMacros.GroupValues | guid_macros/src/lib.rs:94-100 | the five groups of a rendering parse to time low, mid, high, clock sequence and node |
| GuidMacros.HexParses | guid_macros/src/lib.rs:75-90 | a field of w bytes printed as 2w hex digits reads back as that field |
| GuidMacros.NodeParses | guid_macros/src/lib.rs:99 | the 12-digit node group reads back as the 48-bit node |
| GuidMacros.ComponentsOfGroups | guid_macros/src/lib.rs:94-100 | five pieces of the right widths that all parse give their values in order |
| Serialnum.Cfg0FromU8 | framework_lib/src/serialnum.rs:26-45 | `Cfg0::from_u8` names a configuration exactly for 0x00..0x0F |
| Serialnum.Cfg0Value | framework_lib/src/serialnum.rs:26-45 | every configuration's discriminant decodes back to it |
| Serialnum.WeekDayFrom | framework_lib/src/serialnum.rs:83-92 | a day exists exactly for digits 1..7 |
| Serialnum.WeekDayValue | framework_lib/src/serialnum.rs:47-56 | every weekday's number lies in 1..7 and decodes back to it |
| Serialnum.FirstMatch | framework_lib/src/serialnum.rs:63-67 | the leftmost position where the serial pattern matches, and none before it |
| Serialnum.FromStrAsWritten | framework_lib/src/serialnum.rs:62-104 | "Invalid Serial" exactly when the pattern matches nowhere |
| Serialnum.FromStr | framework_lib/src/serialnum.rs:62-104 | "Invalid Serial" exactly when the pattern matches nowhere |
| Serialnum.Cfg0LetterRejected | framework_lib/src/serialnum.rs:69-77 | the pattern admits A-F for CFG0 but it is parsed as a decimal digit, so such a serial is an "Invalid CFG0" error |
| Serialnum.YearLetterPanics | framework_lib/src/serialnum.rs:79 | a letter in the year position passes the pattern but panics in the year parse |
| Serialnum.DayZeroRejected | framework_lib/src/serialnum.rs:83-92 | day 0 passes the pattern `[0-7]` but is "Invalid Day" |
| Serialnum.Render | framework_lib/src/serialnum.rs:63-64 | a serial's text form is 18 characters |
| Serialnum.RenderMatches | framework_lib/src/serialnum.rs:63-67 | the pattern matches a rendered serial at its start |
| Serialnum.FromStrRender | framework_lib/src/serialnum.rs:62-104 | the corrected decoder reads every field of a rendered serial back |
| Serialnum.AsWrittenPartIsOem | framework_lib/src/serialnum.rs:102 | as written, `part` is always the two-letter OEM code, never the documented four-character group |
| Csme.ParseU32 | framework_lib/src/csme.rs:50-55 | `parse::<u32>().expect` returns exactly when the text is a decimal u32, with its value |
| Csme.ParseFwVer | framework_lib/src/csme.rs:49-55 | fewer than two ':' pieces panic; a parse that returns had at least four '.' pieces after the colon |
| Csme.ParseDotted | framework_lib/src/csme.rs:51-55 | major, minor, hotfix and the trimmed build number need at least four '.' pieces |
| Csme.ParseJoined | framework_lib/src/csme.rs:49-55 | five numerals joined as "p:a.b.c.d" parse back to their values |
| Csme.ParseSections | framework_lib/src/csme.rs:49-55 | once the pieces are known the five numbers are parsed from them in order |
| Csme.ParseFormatCsmeVer | framework_lib/src/csme.rs:17-22 | parsing the `format_csme_ver` rendering recovers all five numbers |
| Csme.EntryInfoSpec | framework_lib/src/csme.rs:35-65 | a device entry yields information only when all its `fw_ver` lines agree and the first parses; enabled exactly when `dev_state` is "ENABLED" |
| Csme.CsmeFromSysfs | framework_lib/src/csme.rs:25-76 | the loop over the MEI entries gives `CsmeOf` of the directory listing |
| Csme.ScanNoDevice | framework_lib/src/csme.rs:29-66 | without device directories nothing is found |
| Csme.ScanSecondEntryPanics | framework_lib/src/csme.rs:31 | a device directory before the last entry trips the assertion on the next iteration (or panics while being read) |
| Csme.ScanFoundLast | framework_lib/src/csme.rs:29-66 | what is found is read from the last entry, the only device directory |
| Csme.ScanAfterFound | framework_lib/src/csme.rs:31 | once a device was read the scan returns only if no entry is left |
| Csme.CsmeOfSpec | framework_lib/src/csme.rs:25-76 | no directory or no device gives NotFound; a device before the last entry panics; a result is the information read from the last entry |
| SsdExpansionCard.StorageBusTypeFrom | framework_lib/src/ssd_expansion_card.rs:83-109 | every value above 19 is `Unknown` |
| SsdExpansionCard.BusTypeValue | framework_lib/src/ssd_expansion_card.rs:57-81 | the `#[repr(u32)]` discriminants lie in 0..19 |
| SsdExpansionCard.StorageBusTypeRoundTrip | framework_lib/src/ssd_expansion_card.rs:57-109 | `from` inverts the discriminant of every bus type, and on 0..19 the discriminant inverts `from` |
| SsdExpansionCard.CtlCodeFields | framework_lib/src/ssd_expansion_card.rs:113 | device type, access, function and method can be read back from a `CTL_CODE` value |
| SsdExpansionCard.IoctlCodes | framework_lib/src/ssd_expansion_card.rs:111-118 | the two hand-computed constants equal the `CTL_CODE` expressions their comments name (read and write access is 3) |
| SsdExpansionCard.ExtractString | framework_lib/src/ssd_expansion_card.rs:197-216 | offset 0 or an offset at or past the end gives the empty string |
| SsdExpansionCard.ExtractStringOfText | framework_lib/src/ssd_expansion_card.rs:197-216 | a plain string written NUL-terminated at a non-zero offset is read back exactly |
| SsdExpansionCard.SwapPairs | framework_lib/src/ssd_expansion_card.rs:227-234 | every byte is exchanged with the other byte of its 16-bit word |
| SsdExpansionCard.SwapPairsInvolution | framework_lib/src/ssd_expansion_card.rs:227-234 | exchanging twice restores the bytes |
| SsdExpansionCard.ExtractAtaString | framework_lib/src/ssd_expansion_card.rs:219-238 | the push loop yields the word-swapped, decoded and trimmed string, and "" when the words run past the data |
| SsdExpansionCard.AtaStringOfText | framework_lib/src/ssd_expansion_card.rs:219-238 | a plain string stored space-padded and word-swapped, as IDENTIFY DEVICE stores its strings, is read back exactly |
| SsdExpansionCard.AtaDeviceInfoOf | framework_lib/src/ssd_expansion_card.rs:401-428 | the result is an error exactly when the SCSI status is non-zero; otherwise the firmware revision is the string in words 23-26 |
| SsdExpansionCard.AtaFieldsLayout | framework_lib/src/ssd_expansion_card.rs:127-132 | serial, firmware and model words lie in order, without overlap, inside the 512-byte sector |
| SsdExpansionCard.FirmwareRevisionOfText | framework_lib/src/ssd_expansion_card.rs:418-427 | a firmware revision stored in words 23-26 is the one `get_ata_device_info` reports |
| SsdExpansionCard.BuildIdentifyCdb | framework_lib/src/ssd_expansion_card.rs:364-383 | the zeroed 16-byte block, filled field by field, is [0xA1, 0x08, 0x2E, 0, 1, 0, 0, 0, 0, 0xEC, 0, 0, 0, 0, 0, 0] |
| SsdExpansionCard.IdentifyCdbFields | framework_lib/src/ssd_expansion_card.rs:371-383 | read through the SAT-4 layout the block asks for IDENTIFY DEVICE, PIO Data-In, transfer from the device, length in blocks in the sector count, one sector |
| Nvme.ParseString | framework_lib/src/nvme.rs:50-56 | the slice returns exactly when the field lies inside the buffer, and the result has no surrounding white space |
| Nvme.ParseStringOfText | framework_lib/src/nvme.rs:50-56 | a string padded with spaces or NULs, as the NVM Express specification pads its ASCII fields, is read back exactly |
| Nvme.TrimPaddedField | framework_lib/src/nvme.rs:50-56 | removing trailing NULs and then white space from a padded field leaves the text |
| Nvme.IdentifyCommand | framework_lib/src/nvme.rs:64-71 | the command is Identify (opcode 0x06) for the controller (CNS 1) over the whole buffer |
| Nvme.HexStatus | framework_lib/src/nvme.rs:73-76 | `{:#x}` of the status starts with "0x" |
| Nvme.NvmeInfoOf | framework_lib/src/nvme.rs:73-84 | an error exactly when the status is non-zero; otherwise the model number is bytes 24..64 and the firmware version bytes 64..72 |
| Nvme.IdentifyLayout | framework_lib/src/nvme.rs:8-12 | the model and firmware fields are adjacent and inside the 4096-byte Identify data |
| Nvme.FirmwareVersionOfText | framework_lib/src/nvme.rs:59-84 | a firmware revision such as "UHFM00.1" written into bytes 64..72 is the version reported |
| SmbiosEntry.Header | framework_lib/src/uefi/mod.rs:11-27 | a packed `Smbios` struct's bytes 00h-0Fh are 16 bytes |
| SmbiosEntry.Intermediate | framework_lib/src/uefi/mod.rs:11-27 | bytes 10h-1Eh (from the "_DMI_" anchor to the BCD revision) are 15 bytes |
| SmbiosEntry.Bytes | framework_lib/src/uefi/mod.rs:11-27 | the whole packed entry point is 31 (1Fh) bytes: the header followed by the intermediate part |
| SmbiosEntry.SummedAsWritten | framework_lib/src/uefi/mod.rs:30-40 | the bytes `checksum_valid` adds are 15: the header without the high byte of max_structure_size |
| SmbiosEntry.HeaderTotal | framework_lib/src/uefi/mod.rs:30-40 | the header's sum is the as-written sum plus the high byte of max_structure_size |
| SmbiosEntry.SumU8 | framework_lib/src/uefi/mod.rs:31 | `iter().sum::<u8>()` is the byte sum modulo 256 |
| SmbiosEntry.ChecksumSum | framework_lib/src/uefi/mod.rs:31-38 | the sequence of `sum +=` steps leaves the as-written bytes' sum modulo 256 |
| SmbiosEntry.ChecksumValidAsWritten | framework_lib/src/uefi/mod.rs:30-40 | as written, valid exactly when the as-written bytes add up to zero modulo 256 |
| SmbiosEntry.ChecksumValid | framework_lib/src/uefi/mod.rs:30-40 | corrected: valid exactly when the header bytes 00h-0Fh add up to zero modulo 256 |
| SmbiosEntry.AsWrittenAgreesBelow256 | framework_lib/src/uefi/mod.rs:36 | the two tests agree whenever max_structure_size fits in a byte |
| SmbiosEntry.AsWrittenRejectsValidEntry | framework_lib/src/uefi/mod.rs:36 | an entry point with max_structure_size 0x100 meets the header rule yet `checksum_valid` calls it invalid |
| SmbiosEntry.HeaderWithChecksum | framework_lib/src/uefi/mod.rs:14 | the checksum byte contributes itself to the header sum |
| SmbiosEntry.ChecksumForUnique | framework_lib/src/uefi/mod.rs:30-40 | exactly one checksum byte makes an entry point pass |
| SmbiosEntry.WholeEntryPointRule | framework_lib/src/uefi/mod.rs:11-27 | when the intermediate checksum holds, the header rule is equivalent to the whole-structure rule of section 5.2.1 of DMTF DSP0134 |
| SmbiosEntry.TableRange | framework_lib/src/uefi/mod.rs:61-78 | only SMBIOS3 and SMBIOS tables with a complete entry point have a structure table |
| SmbiosEntry.FirstSmbios | framework_lib/src/uefi/mod.rs:60-87 | none exactly when no table is SMBIOS or SMBIOS3; otherwise the first such index |
| SmbiosEntry.TableData | framework_lib/src/uefi/mod.rs:64-77 | the copied table is `table_length` bytes long |
| SmbiosEntry.SmbiosData | framework_lib/src/uefi/mod.rs:56-89 | None exactly when no configuration table is SMBIOS or SMBIOS3; otherwise a copy of the structure table of the first one |
| SmbiosEntry.FirstIsSmbios | framework_lib/src/uefi/mod.rs:80-85 | an SMBIOS table with none before it is the one `smbios_data` returns from |
| UefiFs.OpenModes | framework_lib/src/fw_uefi/fs.rs:16-18 | adding the three `FILE_MODE_*` flags, as both `shell_write_file`s do, neither overflows nor differs from or-ing them; the write mode still includes reading |
| UefiFs.Unit | framework_lib/src/uefi/fs.rs:13 | `c as u16` is the code point itself inside the Basic Multilingual Plane |
| UefiFs.Wide | framework_lib/src/uefi/fs.rs:9-18 | one code unit per char, in order, then a terminating 0 |
| UefiFs.Wstr | framework_lib/src/uefi/fs.rs:9-18 | the push loop builds exactly the NUL-terminated code units |
| UefiFs.Narrow | framework_lib/src/uefi/fs.rs:31-32 | reading a path back never yields more characters than code units |
| UefiFs.NarrowWide | framework_lib/src/uefi/fs.rs:9-18 | a path of Basic Multilingual Plane characters other than NUL reaches the shell unchanged |
| UefiFs.NarrowStopsAtNul | framework_lib/src/uefi/fs.rs:9-18 | a NUL inside the path cuts it short at the shell |
| UefiFs.WideTruncates | framework_lib/src/uefi/fs.rs:13 | characters outside the Basic Multilingual Plane collide with ones inside it |
| UefiFs.ShellWriteFile | framework_lib/src/uefi/fs.rs:62-133 | LOAD_ERROR without a shell or when the open fails (error or no handle); SUCCESS exactly when the shell is found, the open succeeds and write and close succeed |
| UefiFs.ShellReadFile | framework_lib/src/uefi/fs.rs:20-60 | None exactly when there is no shell or the open fails; a returned buffer is the file's contents |
| Touchscreen.SelectDevice | framework_lib/src/touchscreen.rs:20-49 | none exactly when no collection has ILI's vendor ID on usage page 0xFF00; otherwise the first such |
| Touchscreen.ProductIdIgnored | framework_lib/src/touchscreen.rs:36-38 | a product ID other than 0x5539 never changes which collection is chosen |
| Touchscreen.OpenDevice | framework_lib/src/touchscreen.rs:16-57 | None exactly when hidapi fails to start or nothing matches; otherwise the first matching collection, opened |
| Touchscreen.Report | framework_lib/src/touchscreen.rs:59-70 | the outgoing report is 64 bytes |
| Touchscreen.ReportFields | framework_lib/src/touchscreen.rs:59-70 | a device reads report ID 03h, A3h, the lengths, the message ID and the data back out of the report, and zeros after them |
| Touchscreen.BuildReport | framework_lib/src/touchscreen.rs:62-70 | filling the zeroed buffer gives the report, and overruns (panics) exactly when the data does not fit |
| Touchscreen.Reply | framework_lib/src/touchscreen.rs:88-98 | no reply for a zero length; otherwise exactly `read_len` bytes from offset 3 + data length, and a panic when they run past the 64 bytes |
| Touchscreen.Answer | framework_lib/src/touchscreen.rs:80-98 | None exactly when the send fails; otherwise the reply |
| Touchscreen.SendMessage | framework_lib/src/touchscreen.rs:59-99 | data too long to frame panics; otherwise the framed report is sent and the answer follows from the send's success and the bytes read back |
| Touchscreen.SendMessageWin | framework_lib/src/touchscreen_win.rs:53-100 | the same framing sent with length 65; no failure is checked, so it never gives None |
| Touchscreen.WinBuffer | framework_lib/src/touchscreen_win.rs:67-68 | the read buffer is 64 bytes, with the report ID in front if nothing is read |
| Touchscreen.WinReplySkipsReportId | framework_lib/src/touchscreen_win.rs:67-99 | when nothing is read the reply is zeros: the report ID byte is never part of it |
| Touchscreen.DottedIsJoin | framework_lib/src/touchscreen.rs:111-124 | the fold is the reply bytes' fields joined with '.' |
| Touchscreen.FieldParses | framework_lib/src/touchscreen.rs:114-124 | each `{:02X}` or decimal field is dot-free and parses back to its byte |
| Touchscreen.DottedRoundTrip | framework_lib/src/touchscreen.rs:111-124 | a version string such as "06.00.0A" or "1.2.3.4" splits into one field per reply byte, each parsing back to that byte |
| Touchscreen.CheckFwVersion | framework_lib/src/touchscreen.rs:108-132 | None exactly when one of the three replies is missing; otherwise the protocol and firmware versions and the USI and MPP bits of byte 15 |
| Touchscreen.BitMask | framework_lib/src/touchscreen.rs:8-9 | the two masks test bits 1 and 2 |
| Touchscreen.EnableTouchCommand | framework_lib/src/touchscreen.rs:134-137 | message 38h, no reply, data [!enable, 0]: the first byte is 0 exactly when touch is enabled |
| CliUefi.Cli.constructor | framework_lib/src/commandline/uefi.rs:55-85 | the initial `Cli`: nothing set, help only for an empty line, the port-I/O driver, which is the only one that works under UEFI |
| CliUefi.Classify | framework_lib/src/commandline/uefi.rs:89-203 | an argument classified as an option is one of that option's spellings |
| CliUefi.SpellingsEarly | framework_lib/src/commandline/uefi.rs:90-116 | "-v", "--versions", "-b", "--esrt", "--power", "--pdports" and "--allupdate" select their options |
| CliUefi.SpellingsMiddle | framework_lib/src/commandline/uefi.rs:108-147 | "--info", "--intrusion", "--inputmodules", "--kblight" and "--console" select their options |
| CliUefi.SpellingsLate | framework_lib/src/commandline/uefi.rs:148-167 | "-t", "--test", "-h", "--help", "--pd-info", "--privacy" and "--pd-bin" select their options |
| CliUefi.SpellingsLast | framework_lib/src/commandline/uefi.rs:168-203 | "--ec-bin", "--capsule", "--dump", "--ho2-capsule" and "--raw-command" select their options |
| CliUefi.ClassifyNames | framework_lib/src/commandline/uefi.rs:89-203 | an argument is classified as an option exactly when it is one of its spellings: no two options share one, so the chain's order does not matter |
| CliUefi.Kinds | framework_lib/src/commandline/uefi.rs:89 | the classification of every argument, in order |
| CliUefi.FoundSome | framework_lib/src/commandline/uefi.rs:87-203 | `found_an_option` is set exactly when some argument is an option other than `--raw-command` |
| CliUefi.LastAtSpec | framework_lib/src/commandline/uefi.rs:89-203 | the last occurrence of an option, or none exactly when it does not occur |
| CliUefi.KbLightAtSpec | framework_lib/src/commandline/uefi.rs:117-131 | `--kblight` last on the line gives Some(None); a next argument that is not a decimal u8 gives None; otherwise that number |
| CliUefi.KbLightDecimal | framework_lib/src/commandline/uefi.rs:117-131 | a decimal number after `--kblight` is read back when it fits in a u8 and rejected above 255 |
| CliUefi.ConsoleAt | framework_lib/src/commandline/uefi.rs:132-147 | Recent exactly when the next argument is "recent", Follow exactly when it is "follow" |
| CliUefi.PathAt | framework_lib/src/commandline/uefi.rs:160-199 | a path option takes the next argument, and None exactly at the end of the line |
| CliUefi.LastPathWins | framework_lib/src/commandline/uefi.rs:160-199 | of several occurrences of a path option the last one decides |
| CliUefi.FlagsAfterSeen | framework_lib/src/commandline/uefi.rs:83-203 | after the loop a flag is on exactly when it was on at the start or its option occurred |
| CliUefi.StoreFields | framework_lib/src/commandline/uefi.rs:117-202 | each value option stores into its own field only |
| CliUefi.StoreFlag | framework_lib/src/commandline/uefi.rs:90-159 | a flag option stores no value |
| CliUefi.PathAfter | framework_lib/src/commandline/uefi.rs:160-199 | each path field holds the value after its option's last occurrence |
| CliUefi.RawCommandAfter | framework_lib/src/commandline/uefi.rs:200-202 | `--raw-command` anywhere on the line takes every argument after the first |
| CliUefi.ValuesAfterScanned | framework_lib/src/commandline/uefi.rs:89-203 | after the loop every value option holds what its last occurrence stored |
| CliUefi.SetValue | framework_lib/src/commandline/uefi.rs:117-202 | the value branches change only the option's own field, as `Store` says |
| CliUefi.Apply | framework_lib/src/commandline/uefi.rs:89-203 | one loop step adds a flag option to the flags and stores a value option's value, and nothing else |
| CliUefi.LoneB | framework_lib/src/commandline/uefi.rs:205-208 | a single argument switches paging on exactly when it is "-b" |
| CliUefi.Scan | framework_lib/src/commandline/uefi.rs:83-203 | the loop leaves the flags of the options seen, each value from its option's last occurrence, and `found_an_option` as `FoundAnOption` |
| CliUefi.Parse | framework_lib/src/commandline/uefi.rs:54-219 | every flag other than help is on exactly when it occurs; help is on for an empty line, for "-h"/"--help", or for a lone "-b"; every value from its option's last occurrence; the port-I/O driver |
| Config.LoadConfig | framework_lib/src/config.rs:37-56 | no file gives no configuration; a file that does not parse, lacks the platform table or lists no address or no port panics; otherwise the first PD is entry 0 of both lists and the second entry 1, or the first again when either list has a single entry |
| Config.LoadConfigUsesListedValues | framework_lib/src/config.rs:44-55 | every address and port of the configured platform comes from the file's lists |
| Wmi.LoadBaseline | framework_lib/src/wmi.rs:27-48 | a non-empty baseline is the parsed file of a platform that has one; a platform's file that parses is used as it is; generic and unknown systems and files that do not parse get none |
| Wmi.BaselineFor | framework_lib/src/wmi.rs:161 | no platform means an empty baseline; otherwise the platform's baseline |
| Wmi.ExpectedShown | framework_lib/src/wmi.rs:263-273 | the expected version is shown exactly when the baseline lists the alias with something other than "0.0.0.0" that differs from the version found |
| Wmi.VersionLine | framework_lib/src/wmi.rs:263-273 | the printed line starts with the version found, and shows nothing more exactly when no expectation is shown |
| Wmi.NoBaselineNoMismatch | framework_lib/src/wmi.rs:157-161 | without a platform or a parsable baseline no version is ever flagged |
| Wmi.MatchingVersionNotFlagged | framework_lib/src/wmi.rs:265 | a version equal to its baseline entry is never flagged |
| Wmi.AnyVersionAcceptsAll | framework_lib/src/wmi.rs:265 | a "0.0.0.0" entry accepts every version |
| Wmi.Property | framework_lib/src/wmi.rs:292-340 | indexing a row returns exactly when the property is present, with its value, and panics otherwise |
| Wmi.DoubleBackslashes | framework_lib/src/wmi.rs:343-346 | doubling the backslashes never shortens the path |
| Wmi.UndoubleDouble | framework_lib/src/wmi.rs:343-346 | doubling is undone exactly, so different paths give different queries |
| Wmi.VersionQuery | framework_lib/src/wmi.rs:343-346 | the query asks CIM_Datafile for the version of the file with that name |
| Wmi.CollectTable | framework_lib/src/wmi.rs:291-357 | one loop over a table's rows gives `Rows` of them |
| Wmi.PanicStays | framework_lib/src/wmi.rs:291-357 | once a row panics the whole collection panics |
| Wmi.CollectDrivers | framework_lib/src/wmi.rs:281-361 | the PnP drivers, then the products, then the system drivers, as `CollectOf` |
| Wmi.NonStringRowSkipped | framework_lib/src/wmi.rs:292-322 | a PnP or product row whose name or version is not a string changes nothing |
| Wmi.OtherDriveSkipped | framework_lib/src/wmi.rs:340-342 | a system driver loaded from outside drive C: is skipped without querying its file |
| Wmi.MissingNamePanics | framework_lib/src/wmi.rs:292-333 | a row lacking the name property panics, whatever the table |
| Wmi.PnpRowRecords | framework_lib/src/wmi.rs:301-303 | a PnP row naming a known device records that device's alias with its version |
| Wmi.LaterRowWins | framework_lib/src/wmi.rs:301-357 | of two rows for the same alias the later one's version is kept |
| Wmi.StepRecordsAlias | framework_lib/src/wmi.rs:301-357 | a row only ever records an alias of its table |
| Wmi.RowsRecordAliases | framework_lib/src/wmi.rs:291-357 | after a table every detected driver was there before or is an alias of that table |
| Wmi.CollectedAreAliases | framework_lib/src/wmi.rs:281-361 | every collected driver is an alias listed in `drivers.toml` |
| Wmi.BeforeIrreflexive | framework_lib/src/wmi.rs:66 | no name sorts before itself |
| Wmi.BeforeTransitive | framework_lib/src/wmi.rs:66 | the key order is transitive |
| Wmi.BeforeTotal | framework_lib/src/wmi.rs:66 | of two different names one sorts before the other |
| Wmi.LeastExists | framework_lib/src/wmi.rs:66 | a non-empty set of names has a least one |
| Wmi.LeastUnique | framework_lib/src/wmi.rs:66 | the least name is unique |
| Wmi.SortedNames | framework_lib/src/wmi.rs:65-66 | the sorted list holds only names from the set |
| Wmi.SortedNamesSpec | framework_lib/src/wmi.rs:65-66 | every name once, strictly ascending |
| Wmi.SortedNamesFirst | framework_lib/src/wmi.rs:65-66 | the least name comes first, then the rest in order |
| Wmi.PickLeast | framework_lib/src/wmi.rs:65-66 | picks the least name, the one the sorted order puts first |
| Wmi.SortNames | framework_lib/src/wmi.rs:65-66 | `sort_by_key` gives the map's names in ascending order |
| Wmi.EntriesAppend | framework_lib/src/wmi.rs:68-70 | the lines of two name lists are the lines of each, in order |
| Wmi.ToToml | framework_lib/src/wmi.rs:58-72 | the header with the date, then one `"name" = "version"` line per detected driver in ascending name order |
| Wmi.AppendEntries | framework_lib/src/wmi.rs:68-70 | the loop appends one line per name, in the order given |
| Wmi.ToTomlListsEveryDriver | framework_lib/src/wmi.rs:58-72 | every detected driver has its line, with the names before it ahead of it and those after it behind it |

## Left out

- Port I/O, `ioperm`, the Linux and Windows ioctl transports, hidapi, Win32 `DeviceIoControl`/`ReadFile`, sysfs, the UEFI shell and boot services, WMI and COM are not modelled. Where the model covers their answers, those answers are parameters: a status sequence, a reply function, a directory listing, a shell file result, or a WMI row list. Shell calls whose results are not parameters are listed below.
- Printing and logging (`println!`, `debug!`, every `print_*` function) are not modelled, and neither are the `Display` impls that only print. The exceptions are the renderings whose text other code parses back: CCGx versions, GUIDs, the CSME version and the touchscreen version strings.
- Floating point is not modelled: the accelerometer's G conversion and the charge-rate printout.
- `lazy_static`/`Mutex` globals are single-threaded state. The `INITIALIZED` flag is the `initialized` field of `PortIo.Driver`.
- PortIo.WaitForReady: the source polls with no timeout. The model takes the finite sequence of status reads and returns None when every read is busy, where the source would keep polling.
- `debug_assert!`s, such as the response checksum, shell protocol version 2.2, and the CCGx application tag, are not checked. Neither is the overflow panic of a debug build. The model follows a release build, where `+=` on u8/u16 wraps.
- SmbiosEntry.ChecksumValidAsWritten: in a debug build `iter().sum::<u8>()` over the "_SM_" anchor (350) already overflows and panics. The model gives the release-build wrap.
- The SMBIOS 3.0 entry point is read only for its table address and length. Its anchor check is only logged in the source.
- The `fw_uefi` copies of `checksum_valid`, `smbios_data` and `wstr` are the same code as the `uefi` ones, so one model covers both.
- `shell_read_file` and `shell_write_file` of `fw_uefi` call the raw protocol and ignore its statuses. Only the `uefi` flavour's result handling is modelled (`UefiFs.ShellReadFile`, `UefiFs.ShellWriteFile`).
- Touchscreen.SendMessageWin: the Windows send length of 65 is recorded, but what the device does with the extra byte is not modelled.
- `PWM_MAX_DUTY`, `has_mec`, the CCG5/CCG6/CCG8 PD image lengths and `util::find_sequence` are referenced but not defined in the files read. The first three are parameters. `find_sequence` is taken to be a first-occurrence search (`Common.FindFrom`). `i2c_write_block` is a parameter of the battery's `Unseal`.
- `util::Platform` is not among the files read. `Config.Platform` defines the variants the modelled files use.
- Battery `dump_data` is a fixed script of I2C reads that are only printed. It is left out.
- The following Power functions are left out: `get_als_reading`, `get_accel_data`, `check_ac`, `get_pd_info`, `is_charging` and `print_sensors`/`print_thermal`. They are single memory-map reads or command wrappers whose decoders (`AccelDataOf`, `LidAngleOf`, `TempSensorOf`) are modelled.
- `get_args` (UEFI load options to strings) is left out. `CliUefi.Parse` takes the argument list.
- CliUefi.Cli.constructor: the 13 boolean switches of `Cli` are one `flags: set<Opt>` field. The field for a switch is true exactly when the switch is in the set.
- The TOML text of `framework_tool_config.toml`, `drivers.toml` and the platform baselines is a parameter, as is `toml::from_str`. Only what the code does with a parse result is modelled.
- Config.LoadConfig: the file lookup next to the executable, then in the working directory, is the `file` parameter.
- Wmi.ToToml: the date from `chrono::Local::now()` is a parameter. Names and versions are written without TOML escaping, as in the source. `sort_by_key` is modelled as repeatedly taking the least remaining name, which gives the same order because the keys of a map are distinct.
- Wmi.CollectDrivers: a failing COM or WMI connection (`unwrap`) is not modelled. The three row lists are parameters.
- Csme.CsmeFromSysfs: the model takes the directory listing with each entry's `dev_state` and `fw_ver` contents. The `?` error paths are not modelled: an unreadable directory, entry or file returns an `io::Error` in the source.
- EcBinary.ReadEcVersion: an image at least 0x1158 bytes long but shorter than the structure makes the source's `ptr::read` read past the slice, which is undefined behaviour. The requires excludes exactly that range.
- Esrt.GetEsrt: the source reads `resource_count` entries from a raw address (`from_raw_parts`). The requires says that the firmware table really holds that many.
- Sparsify.FindAll: with an empty needle the Python loop never ends. The requires excludes it, and every caller passes a non-empty marker.
- EcFacade.EraseEcFlash: offsets are u32 in the source. The requires keeps `offset + size + chunkSize` below 2^32, where a debug build would panic and a release build would wrap. The requires also asks for `chunkSize > 0`. The callers pass the EC-reported `erase_block_size` (`framework_lib/src/chromium_ec/mod.rs:762-767`, `791-796`), and the source does not check it. With 0 and a non-zero size, the loop at `mod.rs:889-907` never ends, in a dry run too: the cursor never advances. `EcFacade.ZeroChunkEraseNeverEnds` states this; see Findings.
- EcFacade.WriteEcFlashChunk: the source's `assert!(data.len() <= 0x80)` is the requires. Every call from `write_ec_flash` meets it.
- EcFacade.ReadEcFlash: the UEFI build checks `shell_get_execution_break_flag()` before each chunk and returns `Ok(vec![])` when it is set (`framework_lib/src/chromium_ec/mod.rs:940-946`). The model has no execution-break flag and reads every chunk. Otherwise it is kept as written. For a read longer than 0x80 bytes only `size / 0x80` whole chunks are read, so the last `size % 0x80` bytes are not.
- PortIoMec.MecEmi.TransferWrite: the unaligned first-word branch is dead because the write always starts at offset 0. The model keeps the aligned path.
- The nibble extractions `>> 4` and `& 0xF` are written as `/ 16` and `% 16`. Byte ranges are `seq<u8>` slices rather than reinterpreted packed structs.
- The regexes of `serialnum.rs` and `ec_binary.rs` are hand-written matchers for the leftmost match, with greedy repetition as in the `regex` crate. Other regex features are not modelled.
- SmbiosEntry.TableRange: `Smbios3` carries no `#[repr(C)]` (`framework_lib/src/uefi/mod.rs:43`, `framework_lib/src/fw_uefi/mod.rs:70`), so its field order is left to the compiler. The model assumes the declared order, which is the layout of section 5.2.2 of DMTF DSP0134: `table_length` at 0x0C and `table_address` at 0x10. If the compiler reorders the fields, the shipped build reads other bytes. That case is not modelled.
- `EcRequestPwmSetDuty`, `EcRequestPwmGetDuty`, `EcRequestFlashRead`, `EcRequestFlashWrite`, `EcRequestFlashErase`, `EcRequestAdcRead` and `EcRequestReadPdVersionV0`/`V1` are not defined in the files read, so their layouts are assumed from Chrome EC. The flash commands take little-endian `offset` and `size` u32s. The PWM commands take the PWM type and index, preceded by a u16 duty when setting. `AdcRead` takes a u8 channel and answers an i32. The V0 PD version reply is taken to be `_EcResponseReadPdVersion` (two 8-byte records), and the V1 request to use command version 1.
- I2cPassthrough.WriteReply: a reply shorter than the 2-byte response header is a panic in the model. The source first reads the header with `ptr::read` (`framework_lib/src/chromium_ec/i2c_passthrough.rs:161`), which is undefined behaviour on such a reply. It then calls `util::assert_win_len`, which is not part of this model. A longer reply is accepted as it is.
- CcgxDevice.ReadReply: `PdController::send_ec_command` (`framework_lib/src/ccgx/device.rs:117-119`) is declared to return `Option<Vec<u8>>` but returns the `EcResult` of `send_command`. As written it does not compile. The model reads it as `.ok()`: an EC error becomes None, which the callers already handle.
- Ccgx.GetPdControllerVersions: `get_pd_controller_versions` (`framework_lib/src/ccgx/mod.rs:95-98`) applies `?` to the `Option` from `get_fw_versions` inside a function returning `EcResult`. That does not compile as written. The model gives it an `Option` result: None when either controller does not answer.

## Findings

| source | as written | input that shows it | evidently intended | confidence | as-written member | corrected member |
|---|---|---|---|---|---|---|
| framework_lib/src/chromium_ec/portio_mec.rs:143 | the unaligned prefix reads lanes `offset % 4 .. min(4, size)`, then moves to the next word | address 1, size 2: the second byte comes from EC address 4 instead of 2. The one-byte read of the battery count at memory-map offset 0x4D (EC address 0x14D, `power.rs:482`) returns the byte at 0x150 | read lanes `offset % 4 .. min(4, offset % 4 + size)`, so the result is consecutive EC RAM | high, not executed | `PortIoMec.MecEmi.TransferReadAsWritten`, `PortIo.Driver.ReadMemory`, `PortIo.MecBatteryCountRead`, `PortIoMec.AsWrittenExampleTwoBytes`, `PortIoMec.AsWrittenExampleOneByte`, `PortIoMec.AsWrittenReadCorrectIff` | `PortIoMec.MecEmi.TransferRead`, `PortIoMec.CorrectedReadIsIntended` |
| framework_lib/src/capsule.rs:177 | `dump_winux_image` slices `data[header_len..image_size]`, where `image_size` is the capsule size minus the 44-byte header | a 100-byte display capsule whose header is valid for the file: bytes 44..56 are written, but the image is bytes 44..100 | `data[header_len..header_len + image_size]`, everything after the header | high, not executed | `Capsule.WinuxImageAsWritten`, `Capsule.WinuxImageAsWrittenShort` | `Capsule.WinuxImage`, `Capsule.WinuxImageIsRest` |
| framework_lib/src/serialnum.rs:102 | `part` is filled from capture 2, the OEM code | "FRALAPCP0041230001": `part` is "CP", the same as `oem` | `part` from capture 8, the four-character group its doc comment describes | high, not executed | `Serialnum.FromStrAsWritten`, `Serialnum.AsWrittenPartIsOem` | `Serialnum.FromStr`, `Serialnum.FromStrRender` |
| framework_lib/src/esrt/mod.rs:55-59 | `guid_from_str` indexes `sections[1]`..`sections[4]` without checking how many sections there are | "abc": the first field parses and `sections[1]` panics | None for text without five parsable fields, as the function's `Option` result promises | high, not executed | `Esrt.GuidFromStrAsWritten`, `Esrt.AsWrittenPanicsExactly`, `Esrt.AbcPanics` | `Esrt.GuidFromStr`, `Esrt.FromSections`, `Esrt.AsWrittenAgrees` |
| framework_lib/src/uefi/mod.rs:36 | `checksum_valid` adds `max_structure_size as u8`, only the low byte of the 16-bit field | an entry point with max_structure_size 0x100 whose checksum byte makes bytes 00h-0Fh add up to zero is reported invalid | add both bytes of the field, so the test is the DSP0134 checksum rule | high, not executed | `SmbiosEntry.ChecksumValidAsWritten`, `SmbiosEntry.AsWrittenRejectsValidEntry` | `SmbiosEntry.ChecksumValid`, `SmbiosEntry.ChecksumForUnique`, `SmbiosEntry.WholeEntryPointRule` |
| framework_lib/src/chromium_ec/mod.rs:1598 | the bound `offset + length > EC_MEMMAP_SIZE` is a u16 addition, which wraps in a release build | offset 0xFFFF, length 2: the sum wraps to 1 and the read reaches the driver | compare without wrap-around, so nothing past the memory map is read | medium, not executed | `EcFacade.ReadMemoryAsWritten`, `EcFacade.ReadMemoryBoundWraps` | `EcFacade.ReadMemory`, `EcFacade.ReadMemoryAgreesInRange` |
| framework_lib/src/chromium_ec/mod.rs:833-860 | `write_ec_flash` writes `data.len() / 0x80` chunks, although the loop computes a shorter last chunk ("might be smaller if it's the last") | 0x81 bytes of data: one 0x80-byte chunk is written and the last byte is not | `ceil(len / 0x80)` chunks, the last one partial | high, not executed | `EcFacade.WritePlanAsWritten`, `EcFacade.WriteDropsTail`, `EcFacade.WritePlanAgreesIff` | `EcFacade.WritePlan`, `EcFacade.WritePlanCovers`, `EcFacade.WriteEcFlash` |
| framework_lib/src/chromium_ec/mod.rs:889-907 | `erase_ec_flash` advances its cursor by `chunk_size`, which comes unchecked from the EC's `erase_block_size` | `chunk_size` 0 and a non-zero size: every pass asks to erase 0 bytes and the cursor never moves, so the loop never ends (in a dry run too) | refuse a zero chunk size, so that the loop always ends after covering [offset, offset + size) | medium, not executed | `EcFacade.EraseCursorAfter`, `EcFacade.ZeroChunkEraseNeverEnds` | `EcFacade.EraseEcFlash`, `EcFacade.EraseLoopEnds`, `EcFacade.EraseChunksCover` |
