/**
 * The port-I/O driver of the Chrome EC host-command protocol version 3:
 * request checksums and packing, the response validation of
 * `send_command`, the `init` state machine, the LPC transfers and
 * `read_memory`.  The LPC I/O space is a 64 KiB byte array, the MEC
 * memory interface is a `PortIoMec.MecEmi`, and the EC itself is a reply
 * function from the request packet to its status byte and response area.
 */
module PortIo {
  import opened Common
  import opened EcProtocol
  import opened EcResult
  import Text
  import PortIoMec

  // ---------------------------------------------------------------------
  // Checksums

  /** `checksum_fold`: the wrapping u8 sum of the bytes, folded from the left. */
  function ChecksumFold(numbers: seq<u8>): (r: u8)
    ensures r == Sum(numbers) % 0x100
  {
    if numbers == [] then 0
    else
      var init := numbers[..|numbers| - 1];
      ModSum(Sum(init), numbers[|numbers| - 1]);
      (ChecksumFold(init) + numbers[|numbers| - 1]) % 0x100
  }

  /** `u8::wrapping_neg`. */
  function WrappingNeg(x: u8): (r: u8)
    ensures (x + r) % 0x100 == 0
  {
    (0x100 - x) % 0x100
  }

  /** `checksum_buffer`: the byte that brings the sum of `buffer` to 0 modulo 256. */
  function ChecksumBuffer(buffer: seq<u8>): (r: u8)
    ensures (Sum(buffer) + r) % 0x100 == 0
  {
    WrappingNeg(ChecksumFold(buffer))
  }

  /** Only one byte completes a buffer to a zero sum, so a checksum check decides it. */
  lemma ChecksumUnique(buffer: seq<u8>, c: u8)
    ensures (Sum(buffer) + c) % 0x100 == 0 <==> c == ChecksumBuffer(buffer)
  {
    var s := Sum(buffer);
    Complement(s, c);
    Complement(s, ChecksumBuffer(buffer));
  }

  /** A byte completes `s` to a multiple of 256 exactly when it is `(256 - s % 256) % 256`. */
  lemma Complement(s: nat, c: u8)
    ensures (s + c) % 0x100 == 0 <==> c == (0x100 - s % 0x100) % 0x100
  {
    var q, k := s / 0x100, s % 0x100;
    if k + c < 0x100 {
      Mod256(s + c, q, k + c);
    } else {
      Mod256(s + c, q + 1, k + c - 0x100);
    }
    if k == 0 {
      Mod256(0x100, 1, 0);
    } else {
      Mod256(0x100 - k, 0, 0x100 - k);
    }
  }

  lemma Mod256(n: int, q: int, r: int)
    requires n == 0x100 * q + r && 0 <= r < 0x100
    ensures n % 0x100 == r
  {
  }

  /** Reducing the addends modulo 256 does not change their sum modulo 256. */
  lemma ModSum(a: nat, b: nat)
    ensures (a % 0x100 + b % 0x100) % 0x100 == (a + b) % 0x100
  {
    var qa, ra := a / 0x100, a % 0x100;
    var qb, rb := b / 0x100, b % 0x100;
    if ra + rb < 0x100 {
      Mod256(ra + rb, 0, ra + rb);
      Mod256(a + b, qa + qb, ra + rb);
    } else {
      Mod256(ra + rb, 1, ra + rb - 0x100);
      Mod256(a + b, qa + qb + 1, ra + rb - 0x100);
    }
  }

  /** Replacing one byte changes the sum by the difference. */
  lemma {:induction false} SumUpdate(e: seq<u8>, i: nat, c: u8)
    requires i < |e|
    ensures Sum(e[i := c]) + e[i] == Sum(e) + c
  {
    var n := |e| - 1;
    if i == n {
      assert e[i := c][..n] == e[..n];
    } else {
      assert e[i := c][..n] == e[..n][i := c];
      SumUpdate(e[..n], i, c);
    }
  }

  /** The wrapping sum of the per-buffer folds, as in `checksum_buffers`. */
  function FoldOfFolds(buffers: seq<seq<u8>>): (r: u8)
  {
    if buffers == [] then 0
    else (FoldOfFolds(buffers[..|buffers| - 1]) + ChecksumFold(buffers[|buffers| - 1])) % 0x100
  }

  /** `checksum_buffers`: the checksum of several buffers taken together. */
  function ChecksumBuffers(buffers: seq<seq<u8>>): (r: u8)
    ensures r == ChecksumBuffer(Concat(buffers))
  {
    FoldsAreConcatFold(buffers);
    WrappingNeg(FoldOfFolds(buffers))
  }

  /** The buffers laid end to end. */
  function Concat(buffers: seq<seq<u8>>): (r: seq<u8>)
  {
    if buffers == [] then [] else Concat(buffers[..|buffers| - 1]) + buffers[|buffers| - 1]
  }

  lemma {:induction false} FoldsAreConcatFold(buffers: seq<seq<u8>>)
    ensures FoldOfFolds(buffers) == ChecksumFold(Concat(buffers))
  {
    if buffers != [] {
      var init, last := buffers[..|buffers| - 1], buffers[|buffers| - 1];
      FoldsAreConcatFold(init);
      SumAppend(Concat(init), last);
      ModSum(Sum(Concat(init)), Sum(last));
    }
  }

  // ---------------------------------------------------------------------
  // Request packing

  /** Largest payload that fits after the header in a 0x100-byte packet. */
  const MAX_PAYLOAD: nat := EC_LPC_HOST_PACKET_SIZE as nat - HEADER_LEN

  /** The header `send_command` builds: version 3, zero checksum and reserved byte. */
  function CommandHeader(command: u16, commandVersion: u8, dataLen: u16): RequestHeader
  {
    RequestHeader(EC_HOST_REQUEST_VERSION, 0, command, commandVersion, 0, dataLen)
  }

  /**
   * What `pack_request` returns: the header with its checksum set to the
   * checksum of the header and the first `min(248, |data|)` bytes of data,
   * followed by those bytes.
   */
  function PackedRequest(request: RequestHeader, data: seq<u8>): (r: seq<u8>)
    ensures |r| == HEADER_LEN + Min(MAX_PAYLOAD, |data|)
  {
    var payload := data[..Min(MAX_PAYLOAD, |data|)];
    EncodeRequest(request.(checksum := ChecksumBuffer(EncodeRequest(request) + payload))) + payload
  }

  /** The request packet is the header (with the computed checksum) and the data cut to 248 bytes. */
  lemma PackedRequestFields(request: RequestHeader, data: seq<u8>)
    ensures var r := PackedRequest(request, data);
      var payload := data[..Min(MAX_PAYLOAD, |data|)];
      DecodeRequest(r) == request.(checksum := ChecksumBuffer(EncodeRequest(request) + payload)) &&
      r[HEADER_LEN..] == payload
  {
    var payload := data[..Min(MAX_PAYLOAD, |data|)];
    var h := request.(checksum := ChecksumBuffer(EncodeRequest(request) + payload));
    var r := PackedRequest(request, data);
    assert r[..HEADER_LEN] == EncodeRequest(h);
    DecodeEncodeRequest(h);
    assert DecodeRequest(r) == DecodeRequest(r[..HEADER_LEN]);
  }

  /** A packet built from a zero-checksum header sums to 0 modulo 256. */
  lemma PackedRequestSumsToZero(request: RequestHeader, data: seq<u8>)
    requires request.checksum == 0
    ensures Sum(PackedRequest(request, data)) % 0x100 == 0
  {
    var payload := data[..Min(MAX_PAYLOAD, |data|)];
    var e := EncodeRequest(request) + payload;
    var c := ChecksumBuffer(e);
    assert PackedRequest(request, data) == e[1 := c];
    SumUpdate(e, 1, c);
  }

  /**
   * A payload longer than 248 bytes is cut off in the request packet while the
   * header built by `send_command` still announces the full length.
   */
  lemma LongPayloadTruncated(command: u16, commandVersion: u8, data: seq<u8>)
    requires MAX_PAYLOAD < |data| <= 0xFFFF
    ensures var r := PackedRequest(CommandHeader(command, commandVersion, |data|), data);
      |r| == EC_LPC_HOST_PACKET_SIZE as nat && DecodeRequest(r).dataLen == |data| &&
      r[HEADER_LEN..] == data[..MAX_PAYLOAD]
  {
    PackedRequestFields(CommandHeader(command, commandVersion, |data|), data);
  }

  /** `copy_from_slice` of `src` into `buffer[at ..]`. */
  method CopyFromSlice(buffer: array<u8>, at: nat, src: seq<u8>)
    requires at + |src| <= buffer.Length
    modifies buffer
    ensures buffer[..] == old(buffer[..])[..at] + src + old(buffer[..])[at + |src|..]
  {
    forall i | at <= i < at + |src| {
      buffer[i] := src[i - at];
    }
    assert buffer[..] == old(buffer[..])[..at] + src + old(buffer[..])[at + |src|..];
  }

  /** `pack_request`: fills a zeroed 0x100-byte buffer, checksums it, and rewrites the header. */
  method PackRequest(request: RequestHeader, data: seq<u8>) returns (packet: seq<u8>)
    ensures packet == PackedRequest(request, data)
  {
    var total := EC_LPC_HOST_PACKET_SIZE as nat;
    var offset := HEADER_LEN;
    var buffer := new u8[total](_ => 0);
    var maxTransfer := Min(total - offset, |data|);
    var checksumSize := offset + maxTransfer;

    CopyFromSlice(buffer, 0, EncodeRequest(request));
    if |data| > 0 {
      CopyFromSlice(buffer, offset, data[..maxTransfer]);
    }
    assert buffer[..checksumSize] == EncodeRequest(request) + data[..maxTransfer];
    var checksum := ChecksumBuffer(buffer[..checksumSize]);

    var request' := request.(checksum := checksum);
    CopyFromSlice(buffer, 0, EncodeRequest(request'));
    if |data| > 0 {
      CopyFromSlice(buffer, offset, data[..maxTransfer]);
    }
    packet := buffer[..checksumSize];
  }

  // ---------------------------------------------------------------------
  // Response validation

  /** `format!("{:#X}", n)`. */
  function HexAlt(n: nat): (r: string)
    ensures |r| >= 3 && r[..2] == "0x"
  {
    "0x" + Text.FormatRadix(n, 16, true)
  }

  /** The panic of `assert_eq!` on the header's result code. */
  const RESULT_PANIC := "assertion `left == right` failed"

  /** Bytes the host may read back after a command: the 8-byte header and up to 0x100 bytes of data. */
  const RESPONSE_AREA: nat := HEADER_LEN + EC_LPC_HOST_PACKET_SIZE as nat

  /**
   * What `send_command` makes of the status byte read from port 0x200 and
   * the response area the EC filled at the host-argument window.
   */
  function ResponseOutcome(status: u8, area: seq<u8>): (r: Outcome<Result<seq<u8>, EcError>>)
    requires |area| == RESPONSE_AREA
  {
    match FromCode(status)
    case None => Returns(Err(UnknownResponseCode(status)))
    case Some(s) =>
      if s != Success then Returns(Err(Response(s)))
      else
        var header := DecodeResponse(area[..HEADER_LEN]);
        if FromCode(header.result) != Some(Success) then Panics(RESULT_PANIC)
        else if header.structVersion != EC_HOST_RESPONSE_VERSION then
          Returns(Err(DeviceError("Struct version invalid. Should be " + HexAlt(EC_HOST_RESPONSE_VERSION as nat) +
                                  ", is " + HexAlt(header.structVersion))))
        else if header.reserved != 0 then
          Returns(Err(DeviceError("Reserved invalid. Should be 0, is " + HexAlt(header.reserved))))
        else if header.dataLen > EC_LPC_HOST_PACKET_SIZE then
          Returns(Err(DeviceError("Packet size too big")))
        else if header.dataLen > 0 then
          Returns(Ok(area[HEADER_LEN..HEADER_LEN + header.dataLen]))
        else
          Returns(Ok([]))
  }

  /** The status byte decides first: any status but Success is an error whatever the area holds. */
  lemma StatusDecidesFirst(status: u8, area: seq<u8>)
    requires |area| == RESPONSE_AREA
    ensures FromCode(status).None? ==> ResponseOutcome(status, area) == Returns(Err(UnknownResponseCode(status)))
    ensures FromCode(status).Some? && status != 0 ==>
      ResponseOutcome(status, area) == Returns(Err(Response(FromCode(status).value)))
  {
    if FromCode(status).Some? {
      FromCodeInverse(FromCode(status).value, status);
    }
  }

  /**
   * A command succeeds exactly when status and header result are 0, the
   * header is version 3 with zero reserved bytes and a length of at most
   * 0x100; the body is then the `dataLen` bytes after the header.
   */
  lemma ResponseAccepted(status: u8, area: seq<u8>, body: seq<u8>)
    requires |area| == RESPONSE_AREA
    ensures var h := DecodeResponse(area[..HEADER_LEN]);
      ResponseOutcome(status, area) == Returns(Ok(body)) <==>
        status == 0 && h.result == 0 && h.structVersion == 3 && h.reserved == 0 &&
        h.dataLen <= 0x100 && body == area[HEADER_LEN..HEADER_LEN + h.dataLen]
  {
    var h := DecodeResponse(area[..HEADER_LEN]);
    if FromCode(status).Some? {
      FromCodeInverse(FromCode(status).value, status);
    }
    if FromCode(h.result).Some? {
      FromCodeInverse(FromCode(h.result).value, h.result);
    }
    if h.dataLen == 0 {
      assert area[HEADER_LEN..HEADER_LEN + h.dataLen] == [];
    }
  }

  /** A malformed header is a DeviceError, never a panic, once status and result are 0. */
  lemma BadHeaderIsDeviceError(area: seq<u8>)
    requires |area| == RESPONSE_AREA
    ensures var h := DecodeResponse(area[..HEADER_LEN]);
      h.result == 0 && (h.structVersion != 3 || h.reserved != 0 || h.dataLen > 0x100) ==>
        ResponseOutcome(0, area).Returns? && ResponseOutcome(0, area).value.Err? &&
        ResponseOutcome(0, area).value.error.DeviceError?
  {
  }

  /** The response checksum byte is never checked: changing it changes nothing. */
  lemma ChecksumIgnored(status: u8, area: seq<u8>, c: u8)
    requires |area| == RESPONSE_AREA
    ensures ResponseOutcome(status, area[1 := c]) == ResponseOutcome(status, area)
  {
    var area' := area[1 := c];
    assert area'[HEADER_LEN..] == area[HEADER_LEN..];
    assert DecodeResponse(area'[..HEADER_LEN]) ==
      DecodeResponse(area[..HEADER_LEN]).(checksum := c);
  }

  // ---------------------------------------------------------------------
  // Initialisation

  /** The `INITIALIZED` state of the Linux port-I/O driver. */
  datatype Initialized = NotYet | Succeeded | Failed

  /**
   * What the driver learns from its host: whether it runs as the Linux
   * user-space driver (`linux_pio`), whether the effective user is root,
   * whether the EC is a MEC, and what `ioperm(from, num, 1)` returns.
   */
  datatype Host = Host(linuxPio: bool, root: bool, hasMec: bool, ioperm: (nat, nat) -> int)

  /** The panic of an `assert_eq!(res, 0)` on an `ioperm` result. */
  const IOPERM_PANIC := "assertion `left == right` failed"

  /** The result of `init` and the state it leaves behind. */
  datatype InitStep = InitStep(result: Outcome<bool>, next: Initialized)

  /** `portio_mec::init`: its boolean result is discarded by the caller, only its panic matters. */
  function MecInit(host: Host): (r: Outcome<bool>)
  {
    if host.ioperm(EC_LPC_ADDR_HOST_DATA as nat, 8) != 0 then Returns(false)
    else if host.ioperm(PortIoMec.MEC_LPC_ADDRESS_REGISTER0 as nat, 10) != 0 then Panics(IOPERM_PANIC)
    else Returns(true)
  }

  /** `init` as a transition: what it returns and the `INITIALIZED` state it leaves. */
  function InitTransition(state: Initialized, host: Host): (r: InitStep)
  {
    if !host.linuxPio then InitStep(Returns(true), state)
    else if state == Failed then InitStep(Returns(false), state)
    else if state == Succeeded then InitStep(Returns(true), state)
    else if !host.root then InitStep(Returns(false), Failed)
    else if host.hasMec then
      if MecInit(host).Panics? then InitStep(Panics(MecInit(host).reason), state)
      else InitStep(Returns(true), Succeeded)
    else if host.ioperm(EC_LPC_ADDR_HOST_ARGS as nat, 8 + 0xFF) != 0 then InitStep(Returns(false), state)
    else if host.ioperm(EC_LPC_ADDR_HOST_CMD as nat, 1) != 0
         || host.ioperm(EC_LPC_ADDR_HOST_DATA as nat, 1) != 0
         || host.ioperm(NPC_MEMMAP_OFFSET as nat, 0xFF * 2) != 0 then InitStep(Panics(IOPERM_PANIC), state)
    else InitStep(Returns(true), Succeeded)
  }

  /** `Failed` is sticky and `Succeeded` is cached: neither is ever left, and both answer without probing. */
  lemma InitSettled(state: Initialized, host: Host)
    requires host.linuxPio && state != NotYet
    ensures InitTransition(state, host) == InitStep(Returns(state == Succeeded), state)
  {
  }

  /** A non-root user fails for good. */
  lemma InitNonRoot(host: Host)
    requires host.linuxPio && !host.root
    ensures InitTransition(NotYet, host) == InitStep(Returns(false), Failed)
    ensures InitTransition(InitTransition(NotYet, host).next, host) == InitStep(Returns(false), Failed)
  {
  }

  /** A refused `ioperm` on the argument window returns false but stays `NotYet`, so the next call probes again. */
  lemma InitRetries(host: Host)
    requires host.linuxPio && host.root && !host.hasMec
    requires host.ioperm(EC_LPC_ADDR_HOST_ARGS as nat, 8 + 0xFF) != 0
    ensures InitTransition(NotYet, host) == InitStep(Returns(false), NotYet)
  {
  }

  /** `init` reports success exactly when it leaves (or finds) the driver usable. */
  lemma InitTrueMeansUsable(state: Initialized, host: Host)
    ensures InitTransition(state, host).result == Returns(true) <==>
      (!host.linuxPio || InitTransition(state, host).next == Succeeded)
  {
  }

  /** Once `init` has answered true it keeps answering true. */
  lemma InitIdempotent(state: Initialized, host: Host)
    requires InitTransition(state, host).result == Returns(true)
    ensures InitTransition(InitTransition(state, host).next, host) == InitTransition(state, host)
  {
  }

  // ---------------------------------------------------------------------
  // Waiting for the EC

  /** Index of the first status byte without a busy bit, if any. */
  function FirstReady(statuses: seq<u8>): (r: Option<nat>)
    ensures r.Some? ==> r.value < |statuses| && !IsBusy(statuses[r.value]) &&
                        (forall k :: 0 <= k < r.value ==> IsBusy(statuses[k]))
    ensures r.None? ==> forall k :: 0 <= k < |statuses| ==> IsBusy(statuses[k])
  {
    if statuses == [] then None
    else if !IsBusy(statuses[0]) then Some(0)
    else match FirstReady(statuses[1..])
      case None => None
      case Some(k) => Some(k + 1)
  }

  /**
   * `wait_for_ready`: polls the command port until no busy bit is set.
   * The successive status reads are `statuses`; the result is the number of
   * the read that found the EC ready, or `None` when every read was busy and
   * the driver would go on polling.
   */
  method WaitForReady(statuses: seq<u8>) returns (r: Option<nat>)
    ensures r == FirstReady(statuses)
  {
    var k := 0;
    while k < |statuses|
      invariant k <= |statuses|
      invariant forall j :: 0 <= j < k ==> IsBusy(statuses[j])
    {
      if !IsBusy(statuses[k]) {
        FirstReadyIs(statuses, k);
        return Some(k);
      }
      k := k + 1;
    }
    FirstReadyNone(statuses);
    return None;
  }

  lemma {:induction false} FirstReadyIs(statuses: seq<u8>, k: nat)
    requires k < |statuses| && !IsBusy(statuses[k])
    requires forall j :: 0 <= j < k ==> IsBusy(statuses[j])
    ensures FirstReady(statuses) == Some(k)
  {
    if k > 0 {
      FirstReadyIs(statuses[1..], k - 1);
    }
  }

  lemma {:induction false} FirstReadyNone(statuses: seq<u8>)
    requires forall j :: 0 <= j < |statuses| ==> IsBusy(statuses[j])
    ensures FirstReady(statuses) == None
  {
    if statuses != [] {
      FirstReadyNone(statuses[1..]);
    }
  }

  // ---------------------------------------------------------------------
  // LPC transfers

  /** Size of the I/O port space. */
  const PORTS: nat := 0x1_0000

  /** Ports after writing `buffer[i]` to port `base + i` (as u16 arithmetic) in order. */
  function WritePorts(ports: seq<u8>, base: u16, buffer: seq<u8>): (r: seq<u8>)
    requires |ports| == PORTS
    ensures |r| == PORTS
  {
    if buffer == [] then ports
    else WritePorts(ports, base, buffer[..|buffer| - 1])[(base + |buffer| - 1) % PORTS := buffer[|buffer| - 1]]
  }

  /** Truncating the index to u16 before a wrapping add changes nothing. */
  lemma TruncatedIndex(base: u16, i: nat)
    ensures (base + i % 0x1_0000) % PORTS == (base + i) % PORTS
  {
    var q := i / 0x1_0000;
    var r := (base + i % 0x1_0000) % PORTS;
    ModOf(base + i, q + (base + i % 0x1_0000) / PORTS, r);
  }

  lemma WritePortsStep(ports: seq<u8>, base: u16, buffer: seq<u8>, i: nat)
    requires |ports| == PORTS && i < |buffer|
    ensures WritePorts(ports, base, buffer[..i + 1]) == WritePorts(ports, base, buffer[..i])[(base + i) % PORTS := buffer[i]]
  {
    assert buffer[..i + 1][..i] == buffer[..i];
  }

  /** A write of at most 64 KiB puts byte `i` at port `base + i` and leaves the other ports alone. */
  lemma {:induction false} WritePortsContents(ports: seq<u8>, base: u16, buffer: seq<u8>, p: nat)
    requires |ports| == PORTS && |buffer| <= PORTS && p < PORTS
    ensures var i := (p - base) % PORTS;
      WritePorts(ports, base, buffer)[p] == if i < |buffer| then buffer[i] else ports[p]
  {
    if buffer != [] {
      var n := |buffer| - 1;
      WritePortsContents(ports, base, buffer[..n], p);
      var i := (p - base) % PORTS;
      if p == (base + n) % PORTS {
        assert i == n by { ModShift(p, base, n); }
      } else {
        assert i != n by {
          if i == n { ModShiftBack(p, base, n); }
        }
      }
    }
  }

  lemma ModShift(p: int, base: int, n: int)
    requires 0 <= n < PORTS && 0 <= base && p == (base + n) % PORTS
    ensures (p - base) % PORTS == n
  {
    var q := (base + n) / PORTS;
    assert p - base == n - PORTS * q;
    ModOf(p - base, -q, n);
  }

  lemma ModShiftBack(p: int, base: int, n: int)
    requires 0 <= n < PORTS && 0 <= base && 0 <= p < PORTS && (p - base) % PORTS == n
    ensures p == (base + n) % PORTS
  {
    var q := (p - base) / PORTS;
    assert base + n == p - PORTS * q;
    ModOf(base + n, -q, p);
  }

  lemma ModOf(n: int, q: int, r: int)
    requires n == PORTS * q + r && 0 <= r < PORTS
    ensures n % PORTS == r
  {
  }

  /** Bytes read from ports `port + address + i` (as u16 arithmetic). */
  function ReadPorts(ports: seq<u8>, port: u16, address: u16, size: u16): (r: seq<u8>)
    requires |ports| == PORTS
    ensures |r| == size
    ensures forall i :: 0 <= i < size ==> r[i] == ports[(port + address + i) % PORTS]
  {
    seq(size, i requires 0 <= i < size => ports[(port + address + i) % PORTS])
  }

  /** Reading back a written window returns what was written. */
  lemma ReadBackWritten(ports: seq<u8>, base: u16, buffer: seq<u8>)
    requires |ports| == PORTS && |buffer| < PORTS
    ensures ReadPorts(WritePorts(ports, base, buffer), base, 0, |buffer|) == buffer
  {
    var w := WritePorts(ports, base, buffer);
    forall i | 0 <= i < |buffer|
      ensures w[(base + i) % PORTS] == buffer[i]
    {
      WritePortsContents(ports, base, buffer, (base + i) % PORTS);
      ModShift((base + i) % PORTS, base, i);
    }
  }

  // ---------------------------------------------------------------------
  // The driver

  /** What the EC does with a request packet: the status byte it leaves at port 0x200 and its response area. */
  datatype EcReply = EcReply(status: u8, area: Area)

  /** The response area: header and data as the host can read them back. */
  type Area = a: seq<u8> | |a| == RESPONSE_AREA witness seq(RESPONSE_AREA, _ => 0)

  /** The panic of `data.len().try_into().unwrap()` for data longer than 0xFFFF bytes. */
  const LENGTH_PANIC := PortIoMec.SIZE_PANIC

  /** What `send_command` returns, given what `init` returned and how the EC replies. */
  function CommandOutcome(init: Outcome<bool>, command: u16, commandVersion: u8, data: seq<u8>,
                          ec: seq<u8> -> EcReply): Outcome<Result<seq<u8>, EcError>>
  {
    if init.Panics? then Panics(init.reason)
    else if !init.value then Returns(Err(DeviceError("Failed to initialize")))
    else if |data| > 0xFFFF then Panics(LENGTH_PANIC)
    else
      var reply := ec(PackedRequest(CommandHeader(command, commandVersion, |data|), data));
      ResponseOutcome(reply.status, reply.area)
  }

  /** The port-I/O driver: its `INITIALIZED` state, the LPC port space and, on MEC systems, the EMI. */
  class Driver {
    var initialized: Initialized
    var ports: seq<u8>
    const host: Host
    const mec: PortIoMec.MecEmi
    /** The request packets handed to the EC, one per command byte written to port 0x204. */
    ghost var requests: seq<seq<u8>>

    predicate Valid()
      reads this, mec
    {
      |ports| == PORTS && mec.Valid()
    }

    constructor (host: Host, ports: seq<u8>, mec: PortIoMec.MecEmi)
      requires |ports| == PORTS && mec.Valid()
      ensures Valid() && this.host == host && this.ports == ports && this.mec == mec
      ensures initialized == NotYet && requests == []
    {
      this.host := host;
      this.ports := ports;
      this.mec := mec;
      initialized := NotYet;
      requests := [];
    }

    /** `init`. */
    method Init() returns (r: Outcome<bool>)
      modifies this
      ensures r == InitTransition(old(initialized), host).result && initialized == InitTransition(old(initialized), host).next
      ensures ports == old(ports) && requests == old(requests)
    {
      if !host.linuxPio {
        return Returns(true);
      }
      match initialized
      case Failed => return Returns(false);
      case Succeeded => return Returns(true);
      case NotYet =>
      if !host.root {
        initialized := Failed;
        return Returns(false);
      }
      if host.hasMec {
        var m := MecInit(host);
        if m.Panics? {
          return Panics(m.reason);
        }
      } else {
        if host.ioperm(EC_LPC_ADDR_HOST_ARGS as nat, 8 + 0xFF) != 0 {
          return Returns(false);
        }
        if host.ioperm(EC_LPC_ADDR_HOST_CMD as nat, 1) != 0
           || host.ioperm(EC_LPC_ADDR_HOST_DATA as nat, 1) != 0
           || host.ioperm(NPC_MEMMAP_OFFSET as nat, 0xFF * 2) != 0 {
          return Panics(IOPERM_PANIC);
        }
      }
      initialized := Succeeded;
      return Returns(true);
    }

    /** The LPC branch of `transfer_write`: byte `i` to port `0x800 + i`. */
    method LpcTransferWrite(buffer: seq<u8>)
      requires |ports| == PORTS
      modifies this
      ensures ports == WritePorts(old(ports), EC_LPC_ADDR_HOST_ARGS, buffer)
      ensures initialized == old(initialized) && requests == old(requests)
    {
      var i := 0;
      while i < |buffer|
        invariant i <= |buffer| && |ports| == PORTS && initialized == old(initialized) && requests == old(requests)
        invariant ports == WritePorts(old(ports), EC_LPC_ADDR_HOST_ARGS, buffer[..i])
      {
        // `EC_LPC_ADDR_HOST_ARGS + i as u16`, both steps wrapping
        var port := (EC_LPC_ADDR_HOST_ARGS as int + i % 0x1_0000) % PORTS;
        TruncatedIndex(EC_LPC_ADDR_HOST_ARGS, i);
        WritePortsStep(old(ports), EC_LPC_ADDR_HOST_ARGS, buffer, i);
        ports := ports[port := buffer[i]];
        i := i + 1;
      }
      assert buffer[..i] == buffer;
    }

    /** The LPC branch of `transfer_read`: byte `i` from port `port + address + i`. */
    method LpcTransferRead(port: u16, address: u16, size: u16) returns (buffer: seq<u8>)
      requires |ports| == PORTS
      ensures buffer == ReadPorts(ports, port, address, size)
    {
      var buf := new u8[size](_ => 0);
      var i := 0;
      while i < size
        invariant i <= size
        invariant forall j :: 0 <= j < i ==> buf[j] == ports[(port + address + j) % PORTS]
      {
        buf[i] := ports[((port as int + address) % PORTS + i) % PORTS];
        assert ((port as int + address) % PORTS + i) % PORTS == (port + address + i) % PORTS by {
          var q := (port as int + address) / PORTS;
          ModOf(port + address + i, q + ((port as int + address) % PORTS + i) / PORTS,
                ((port as int + address) % PORTS + i) % PORTS);
        }
        i := i + 1;
      }
      buffer := buf[..];
    }

    /** `transfer_write`: through the EMI on MEC systems, to the LPC window otherwise. */
    method TransferWrite(buffer: seq<u8>) returns (r: Outcome<()>)
      requires Valid()
      modifies this, mec
      ensures Valid() && initialized == old(initialized) && requests == old(requests)
      ensures host.hasMec ==> ports == old(ports)
      ensures host.hasMec && |buffer| > 0xFFFF ==> r.Panics? && mec.ram == old(mec.ram)
      ensures host.hasMec && |buffer| <= 0xFFFF ==> r == Returns(()) && mec.ram == buffer + old(mec.ram)[|buffer|..]
      ensures !host.hasMec ==> r == Returns(()) && mec.ram == old(mec.ram)
      ensures !host.hasMec ==> ports == WritePorts(old(ports), EC_LPC_ADDR_HOST_ARGS, buffer)
    {
      if host.hasMec {
        r := mec.TransferWrite(buffer);
      } else {
        LpcTransferWrite(buffer);
        r := Returns(());
      }
    }

    /**
     * `transfer_read`: through the EMI at `address` on MEC systems (the port
     * is unused there), from ports otherwise.  The EMI read is
     * `portio_mec::transfer_read` as it ships, so a short unaligned read
     * returns `AsWrittenRead`, not consecutive EC RAM.
     */
    method TransferRead(port: u16, address: u16, size: u16) returns (buffer: seq<u8>)
      requires Valid()
      modifies mec
      ensures Valid() && mec.ram == old(mec.ram)
      ensures host.hasMec ==> buffer == PortIoMec.AsWrittenRead(mec.ram, address, size)
      ensures !host.hasMec ==> buffer == ReadPorts(ports, port, address, size)
    {
      if host.hasMec {
        buffer := mec.TransferReadAsWritten(address, size);
      } else {
        buffer := LpcTransferRead(port, address, size);
      }
    }

    /** The host-argument window as the host reads it back: EC RAM from 0 on MEC systems, ports from 0x800 otherwise. */
    function ResponseWindow(): (w: seq<u8>)
      reads this, mec
      requires Valid()
      ensures |w| == RESPONSE_AREA
    {
      if host.hasMec then mec.ram[..RESPONSE_AREA]
      else ReadPorts(ports, EC_LPC_ADDR_HOST_ARGS, 0, RESPONSE_AREA as u16)
    }

    /**
     * The EC's side of a command, which the driver only observes: it leaves
     * its status byte at port 0x200 and its response area at the host
     * arguments (EC RAM from 0 on MEC systems, ports from 0x800 otherwise).
     */
    method EcAnswers(reply: EcReply)
      requires Valid()
      modifies this, mec
      ensures Valid() && ResponseWindow() == reply.area && ports[EC_LPC_ADDR_HOST_DATA] == reply.status
      ensures initialized == old(initialized) && requests == old(requests)
    {
      ports := ports[EC_LPC_ADDR_HOST_DATA := reply.status];
      if host.hasMec {
        mec.ram := reply.area + mec.ram[RESPONSE_AREA..];
        assert mec.ram[..RESPONSE_AREA] == reply.area;
      } else {
        ghost var before := ports;
        ports := WritePorts(ports, EC_LPC_ADDR_HOST_ARGS, reply.area);
        ReadBackWritten(before, EC_LPC_ADDR_HOST_ARGS, reply.area);
        WritePortsContents(before, EC_LPC_ADDR_HOST_ARGS, reply.area, EC_LPC_ADDR_HOST_DATA as nat);
        assert (EC_LPC_ADDR_HOST_DATA - EC_LPC_ADDR_HOST_ARGS) % PORTS == 0xFA00;
      }
    }

    /**
     * A `transfer_read` of the host arguments returns the matching slice of
     * the response area: always through the LPC ports, and through the EMI
     * when the offset is word-aligned, as the reads at 0 and 8 are.
     */
    lemma WindowSlice(address: u16, size: u16)
      requires Valid() && address + size <= RESPONSE_AREA
      ensures host.hasMec && address % 4 == 0 ==>
        PortIoMec.AsWrittenRead(mec.ram, address, size) == ResponseWindow()[address..address + size]
      ensures !host.hasMec ==> ReadPorts(ports, EC_LPC_ADDR_HOST_ARGS, address, size) == ResponseWindow()[address..address + size]
    {
      if host.hasMec && address % 4 == 0 {
        PortIoMec.AlignedReadAsWritten(mec.ram, address, size);
      }
    }

    /**
     * `send_command`: packs the request, writes it and the protocol-3
     * command byte, then checks the status byte and the response header and
     * reads the body.  The busy-waits before the write and before the status
     * read only wait; they are not modelled.
     */
    method SendCommand(command: u16, commandVersion: u8, data: seq<u8>, ec: seq<u8> -> EcReply)
      returns (r: Outcome<Result<seq<u8>, EcError>>)
      requires Valid()
      modifies this, mec
      ensures Valid()
      ensures initialized == InitTransition(old(initialized), host).next
      ensures r == CommandOutcome(InitTransition(old(initialized), host).result, command, commandVersion, data, ec)
      ensures InitTransition(old(initialized), host).result == Returns(true) && |data| <= 0xFFFF ==>
        requests == old(requests) + [PackedRequest(CommandHeader(command, commandVersion, |data|), data)]
      ensures InitTransition(old(initialized), host).result != Returns(true) || |data| > 0xFFFF ==>
        requests == old(requests)
    {
      var ok := Init();
      if ok.Panics? {
        return Panics(ok.reason);
      }
      if !ok.value {
        return Returns(Err(DeviceError("Failed to initialize")));
      }
      if |data| > 0xFFFF {
        return Panics(LENGTH_PANIC);
      }
      var request := CommandHeader(command, commandVersion, |data|);
      var requestBuffer := PackRequest(request, data);

      var written := TransferWrite(requestBuffer);
      ports := ports[EC_LPC_ADDR_HOST_CMD := EC_COMMAND_PROTOCOL_3];
      requests := requests + [requestBuffer];
      var reply := ec(requestBuffer);
      EcAnswers(reply);

      r := ReceiveResponse();
    }

    /**
     * The second half of `send_command`: checks the status byte, reads and
     * checks the response header, then reads the body from the host arguments.
     */
    method ReceiveResponse() returns (r: Outcome<Result<seq<u8>, EcError>>)
      requires Valid()
      modifies mec
      ensures Valid() && mec.ram == old(mec.ram)
      ensures r == ResponseOutcome(ports[EC_LPC_ADDR_HOST_DATA], old(ResponseWindow()))
    {
      var res := ports[EC_LPC_ADDR_HOST_DATA];
      match FromCode(res) {
        case None =>
          return Returns(Err(UnknownResponseCode(res)));
        case Some(status) =>
          if status != Success {
            return Returns(Err(Response(status)));
          }
      }

      WindowSlice(0, HEADER_LEN as u16);
      var respHdrBuffer := TransferRead(EC_LPC_ADDR_HOST_ARGS, 0, HEADER_LEN as u16);
      var respHeader := DecodeResponse(respHdrBuffer);
      if FromCode(respHeader.result) != Some(Success) {
        return Panics(RESULT_PANIC);
      }
      if respHeader.structVersion != EC_HOST_RESPONSE_VERSION {
        return Returns(Err(DeviceError("Struct version invalid. Should be " + HexAlt(EC_HOST_RESPONSE_VERSION as nat) +
                                       ", is " + HexAlt(respHeader.structVersion))));
      }
      if respHeader.reserved != 0 {
        return Returns(Err(DeviceError("Reserved invalid. Should be 0, is " + HexAlt(respHeader.reserved))));
      }
      if respHeader.dataLen > EC_LPC_HOST_PACKET_SIZE {
        return Returns(Err(DeviceError("Packet size too big")));
      }
      var respBuffer: seq<u8>;
      if respHeader.dataLen > 0 {
        WindowSlice(HEADER_LEN as u16, respHeader.dataLen);
        respBuffer := TransferRead(EC_LPC_ADDR_HOST_ARGS, HEADER_LEN as u16, respHeader.dataLen);
        // Only debug builds assert that this is 0
        var checksum := ChecksumBuffers([respHdrBuffer, respBuffer]);
      } else {
        respBuffer := [];
      }
      return Returns(Ok(respBuffer));
    }

    /**
     * `read_memory`: `length` bytes of the EC's memory map, at EC address
     * 0x100 + offset on MEC systems and at port 0xE00 + offset otherwise.
     */
    method ReadMemory(offset: u16, length: u16) returns (r: Outcome<Result<seq<u8>, EcError>>)
      requires Valid()
      modifies this, mec
      ensures Valid() && ports == old(ports) && mec.ram == old(mec.ram) && requests == old(requests)
      ensures initialized == InitTransition(old(initialized), host).next
      ensures var init := InitTransition(old(initialized), host).result;
        && (init.Panics? ==> r == Panics(init.reason))
        && (init == Returns(false) ==> r == Returns(Err(DeviceError("Failed to initialize"))))
        && (init == Returns(true) && host.hasMec ==>
              r == Returns(Ok(PortIoMec.AsWrittenRead(mec.ram, (MEC_MEMMAP_OFFSET + offset) % PORTS, length))))
        && (init == Returns(true) && !host.hasMec ==>
              r == Returns(Ok(ReadPorts(ports, NPC_MEMMAP_OFFSET, offset, length))))
    {
      var ok := Init();
      if ok.Panics? {
        return Panics(ok.reason);
      }
      if !ok.value {
        return Returns(Err(DeviceError("Failed to initialize")));
      }
      var buffer;
      if host.hasMec {
        buffer := TransferRead(0, (MEC_MEMMAP_OFFSET as int + offset) % PORTS, length);
      } else {
        buffer := TransferRead(NPC_MEMMAP_OFFSET, offset, length);
      }
      return Returns(Ok(buffer));
    }
  }

  /**
   * On MEC systems `read_memory` returns the memory map itself, for every EC
   * RAM content, exactly when the offset is word-aligned or the read is
   * empty or at least a word long: the memory map starts at the aligned EC
   * address 0x100, so the offset's alignment is the address's.
   */
  lemma MecReadMemoryCorrectIff(offset: u16, length: u16)
    ensures var address := (MEC_MEMMAP_OFFSET + offset) % PORTS;
      (forall ram: seq<u8> | |ram| == PORTS ::
         PortIoMec.AsWrittenRead(ram, address, length) == PortIoMec.IntendedRead(ram, address, length))
      <==> (offset % 4 == 0 || length >= 4 || length == 0)
  {
    var address := (MEC_MEMMAP_OFFSET + offset) % PORTS;
    if MEC_MEMMAP_OFFSET + offset < PORTS {
      assert address == 0x100 + offset;
    } else {
      assert address == 0x100 + offset - PORTS;
    }
    assert address % 4 == offset % 4;
    PortIoMec.AsWrittenReadCorrectIff(address, length);
  }

  /** The battery-count read of `power_info` (one byte at offset 0x4D) returns EC RAM byte 0x150 on MEC systems. */
  lemma MecBatteryCountRead(ram: seq<u8>)
    requires |ram| == PORTS
    ensures PortIoMec.AsWrittenRead(ram, (MEC_MEMMAP_OFFSET + 0x4D) % PORTS, 1) == [ram[0x150]]
    ensures PortIoMec.IntendedRead(ram, (MEC_MEMMAP_OFFSET + 0x4D) % PORTS, 1) == [ram[0x14D]]
  {
    PortIoMec.AsWrittenExampleOneByte();
  }
}
