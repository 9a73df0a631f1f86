/**
 * Chrome EC host-command protocol version 3: the 8-byte request and
 * response headers, the LPC status bits and the port addresses of the
 * host-command window.
 */
module EcProtocol {
  import opened Common

  /** Value written to the command port to announce a version-3 packet. */
  const EC_COMMAND_PROTOCOL_3: u8 := 0xDA

  const EC_LPC_STATUS_FROM_HOST: bv8 := 0x02
  const EC_LPC_STATUS_PROCESSING: bv8 := 0x04
  /** The EC is busy while the host's byte is unread or a command is in progress. */
  const EC_LPC_STATUS_BUSY_MASK: bv8 := EC_LPC_STATUS_FROM_HOST | EC_LPC_STATUS_PROCESSING

  const EC_LPC_ADDR_HOST_DATA: u16 := 0x200
  const EC_LPC_ADDR_HOST_CMD: u16 := 0x204
  const EC_LPC_ADDR_HOST_ARGS: u16 := 0x800
  /** Largest version-3 packet. */
  const EC_LPC_HOST_PACKET_SIZE: u16 := 0x100
  const MEC_MEMMAP_OFFSET: u16 := 0x100
  const NPC_MEMMAP_OFFSET: u16 := 0xE00

  const EC_HOST_REQUEST_VERSION: u8 := 3
  const EC_HOST_RESPONSE_VERSION: u8 := 3
  /** `size_of::<EcHostResponse>()` (and of the request header). */
  const HEADER_LEN: nat := 8

  /** A status byte read from the command port says the EC is busy. */
  predicate IsBusy(status: u8)
  {
    (status as bv8) & EC_LPC_STATUS_BUSY_MASK != 0
  }

  /** Busy exactly when FROM_HOST or PROCESSING is set; the mask is 0x06. */
  lemma BusyMask(status: u8)
    ensures EC_LPC_STATUS_BUSY_MASK == 0x06
    ensures IsBusy(status) <==>
      ((status as bv8) & EC_LPC_STATUS_FROM_HOST != 0 || (status as bv8) & EC_LPC_STATUS_PROCESSING != 0)
  {
  }

  /** `EcHostRequest`, packed. */
  datatype RequestHeader = RequestHeader(
    structVersion: u8,
    checksum: u8,
    command: u16,
    commandVersion: u8,
    reserved: u8,
    dataLen: u16)

  /** `EcHostResponse`, packed. */
  datatype ResponseHeader = ResponseHeader(
    structVersion: u8,
    checksum: u8,
    result: u16,
    dataLen: u16,
    reserved: u16)

  /** The in-memory bytes of a request header (x86 is little-endian). */
  function EncodeRequest(h: RequestHeader): (r: seq<u8>)
    ensures |r| == HEADER_LEN
  {
    [h.structVersion, h.checksum] + Le16Bytes(h.command) + [h.commandVersion, h.reserved] + Le16Bytes(h.dataLen)
  }

  function DecodeRequest(b: seq<u8>): RequestHeader
    requires |b| >= HEADER_LEN
  {
    RequestHeader(b[0], b[1], Le16At(b, 2), b[4], b[5], Le16At(b, 6))
  }

  /** The bytes of a response header. */
  function EncodeResponse(h: ResponseHeader): (r: seq<u8>)
    ensures |r| == HEADER_LEN
  {
    [h.structVersion, h.checksum] + Le16Bytes(h.result) + Le16Bytes(h.dataLen) + Le16Bytes(h.reserved)
  }

  /** `unpack_response_header`: reads a packed struct from the first 8 bytes. */
  function DecodeResponse(b: seq<u8>): ResponseHeader
    requires |b| >= HEADER_LEN
  {
    ResponseHeader(b[0], b[1], Le16At(b, 2), Le16At(b, 4), Le16At(b, 6))
  }

  /** Field order of the request: version, checksum, command, command version, reserved, length. */
  lemma RequestLayout(h: RequestHeader)
    ensures var b := EncodeRequest(h);
      b[0] == h.structVersion && b[1] == h.checksum && Le16At(b, 2) == h.command &&
      b[4] == h.commandVersion && b[5] == h.reserved && Le16At(b, 6) == h.dataLen
  {
  }

  /** Field order of the response: version, checksum, result, length, reserved. */
  lemma ResponseLayout(h: ResponseHeader)
    ensures var b := EncodeResponse(h);
      b[0] == h.structVersion && b[1] == h.checksum && Le16At(b, 2) == h.result &&
      Le16At(b, 4) == h.dataLen && Le16At(b, 6) == h.reserved
  {
  }

  lemma DecodeEncodeRequest(h: RequestHeader)
    ensures DecodeRequest(EncodeRequest(h)) == h
  {
    RequestLayout(h);
  }

  lemma EncodeDecodeRequest(b: seq<u8>)
    requires |b| == HEADER_LEN
    ensures EncodeRequest(DecodeRequest(b)) == b
  {
    Le16BytesOfLe16At(b, 2);
    Le16BytesOfLe16At(b, 6);
    assert b == b[..2] + b[2..4] + b[4..6] + b[6..8];
  }

  lemma DecodeEncodeResponse(h: ResponseHeader)
    ensures DecodeResponse(EncodeResponse(h)) == h
  {
    ResponseLayout(h);
  }

  lemma EncodeDecodeResponse(b: seq<u8>)
    requires |b| == HEADER_LEN
    ensures EncodeResponse(DecodeResponse(b)) == b
  {
    Le16BytesOfLe16At(b, 2);
    Le16BytesOfLe16At(b, 4);
    Le16BytesOfLe16At(b, 6);
    assert b == b[..2] + b[2..4] + b[4..6] + b[6..8];
  }
}
