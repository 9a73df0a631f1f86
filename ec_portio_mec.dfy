/**
 * Host-command transfers for Microchip MEC embedded controllers.  The host
 * reaches the EC's RAM through the MEC Embedded Memory Interface (EMI): a
 * 16-bit address register at port 0x802 whose two low bits select the access
 * mode, and four data registers at ports 0x804..0x807 that show the 32-bit
 * word the address register points at, one byte per lane.  In 32-bit
 * auto-increment mode an access to data register 3 moves the address to the
 * next word.
 */
module PortIoMec {
  import opened Common

  const MEC_EC_BYTE_ACCESS: u16 := 0x00
  const MEC_EC_LONG_ACCESS_AUTOINCREMENT: u16 := 0x03
  const MEC_LPC_ADDRESS_REGISTER0: u16 := 0x0802
  const MEC_LPC_DATA_REGISTER0: u16 := 0x0804
  const MEC_LPC_DATA_REGISTER2: u16 := 0x0806

  /** The panic of `buffer.len().try_into().unwrap()` for a buffer longer than 0xFFFF bytes. */
  const SIZE_PANIC := "called `Result::unwrap()` on an `Err` value: TryFromIntError(())"

  /** `x & 0xFFFC`: the word-aligned part of an EC address. */
  function Align(x: u16): (r: u16)
    ensures r % 4 == 0 && r <= x < r + 4
  {
    x - x % 4
  }

  /** The address register value `(offset & 0xFFFC) | mode` for a mode of 0 or 3. */
  function AddressWord(offset: u16, mode: u16): u16
    requires mode == MEC_EC_BYTE_ACCESS || mode == MEC_EC_LONG_ACCESS_AUTOINCREMENT
  {
    Align(offset) + mode
  }

  /** An address word names the word of `offset`, tagged with the access mode in its two low bits. */
  lemma AddressWordFields(offset: u16, mode: u16)
    requires mode == MEC_EC_BYTE_ACCESS || mode == MEC_EC_LONG_ACCESS_AUTOINCREMENT
    ensures AddressWord(offset, mode) % 4 == mode && Align(AddressWord(offset, mode)) == Align(offset)
    ensures UsedMode(AddressWord(offset, mode))
  {
  }

  /** The written address register value selects one of the two access modes the driver uses. */
  predicate UsedMode(w: u16)
  {
    w % 4 == MEC_EC_BYTE_ACCESS || w % 4 == MEC_EC_LONG_ACCESS_AUTOINCREMENT
  }

  /** The EMI of one MEC EC: its RAM, the address register and the trace of writes to it. */
  class MecEmi {
    var ram: seq<u8>
    var addressReg: u16
    ghost var addressWrites: seq<u16>

    predicate Valid()
      reads this
    {
      |ram| == 0x1_0000
    }

    constructor (contents: seq<u8>)
      requires |contents| == 0x1_0000
      ensures Valid() && ram == contents && addressReg == 0 && addressWrites == []
    {
      ram := contents;
      addressReg := 0;
      addressWrites := [];
    }

    /** EC RAM address of lane `lane` of the word the address register points at. */
    function LaneAddress(lane: nat): (a: nat)
      reads this
      requires lane < 4
      ensures a < 0x1_0000
    {
      Align(addressReg) + lane
    }

    /** In auto-increment mode, an access to data register 3 moves on to the next word. */
    method AfterLane3()
      modifies this
      ensures ram == old(ram) && addressWrites == old(addressWrites)
      ensures old(addressReg) % 4 == MEC_EC_LONG_ACCESS_AUTOINCREMENT ==>
        addressReg == (Align(old(addressReg)) + 4) % 0x1_0000 + MEC_EC_LONG_ACCESS_AUTOINCREMENT
      ensures old(addressReg) % 4 != MEC_EC_LONG_ACCESS_AUTOINCREMENT ==> addressReg == old(addressReg)
    {
      if addressReg % 4 == MEC_EC_LONG_ACCESS_AUTOINCREMENT {
        addressReg := (Align(addressReg) + 4) % 0x1_0000 + MEC_EC_LONG_ACCESS_AUTOINCREMENT;
      }
    }

    /** A u16 write to the address register. */
    method WriteAddress(w: u16)
      modifies this
      ensures ram == old(ram) && addressReg == w && addressWrites == old(addressWrites) + [w]
    {
      addressReg := w;
      addressWrites := addressWrites + [w];
    }

    /** Points the address register at the word of `offset` in access mode `mode`. */
    method SelectWord(offset: u16, mode: u16)
      requires mode == MEC_EC_BYTE_ACCESS || mode == MEC_EC_LONG_ACCESS_AUTOINCREMENT
      modifies this
      ensures ram == old(ram) && addressReg == Align(offset) + mode
      ensures addressWrites == old(addressWrites) + [addressReg] && UsedMode(addressReg)
    {
      AddressWordFields(offset, mode);
      WriteAddress(AddressWord(offset, mode));
    }

    /** A u8 read of data register `lane`. */
    method ReadByte(lane: nat) returns (b: u8)
      requires Valid() && lane < 4
      modifies this
      ensures Valid() && ram == old(ram) && addressWrites == old(addressWrites)
      ensures b == ram[old(LaneAddress(lane))]
      ensures lane < 3 || old(addressReg) % 4 != MEC_EC_LONG_ACCESS_AUTOINCREMENT ==> addressReg == old(addressReg)
    {
      b := ram[LaneAddress(lane)];
      if lane == 3 {
        AfterLane3();
      }
    }

    /** A u8 write of data register `lane`. */
    method WriteByte(lane: nat, b: u8)
      requires Valid() && lane < 4
      modifies this
      ensures Valid() && ram == old(ram)[old(LaneAddress(lane)) := b] && addressWrites == old(addressWrites)
      ensures lane < 3 || old(addressReg) % 4 != MEC_EC_LONG_ACCESS_AUTOINCREMENT ==> addressReg == old(addressReg)
    {
      ram := ram[LaneAddress(lane) := b];
      if lane == 3 {
        AfterLane3();
      }
    }

    /** A u16 read of data register 0 (lanes 0 and 1) or 2 (lanes 2 and 3, which may auto-increment). */
    method ReadWord(register: u16) returns (w: u16)
      requires Valid() && (register == MEC_LPC_DATA_REGISTER0 || register == MEC_LPC_DATA_REGISTER2)
      modifies this
      ensures Valid() && ram == old(ram) && addressWrites == old(addressWrites)
      ensures var lane := register - MEC_LPC_DATA_REGISTER0;
        w == Le16(ram[old(LaneAddress(lane))], ram[old(LaneAddress(lane + 1))])
      ensures register == MEC_LPC_DATA_REGISTER0 ==> addressReg == old(addressReg)
      ensures register == MEC_LPC_DATA_REGISTER2 && old(addressReg) % 4 == MEC_EC_LONG_ACCESS_AUTOINCREMENT ==>
        addressReg == (Align(old(addressReg)) + 4) % 0x1_0000 + MEC_EC_LONG_ACCESS_AUTOINCREMENT
    {
      var lane := register - MEC_LPC_DATA_REGISTER0;
      w := Le16(ram[LaneAddress(lane)], ram[LaneAddress(lane + 1)]);
      if lane == 2 {
        AfterLane3();
      }
    }

    /** A u16 write of data register 0 or 2 (little-endian: the low byte goes to the lower lane). */
    method WriteWord(register: u16, w: u16)
      requires Valid() && (register == MEC_LPC_DATA_REGISTER0 || register == MEC_LPC_DATA_REGISTER2)
      modifies this
      ensures Valid() && addressWrites == old(addressWrites)
      ensures var lane := register - MEC_LPC_DATA_REGISTER0;
        ram == old(ram)[old(LaneAddress(lane)) := w % 0x100][old(LaneAddress(lane + 1)) := w / 0x100]
      ensures register == MEC_LPC_DATA_REGISTER0 ==> addressReg == old(addressReg)
      ensures register == MEC_LPC_DATA_REGISTER2 && old(addressReg) % 4 == MEC_EC_LONG_ACCESS_AUTOINCREMENT ==>
        addressReg == (Align(old(addressReg)) + 4) % 0x1_0000 + MEC_EC_LONG_ACCESS_AUTOINCREMENT
    {
      var lane := register - MEC_LPC_DATA_REGISTER0;
      ram := ram[LaneAddress(lane) := w % 0x100][LaneAddress(lane + 1) := w / 0x100];
      if lane == 2 {
        AfterLane3();
      }
    }

    /** Byte reads of lanes `firstLane ..` of the current word into `buf[at ..]`. */
    method ReadLanes(buf: array<u8>, at: nat, firstLane: nat, count: nat)
      requires Valid() && at + count <= buf.Length && firstLane + count <= 4
      requires addressReg % 4 == MEC_EC_BYTE_ACCESS
      modifies this, buf
      ensures Valid() && ram == old(ram) && addressReg == old(addressReg) && addressWrites == old(addressWrites)
      ensures forall i :: at <= i < at + count ==> buf[i] == ram[Align(addressReg) + firstLane + (i - at)]
      ensures forall i :: 0 <= i < at ==> buf[i] == old(buf[i])
    {
      var k := 0;
      while k < count
        invariant 0 <= k <= count
        invariant Valid() && ram == old(ram) && addressReg == old(addressReg) && addressWrites == old(addressWrites)
        invariant forall i :: at <= i < at + k ==> buf[i] == ram[Align(addressReg) + firstLane + (i - at)]
        invariant forall i :: 0 <= i < at ==> buf[i] == old(buf[i])
      {
        var b := ReadByte(firstLane + k);
        buf[at + k] := b;
        k := k + 1;
      }
    }

    /** Two u16 reads of data registers 0 and 2 stored as four bytes at `buf[pos ..]`. */
    method ReadOneWord(buf: array<u8>, pos: nat)
      requires Valid() && pos + 4 <= buf.Length
      requires addressReg % 4 == MEC_EC_LONG_ACCESS_AUTOINCREMENT
      modifies this, buf
      ensures Valid() && ram == old(ram) && addressWrites == old(addressWrites)
      ensures addressReg == (Align(old(addressReg)) + 4) % 0x1_0000 + MEC_EC_LONG_ACCESS_AUTOINCREMENT
      ensures forall i :: pos <= i < pos + 4 ==> buf[i] == ram[Align(old(addressReg)) + (i - pos)]
      ensures forall i :: 0 <= i < pos ==> buf[i] == old(buf[i])
    {
      var lo := ReadWord(MEC_LPC_DATA_REGISTER0);
      var hi := ReadWord(MEC_LPC_DATA_REGISTER2);
      buf[pos] := lo % 0x100;
      buf[pos + 1] := lo / 0x100;
      buf[pos + 2] := hi % 0x100;
      buf[pos + 3] := hi / 0x100;
    }

    /** The auto-increment loop: whole words into `buf[pos0 ..]` while at least four bytes remain. */
    method ReadWords(buf: array<u8>, pos0: nat, offset0: u16) returns (pos: nat, offset: u16)
      requires Valid() && pos0 <= buf.Length < 0x1_0000
      requires offset0 % 4 == 0 && addressReg == offset0 + MEC_EC_LONG_ACCESS_AUTOINCREMENT
      modifies this, buf
      ensures Valid() && ram == old(ram) && addressWrites == old(addressWrites)
      ensures pos0 <= pos <= buf.Length && buf.Length - pos < 4 && (pos - pos0) % 4 == 0
      ensures offset == WordAddress(offset0, pos - pos0) && offset % 4 == 0
      ensures forall i :: pos0 <= i < pos ==> buf[i] == ram[WordAddress(offset0, i - pos0)]
      ensures forall i :: 0 <= i < pos0 ==> buf[i] == old(buf[i])
    {
      pos, offset := pos0, offset0;
      while buf.Length - pos >= 4
        invariant pos0 <= pos <= buf.Length && (pos - pos0) % 4 == 0
        invariant offset == WordAddress(offset0, pos - pos0) && offset % 4 == 0
        invariant Valid() && ram == old(ram) && addressWrites == old(addressWrites)
        invariant addressReg == offset + MEC_EC_LONG_ACCESS_AUTOINCREMENT
        invariant forall i :: pos0 <= i < pos ==> buf[i] == ram[WordAddress(offset0, i - pos0)]
        invariant forall i :: 0 <= i < pos0 ==> buf[i] == old(buf[i])
        decreases buf.Length - pos
      {
        ReadOneWord(buf, pos);
        forall i | pos <= i < pos + 4
          ensures buf[i] == ram[WordAddress(offset0, i - pos0)]
        {
          TailLane(offset0, pos - pos0, i - pos);
        }
        WordStep(offset0, pos - pos0);
        pos := pos + 4;
        offset := (offset as int + 4) % 0x1_0000;
      }
    }

    /** The unaligned-start phase: byte reads of lanes `address % 4 .. prefixEnd` of the first word. */
    method ReadPrefix(buf: array<u8>, address: u16, prefixEnd: nat) returns (pos: nat, offset: u16)
      requires Valid() && prefixEnd <= 4 && PrefixLength(address, prefixEnd) <= buf.Length
      modifies this, buf
      ensures Valid() && ram == old(ram)
      ensures pos == PrefixLength(address, prefixEnd) && offset == ResumeAddress(address)
      ensures forall i :: 0 <= i < pos ==> buf[i] == ram[ChunkedAddress(address, pos, i)]
      ensures |addressWrites| >= |old(addressWrites)|
      ensures forall k :: |old(addressWrites)| <= k < |addressWrites| ==> UsedMode(addressWrites[k])
    {
      pos := 0;
      offset := address;
      if offset % 4 > 0 {
        SelectWord(offset, MEC_EC_BYTE_ACCESS);
        pos := Max(0, prefixEnd - offset % 4);
        ReadLanes(buf, 0, offset % 4, pos);
        offset := Align((offset as int + 4) % 0x1_0000);  // closest 4-byte alignment
      }
    }

    /** The byte-wise tail: the last `buf.Length - pos` (< 4) bytes from lanes 0.. of the word at `offset`. */
    method ReadTail(buf: array<u8>, pos: nat, offset: u16, ghost start: u16, ghost done: nat)
      requires Valid() && pos < buf.Length < pos + 4 && done + (buf.Length - pos) < 0x1_0000
      requires start % 4 == 0 && done % 4 == 0 && offset == WordAddress(start, done)
      modifies this, buf
      ensures Valid() && ram == old(ram)
      ensures forall i :: pos <= i < buf.Length ==> buf[i] == ram[WordAddress(start, done + (i - pos))]
      ensures forall i :: 0 <= i < pos ==> buf[i] == old(buf[i])
      ensures |addressWrites| == |old(addressWrites)| + 1 && UsedMode(addressWrites[|addressWrites| - 1])
      ensures addressWrites[..|old(addressWrites)|] == old(addressWrites)
    {
      TailLane(start, done, 0);
      SelectWord(offset, MEC_EC_BYTE_ACCESS);
      assert Align(addressReg) == offset;
      ReadLanes(buf, pos, 0, buf.Length - pos);
      forall i | pos <= i < buf.Length
        ensures buf[i] == ram[WordAddress(start, done + (i - pos))]
      {
        assert buf[i] == ram[offset + (i - pos)];
        TailLane(start, done, i - pos);
      }
    }

    /**
     * The chunked read of `transfer_read`, with the end of the unaligned
     * prefix loop as a parameter: bytes one by one up to lane `prefixEnd`,
     * then whole words with auto-increment, then a byte-wise tail.
     */
    method ReadChunked(address: u16, size: u16, prefixEnd: nat) returns (buffer: seq<u8>)
      requires Valid() && prefixEnd <= 4 && PrefixLength(address, prefixEnd) <= size
      modifies this
      ensures Valid() && ram == old(ram)
      ensures buffer == ChunkedRead(ram, address, size, PrefixLength(address, prefixEnd))
      ensures forall k :: |old(addressWrites)| <= k < |addressWrites| ==> UsedMode(addressWrites[k])
    {
      ghost var p := PrefixLength(address, prefixEnd);
      ghost var start := ResumeAddress(address);
      ghost var writes0 := addressWrites;
      var buf := new u8[size](_ => 0);

      // Unaligned start address: single bytes from the first word
      var pos, offset := ReadPrefix(buf, address, prefixEnd);

      // Whole words with auto-increment
      if size - pos >= 4 {
        SelectWord(offset, MEC_EC_LONG_ACCESS_AUTOINCREMENT);
        pos, offset := ReadWords(buf, pos, offset);
      }
      assert offset == WordAddress(start, pos - p);

      // The remaining bytes one by one
      if size - pos > 0 {
        ReadTail(buf, pos, offset, start, pos - p);
      }
      assert forall i :: 0 <= i < size ==> buf[i] == ram[ChunkedAddress(address, p, i)];
      buffer := buf[..];
    }

    /** `portio_mec::transfer_read` as written: the prefix loop runs over lanes `address % 4 .. min(4, size)`. */
    method TransferReadAsWritten(address: u16, size: u16) returns (buffer: seq<u8>)
      requires Valid()
      modifies this
      ensures Valid() && ram == old(ram)
      ensures buffer == AsWrittenRead(ram, address, size)
      ensures forall k :: |old(addressWrites)| <= k < |addressWrites| ==> UsedMode(addressWrites[k])
    {
      buffer := ReadChunked(address, size, Min(4, size));
    }

    /** The corrected read: the prefix loop runs over lanes `address % 4 .. min(4, address % 4 + size)`. */
    method TransferRead(address: u16, size: u16) returns (buffer: seq<u8>)
      requires Valid()
      modifies this
      ensures Valid() && ram == old(ram)
      ensures buffer == IntendedRead(ram, address, size)
      ensures forall k :: |old(addressWrites)| <= k < |addressWrites| ==> UsedMode(addressWrites[k])
    {
      buffer := ReadChunked(address, size, Min(4, address % 4 + size));
      CorrectedReadIsIntended(ram, address, size);
    }

    /** Two u16 writes of `buffer[pos .. pos + 4]` to data registers 0 and 2 of the word at `pos`. */
    method WriteOneWord(buffer: seq<u8>, pos: nat)
      requires Valid() && pos + 4 <= |buffer| && pos + 4 < 0x1_0000 && pos % 4 == 0
      requires addressReg == pos + MEC_EC_LONG_ACCESS_AUTOINCREMENT
      modifies this
      ensures Valid() && addressWrites == old(addressWrites)
      ensures addressReg == pos + 4 + MEC_EC_LONG_ACCESS_AUTOINCREMENT
      ensures forall i :: 0 <= i < 0x1_0000 ==> ram[i] == if pos <= i < pos + 4 then buffer[i] else old(ram)[i]
    {
      assert Align(addressReg) == pos;
      WriteWord(MEC_LPC_DATA_REGISTER0, Le16(buffer[pos], buffer[pos + 1]));
      WriteWord(MEC_LPC_DATA_REGISTER2, Le16(buffer[pos + 2], buffer[pos + 3]));
      ModUnique(pos + 4, 0, pos + 4);
    }

    /** The auto-increment phase of `transfer_write`: whole words of `buffer` from EC address 0. */
    method WriteWords(buffer: seq<u8>) returns (pos: nat)
      requires Valid() && 4 <= |buffer| <= 0xFFFF
      modifies this
      ensures Valid()
      ensures pos <= |buffer| < pos + 4 && pos % 4 == 0
      ensures forall i :: 0 <= i < 0x1_0000 ==> ram[i] == if i < pos then buffer[i] else old(ram)[i]
      ensures |addressWrites| == |old(addressWrites)| + 1 && addressWrites[..|old(addressWrites)|] == old(addressWrites)
      ensures UsedMode(addressWrites[|old(addressWrites)|])
    {
      SelectWord(0, MEC_EC_LONG_ACCESS_AUTOINCREMENT);
      ghost var w := addressReg;
      pos := 0;
      ghost var words := 0;
      while |buffer| - pos >= 4
        invariant pos == 4 * words && pos <= |buffer|
        invariant Valid() && addressWrites == old(addressWrites) + [w]
        invariant addressReg == pos + MEC_EC_LONG_ACCESS_AUTOINCREMENT
        invariant forall i :: 0 <= i < 0x1_0000 ==> ram[i] == if i < pos then buffer[i] else old(ram)[i]
        decreases |buffer| - pos
      {
        WriteOneWord(buffer, pos);
        pos, words := pos + 4, words + 1;
      }
    }

    /** The byte-wise tail of `transfer_write`: `buffer[pos ..]` (fewer than four bytes) to lanes 0.. of the word at `pos`. */
    method WriteTail(buffer: seq<u8>, pos: nat)
      requires Valid() && pos < |buffer| < pos + 4 && pos % 4 == 0 && |buffer| <= 0xFFFF
      modifies this
      ensures Valid()
      ensures forall i :: 0 <= i < 0x1_0000 ==> ram[i] == if pos <= i < |buffer| then buffer[i] else old(ram)[i]
      ensures |addressWrites| == |old(addressWrites)| + 1 && addressWrites[..|old(addressWrites)|] == old(addressWrites)
      ensures UsedMode(addressWrites[|old(addressWrites)|])
    {
      SelectWord(pos, MEC_EC_BYTE_ACCESS);
      ghost var w := addressReg;
      assert Align(addressReg) == pos;
      var lane := 0;
      while lane < |buffer| - pos
        invariant 0 <= lane <= |buffer| - pos
        invariant Valid() && addressReg == pos
        invariant addressWrites == old(addressWrites) + [w]
        invariant forall i :: 0 <= i < 0x1_0000 ==> ram[i] == if pos <= i < pos + lane then buffer[i] else old(ram)[i]
      {
        WriteByte(lane, buffer[pos + lane]);
        lane := lane + 1;
      }
    }

    /**
     * `portio_mec::transfer_write`.  It always starts at EC address 0, so the
     * unaligned-start branch of the source never runs and is not modelled.
     * A buffer longer than 0xFFFF bytes makes the length conversion panic.
     */
    method TransferWrite(buffer: seq<u8>) returns (r: Outcome<()>)
      requires Valid()
      modifies this
      ensures Valid()
      ensures |buffer| > 0xFFFF ==> r.Panics? && ram == old(ram)
      ensures |buffer| <= 0xFFFF ==> r == Returns(()) && ram == buffer + old(ram)[|buffer|..]
      ensures forall k :: |old(addressWrites)| <= k < |addressWrites| ==> UsedMode(addressWrites[k])
    {
      if |buffer| > 0xFFFF {
        return Panics(SIZE_PANIC);
      }
      var size := |buffer|;
      var pos := 0;

      ghost var ram0 := ram;

      // Whole words with auto-increment
      if size - pos >= 4 {
        pos := WriteWords(buffer);
      }
      assert forall i :: 0 <= i < 0x1_0000 ==> ram[i] == if i < pos then buffer[i] else ram0[i];

      // The remaining bytes one by one
      if size - pos > 0 {
        WriteTail(buffer, pos);
      }
      assert forall i :: 0 <= i < 0x1_0000 ==> ram[i] == if i < size then buffer[i] else ram0[i];
      assert ram == buffer + ram0[size..];
      r := Returns(());
    }
  }

  /** Lane `k` of the word at `start + done` (wrapping at 64 KiB) is the next consecutive address. */
  lemma TailLane(start: u16, done: nat, k: nat)
    requires start % 4 == 0 && done % 4 == 0 && k < 4 && done + k < 0x1_0000
    ensures WordAddress(start, done) % 4 == 0
    ensures WordAddress(start, done) + k == WordAddress(start, done + k)
  {
    var x := start + done;
    assert x % 4 == 0 by { assert x == 4 * (start / 4 + done / 4); }
    if x >= 0x1_0000 {
      assert (x - 0x1_0000) % 4 == 0 by { assert x - 0x1_0000 == 4 * (x / 4 - 0x4000); }
    }
  }

  /** Moving on by one word from `start + done` reaches `start + done + 4`, wrapping at 64 KiB. */
  lemma WordStep(start: u16, done: nat)
    requires done + 4 < 0x1_0000
    ensures (WordAddress(start, done) + 4) % 0x1_0000 == WordAddress(start, done + 4)
  {
    var a: int := WordAddress(start, done);
    if a + 4 < 0x1_0000 {
      ModUnique(a + 4, 0, a + 4);
    } else {
      ModUnique(a + 4, 1, a + 4 - 0x1_0000);
    }
  }

  lemma ModUnique(n: int, q: int, r: int)
    requires n == 0x1_0000 * q + r && 0 <= r < 0x1_0000
    ensures n % 0x1_0000 == r
  {
  }

  /** Number of bytes the unaligned-start loop reads when it runs over lanes `address % 4 .. prefixEnd`. */
  function PrefixLength(address: u16, prefixEnd: nat): (p: nat)
    ensures address % 4 == 0 ==> p == 0
    ensures address % 4 + p <= Max(4, prefixEnd)
  {
    if address % 4 > 0 then Max(0, prefixEnd - address % 4) else 0
  }

  /** Where the aligned part of the transfer starts: the next word for an unaligned address. */
  function ResumeAddress(address: u16): (a: u16)
    ensures a % 4 == 0 || a == address
    ensures address % 4 == 0 ==> a == address
  {
    if address % 4 > 0 then Align((address + 4) % 0x1_0000) else address
  }

  /** EC address that byte `i` of a chunked read with a `p`-byte prefix comes from. */
  function ChunkedAddress(address: u16, p: nat, i: nat): (a: nat)
    requires address % 4 + p <= 4 && i < 0x1_0000
    ensures a < 0x1_0000
  {
    if i < p then address + i
    else WordAddress(ResumeAddress(address), i - p)
  }

  /** EC address `start + j`, wrapping at 64 KiB as u16 arithmetic does. */
  function WordAddress(start: u16, j: nat): (a: u16)
    requires j < 0x1_0000
  {
    if start + j < 0x1_0000 then start + j else start + j - 0x1_0000
  }

  function ChunkedRead(ram: seq<u8>, address: u16, size: u16, p: nat): (r: seq<u8>)
    requires |ram| == 0x1_0000 && address % 4 + p <= 4
    ensures |r| == size
    ensures forall i :: 0 <= i < size ==> r[i] == ram[ChunkedAddress(address, p, i)]
  {
    seq(size, i requires 0 <= i < size => ram[ChunkedAddress(address, p, i)])
  }

  /** What `transfer_read` returns as written. */
  function AsWrittenRead(ram: seq<u8>, address: u16, size: u16): (r: seq<u8>)
    requires |ram| == 0x1_0000
    ensures |r| == size
  {
    ChunkedRead(ram, address, size, PrefixLength(address, Min(4, size)))
  }

  /** What a read of `size` bytes at `address` should return: consecutive EC RAM, wrapping at 64 KiB. */
  function IntendedRead(ram: seq<u8>, address: u16, size: u16): (r: seq<u8>)
    requires |ram| == 0x1_0000
    ensures |r| == size
    ensures forall i :: 0 <= i < size ==> r[i] == ram[(address + i) % 0x1_0000]
  {
    seq(size, i requires 0 <= i < size => ram[(address + i) % 0x1_0000])
  }

  /** With the prefix loop ending at lane `min(4, address % 4 + size)`, byte `i` comes from `address + i`. */
  lemma CorrectedAddress(address: u16, size: u16, i: nat)
    requires i < size
    ensures address % 4 + PrefixLength(address, Min(4, address % 4 + size)) <= 4
    ensures ChunkedAddress(address, PrefixLength(address, Min(4, address % 4 + size)), i) == (address + i) % 0x1_0000
  {
    var o := address % 4;
    var p := PrefixLength(address, Min(4, o + size));
    var base: int := Align(address);
    assert base <= 0xFFFC;
    if o == 0 {
    } else if i < p {
      ModUnique(address + i, 0, address + i);
    } else {
      assert p == 4 - o;
      if base + 4 < 0x1_0000 {
        ModUnique(address as int + 4, 0, address as int + 4);
        assert ResumeAddress(address) == base + 4;
      } else {
        ModUnique(address as int + 4, 1, o as int);
        assert ResumeAddress(address) == 0;
        ModUnique(i - p, 0, i - p);
        ModUnique(address + i, 1, i - p);
      }
    }
  }

  /** The corrected chunked read returns consecutive EC RAM. */
  lemma {:induction false} CorrectedReadIsIntended(ram: seq<u8>, address: u16, size: u16)
    requires |ram| == 0x1_0000
    ensures ChunkedRead(ram, address, size, PrefixLength(address, Min(4, address % 4 + size))) == IntendedRead(ram, address, size)
  {
    var p := PrefixLength(address, Min(4, address % 4 + size));
    forall i | 0 <= i < size
      ensures ChunkedAddress(address, p, i) == (address + i) % 0x1_0000
    {
      CorrectedAddress(address, size, i);
    }
  }

  /** As written, a short unaligned read (fewer than 4 bytes) takes a byte from the next word instead of the next address. */
  lemma AsWrittenAddress(address: u16, size: u16)
    requires address % 4 != 0 && 0 < size < 4
    ensures var p := PrefixLength(address, Min(4, size));
      p < size && address % 4 + p <= 4 && ChunkedAddress(address, p, p) != (address + p) % 0x1_0000
  {
    var o := address % 4;
    var p := PrefixLength(address, Min(4, size));
    var base: int := Align(address);
    assert p == Max(0, size - o) && p < size;
    ModUnique(address as int + p, 0, address as int + p);
    if base + 4 < 0x1_0000 {
      ModUnique(address as int + 4, 0, address as int + 4);
      assert ChunkedAddress(address, p, p) == base + 4;
    } else {
      ModUnique(address as int + 4, 1, o as int);
      assert ChunkedAddress(address, p, p) == 0;
    }
  }

  /** The read as written returns consecutive EC RAM for every RAM content exactly when the address is aligned or at least a word (or nothing) is read. */
  lemma AsWrittenReadCorrectIff(address: u16, size: u16)
    ensures (forall ram: seq<u8> | |ram| == 0x1_0000 :: AsWrittenRead(ram, address, size) == IntendedRead(ram, address, size))
      <==> (address % 4 == 0 || size >= 4 || size == 0)
  {
    if address % 4 == 0 || size >= 4 || size == 0 {
      forall ram: seq<u8> | |ram| == 0x1_0000
        ensures AsWrittenRead(ram, address, size) == IntendedRead(ram, address, size)
      {
        assert Min(4, size) == Min(4, address % 4 + size) || address % 4 == 0 || size == 0;
        CorrectedReadIsIntended(ram, address, size);
        if address % 4 == 0 || size == 0 {
          assert PrefixLength(address, Min(4, size)) == PrefixLength(address, Min(4, address % 4 + size));
        }
      }
    } else {
      var p := PrefixLength(address, Min(4, size));
      AsWrittenAddress(address, size);
      var bad := ChunkedAddress(address, p, p);
      var ram: seq<u8> := seq(0x1_0000, j => if j == bad then 1 else 0);
      assert AsWrittenRead(ram, address, size)[p] == 1;
      assert IntendedRead(ram, address, size)[p] == 0;
    }
  }

  /** An aligned read as written is consecutive EC RAM, whatever its length. */
  lemma AlignedReadAsWritten(ram: seq<u8>, address: u16, size: u16)
    requires |ram| == 0x1_0000 && address % 4 == 0
    ensures AsWrittenRead(ram, address, size) == IntendedRead(ram, address, size)
  {
    AsWrittenReadCorrectIff(address, size);
  }

  /** A two-byte read at address 1 returns EC RAM byte 4 as its second byte. */
  lemma AsWrittenExampleTwoBytes()
    ensures PrefixLength(1, Min(4, 2)) == 1 && ChunkedAddress(1, 1, 1) == 4
  {
    ModUnique(5, 0, 5);
  }

  /** A one-byte read at 0x14D reads nothing in the prefix and returns EC RAM byte 0x150. */
  lemma AsWrittenExampleOneByte()
    ensures PrefixLength(0x14D, Min(4, 1)) == 0 && ChunkedAddress(0x14D, 0, 0) == 0x150
  {
    ModUnique(0x151, 0, 0x151);
  }
}
