/**
 * Decoders over the EC's memory map and the PD-version command: the
 * temperature and lid-angle sentinels, the accelerometer record, the fan
 * table at 0x10, the battery block at 0x40..0x80 with its flag byte, the
 * firmware-update readiness rule and the PD controller version records.
 */
module Power {
  import opened Common
  import opened EcResult
  import EcCommand
  import EcFacade
  import Ccgx
  import Utf8

  /** `ec.read_memory(offset, length)` of the active EC. */
  type MemoryMap = (u16, u16) -> Option<seq<u8>>

  /** The memory map of a facade handle. */
  function MemoryOf(ec: EcFacade.CrosEcHandle, host: EcFacade.Host): MemoryMap
  {
    (offset: u16, length: u16) => EcFacade.ReadMemory(ec, host, offset, length)
  }

  // Offsets in the memory map.
  const EC_MEMMAP_TEXT_MAX: u16 := 8
  const EC_MEMMAP_FAN: u16 := 0x10
  const EC_MEMMAP_BATT_VOLT: u16 := 0x40
  const EC_MEMMAP_BATT_RATE: u16 := 0x44
  const EC_MEMMAP_BATT_CAP: u16 := 0x48
  const EC_MEMMAP_BATT_FLAG: u16 := 0x4C
  const EC_MEMMAP_BATT_COUNT: u16 := 0x4D
  const EC_MEMMAP_BATT_INDEX: u16 := 0x4E
  const EC_MEMMAP_BATT_DCAP: u16 := 0x50
  const EC_MEMMAP_BATT_DVLT: u16 := 0x54
  const EC_MEMMAP_BATT_LFCC: u16 := 0x58
  const EC_MEMMAP_BATT_CCNT: u16 := 0x5C
  const EC_MEMMAP_BATT_MFGR: u16 := 0x60
  const EC_MEMMAP_BATT_MODEL: u16 := 0x68
  const EC_MEMMAP_BATT_SERIAL: u16 := 0x70
  const EC_MEMMAP_BATT_TYPE: u16 := 0x78
  const LID_ANGLE_UNRELIABLE: u16 := 500

  // Bits of the battery flag byte, as bit numbers.
  const EC_BATT_FLAG_AC_PRESENT: nat := 0
  const EC_BATT_FLAG_BATT_PRESENT: nat := 1
  const EC_BATT_FLAG_DISCHARGING: nat := 2
  const EC_BATT_FLAG_CHARGING: nat := 3
  const EC_BATT_FLAG_LEVEL_CRITICAL: nat := 4

  const EC_FAN_SPEED_ENTRIES: nat := 4
  /** Reported by EC firmware from before 2023 for a stalled fan. */
  const EC_FAN_SPEED_STALLED_DEPRECATED: u16 := 0xFFFE
  const EC_FAN_SPEED_NOT_PRESENT: u16 := 0xFFFF

  const INDEX_PANIC: string := "index out of bounds"
  const UNWRAP_PANIC: string := "called `Option::unwrap()` on a `None` value"
  const DIVIDE_PANIC: string := "attempt to divide by zero"

  /* ---------------------------------------------------------------- temperature */

  /** `TempSensor`: a reading in degrees Celsius or one of four sentinels. */
  datatype TempSensor = TempOk(celsius: u8) | NotPresent | SensorError | NotPowered | NotCalibrated

  /**
   * `TempSensor::from`: 0xFF..0xFC are the sentinels; any other byte t is
   * t - 73 degrees in u8 arithmetic, which wraps for t < 73.
   */
  function TempSensorOf(t: u8): (r: TempSensor)
    ensures r.TempOk? <==> t < 0xFC
    ensures r.TempOk? ==> (r.celsius + 73) % 0x100 == t
    ensures r == NotPresent <==> t == 0xFF
    ensures r == SensorError <==> t == 0xFE
    ensures r == NotPowered <==> t == 0xFD
    ensures r == NotCalibrated <==> t == 0xFC
  {
    if t == 0xFF then NotPresent
    else if t == 0xFE then SensorError
    else if t == 0xFD then NotPowered
    else if t == 0xFC then NotCalibrated
    else TempOk((t - 73) % 0x100)
  }

  /** The byte a temperature reading is stored as. */
  function TempSensorByte(s: TempSensor): u8
  {
    match s
    case NotPresent => 0xFF
    case SensorError => 0xFE
    case NotPowered => 0xFD
    case NotCalibrated => 0xFC
    case TempOk(c) => (c + 73) % 0x100
  }

  /**
   * Decoding loses nothing: every byte comes back, and every reading whose
   * byte is not one of the sentinels comes back.
   */
  lemma TempSensorRoundTrip(t: u8, s: TempSensor)
    ensures TempSensorByte(TempSensorOf(t)) == t
    ensures (s.TempOk? ==> TempSensorByte(s) < 0xFC) ==> TempSensorOf(TempSensorByte(s)) == s
  {
  }

  /** A raw reading below 73 does not go negative but wraps to a high temperature. */
  lemma TempSensorWraps()
    ensures TempSensorOf(0) == TempOk(183)
    ensures TempSensorOf(72) == TempOk(255)
  {
  }

  /* ---------------------------------------------------------------- lid angle */

  /** `LidAngle`. */
  datatype LidAngle = Angle(degrees: u16) | Unreliable

  /** `LidAngle::from`: 500 is the "unreliable" sentinel; anything else is an angle. */
  function LidAngleOf(a: u16): (r: LidAngle)
    ensures r == Unreliable <==> a == LID_ANGLE_UNRELIABLE
    ensures r.Angle? ==> r.degrees == a
  {
    if a == LID_ANGLE_UNRELIABLE then Unreliable else Angle(a)
  }

  function LidAngleRaw(l: LidAngle): u16
  {
    match l
    case Angle(d) => d
    case Unreliable => LID_ANGLE_UNRELIABLE
  }

  /** The raw value is always recovered; an angle is recovered unless it is 500. */
  lemma LidAngleRoundTrip(a: u16, l: LidAngle)
    ensures LidAngleRaw(LidAngleOf(a)) == a
    ensures l != Angle(LID_ANGLE_UNRELIABLE) ==> LidAngleOf(LidAngleRaw(l)) == l
  {
  }

  /* ---------------------------------------------------------------- accelerometer */

  type i16 = x: int | -0x8000 <= x < 0x8000

  /** `i16::from_le_bytes`: the two's-complement reading of a u16. */
  function I16Of(x: u16): (r: i16)
    ensures r % 0x1_0000 == x
    ensures r < 0 <==> x >= 0x8000
  {
    if x >= 0x8000 then x - 0x1_0000 else x
  }

  /** `AccelData`: one accelerometer's three axes. */
  datatype AccelData = AccelData(x: i16, y: i16, z: i16)

  /** `AccelData::from`: three little-endian i16 values; fewer than 6 bytes is an index panic. */
  function AccelDataOf(t: seq<u8>): (r: Outcome<AccelData>)
    ensures r.Returns? <==> |t| >= 6
    ensures r.Returns? ==> r.value.x % 0x1_0000 == Le16At(t, 0) && r.value.y % 0x1_0000 == Le16At(t, 2)
                           && r.value.z % 0x1_0000 == Le16At(t, 4)
  {
    if |t| < 6 then Panics(INDEX_PANIC)
    else Returns(AccelData(I16Of(Le16At(t, 0)), I16Of(Le16At(t, 2)), I16Of(Le16At(t, 4))))
  }

  /** The 6 bytes an accelerometer record is stored as. */
  function AccelBytes(a: AccelData): (r: seq<u8>)
    ensures |r| == 6
  {
    Le16Bytes(a.x % 0x1_0000) + Le16Bytes(a.y % 0x1_0000) + Le16Bytes(a.z % 0x1_0000)
  }

  /** Decoding is the inverse of the storage layout, in both directions. */
  lemma AccelDataRoundTrip(a: AccelData, t: seq<u8>)
    ensures AccelDataOf(AccelBytes(a)) == Returns(a)
    ensures |t| == 6 ==> AccelBytes(AccelDataOf(t).value) == t
  {
    var b := AccelBytes(a);
    assert Le16At(b, 0) == Le16At(b[0..2], 0) && Le16At(b, 2) == Le16At(b[2..4], 0) && Le16At(b, 4) == Le16At(b[4..6], 0);
    if |t| == 6 {
      Le16BytesOfLe16At(t, 0);
      Le16BytesOfLe16At(t, 2);
      Le16BytesOfLe16At(t, 4);
      assert t == t[0..2] + t[2..4] + t[4..6];
    }
  }

  /* ---------------------------------------------------------------- fans */

  /** Fan `i`'s speed entry in the 8 bytes read at `EC_MEMMAP_FAN`. */
  function FanSpeed(fans: seq<u8>, i: nat): u16
    requires 2 * i + 2 <= |fans|
  {
    Le16At(fans, 2 * i)
  }

  /** How many of the first `n` fan entries are not the "not present" sentinel. */
  function PresentFans(fans: seq<u8>, n: nat): (c: nat)
    requires 2 * n <= |fans|
    ensures c <= n
  {
    if n == 0 then 0
    else PresentFans(fans, n - 1) + (if FanSpeed(fans, n - 1) == EC_FAN_SPEED_NOT_PRESENT then 0 else 1)
  }

  /** The fans that count as present: every entry but 0xFFFF, so a stalled fan (0xFFFE) counts. */
  function PresentFanSet(fans: seq<u8>, n: nat): set<nat>
    requires 2 * n <= |fans|
  {
    set i: nat | i < n && FanSpeed(fans, i) != EC_FAN_SPEED_NOT_PRESENT
  }

  /** The count is the number of entries that are not 0xFFFF. */
  lemma {:induction false} PresentFansIsCardinality(fans: seq<u8>, n: nat)
    requires 2 * n <= |fans|
    ensures PresentFans(fans, n) == |PresentFanSet(fans, n)|
  {
    if n > 0 {
      PresentFansIsCardinality(fans, n - 1);
      var prev := PresentFanSet(fans, n - 1);
      if FanSpeed(fans, n - 1) == EC_FAN_SPEED_NOT_PRESENT {
        assert PresentFanSet(fans, n) == prev;
      } else {
        assert PresentFanSet(fans, n) == prev + {n - 1};
        assert n - 1 !in prev;
      }
    }
  }

  /** The count is n exactly when no entry is 0xFFFF, and 0 exactly when every entry is. */
  lemma {:induction false} PresentFansExtremes(fans: seq<u8>, n: nat)
    requires 2 * n <= |fans|
    ensures PresentFans(fans, n) == n <==> forall i :: 0 <= i < n ==> FanSpeed(fans, i) != EC_FAN_SPEED_NOT_PRESENT
    ensures PresentFans(fans, n) == 0 <==> forall i :: 0 <= i < n ==> FanSpeed(fans, i) == EC_FAN_SPEED_NOT_PRESENT
  {
    if n > 0 {
      PresentFansExtremes(fans, n - 1);
    }
  }

  /**
   * `get_fan_num`: reads the 8-byte fan table (a failed read is an unwrap
   * panic, a short one an index panic) and counts the entries that are not
   * "not present".
   */
  method GetFanNum(mem: MemoryMap) returns (r: Outcome<Result<nat, EcError>>)
    ensures mem(EC_MEMMAP_FAN, 8).None? ==> r == Panics(UNWRAP_PANIC)
    ensures mem(EC_MEMMAP_FAN, 8).Some? ==>
      (r.Returns? <==> |mem(EC_MEMMAP_FAN, 8).value| >= 2 * EC_FAN_SPEED_ENTRIES)
    ensures r.Returns? ==> r.value == Ok(PresentFans(mem(EC_MEMMAP_FAN, 8).value, EC_FAN_SPEED_ENTRIES))
  {
    var read := mem(EC_MEMMAP_FAN, 8);
    if read.None? {
      return Panics(UNWRAP_PANIC);
    }
    var fans := read.value;
    var count := 0;
    for i := 0 to EC_FAN_SPEED_ENTRIES
      invariant 2 * i <= |fans|
      invariant count == PresentFans(fans, i)
    {
      if |fans| < 2 * i + 2 {
        return Panics(INDEX_PANIC);
      }
      var fan := Le16(fans[i * 2], fans[1 + i * 2]);
      if fan == EC_FAN_SPEED_NOT_PRESENT {
        continue;
      }
      count := count + 1;
    }
    r := Returns(Ok(count));
  }

  /* ---------------------------------------------------------------- battery block */

  /** `read_u32`: 4 bytes; a read of any other length is 0 (after an error log); no read at all panics. */
  function ReadU32(mem: MemoryMap, address: u16): (r: Outcome<u32>)
    ensures r.Panics? <==> mem(address, 4).None?
    ensures r.Returns? && |mem(address, 4).value| == 4 ==> Le32Bytes(r.value) == mem(address, 4).value
    ensures r.Returns? && |mem(address, 4).value| != 4 ==> r.value == 0
  {
    match mem(address, 4)
    case None => Panics(UNWRAP_PANIC)
    case Some(bytes) =>
      if |bytes| != 4 then Returns(0)
      else (Le32BytesOfLe32At(bytes, 0); Returns(Le32At(bytes, 0)))
  }

  /** `read_memory(address, 1).unwrap()[0]`. */
  function ReadByte(mem: MemoryMap, address: u16): (r: Outcome<u8>)
    ensures r.Returns? <==> mem(address, 1).Some? && |mem(address, 1).value| >= 1
    ensures r.Returns? ==> r.value == mem(address, 1).value[0]
  {
    match mem(address, 1)
    case None => Panics(UNWRAP_PANIC)
    case Some(bytes) => if |bytes| == 0 then Panics(INDEX_PANIC) else Returns(bytes[0])
  }

  /** `str::replace(['\0'], "")`: every NUL removed. */
  function RemoveNul(s: string): (r: string)
    ensures '\0' !in r && |r| <= |s|
    ensures '\0' !in s ==> r == s
  {
    if s == [] then []
    else if s[0] == '\0' then RemoveNul(s[1..])
    else [s[0]] + RemoveNul(s[1..])
  }

  /** Removing NULs works piecewise, so NUL padding after a string vanishes. */
  lemma {:induction false} RemoveNulAppend(a: string, b: string)
    ensures RemoveNul(a + b) == RemoveNul(a) + RemoveNul(b)
  {
    if a == [] {
      assert a + b == b;
    } else {
      assert (a + b)[1..] == a[1..] + b;
      RemoveNulAppend(a[1..], b);
    }
  }

  /** `read_string`: the 8 bytes decoded lossily, NULs removed. */
  function ReadString(mem: MemoryMap, address: u16): (r: Outcome<string>)
    ensures r.Panics? <==> mem(address, EC_MEMMAP_TEXT_MAX).None?
    ensures r.Returns? ==> '\0' !in r.value
  {
    match mem(address, EC_MEMMAP_TEXT_MAX)
    case None => Panics(UNWRAP_PANIC)
    case Some(bytes) => Returns(RemoveNul(Utf8.Lossy(bytes)))
  }

  /** A text stored as UTF-8 and padded with NULs reads back as that text. */
  lemma ReadStringOfText(mem: MemoryMap, address: u16, text: string, pad: nat)
    requires '\0' !in text
    requires mem(address, EC_MEMMAP_TEXT_MAX) == Some(Utf8.Encode(text + seq(pad, _ => '\0')))
    ensures ReadString(mem, address) == Returns(text)
  {
    var nuls := seq(pad, _ => '\0');
    var bytes := Utf8.Encode(text + nuls);
    Utf8.LossyEncode(text + nuls);
    assert Utf8.Lossy(bytes) == text + nuls;
    RemoveNulAppend(text, nuls);
    NulsVanish(pad);
    assert RemoveNul(text + nuls) == text;
    assert ReadString(mem, address) == Returns(RemoveNul(Utf8.Lossy(bytes)));
  }

  lemma {:induction false} NulsVanish(n: nat)
    ensures RemoveNul(seq(n, _ => '\0')) == []
  {
    if n > 0 {
      assert seq(n, _ => '\0')[1..] == seq(n - 1, _ => '\0');
      NulsVanish(n - 1);
    }
  }

  /**
   * Everything `power_info` reads after the flag byte, in the order it reads
   * it.  The source reads the capacity at 0x48 a second time and discards
   * it; the memory map is a function here, so that read adds nothing.
   */
  datatype BatteryReadings = BatteryReadings(
    lfcc: u32, capacity: u32, voltage: u32, rate: u32,
    count: u8, index: u8, designCapacity: u32, designVoltage: u32, cycleCount: u32,
    manufacturer: string, model: string, serial: string, batteryType: string)

  /** Every read `power_info` makes after the flag byte is answered. */
  predicate BatteryReadable(mem: MemoryMap)
  {
    && ReadU32(mem, EC_MEMMAP_BATT_LFCC).Returns? && ReadU32(mem, EC_MEMMAP_BATT_CAP).Returns?
    && ReadU32(mem, EC_MEMMAP_BATT_VOLT).Returns? && ReadU32(mem, EC_MEMMAP_BATT_RATE).Returns?
    && ReadByte(mem, EC_MEMMAP_BATT_COUNT).Returns? && ReadByte(mem, EC_MEMMAP_BATT_INDEX).Returns?
    && ReadU32(mem, EC_MEMMAP_BATT_DCAP).Returns? && ReadU32(mem, EC_MEMMAP_BATT_DVLT).Returns?
    && ReadU32(mem, EC_MEMMAP_BATT_CCNT).Returns?
    && ReadString(mem, EC_MEMMAP_BATT_MFGR).Returns? && ReadString(mem, EC_MEMMAP_BATT_MODEL).Returns?
    && ReadString(mem, EC_MEMMAP_BATT_SERIAL).Returns? && ReadString(mem, EC_MEMMAP_BATT_TYPE).Returns?
  }

  /** The reads `power_info` performs after the flag byte; the first unanswered one panics. */
  function ReadBattery(mem: MemoryMap): (r: Outcome<BatteryReadings>)
    ensures r.Returns? <==> BatteryReadable(mem)
    ensures r.Returns? ==>
      && r.value.lfcc == ReadU32(mem, EC_MEMMAP_BATT_LFCC).value
      && r.value.capacity == ReadU32(mem, EC_MEMMAP_BATT_CAP).value
      && r.value.voltage == ReadU32(mem, EC_MEMMAP_BATT_VOLT).value
      && r.value.rate == ReadU32(mem, EC_MEMMAP_BATT_RATE).value
      && r.value.count == ReadByte(mem, EC_MEMMAP_BATT_COUNT).value
      && r.value.index == ReadByte(mem, EC_MEMMAP_BATT_INDEX).value
      && r.value.designCapacity == ReadU32(mem, EC_MEMMAP_BATT_DCAP).value
      && r.value.designVoltage == ReadU32(mem, EC_MEMMAP_BATT_DVLT).value
      && r.value.cycleCount == ReadU32(mem, EC_MEMMAP_BATT_CCNT).value
      && r.value.manufacturer == ReadString(mem, EC_MEMMAP_BATT_MFGR).value
      && r.value.model == ReadString(mem, EC_MEMMAP_BATT_MODEL).value
      && r.value.serial == ReadString(mem, EC_MEMMAP_BATT_SERIAL).value
      && r.value.batteryType == ReadString(mem, EC_MEMMAP_BATT_TYPE).value
  {
    var lfcc :- ReadU32(mem, EC_MEMMAP_BATT_LFCC);
    var capacity :- ReadU32(mem, EC_MEMMAP_BATT_CAP);
    var voltage :- ReadU32(mem, EC_MEMMAP_BATT_VOLT);
    var rate :- ReadU32(mem, EC_MEMMAP_BATT_RATE);
    var count :- ReadByte(mem, EC_MEMMAP_BATT_COUNT);
    var index :- ReadByte(mem, EC_MEMMAP_BATT_INDEX);
    var designCapacity :- ReadU32(mem, EC_MEMMAP_BATT_DCAP);
    var designVoltage :- ReadU32(mem, EC_MEMMAP_BATT_DVLT);
    var cycleCount :- ReadU32(mem, EC_MEMMAP_BATT_CCNT);
    var manufacturer :- ReadString(mem, EC_MEMMAP_BATT_MFGR);
    var model :- ReadString(mem, EC_MEMMAP_BATT_MODEL);
    var serial :- ReadString(mem, EC_MEMMAP_BATT_SERIAL);
    var batteryType :- ReadString(mem, EC_MEMMAP_BATT_TYPE);
    Returns(BatteryReadings(lfcc, capacity, voltage, rate, count, index, designCapacity,
                            designVoltage, cycleCount, manufacturer, model, serial, batteryType))
  }

  datatype BatteryInformation = BatteryInformation(
    presentVoltage: u32, presentRate: u32, remainingCapacity: u32,
    batteryCount: u8, currentBatteryIndex: u8, designCapacity: u32, designVoltage: u32,
    lastFullChargeCapacity: u32, cycleCount: u32, chargePercentage: u32,
    manufacturer: string, modelNumber: string, serialNumber: string, batteryType: string,
    discharging: bool, charging: bool, levelCritical: bool)

  datatype PowerInfo = PowerInfo(acPresent: bool, battery: Option<BatteryInformation>)

  /** `100 * battery_cap` in u32 arithmetic, which wraps in a release build. */
  function ChargeNumerator(capacity: u32): u32
  {
    (100 * capacity) % 0x1_0000_0000
  }

  /**
   * The record `power_info` builds from the flag byte and the readings: AC
   * from bit 0; a battery only when bit 1 is set, with the charge as
   * `100 * capacity / LFCC` (an LFCC of 0 is a division panic) and
   * discharging, charging and critical from bits 2, 3 and 4.
   */
  function PowerInfoFrom(flag: u8, b: BatteryReadings): (r: Outcome<PowerInfo>)
    ensures r.Panics? <==> Bit(flag, EC_BATT_FLAG_BATT_PRESENT) && b.lfcc == 0
    ensures r.Returns? ==> r.value.acPresent == Bit(flag, EC_BATT_FLAG_AC_PRESENT)
    ensures r.Returns? ==> (r.value.battery.Some? <==> Bit(flag, EC_BATT_FLAG_BATT_PRESENT))
    ensures r.Returns? && r.value.battery.Some? ==> var info := r.value.battery.value;
      && info.chargePercentage * b.lfcc <= ChargeNumerator(b.capacity) < (info.chargePercentage + 1) * b.lfcc
      && info.remainingCapacity == b.capacity && info.lastFullChargeCapacity == b.lfcc
      && info.discharging == Bit(flag, EC_BATT_FLAG_DISCHARGING)
      && info.charging == Bit(flag, EC_BATT_FLAG_CHARGING)
      && info.levelCritical == Bit(flag, EC_BATT_FLAG_LEVEL_CRITICAL)
  {
    var acPresent := Bit(flag, EC_BATT_FLAG_AC_PRESENT);
    if !Bit(flag, EC_BATT_FLAG_BATT_PRESENT) then Returns(PowerInfo(acPresent, None))
    else if b.lfcc == 0 then Panics(DIVIDE_PANIC)
    else
      Returns(PowerInfo(acPresent, Some(BatteryInformation(
        b.voltage, b.rate, b.capacity, b.count, b.index, b.designCapacity, b.designVoltage,
        b.lfcc, b.cycleCount, ChargeNumerator(b.capacity) / b.lfcc,
        b.manufacturer, b.model, b.serial, b.batteryType,
        Bit(flag, EC_BATT_FLAG_DISCHARGING), Bit(flag, EC_BATT_FLAG_CHARGING),
        Bit(flag, EC_BATT_FLAG_LEVEL_CRITICAL)))))
  }

  /**
   * `power_info`: no flag byte means no information; otherwise every field
   * is read (each read can panic) and the record is built from the flag.
   */
  function PowerInfoOf(mem: MemoryMap): (r: Outcome<Option<PowerInfo>>)
    ensures mem(EC_MEMMAP_BATT_FLAG, 1).None? <==> r == Returns(None)
    ensures mem(EC_MEMMAP_BATT_FLAG, 1) == Some([]) ==> r == Panics(INDEX_PANIC)
    ensures r.Returns? && r.value.Some? ==>
      var flag := mem(EC_MEMMAP_BATT_FLAG, 1).value;
      && |flag| >= 1 && ReadBattery(mem).Returns?
      && PowerInfoFrom(flag[0], ReadBattery(mem).value) == Returns(r.value.value)
  {
    match mem(EC_MEMMAP_BATT_FLAG, 1)
    case None => Returns(None)
    case Some(flag) =>
      if |flag| == 0 then Panics(INDEX_PANIC)
      else
        var readings :- ReadBattery(mem);
        var info :- PowerInfoFrom(flag[0], readings);
        Returns(Some(info))
  }

  /** `check_update_ready`: no battery, or AC plugged in with more than 20% charge. */
  predicate CheckUpdateReady(p: PowerInfo)
  {
    p.battery.None? || (p.acPresent && p.battery.value.chargePercentage > 20)
  }

  /**
   * In terms of the memory map: an update may proceed iff the battery bit is
   * clear, or the AC bit is set and the charge is above 20%, that is when
   * 100 * capacity exceeds 21 * LFCC.
   */
  lemma UpdateReadyFromFlags(flag: u8, b: BatteryReadings)
    requires PowerInfoFrom(flag, b).Returns?
    ensures CheckUpdateReady(PowerInfoFrom(flag, b).value) <==>
      !Bit(flag, EC_BATT_FLAG_BATT_PRESENT) ||
      (Bit(flag, EC_BATT_FLAG_AC_PRESENT) && ChargeNumerator(b.capacity) >= 21 * b.lfcc)
  {
    var p := PowerInfoFrom(flag, b).value;
    if p.battery.Some? {
      var pct := p.battery.value.chargePercentage;
      var n := ChargeNumerator(b.capacity);
      if pct > 20 {
        MulMonotone(21, pct, b.lfcc);
      } else if n >= 21 * b.lfcc {
        MulMonotone(pct + 1, 21, b.lfcc);
      }
    }
  }

  lemma MulMonotone(a: nat, b: nat, c: nat)
    requires a <= b
    ensures a * c <= b * c
  {
  }

  /** `is_standalone` and `standalone_mode`: no information, or no battery. */
  predicate IsStandalone(info: Option<PowerInfo>)
  {
    info.None? || info.value.battery.None?
  }

  /** Standalone means the flag byte is missing or its battery bit is clear. */
  lemma StandaloneFromFlags(mem: MemoryMap)
    requires PowerInfoOf(mem).Returns?
    ensures IsStandalone(PowerInfoOf(mem).value) <==>
      mem(EC_MEMMAP_BATT_FLAG, 1).None? || !Bit(mem(EC_MEMMAP_BATT_FLAG, 1).value[0], EC_BATT_FLAG_BATT_PRESENT)
  {
  }

  /* ---------------------------------------------------------------- PD versions */

  /**
   * `parse_pd_ver`: an 8-byte record whose base version is laid out as in
   * the CCGx registers and whose application is always reported as
   * notebook, with circuit byte 6 and version nibbles in byte 7.
   */
  function ParsePdVer(data: seq<u8>): (r: Ccgx.ControllerVersion)
    requires |data| == 8
    ensures r.base == Ccgx.BaseVersionOf(data[..4]).value
    ensures r.app == Ccgx.AppVersionOf(data[4..]).value.(application := Ccgx.Notebook)
  {
    Ccgx.ControllerVersion(
      Ccgx.BaseVersion(data[3] / 16, data[3] % 16, data[2], Le16(data[0], data[1])),
      Ccgx.AppVersion(Ccgx.Notebook, data[7] / 16, data[7] % 16, data[6]))
  }

  /** `parse_pd_ver_slice`: the first 8 bytes of a slice; a shorter one is an index panic. */
  function ParsePdVerSlice(data: seq<u8>): (r: Outcome<Ccgx.ControllerVersion>)
    ensures r.Returns? <==> |data| >= 8
    ensures r.Returns? ==> r.value == ParsePdVer(data[..8])
  {
    if |data| < 8 then Panics(INDEX_PANIC) else Returns(ParsePdVer(data[..8]))
  }

  /** The first `n` 8-byte records after the count byte. */
  function PdRecords(info: seq<u8>, n: nat): (r: seq<Ccgx.ControllerVersion>)
    requires 1 + 8 * n <= |info|
    ensures |r| == n
    ensures forall i :: 0 <= i < n ==> r[i] == ParsePdVer(info[1 + 8 * i..1 + 8 * (i + 1)])
  {
    if n == 0 then [] else PdRecords(info, n - 1) + [ParsePdVer(info[1 + 8 * (n - 1)..1 + 8 * n])]
  }

  const NOT_ENOUGH_DATA: string := "Not enough data returned"

  /**
   * The version 1 reply: a count byte, then that many 8-byte records; an
   * empty reply is an index panic and a short one a `DeviceError`.
   */
  function PdVersionsV1(info: seq<u8>): (r: Outcome<Result<Ccgx.MainPdVersions, EcError>>)
    ensures r.Panics? <==> |info| == 0
    ensures r == Returns(Err(DeviceError(NOT_ENOUGH_DATA))) <==> |info| > 0 && |info| < 1 + 8 * (info[0] as nat)
    ensures r.Returns? && r.value.Ok? ==>
      r.value.value.Many? && |r.value.value.versions| == info[0]
      && forall i :: 0 <= i < info[0] ==> r.value.value.versions[i] == ParsePdVer(info[1 + 8 * i..9 + 8 * i])
  {
    if |info| == 0 then Panics(INDEX_PANIC)
    else if |info| < 1 + 8 * (info[0] as nat) then Returns(Err(DeviceError(NOT_ENOUGH_DATA)))
    else Returns(Ok(Ccgx.Many(PdRecords(info, info[0]))))
  }

  /** `_EcResponseReadPdVersion`: two 8-byte records. */
  const PD_VERSION_V0_LEN: nat := 16

  /** The version 0 reply: one controller when the second record is all zeros, otherwise both. */
  function PdVersionsV0(resp: seq<u8>): (r: Ccgx.MainPdVersions)
    requires |resp| == PD_VERSION_V0_LEN
    ensures r.Single? <==> resp[8..] == seq(8, _ => 0)
    ensures r.Single? ==> r.only == ParsePdVer(resp[..8])
    ensures r.RightLeft? ==> r.right == ParsePdVer(resp[..8]) && r.left == ParsePdVer(resp[8..])
  {
    if resp[8..] == [0, 0, 0, 0, 0, 0, 0, 0] then Ccgx.Single(ParsePdVer(resp[..8]))
    else Ccgx.RightLeft(ParsePdVer(resp[..8]), ParsePdVer(resp[8..]))
  }

  /** `ReadPdVersion` with no parameters at the given command version. */
  function PdVersionRequest(version: u8): EcCommand.Request
  {
    EcCommand.Request(EcCommand.Id(EcCommand.ReadPdVersion), version, [])
  }

  /**
   * `read_pd_version`: version 1 first; only an `InvalidVersion` answer
   * falls back to version 0, any other error is returned.
   */
  function ReadPdVersionOf(send: EcCommand.Transport, windows: bool): (r: Outcome<Result<Ccgx.MainPdVersions, EcError>>)
  {
    var v1 := send(EcCommand.Id(EcCommand.ReadPdVersion), 1, []);
    if v1 == Err(Response(InvalidVersion)) then
      var v0 := EcCommand.CheckSize(send(EcCommand.Id(EcCommand.ReadPdVersion), 0, []), PD_VERSION_V0_LEN, windows);
      if v0.Err? then Returns(Err(v0.error)) else Returns(Ok(PdVersionsV0(v0.value)))
    else if v1.Err? then Returns(Err(v1.error))
    else PdVersionsV1(v1.value)
  }

  /**
   * The records come from the version 1 reply unless it was refused as an
   * invalid version; a version 1 reply yields `Many`, the fallback never does.
   */
  lemma ReadPdVersionSources(send: EcCommand.Transport, windows: bool)
    ensures var v1 := send(EcCommand.Id(EcCommand.ReadPdVersion), 1, []);
      && (v1.Ok? ==> ReadPdVersionOf(send, windows) == PdVersionsV1(v1.value))
      && (v1.Err? && v1 != Err(Response(InvalidVersion)) ==> ReadPdVersionOf(send, windows) == Returns(Err(v1.error)))
      && ((v1 == Err(Response(InvalidVersion)) && ReadPdVersionOf(send, windows).Returns? &&
           ReadPdVersionOf(send, windows).value.Ok?) ==> !ReadPdVersionOf(send, windows).value.value.Many?)
  {
  }

  /**
   * `read_pd_version`, pushing one record per reported controller; the
   * ghost `versions` lists the command versions sent, in order.
   */
  method ReadPdVersion(send: EcCommand.Transport, windows: bool)
    returns (r: Outcome<Result<Ccgx.MainPdVersions, EcError>>, ghost versions: seq<u8>)
    ensures r == ReadPdVersionOf(send, windows)
    ensures versions == (if send(EcCommand.Id(EcCommand.ReadPdVersion), 1, []) == Err(Response(InvalidVersion))
                         then [1, 0] else [1])
  {
    var info := EcCommand.SendCommandVec(PdVersionRequest(1), send);
    versions := [1];
    if info == Err(Response(InvalidVersion)) {
      var v0 := EcCommand.SendCommand(PdVersionRequest(0), PD_VERSION_V0_LEN, windows, send);
      versions := versions + [0];
      if v0.Err? {
        return Returns(Err(v0.error)), versions;
      }
      return Returns(Ok(PdVersionsV0(v0.value))), versions;
    }
    if info.Err? {
      return Returns(Err(info.error)), versions;
    }
    r := ReadManyVersions(info.value);
  }

  /**
   * The version 1 loop of `read_pd_version`: one record per reported
   * controller, stopping with an error at the first record the reply lacks.
   */
  method ReadManyVersions(data: seq<u8>) returns (r: Outcome<Result<Ccgx.MainPdVersions, EcError>>)
    ensures r == PdVersionsV1(data)
  {
    if |data| == 0 {
      return Panics(INDEX_PANIC);
    }
    var found: seq<Ccgx.ControllerVersion> := [];
    var pdCount := data[0];
    for i := 0 to pdCount
      invariant 1 + 8 * i <= |data|
      invariant found == PdRecords(data, i)
    {
      if |data| < 1 + 8 * (i + 1) {
        return Returns(Err(DeviceError(NOT_ENOUGH_DATA)));
      }
      var v := ParsePdVerSlice(data[1 + 8 * i..1 + 8 * (i + 1)]);
      found := found + [v.value];
    }
    r := Returns(Ok(Ccgx.Many(found)));
  }
}
