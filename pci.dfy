// PCI configuration-space access and bus enumeration, kernel/src/pci.rs.
// Two access paths: configuration mechanism #1 through the I/O ports 0xCF8
// and 0xCFC (section 3.2.2.3.2 of the PCI Local Bus Specification 3.0) and
// the memory-mapped ECAM window found through the MCFG table (section 7.2.2
// of the PCI Express Base Specification).  The hardware answers are
// oracles: what the data port returns for an address written to the
// address port, and the dword at a physical address.

module Pci {
  import opened Base

  const CONFIG_ADDRESS: nat := 0xCF8
  const CONFIG_DATA: nat := 0xCFC

  /** The hardware: the data-port answer per configuration address, and the physical dwords. */
  datatype ConfigSpace = ConfigSpace(port: bv32 -> bv32, ecam: nat -> bv32)

  // ---- configuration mechanism #1 -------------------------------------------

  /**
   * The configuration address of `pci_config_read_u32`: enable bit 31, bus
   * in bits 16-23, device in 11-15, function in 8-10 and the dword-aligned
   * register offset in 2-7.
   */
  function ConfigAddress(bus: bv8, device: bv8, func: bv8, offset: bv8): bv32
  {
    (1 << 31) | ((bus as bv32) << 16) | ((device as bv32) << 11) | ((func as bv32) << 8) | ((offset as bv32) & 0xFC)
  }

  lemma ConfigAddressBits(bus: bv32, device: bv32, func: bv32, offset: bv32)
    requires bus < 0x100 && device < 32 && func < 8 && offset < 0x100
    ensures var a := (1 << 31) | (bus << 16) | (device << 11) | (func << 8) | (offset & 0xFC);
      a >> 31 == 1 && (a >> 24) & 0x7F == 0 && (a >> 16) & 0xFF == bus &&
      (a >> 11) & 0x1F == device && (a >> 8) & 0x7 == func && a & 0xFF == offset & 0xFC
  {
  }

  /**
   * With a device number below 32 and a function number below 8 the fields
   * do not overlap: each can be read back from the address, and bits 0-1
   * and 24-30 are zero.
   */
  lemma ConfigAddressRoundTrip(bus: bv8, device: bv8, func: bv8, offset: bv8)
    requires device < 32 && func < 8
    ensures var a := ConfigAddress(bus, device, func, offset);
      a >> 31 == 1 && (a >> 24) & 0x7F == 0 &&
      (a >> 16) & 0xFF == bus as bv32 && (a >> 11) & 0x1F == device as bv32 &&
      (a >> 8) & 0x7 == func as bv32 && a & 0xFF == (offset & 0xFC) as bv32 && a & 3 == 0
  {
    ConfigAddressBits(bus as bv32, device as bv32, func as bv32, offset as bv32);
  }

  // ---- MMCONFIG ---------------------------------------------------------------

  /** `MMCONFIG_BASE`, `MMCONFIG_START_BUS`, `MMCONFIG_END_BUS`; all zero until set. */
  datatype MmConfig = MmConfig(base: U64, startBus: bv8, endBus: bv8)

  const NO_MMCONFIG: MmConfig := MmConfig(0, 0, 0)

  /** `is_mmconfig_available`: a base was set and the bus lies in the decoded range. */
  predicate MmconfigAvailable(cfg: MmConfig, bus: bv8)
  {
    cfg.base != 0 && cfg.startBus <= bus <= cfg.endBus
  }

  /**
   * The physical address `mmconfig_read_u32` reads:
   * `base + bus << 20 + device << 15 + function << 12 + offset`.
   */
  function EcamAddress(base: nat, bus: nat, device: nat, func: nat, offset: nat): nat
  {
    base + bus * 0x10_0000 + device * 0x8000 + func * 0x1000 + offset
  }

  /**
   * Within the 256 MiB window of one segment, distinct (bus, device,
   * function, offset) give distinct addresses.
   */
  lemma EcamInjective(base: nat, b1: nat, d1: nat, f1: nat, o1: nat, b2: nat, d2: nat, f2: nat, o2: nat)
    requires d1 < 32 && d2 < 32 && f1 < 8 && f2 < 8 && o1 < 0x1000 && o2 < 0x1000
    requires EcamAddress(base, b1, d1, f1, o1) == EcamAddress(base, b2, d2, f2, o2)
    ensures b1 == b2 && d1 == d2 && f1 == f2 && o1 == o2
  {
    var x1 := f1 * 0x1000 + o1;
    var x2 := f2 * 0x1000 + o2;
    DigitUnique(d1 * 0x8000 + x1, b1, d2 * 0x8000 + x2, b2, 0x10_0000);
    DigitUnique(x1, d1, x2, d2, 0x8000);
    DigitUnique(o1, f1, o2, f2, 0x1000);
  }

  /** Two mixed-radix numbers `hi * m + lo` with `lo < m` agree only digit by digit. */
  lemma DigitUnique(lo1: nat, hi1: nat, lo2: nat, hi2: nat, m: nat)
    requires lo1 < m && lo2 < m && hi1 * m + lo1 == hi2 * m + lo2
    ensures hi1 == hi2 && lo1 == lo2
  {
    if hi1 < hi2 {
      MulMono(hi1 + 1, hi2, m);
    } else if hi2 < hi1 {
      MulMono(hi2 + 1, hi1, m);
    }
  }

  /** The global MMCONFIG settings, written by `set_mmconfig`. */
  class PciGlobals {
    var mmconfig: MmConfig

    constructor ()
      ensures mmconfig == NO_MMCONFIG
    {
      mmconfig := NO_MMCONFIG;
    }

    /**
     * `set_mmconfig`: segment groups other than 0 are not supported and
     * leave the settings unchanged; otherwise all three are stored.
     */
    method SetMmconfig(base: U64, segment: nat, startBus: bv8, endBus: bv8)
      modifies this
      ensures segment != 0 ==> mmconfig == old(mmconfig)
      ensures segment == 0 ==> mmconfig == MmConfig(base, startBus, endBus)
    {
      if segment != 0 {
        return;
      }
      mmconfig := MmConfig(base, startBus, endBus);
    }
  }

  // ---- unified reads ------------------------------------------------------------

  /** `pci_unified_read_u32`: MMCONFIG when it covers the bus, the I/O ports otherwise. */
  function ReadU32(hw: ConfigSpace, cfg: MmConfig, bus: bv8, device: bv8, func: bv8, offset: bv8): bv32
  {
    if MmconfigAvailable(cfg, bus) then hw.ecam(EcamAddress(cfg.base, bus as nat, device as nat, func as nat, offset as nat))
    else hw.port(ConfigAddress(bus, device, func, offset))
  }

  /** `pci_unified_read_u16`: the half of the aligned dword that `offset & 2` selects. */
  function ReadU16(hw: ConfigSpace, cfg: MmConfig, bus: bv8, device: bv8, func: bv8, offset: bv8): bv16
  {
    var data := ReadU32(hw, cfg, bus, device, func, offset & 0xFC);
    var shift := ((offset & 0x02) as bv32) * 8;
    ((data >> shift) & 0xFFFF) as bv16
  }

  /** `pci_unified_read_u8`: the byte of the aligned dword that `offset & 3` selects. */
  function ReadU8(hw: ConfigSpace, cfg: MmConfig, bus: bv8, device: bv8, func: bv8, offset: bv8): bv8
  {
    var data := ReadU32(hw, cfg, bus, device, func, offset & 0xFC);
    var shift := ((offset & 0x03) as bv32) * 8;
    ((data >> shift) & 0xFF) as bv8
  }

  /** The 16-bit field at an even byte offset of a dword is the pair of its bytes. */
  lemma HalfIsTwoBytes(data: bv32, offset: bv8)
    requires offset & 1 == 0
    ensures ((data >> (((offset & 0x02) as bv32) * 8)) & 0xFFFF) as bv16 ==
      ((((data >> ((((offset + 1) & 0x03) as bv32) * 8)) & 0xFF) as bv8 as bv16) << 8) |
      (((data >> (((offset & 0x03) as bv32) * 8)) & 0xFF) as bv8 as bv16)
  {
    if offset & 2 == 0 {
      assert offset & 3 == 0 && (offset + 1) & 3 == 1;
    } else {
      assert offset & 3 == 2 && (offset + 1) & 3 == 3;
    }
  }

  /** The byte after an even offset is read from the same aligned dword. */
  lemma NextByteSameDword(hw: ConfigSpace, cfg: MmConfig, bus: bv8, device: bv8, func: bv8, offset: bv8)
    requires offset & 1 == 0
    ensures ReadU8(hw, cfg, bus, device, func, offset + 1) ==
      ((ReadU32(hw, cfg, bus, device, func, offset & 0xFC) >> ((((offset + 1) & 0x03) as bv32) * 8)) & 0xFF) as bv8
  {
    assert (offset + 1) & 0xFC == offset & 0xFC;
  }

  /**
   * A 16-bit read at an even offset is the little-endian pair of the 8-bit
   * reads at that offset and the next: both take the same dword.
   */
  lemma ReadU16IsTwoBytes(hw: ConfigSpace, cfg: MmConfig, bus: bv8, device: bv8, func: bv8, offset: bv8)
    requires offset & 1 == 0
    ensures ReadU16(hw, cfg, bus, device, func, offset) ==
      ((ReadU8(hw, cfg, bus, device, func, offset + 1) as bv16) << 8) | (ReadU8(hw, cfg, bus, device, func, offset) as bv16)
  {
    var data := ReadU32(hw, cfg, bus, device, func, offset & 0xFC);
    NextByteSameDword(hw, cfg, bus, device, func, offset);
    HalfIsTwoBytes(data, offset);
  }

  // ---- devices -----------------------------------------------------------------

  datatype PciDevice = PciDevice(
    bus: bv8, device: bv8, func: bv8,
    vendorId: bv16, deviceId: bv16,
    classCode: bv8, subclass: bv8, progIf: bv8, revision: bv8, headerType: bv8)

  /**
   * `PciDevice::read`: no device when the vendor id reads 0xFFFF; otherwise
   * the identification registers of the configuration header.
   */
  function ReadDevice(hw: ConfigSpace, cfg: MmConfig, bus: bv8, device: bv8, func: bv8): (r: Option<PciDevice>)
    ensures r.None? <==> ReadU16(hw, cfg, bus, device, func, 0x00) == 0xFFFF
    ensures r.Some? ==> r.value.bus == bus && r.value.device == device && r.value.func == func
    ensures r.Some? ==> r.value.vendorId != 0xFFFF
  {
    var vendorId := ReadU16(hw, cfg, bus, device, func, 0x00);
    if vendorId == 0xFFFF then None
    else
      Some(PciDevice(bus, device, func, vendorId,
        ReadU16(hw, cfg, bus, device, func, 0x02),
        ReadU8(hw, cfg, bus, device, func, 0x0B),
        ReadU8(hw, cfg, bus, device, func, 0x0A),
        ReadU8(hw, cfg, bus, device, func, 0x09),
        ReadU8(hw, cfg, bus, device, func, 0x08),
        ReadU8(hw, cfg, bus, device, func, 0x0E)))
  }

  /**
   * The vendor and device ids share the first dword, the revision, the
   * programming interface, the subclass and the class code make up the
   * third, as in the PCI configuration header layout.
   */
  lemma ReadDeviceFields(hw: ConfigSpace, cfg: MmConfig, bus: bv8, device: bv8, func: bv8)
    requires ReadDevice(hw, cfg, bus, device, func).Some?
    ensures var d := ReadDevice(hw, cfg, bus, device, func).value;
      var id := ReadU32(hw, cfg, bus, device, func, 0x00);
      var cls := ReadU32(hw, cfg, bus, device, func, 0x08);
      d.vendorId as bv32 == id & 0xFFFF && d.deviceId as bv32 == id >> 16 &&
      d.revision as bv32 == cls & 0xFF && d.progIf as bv32 == (cls >> 8) & 0xFF &&
      d.subclass as bv32 == (cls >> 16) & 0xFF && d.classCode as bv32 == cls >> 24
  {
  }

  /** `PciDevice::class_name`: the base-class names of the PCI code and ID assignment. */
  function ClassName(classCode: bv8): string
  {
    match classCode
    case 0x00 => "Unclassified"
    case 0x01 => "Mass Storage Controller"
    case 0x02 => "Network Controller"
    case 0x03 => "Display Controller"
    case 0x04 => "Multimedia Controller"
    case 0x05 => "Memory Controller"
    case 0x06 => "Bridge Device"
    case 0x07 => "Simple Communication Controller"
    case 0x08 => "Base System Peripheral"
    case 0x09 => "Input Device Controller"
    case 0x0A => "Docking Station"
    case 0x0B => "Processor"
    case 0x0C => "Serial Bus Controller"
    case 0x0D => "Wireless Controller"
    case 0x0E => "Intelligent Controller"
    case 0x0F => "Satellite Communication Controller"
    case 0x10 => "Encryption Controller"
    case 0x11 => "Signal Processing Controller"
    case 0xFF => "Unknown"
    case _ => "Reserved"
  }

  /** Codes 0x12 to 0xFE are reserved; every assigned code has a name of its own. */
  lemma ClassNameReserved(classCode: bv8)
    ensures ClassName(classCode) == "Reserved" <==> 0x12 <= classCode < 0xFF
  {
  }

  // ---- bus scan ------------------------------------------------------------------

  predicate MultiFunction(d: PciDevice) { d.headerType & 0x80 != 0 }

  function Found(r: Option<PciDevice>): seq<PciDevice>
  {
    if r.Some? then [r.value] else []
  }

  /** Functions 1 to `n` of a multi-function device, in order. */
  function OtherFunctions(hw: ConfigSpace, cfg: MmConfig, bus: bv8, device: bv8, n: nat): seq<PciDevice>
    requires n < 8
  {
    if n == 0 then [] else OtherFunctions(hw, cfg, bus, device, n - 1) + Found(ReadDevice(hw, cfg, bus, device, n as bv8))
  }

  /** What one device slot contributes: function 0, then 1-7 only for a multi-function device. */
  function SlotDevices(hw: ConfigSpace, cfg: MmConfig, bus: bv8, device: bv8): seq<PciDevice>
  {
    match ReadDevice(hw, cfg, bus, device, 0)
    case None => []
    case Some(d0) => [d0] + (if MultiFunction(d0) then OtherFunctions(hw, cfg, bus, device, 7) else [])
  }

  /** Device slots 0 to `n - 1` of one bus. */
  function BusDevices(hw: ConfigSpace, cfg: MmConfig, bus: bv8, n: nat): seq<PciDevice>
    requires n <= 32
  {
    if n == 0 then [] else BusDevices(hw, cfg, bus, n - 1) + SlotDevices(hw, cfg, bus, (n - 1) as bv8)
  }

  /** Buses 0 to `n - 1`. */
  function Scan(hw: ConfigSpace, cfg: MmConfig, n: nat): seq<PciDevice>
    requires n <= 256
  {
    if n == 0 then [] else Scan(hw, cfg, n - 1) + BusDevices(hw, cfg, (n - 1) as bv8, 32)
  }

  /** The inner loop over functions 1-7. */
  method ProbeFunctions(hw: ConfigSpace, cfg: MmConfig, bus: bv8, device: bv8) returns (found: seq<PciDevice>)
    ensures found == OtherFunctions(hw, cfg, bus, device, 7)
  {
    found := [];
    for func := 1 to 8
      invariant found == OtherFunctions(hw, cfg, bus, device, func - 1)
    {
      var d := ReadDevice(hw, cfg, bus, device, func as bv8);
      if d.Some? {
        found := found + [d.value];
      }
    }
  }

  /** The device loop over one bus. */
  method ScanBus(hw: ConfigSpace, cfg: MmConfig, bus: bv8) returns (found: seq<PciDevice>)
    ensures found == BusDevices(hw, cfg, bus, 32)
  {
    found := [];
    for device := 0 to 32
      invariant found == BusDevices(hw, cfg, bus, device)
    {
      var d0 := ReadDevice(hw, cfg, bus, device as bv8, 0);
      if d0.Some? {
        var slot := [d0.value];
        if MultiFunction(d0.value) {
          var rest := ProbeFunctions(hw, cfg, bus, device as bv8);
          slot := slot + rest;
        }
        found := found + slot;
      }
    }
  }

  /**
   * `scan_pci_bus`: probe function 0 of every device slot of every bus, and
   * functions 1-7 where header type bit 7 marks a multi-function device.
   * `device_count` is the number of functions found.
   */
  method ScanPciBus(hw: ConfigSpace, cfg: MmConfig) returns (devices: seq<PciDevice>, deviceCount: nat)
    ensures devices == Scan(hw, cfg, 256)
    ensures deviceCount == |devices|
  {
    devices := [];
    deviceCount := 0;
    for bus := 0 to 256
      invariant devices == Scan(hw, cfg, bus)
      invariant deviceCount == |devices|
    {
      var onBus := ScanBus(hw, cfg, bus as bv8);
      devices := devices + onBus;
      deviceCount := deviceCount + |onBus|;
    }
  }

  /** Every function the scan reports answered with a vendor id other than 0xFFFF, in slot order. */
  predicate Reported(hw: ConfigSpace, cfg: MmConfig, d: PciDevice)
  {
    d.device < 32 && d.func < 8 &&
    ReadDevice(hw, cfg, d.bus, d.device, d.func) == Some(d) &&
    (d.func > 0 ==> (var d0 := ReadDevice(hw, cfg, d.bus, d.device, 0); d0.Some? && MultiFunction(d0.value)))
  }

  lemma {:induction false} OtherFunctionsReported(hw: ConfigSpace, cfg: MmConfig, bus: bv8, device: bv8, n: nat)
    requires n < 8 && device < 32
    requires var d0 := ReadDevice(hw, cfg, bus, device, 0); d0.Some? && MultiFunction(d0.value)
    ensures forall d :: d in OtherFunctions(hw, cfg, bus, device, n) ==>
      Reported(hw, cfg, d) && d.bus == bus && d.device == device && 1 <= d.func
  {
    if n > 0 {
      OtherFunctionsReported(hw, cfg, bus, device, n - 1);
    }
  }

  lemma {:induction false} BusDevicesReported(hw: ConfigSpace, cfg: MmConfig, bus: bv8, n: nat)
    requires n <= 32
    ensures forall d :: d in BusDevices(hw, cfg, bus, n) ==> Reported(hw, cfg, d) && d.bus == bus
  {
    if n > 0 {
      BusDevicesReported(hw, cfg, bus, n - 1);
      SlotReported(hw, cfg, bus, (n - 1) as bv8);
    }
  }

  /** Every function one device slot contributes is reported for that slot. */
  lemma SlotReported(hw: ConfigSpace, cfg: MmConfig, bus: bv8, device: bv8)
    requires device < 32
    ensures forall d :: d in SlotDevices(hw, cfg, bus, device) ==> Reported(hw, cfg, d) && d.bus == bus
  {
    var d0 := ReadDevice(hw, cfg, bus, device, 0);
    if d0.Some? && MultiFunction(d0.value) {
      OtherFunctionsReported(hw, cfg, bus, device, 7);
    }
  }

  /**
   * Every function the scan counts exists (vendor id not 0xFFFF) and is
   * what `PciDevice::read` returns for its own address; functions other
   * than 0 are only reported for multi-function devices.
   */
  lemma {:induction false} ScanReportsOnlyPresentFunctions(hw: ConfigSpace, cfg: MmConfig, n: nat)
    requires n <= 256
    ensures forall d :: d in Scan(hw, cfg, n) ==> Reported(hw, cfg, d) && d.vendorId != 0xFFFF
  {
    if n > 0 {
      ScanReportsOnlyPresentFunctions(hw, cfg, n - 1);
      BusDevicesReported(hw, cfg, (n - 1) as bv8, 32);
    }
  }

  lemma {:induction false} OtherFunctionsAtMost(hw: ConfigSpace, cfg: MmConfig, bus: bv8, device: bv8, n: nat)
    requires n < 8
    ensures |OtherFunctions(hw, cfg, bus, device, n)| <= n
  {
    if n > 0 {
      OtherFunctionsAtMost(hw, cfg, bus, device, n - 1);
    }
  }

  lemma {:induction false} BusDevicesAtMost(hw: ConfigSpace, cfg: MmConfig, bus: bv8, n: nat)
    requires n <= 32
    ensures |BusDevices(hw, cfg, bus, n)| <= 8 * n
  {
    if n > 0 {
      BusDevicesAtMost(hw, cfg, bus, n - 1);
      OtherFunctionsAtMost(hw, cfg, bus, (n - 1) as bv8, 7);
    }
  }

  /** At most 256 buses x 32 devices x 8 functions are counted. */
  lemma {:induction false} ScanAtMost(hw: ConfigSpace, cfg: MmConfig, n: nat)
    requires n <= 256
    ensures |Scan(hw, cfg, n)| <= 256 * n
  {
    if n > 0 {
      ScanAtMost(hw, cfg, n - 1);
      BusDevicesAtMost(hw, cfg, (n - 1) as bv8, 32);
    }
  }
}
