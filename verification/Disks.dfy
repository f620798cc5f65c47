/**
 * Disk numbering, targets, addresses and guest paths:
 * pkg/libvirttools/disklist.go and the drivers of
 * pkg/libvirttools/diskdriver.go.
 */
module Disks {
  import opened Common
  import opened Digits
  import opened PciPath

  datatype Kind = Virtio | Scsi

  /** getDiskDriverFactory */
  function KindOf(name: string): Option<Kind> {
    if name == "virtio" then Some(Virtio) else if name == "scsi" then Some(Scsi) else None
  }

  const MIN_CHAR := 'a'

  function MaxChar(kind: Kind): char {
    if kind.Virtio? then 'u' else 'z'
  }

  datatype Driver = Driver(kind: Kind, n: nat, diskChar: char)

  /** The driver of the n-th disk of a machine. */
  function MakeDriver(kind: Kind, n: nat): Result<Driver> {
    if MIN_CHAR as int + n > MaxChar(kind) as int then Err
    else Ok(Driver(kind, n, (MIN_CHAR as int + n) as char))
  }

  /** How many disks a driver can number. */
  function Capacity(kind: Kind): nat {
    if kind.Virtio? then 21 else 26
  }

  function DevName(d: Driver): string {
    (if d.kind.Virtio? then "vd" else "sd") + [d.diskChar]
  }

  datatype Drive = NoDrive | IncompleteDrive | DriveAt(controller: nat, bus: nat, target: nat, unit: nat)

  /** The address part of a disk definition. */
  datatype DiskAddress = DiskAddress(pci: Address, drive: Drive)

  function AddressOf(d: Driver): DiskAddress {
    if d.kind.Virtio? then DiskAddress(Pci(PciAddr(0, 1, d.n + 1, 0)), NoDrive)
    else DiskAddress(NoPci, DriveAt(0, 0, 0, d.n))
  }

  // ----- The disk list ----------------------------------------------------

  /** The target name of a disk tells its address: letter a is slot 1 of bus 1, or unit 0. */
  lemma NameTellsAddress(kind: Kind, n: nat)
    requires MakeDriver(kind, n).Ok?
    ensures var d := MakeDriver(kind, n).value;
            var index := d.diskChar as int - 'a' as int;
            && 0 <= index < Capacity(kind)
            && DevName(d) == (if kind.Virtio? then "vd" else "sd") + [d.diskChar]
            && AddressOf(d) == if kind.Virtio? then DiskAddress(Pci(PciAddr(0, 1, index + 1, 0)), NoDrive)
                               else DiskAddress(NoPci, DriveAt(0, 0, 0, index))
  {
  }

  /** A volume; tearing a rigid one down is an error when it is already gone. */
  datatype Volume = Volume(isDisk: bool, uuid: string, id: string, rigid: bool)

  datatype Item = Item(driver: Option<Driver>, volume: Volume)

  function DiskCount(volumes: seq<Volume>): nat {
    if volumes == [] then 0 else (if volumes[0].isDisk then 1 else 0) + DiskCount(volumes[1..])
  }

  function After(items: seq<Item>, r: Result<seq<Item>>): Result<seq<Item>> {
    if r.Err? then Err else Ok(items + r.value)
  }

  lemma AfterStep(items: seq<Item>, item: Item, r: Result<seq<Item>>)
    ensures After(items, After([item], r)) == After(items + [item], r)
  {
    if r.Ok? {
      assert items + ([item] + r.value) == items + [item] + r.value;
    }
  }

  /** newDiskList on the volumes that remain when `n` disks are numbered. */
  function Number(volumes: seq<Volume>, kind: Kind, n: nat): Result<seq<Item>> {
    if volumes == [] then Ok([])
    else if !volumes[0].isDisk then
      After([Item(None, volumes[0])], Number(volumes[1..], kind, n))
    else
      match MakeDriver(kind, n)
      case Err => Err
      case Ok(driver) => After([Item(Some(driver), volumes[0])], Number(volumes[1..], kind, n + 1))
  }

  /** newDiskList: nothing is set up here, so too many disks are rejected before any volume is touched. */
  method NewDiskList(volumes: seq<Volume>, driverName: string) returns (r: Result<seq<Item>>)
    ensures r == if KindOf(driverName).None? then Err else Number(volumes, KindOf(driverName).value, 0)
  {
    var found := KindOf(driverName);
    if found.None? { return Err; }
    var kind := found.value;
    var items: seq<Item> := [];
    var n := 0;
    ghost var whole := Number(volumes, kind, 0);
    assert volumes[0..] == volumes;
    assert whole.Ok? ==> items + whole.value == whole.value;
    for i := 0 to |volumes|
      invariant whole == After(items, Number(volumes[i..], kind, n))
    {
      var driver: Option<Driver> := None;
      assert volumes[i..][1..] == volumes[i + 1..];
      if volumes[i].isDisk {
        var made := MakeDriver(kind, n);
        if made.Err? { return Err; }
        driver := Some(made.value);
        n := n + 1;
      }
      AfterStep(items, Item(driver, volumes[i]), Number(volumes[i + 1..], kind, n));
      items := items + [Item(driver, volumes[i])];
    }
    assert volumes[|volumes|..] == [] && items + [] == items;
    return Ok(items);
  }

  /** Numbering succeeds exactly when the disks fit. */
  lemma {:induction false} NumberFits(volumes: seq<Volume>, kind: Kind, n: nat)
    requires n <= Capacity(kind)
    ensures Number(volumes, kind, n).Ok? <==> n + DiskCount(volumes) <= Capacity(kind)
  {
    if volumes != [] {
      var m := if volumes[0].isDisk then n + 1 else n;
      if m <= Capacity(kind) {
        NumberFits(volumes[1..], kind, m);
      }
    }
  }

  /** When it does, the volumes keep their places and each disk is numbered by the disks before it. */
  lemma {:induction false} NumberPlaces(volumes: seq<Volume>, kind: Kind, n: nat, i: nat)
    requires Number(volumes, kind, n).Ok? && i < |volumes|
    ensures var items := Number(volumes, kind, n).value;
            && |items| == |volumes|
            && items[i].volume == volumes[i]
            && (items[i].driver.Some? <==> volumes[i].isDisk)
            && (volumes[i].isDisk ==> MakeDriver(kind, n + DiskCount(volumes[..i])) == Ok(items[i].driver.value))
  {
    var m := if volumes[0].isDisk then n + 1 else n;
    if i == 0 {
      if |volumes| > 1 {
        NumberPlaces(volumes[1..], kind, m, 0);
      }
      assert volumes[..0] == [];
    } else {
      NumberPlaces(volumes[1..], kind, m, i - 1);
      assert volumes[..i][1..] == volumes[1..][..i - 1];
    }
  }

  lemma {:induction false} DiskCountGrows(volumes: seq<Volume>, i: nat, j: nat)
    requires i < j <= |volumes| && volumes[i].isDisk
    ensures DiskCount(volumes[..i]) < DiskCount(volumes[..j])
  {
    if i == 0 {
      assert volumes[..0] == [];
      assert volumes[..j][0] == volumes[0];
    } else {
      DiskCountGrows(volumes[1..], i - 1, j - 1);
      assert volumes[..i][1..] == volumes[1..][..i - 1];
      assert volumes[..j][1..] == volumes[1..][..j - 1];
    }
  }

  /** The disks of a machine have pairwise distinct target names and addresses. */
  lemma DisksDistinct(volumes: seq<Volume>, kind: Kind, i: nat, j: nat)
    requires Number(volumes, kind, 0).Ok?
    requires i < j < |volumes| && volumes[i].isDisk && volumes[j].isDisk
    ensures var items := Number(volumes, kind, 0).value;
            && |items| == |volumes| && items[i].driver.Some? && items[j].driver.Some?
            && items[i].driver.value.n < items[j].driver.value.n
            && DevName(items[i].driver.value) != DevName(items[j].driver.value)
            && AddressOf(items[i].driver.value) != AddressOf(items[j].driver.value)
  {
    NumberPlaces(volumes, kind, 0, i);
    NumberPlaces(volumes, kind, 0, j);
    DiskCountGrows(volumes, i, j);
    var items := Number(volumes, kind, 0).value;
    assert DevName(items[i].driver.value)[2] == items[i].driver.value.diskChar;
    assert DevName(items[j].driver.value)[2] == items[j].driver.value.diskChar;
  }

  // ----- Paths inside the guest -------------------------------------------

  datatype DomainDisk = DomainDisk(dev: Option<string>, address: DiskAddress)

  datatype Domain = Domain(controllers: Option<seq<Controller>>, disks: seq<DomainDisk>)

  datatype GuestPath = GuestPath(dev: string, sys: string)

  datatype PathResult = Found(path: GuestPath) | PathError | PathPanic

  function FindDisk(disks: seq<DomainDisk>, dev: string): Option<DomainDisk> {
    if disks == [] then None
    else if disks[0].dev == Some(dev) then Some(disks[0])
    else FindDisk(disks[1..], dev)
  }

  function Controllers(dom: Domain, kind: string): seq<Controller> {
    if dom.controllers.Some? then SortByIndex(OfKind(dom.controllers.value, kind)) else []
  }

  /** The path of a virtio disk from its address. */
  function VirtioPath(pci: seq<Controller>, address: Address): PathResult {
    match PathOf(pci, address)
    case Failed => PathError
    case Panicked => PathPanic
    case Done(hops) => Found(GuestPath(DevText(hops), SysText(hops) + "/virtio*/block/"))
  }

  /** The path of a SCSI disk: that of the only SCSI controller, then the place of the drive behind it. */
  function ScsiPath(pci: seq<Controller>, scsi: seq<Controller>, drive: Drive): PathResult {
    if |scsi| != 1 || !drive.DriveAt? || drive.controller != 0 then PathError
    else
      match PathOf(pci, scsi[0].address)
      case Failed => PathError
      case Panicked => PathPanic
      case Done(hops) => Found(GuestPath(DevText(hops) + ScsiDev(drive), SysText(hops) + ScsiSys(drive)))
  }

  /** diskPath of either driver. */
  function PathFor(dom: Domain, d: Driver): PathResult {
    var disk := FindDisk(dom.disks, DevName(d));
    if disk.None? then PathError
    else if d.kind.Virtio? then VirtioPath(Controllers(dom, "pci"), disk.value.address.pci)
    else ScsiPath(Controllers(dom, "pci"), Controllers(dom, "scsi"), disk.value.address.drive)
  }

  function ScsiDev(a: Drive): string
    requires a.DriveAt?
  {
    "-scsi-0:" + Print(a.bus, Dec) + ":" + Print(a.target, Dec) + ":" + Print(a.unit, Dec)
  }

  function ScsiSys(a: Drive): string
    requires a.DriveAt?
  {
    "/virtio*/host*/target*:" + Print(a.bus, Dec) + ":" + Print(a.target, Dec)
    + "/*:" + Print(a.bus, Dec) + ":" + Print(a.target, Dec) + ":" + Print(a.unit, Dec) + "/block/"
  }

  lemma CancelLeft<T>(p: seq<T>, a: seq<T>, b: seq<T>)
    requires p + a == p + b
    ensures a == b
  {
    assert (p + a)[|p|..] == a;
    assert (p + b)[|p|..] == b;
  }

  lemma CancelRight<T>(a: seq<T>, b: seq<T>, q: seq<T>)
    requires a + q == b + q
    ensures a == b
  {
    assert |a| == |b|;
    assert (a + q)[..|a|] == a;
    assert (b + q)[..|b|] == b;
  }

  /** Two addresses that differ only in their slot have different texts. */
  lemma SlotInText(a: PciAddr, slot: nat)
    requires AddressText(a) == AddressText(a.(slot := slot))
    ensures slot == a.slot
  {
    CancelRight(BusText(a) + ":" + Padded(a.slot, Hex, 2),
                BusText(a) + ":" + Padded(slot, Hex, 2), "." + Padded(a.func, Hex, 1));
    CancelLeft(BusText(a) + ":", Padded(a.slot, Hex, 2), Padded(slot, Hex, 2));
    PaddedInjective(a.slot, slot, Hex, 2);
  }

  /** Reading bus:target:unit, each a decimal number. */
  function ReadDrive(s: string): Drive {
    var (bus, s1) := CutAt(s, ':');
    var (target, unit) := CutAt(s1, ':');
    DriveAt(0, Parse(bus, Dec), Parse(target, Dec), Parse(unit, Dec))
  }

  lemma DriveRegrouped(p: string, b: string, t: string, u: string)
    ensures HasPrefix(p + b + ":" + t + ":" + u, p)
    ensures (p + b + ":" + t + ":" + u)[|p|..] == b + [':'] + (t + [':'] + u)
  {
  }

  /** The text of a drive reads as that drive. */
  lemma DriveReadsBack(a: Drive)
    requires a.DriveAt? && a.controller == 0
    ensures HasPrefix(ScsiDev(a), "-scsi-0:") && ReadDrive(ScsiDev(a)[8..]) == a
  {
    var b, t, u := Print(a.bus, Dec), Print(a.target, Dec), Print(a.unit, Dec);
    PrintDigits(a.bus, Dec);
    PrintDigits(a.target, Dec);
    assert ':' !in DIGITS;
    DriveRegrouped("-scsi-0:", b, t, u);
    CutJoined(b, ':', t + [':'] + u);
    CutJoined(t, ':', u);
    ParsePrint(a.bus, Dec);
    ParsePrint(a.target, Dec);
    ParsePrint(a.unit, Dec);
  }

  lemma PathStarts()
    ensures "/dev/disk/by-path/" + "" + "virtio-pci" + "-" == "/dev/disk/by-path/virtio-pci-"
    ensures "/dev/disk/by-path/" + "" + "pci" + "-" == "/dev/disk/by-path/pci-"
  {
  }

  /** The device path of a controller or disk on the root bus. */
  lemma RootPathForm(a: PciAddr)
    ensures DevText(HopsOf([a], "virtio-pci")) == "/dev/disk/by-path/virtio-pci-" + AddressText(a)
  {
    PathStarts();
    DevTextOfLast([], Hop("virtio-pci", a));
    assert HopsOf([a], "virtio-pci") == [] + [Hop("virtio-pci", a)];
  }

  lemma BridgeForm(a: PciAddr)
    ensures DevText([Hop("pci", a)]) == "/dev/disk/by-path/pci-" + AddressText(a)
  {
    PathStarts();
    DevTextOfLast([], Hop("pci", a));
    assert [] + [Hop("pci", a)] == [Hop("pci", a)];
  }

  lemma BridgedHops(a: PciAddr, b: PciAddr)
    ensures HopsOf([a, b], "virtio-pci") == [Hop("pci", a)] + [Hop("virtio-pci", b)]
  {
  }

  /** The device and sysfs paths of a disk behind one bridge. */
  lemma BridgedPathForm(a: PciAddr, b: PciAddr)
    ensures DevText(HopsOf([a, b], "virtio-pci"))
            == "/dev/disk/by-path/pci-" + AddressText(a) + "-" + "virtio-pci" + "-" + AddressText(b)
    ensures SysText(HopsOf([a, b], "virtio-pci"))
            == "/sys/devices/pci" + BusText(a) + "/" + AddressText(a) + "/" + AddressText(b)
  {
    BridgedHops(a, b);
    BridgeForm(a);
    DevTextOfLast([Hop("pci", a)], Hop("virtio-pci", b));
    SysTextOfLast([], Hop("pci", a));
    assert [] + [Hop("pci", a)] == [Hop("pci", a)];
    SysTextOfLast([Hop("pci", a)], Hop("virtio-pci", b));
  }

  /** Two devices behind the same hops whose addresses differ only in their slot have different device paths. */
  lemma SlotsSeparate(parents: seq<Hop>, prefix: string, a: PciAddr, slot: nat)
    requires slot != a.slot
    ensures DevText(parents + [Hop(prefix, a)]) != DevText(parents + [Hop(prefix, a.(slot := slot))])
  {
    var b := a.(slot := slot);
    var before := DevText(parents) + (if |parents| == 0 then "" else "-") + prefix + "-";
    DevTextOfLast(parents, Hop(prefix, a));
    DevTextOfLast(parents, Hop(prefix, b));
    if DevText(parents + [Hop(prefix, a)]) == DevText(parents + [Hop(prefix, b)]) {
      CancelLeft(before, AddressText(a), AddressText(b));
      SlotInText(a, slot);
    }
  }

  lemma DevTextOfLast(parents: seq<Hop>, hop: Hop)
    ensures DevText(parents + [hop])
            == DevText(parents) + (if |parents| == 0 then "" else "-") + hop.prefix + "-" + AddressText(hop.address)
  {
    var hops := parents + [hop];
    assert hops[..|hops| - 1] == parents;
  }

  /** The same for the sysfs path. */
  lemma SysSlotsSeparate(parents: seq<Hop>, prefix: string, a: PciAddr, slot: nat)
    requires slot != a.slot
    ensures SysText(parents + [Hop(prefix, a)]) != SysText(parents + [Hop(prefix, a.(slot := slot))])
  {
    var b := a.(slot := slot);
    var before := if |parents| == 0 then "/sys/devices/pci" + BusText(a) + "/" else SysText(parents) + "/";
    SysTextOfLast(parents, Hop(prefix, a));
    SysTextOfLast(parents, Hop(prefix, b));
    if SysText(parents + [Hop(prefix, a)]) == SysText(parents + [Hop(prefix, b)]) {
      CancelLeft(before, AddressText(a), AddressText(b));
      SlotInText(a, slot);
    }
  }

  lemma SysTextOfLast(parents: seq<Hop>, hop: Hop)
    ensures SysText(parents + [hop])
            == (if |parents| == 0 then "/sys/devices/pci" + BusText(hop.address) + "/" else SysText(parents) + "/")
               + AddressText(hop.address)
  {
    var hops := parents + [hop];
    assert hops[..|hops| - 1] == parents;
  }

  /** Two drives that differ only in their unit have different device paths. */
  lemma UnitsSeparate(prefix: string, a: Drive, unit: nat)
    requires a.DriveAt? && unit != a.unit
    ensures prefix + ScsiDev(a) != prefix + ScsiDev(a.(unit := unit))
  {
    var b := a.(unit := unit);
    if prefix + ScsiDev(a) == prefix + ScsiDev(b) {
      CancelLeft(prefix, ScsiDev(a), ScsiDev(b));
      CancelLeft("-scsi-0:" + Print(a.bus, Dec) + ":" + Print(a.target, Dec) + ":",
                 Print(a.unit, Dec), Print(unit, Dec));
      ParsePrint(a.unit, Dec);
      ParsePrint(unit, Dec);
    }
  }

  /** The same for the sysfs path. */
  lemma SysUnitsSeparate(prefix: string, a: Drive, unit: nat)
    requires a.DriveAt? && unit != a.unit
    ensures prefix + ScsiSys(a) != prefix + ScsiSys(a.(unit := unit))
  {
    var b := a.(unit := unit);
    if prefix + ScsiSys(a) == prefix + ScsiSys(b) {
      CancelLeft(prefix, ScsiSys(a), ScsiSys(b));
      var before := "/virtio*/host*/target*:" + Print(a.bus, Dec) + ":" + Print(a.target, Dec)
                    + "/*:" + Print(a.bus, Dec) + ":" + Print(a.target, Dec) + ":";
      CancelRight(before + Print(a.unit, Dec), before + Print(unit, Dec), "/block/");
      CancelLeft(before, Print(a.unit, Dec), Print(unit, Dec));
      ParsePrint(a.unit, Dec);
      ParsePrint(unit, Dec);
    }
  }

  /** The disk definitions that setting up a disk list produces. */
  function DefinedDisks(items: seq<Item>): seq<DomainDisk> {
    if items == [] then []
    else if items[0].driver.Some? then
      [DomainDisk(Some(DevName(items[0].driver.value)), AddressOf(items[0].driver.value))] + DefinedDisks(items[1..])
    else DefinedDisks(items[1..])
  }

  /** The drivers are ones that the factories made. */
  predicate AllGenuine(items: seq<Item>) {
    forall k :: 0 <= k < |items| && items[k].driver.Some? ==>
      MakeDriver(items[k].driver.value.kind, items[k].driver.value.n) == Ok(items[k].driver.value)
  }

  /** A target name determines its driver, so looking a disk up by name finds the disk of that driver. */
  lemma {:induction false} FindsOwnDisk(items: seq<Item>, i: nat)
    requires i < |items| && items[i].driver.Some?
    requires AllGenuine(items)
    ensures var d := items[i].driver.value;
            FindDisk(DefinedDisks(items), DevName(d)) == Some(DomainDisk(Some(DevName(d)), AddressOf(d)))
  {
    var d := items[i].driver.value;
    var disks := DefinedDisks(items);
    if items[0].driver.Some? {
      var e := items[0].driver.value;
      assert disks[1..] == DefinedDisks(items[1..]);
      if DevName(e) == DevName(d) {
        assert DevName(e)[0] == DevName(d)[0] && DevName(e)[2] == DevName(d)[2];
        assert e == d;
      } else {
        FindsOwnDisk(items[1..], i - 1);
      }
    } else {
      FindsOwnDisk(items[1..], i - 1);
    }
  }

  /** Devices on the same bus share all hops but their own. */
  lemma SameParents(ctls: seq<Controller>, a: PciAddr, b: PciAddr)
    requires a.bus == b.bus
    requires PathOf(ctls, Pci(a)).Done? && PathOf(ctls, Pci(b)).Done?
    ensures exists parents: seq<Hop> ::
              && PathOf(ctls, Pci(a)).hops == parents + [Hop("virtio-pci", a)]
              && PathOf(ctls, Pci(b)).hops == parents + [Hop("virtio-pci", b)]
  {
    var ctl := ctls[a.bus];
    var parents := if ctl.address.NoPci? then [] else Climb(ctls, ctl.address, "pci", 1).hops;
    assert [] + [Hop("virtio-pci", a)] == [Hop("virtio-pci", a)];
    assert [] + [Hop("virtio-pci", b)] == [Hop("virtio-pci", b)];
    assert PathOf(ctls, Pci(a)).hops == parents + [Hop("virtio-pci", a)];
  }

  lemma VirtioPathsDistinct(pci: seq<Controller>, a: PciAddr, slot: nat)
    requires slot != a.slot
    requires VirtioPath(pci, Pci(a)).Found? && VirtioPath(pci, Pci(a.(slot := slot))).Found?
    ensures VirtioPath(pci, Pci(a)).path.dev != VirtioPath(pci, Pci(a.(slot := slot))).path.dev
    ensures VirtioPath(pci, Pci(a)).path.sys != VirtioPath(pci, Pci(a.(slot := slot))).path.sys
  {
    var b := a.(slot := slot);
    SameParents(pci, a, b);
    var parents: seq<Hop> :| PathOf(pci, Pci(a)).hops == parents + [Hop("virtio-pci", a)]
                             && PathOf(pci, Pci(b)).hops == parents + [Hop("virtio-pci", b)];
    SlotsSeparate(parents, "virtio-pci", a, slot);
    SysSlotsSeparate(parents, "virtio-pci", a, slot);
    var p, q := SysText(parents + [Hop("virtio-pci", a)]), SysText(parents + [Hop("virtio-pci", b)]);
    if p + "/virtio*/block/" == q + "/virtio*/block/" {
      CancelRight(p, q, "/virtio*/block/");
    }
  }

  lemma ScsiPathsDistinct(pci: seq<Controller>, scsi: seq<Controller>, drive: Drive, unit: nat)
    requires drive.DriveAt? && unit != drive.unit
    requires ScsiPath(pci, scsi, drive).Found? && ScsiPath(pci, scsi, drive.(unit := unit)).Found?
    ensures ScsiPath(pci, scsi, drive).path.dev != ScsiPath(pci, scsi, drive.(unit := unit)).path.dev
    ensures ScsiPath(pci, scsi, drive).path.sys != ScsiPath(pci, scsi, drive.(unit := unit)).path.sys
  {
    UnitsSeparate(DevText(PathOf(pci, scsi[0].address).hops), drive, unit);
    SysUnitsSeparate(SysText(PathOf(pci, scsi[0].address).hops), drive, unit);
  }

  /** Where the addresses of all virtio disks, and those of all SCSI disks, agree. */
  const PCI_BASE := PciAddr(0, 1, 0, 0)
  const DRIVE_BASE := DriveAt(0, 0, 0, 0)

  /** The guest path of the n-th disk of a machine. */
  function OwnPath(pci: seq<Controller>, scsi: seq<Controller>, base: PciAddr, drive: Drive,
                   kind: Kind, n: nat): PathResult
    requires drive.DriveAt?
  {
    if kind.Virtio? then VirtioPath(pci, Pci(base.(slot := n + 1))) else ScsiPath(pci, scsi, drive.(unit := n))
  }

  /** The path of a disk is computed from its own definition. */
  lemma PathOfOwnDisk(dom: Domain, items: seq<Item>, i: nat)
    requires i < |items| && items[i].driver.Some? && AllGenuine(items)
    requires dom.disks == DefinedDisks(items)
    ensures var d := items[i].driver.value;
            PathFor(dom, d) ==
              OwnPath(Controllers(dom, "pci"), Controllers(dom, "scsi"), PCI_BASE, DRIVE_BASE, d.kind, d.n)
  {
    FindsOwnDisk(items, i);
  }

  predicate PathsDiffer(p: PathResult, q: PathResult) {
    p.Found? && q.Found? ==> p.path.dev != q.path.dev && p.path.sys != q.path.sys
  }

  lemma VirtioDisksDiffer(pci: seq<Controller>, a: PciAddr, b: PciAddr)
    requires b == a.(slot := b.slot) && a != b
    ensures PathsDiffer(VirtioPath(pci, Pci(a)), VirtioPath(pci, Pci(b)))
  {
    if VirtioPath(pci, Pci(a)).Found? && VirtioPath(pci, Pci(b)).Found? {
      VirtioPathsDistinct(pci, a, b.slot);
    }
  }

  lemma ScsiDisksDiffer(pci: seq<Controller>, scsi: seq<Controller>, a: Drive, b: Drive)
    requires a.DriveAt? && b.DriveAt? && b == a.(unit := b.unit) && a != b
    ensures PathsDiffer(ScsiPath(pci, scsi, a), ScsiPath(pci, scsi, b))
  {
    if ScsiPath(pci, scsi, a).Found? && ScsiPath(pci, scsi, b).Found? {
      ScsiPathsDistinct(pci, scsi, a, b.unit);
    }
  }

  lemma OwnPathsDiffer(pci: seq<Controller>, scsi: seq<Controller>, base: PciAddr, drive: Drive,
                       kind: Kind, m: nat, n: nat)
    requires drive.DriveAt? && m != n
    ensures PathsDiffer(OwnPath(pci, scsi, base, drive, kind, m), OwnPath(pci, scsi, base, drive, kind, n))
  {
    match kind
    case Virtio => VirtioDisksDiffer(pci, base.(slot := m + 1), base.(slot := n + 1));
    case Scsi => ScsiDisksDiffer(pci, scsi, drive.(unit := m), drive.(unit := n));
  }

  /** Different disks of one machine have different guest paths. */
  lemma PathsDistinct(dom: Domain, items: seq<Item>, i: nat, j: nat)
    requires i < |items| && j < |items| && items[i].driver.Some? && items[j].driver.Some? && AllGenuine(items)
    requires dom.disks == DefinedDisks(items)
    requires items[i].driver.value.kind == items[j].driver.value.kind
    requires items[i].driver.value.n != items[j].driver.value.n
    ensures PathsDiffer(PathFor(dom, items[i].driver.value), PathFor(dom, items[j].driver.value))
  {
    PathOfOwnDisk(dom, items, i);
    PathOfOwnDisk(dom, items, j);
    var d, e := items[i].driver.value, items[j].driver.value;
    OwnPathsDiffer(Controllers(dom, "pci"), Controllers(dom, "scsi"), PCI_BASE, DRIVE_BASE, d.kind, d.n, e.n);
  }

  /** How writeImages finds paths in a domain. */
  function PathFinder(dom: Domain): Driver -> PathResult {
    d => PathFor(dom, d)
  }

  datatype PathMap = Mapped(paths: map<string, GuestPath>) | MapError | MapPanic

  /** The volume map of writeImages, one item after the other; `pathFor` computes the path of a driver's disk. */
  function VolumeMap(pathFor: Driver -> PathResult, items: seq<Item>): PathMap {
    if items == [] then Mapped(map[])
    else
      var item := items[|items| - 1];
      match VolumeMap(pathFor, items[..|items| - 1])
      case MapError => MapError
      case MapPanic => MapPanic
      case Mapped(m) =>
        if item.volume.uuid == "" || item.driver.None? then Mapped(m)
        else
          match pathFor(item.driver.value)
          case PathError => MapError
          case PathPanic => MapPanic
          case Found(path) => Mapped(m[item.volume.uuid := path])
  }

  /** The first loop of writeImages. */
  method MapVolumes(pathFor: Driver -> PathResult, items: seq<Item>) returns (r: PathMap)
    ensures r == VolumeMap(pathFor, items)
  {
    var m: map<string, GuestPath> := map[];
    for i := 0 to |items|
      invariant VolumeMap(pathFor, items[..i]) == Mapped(m)
    {
      var uuid := items[i].volume.uuid;
      assert items[..i + 1][..i] == items[..i];
      if uuid != "" && items[i].driver.Some? {
        var path := pathFor(items[i].driver.value);
        if !path.Found? {
          FailureSticks(pathFor, items, i + 1);
          return if path.PathError? then MapError else MapPanic;
        }
        m := m[uuid := path.path];
      }
    }
    assert items[..|items|] == items;
    return Mapped(m);
  }

  lemma {:induction false} FailureSticks(pathFor: Driver -> PathResult, items: seq<Item>, i: nat)
    requires i <= |items| && !VolumeMap(pathFor, items[..i]).Mapped?
    ensures VolumeMap(pathFor, items) == VolumeMap(pathFor, items[..i])
    decreases |items| - i
  {
    if i < |items| {
      assert items[..i + 1][..i] == items[..i];
      FailureSticks(pathFor, items, i + 1);
    } else {
      assert items[..i] == items;
    }
  }

  /** The item needs no path, or its path can be found. */
  predicate Locates(pathFor: Driver -> PathResult, item: Item) {
    item.volume.uuid == "" || item.driver.None? || pathFor(item.driver.value).Found?
  }

  /** The paths can be mapped if and only if every disk with a UUID has one. */
  lemma {:induction false} VolumeMapIff(pathFor: Driver -> PathResult, items: seq<Item>)
    ensures VolumeMap(pathFor, items).Mapped? <==> forall i :: 0 <= i < |items| ==> Locates(pathFor, items[i])
  {
    if items != [] {
      var n := |items| - 1;
      VolumeMapIff(pathFor, items[..n]);
      assert items == items[..n] + [items[n]];
    }
  }

  /** Each entry of the map is the path of the last disk whose volume has that UUID. */
  lemma {:induction false} VolumeMapOrigin(pathFor: Driver -> PathResult, items: seq<Item>, uuid: string)
      returns (i: nat)
    requires VolumeMap(pathFor, items).Mapped? && uuid in VolumeMap(pathFor, items).paths
    ensures i < |items| && items[i].volume.uuid == uuid && uuid != "" && items[i].driver.Some?
    ensures pathFor(items[i].driver.value) == Found(VolumeMap(pathFor, items).paths[uuid])
    ensures forall k :: i < k < |items| && items[k].driver.Some? ==> items[k].volume.uuid != uuid
  {
    var n := |items| - 1;
    var item := items[n];
    if item.driver.Some? && item.volume.uuid == uuid && uuid != "" {
      i := n;
    } else {
      i := VolumeMapOrigin(pathFor, items[..n], uuid);
      assert forall k :: 0 <= k < n ==> items[..n][k] == items[k];
    }
  }

  /** Every disk whose volume has a UUID has an entry. */
  lemma {:induction false} VolumeMapCovers(pathFor: Driver -> PathResult, items: seq<Item>, i: nat)
    requires VolumeMap(pathFor, items).Mapped?
    requires i < |items| && items[i].volume.uuid != "" && items[i].driver.Some?
    ensures items[i].volume.uuid in VolumeMap(pathFor, items).paths
  {
    var n := |items| - 1;
    if i < n {
      VolumeMapCovers(pathFor, items[..n], i);
    }
  }

  /**
   * For the disk list of a machine and a domain that has its disks as they
   * were defined: volumes with different UUIDs get different guest paths.
   */
  lemma VolumePathsDistinct(dom: Domain, volumes: seq<Volume>, kind: Kind, items: seq<Item>,
                            m: map<string, GuestPath>, u: string, v: string)
    requires Number(volumes, kind, 0) == Ok(items) && dom.disks == DefinedDisks(items)
    requires VolumeMap(PathFinder(dom), items) == Mapped(m)
    requires u in m && v in m && u != v
    ensures m[u].dev != m[v].dev && m[u].sys != m[v].sys
  {
    AllNumbered(volumes, kind);
    var i := VolumeMapOrigin(PathFinder(dom), items, u);
    var j := VolumeMapOrigin(PathFinder(dom), items, v);
    if i < j {
      DisksDistinct(volumes, kind, i, j);
    } else {
      DisksDistinct(volumes, kind, j, i);
    }
    PathsDistinct(dom, items, i, j);
  }

  lemma AllNumbered(volumes: seq<Volume>, kind: Kind)
    requires Number(volumes, kind, 0).Ok?
    ensures var items := Number(volumes, kind, 0).value;
            && |items| == |volumes| && AllGenuine(items)
            && (forall k :: 0 <= k < |items| ==>
                  && items[k].volume == volumes[k] && (items[k].driver.Some? <==> volumes[k].isDisk)
                  && (items[k].driver.Some? ==> items[k].driver.value.kind == kind))
  {
    forall k | 0 <= k < |volumes|
      ensures var items := Number(volumes, kind, 0).value;
              && |items| == |volumes|
              && items[k].volume == volumes[k] && (items[k].driver.Some? <==> volumes[k].isDisk)
              && (items[k].driver.Some? ==>
                    MakeDriver(items[k].driver.value.kind, items[k].driver.value.n) == Ok(items[k].driver.value)
                    && items[k].driver.value.kind == kind)
    {
      NumberPlaces(volumes, kind, 0, k);
    }
  }
}
