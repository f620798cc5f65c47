/**
 * The persistent root device: a header in sector 0 records which image was
 * written, and the rest of the device is mapped as the disk of the machine
 * (pkg/blockdev/blockdev.go and
 * pkg/libvirttools/persistentroot_volumesource.go).
 */
module RootDevice {
  import opened Common
  import opened Endian

  const MAGIC: nat := 0x263dbe52ba576702
  const VERSION: nat := 1
  const SECTOR: nat := 512
  const HEADER_SIZE: nat := 42
  const HASH_SIZE: nat := 32
  const U64: nat := 0x1_0000_0000_0000_0000

  datatype Header = Header(magic: nat, version: nat, hash: Bytes)

  function EncodeHeader(hash: Bytes): (b: Bytes)
    requires |hash| == HASH_SIZE
    ensures |b| == HEADER_SIZE
  {
    PutBE(MAGIC, 8) + PutBE(VERSION, 2) + hash
  }

  function DecodeHeader(b: Bytes): Header
    requires |b| >= HEADER_SIZE
  {
    Header(GetBE(b[..8]), GetBE(b[8..10]), b[10..42])
  }

  lemma FieldsRoundTrip(magic: nat, version: nat, hash: Bytes, rest: Bytes)
    requires magic < Pow256(8) && version < Pow256(2) && |hash| == HASH_SIZE
    ensures DecodeHeader(PutBE(magic, 8) + PutBE(version, 2) + hash + rest) == Header(magic, version, hash)
  {
    var b := PutBE(magic, 8) + PutBE(version, 2) + hash + rest;
    assert b[..8] == PutBE(magic, 8);
    assert b[8..10] == PutBE(version, 2);
    assert b[10..42] == hash;
    GetPutBE(magic, 8);
    GetPutBE(version, 2);
  }

  /** The header that is written is the one that is read back. */
  lemma HeaderRoundTrip(hash: Bytes, rest: Bytes)
    requires |hash| == HASH_SIZE
    ensures DecodeHeader(EncodeHeader(hash) + rest) == Header(MAGIC, VERSION, hash)
  {
    Widths();
    FieldsRoundTrip(MAGIC, VERSION, hash, rest);
  }

  /** The header on the device, octet by octet. */
  lemma HeaderBytes(hash: Bytes)
    requires |hash| == HASH_SIZE
    ensures EncodeHeader(hash) == [0x26, 0x3d, 0xbe, 0x52, 0xba, 0x57, 0x67, 0x02, 0x00, 0x01] + hash
  {
    assert PutBE(0x26, 1) == [0x26];
    assert PutBE(0x263d, 2) == [0x26, 0x3d];
    assert PutBE(0x263dbe, 3) == [0x26, 0x3d, 0xbe];
    assert PutBE(0x263dbe52, 4) == [0x26, 0x3d, 0xbe, 0x52];
    assert PutBE(0x263dbe52ba, 5) == [0x26, 0x3d, 0xbe, 0x52, 0xba];
    assert PutBE(0x263dbe52ba57, 6) == [0x26, 0x3d, 0xbe, 0x52, 0xba, 0x57];
    assert PutBE(0x263dbe52ba5767, 7) == [0x26, 0x3d, 0xbe, 0x52, 0xba, 0x57, 0x67];
    assert PutBE(MAGIC, 8) == [0x26, 0x3d, 0xbe, 0x52, 0xba, 0x57, 0x67, 0x02];
    assert PutBE(VERSION, 2) == [0x00, 0x01];
  }

  // ----- Bytes of the device ----------------------------------------------

  /** Overwriting part of a byte sequence. */
  function Splice(d: Bytes, at: nat, b: Bytes): (r: Bytes)
    requires at + |b| <= |d|
    ensures |r| == |d|
    ensures r[..at] == d[..at] && r[at..at + |b|] == b && r[at + |b|..] == d[at + |b|..]
  {
    d[..at] + b + d[at + |b|..]
  }

  /** A device: whole sectors, with room for the header. */
  predicate Device(d: Bytes) {
    |d| >= SECTOR && |d| % SECTOR == 0
  }

  /** What the mapped device shows: all sectors but the first. */
  function Content(d: Bytes): Bytes
    requires Device(d)
  {
    d[SECTOR..]
  }

  datatype Image = Image(hash: Bytes, raw: Bytes)

  /** A write to the mapped device; what lies past its end is lost. */
  datatype Edit = Edit(at: nat, bytes: Bytes)

  function Edited(content: Bytes, e: Edit): (r: Bytes)
    ensures |r| == |content|
  {
    if e.at >= |content| then content
    else if e.at + |e.bytes| <= |content| then Splice(content, e.at, e.bytes)
    else Splice(content, e.at, e.bytes[..|content| - e.at])
  }

  /** A write changes exactly the octets that it covers. */
  lemma EditedAt(content: Bytes, e: Edit, i: nat)
    requires i < |content|
    ensures Edited(content, e)[i] == if e.at <= i < e.at + |e.bytes| then e.bytes[i - e.at] else content[i]
  {
    if e.at < |content| {
      var b := if e.at + |e.bytes| <= |content| then e.bytes else e.bytes[..|content| - e.at];
      assert Edited(content, e) == content[..e.at] + b + content[e.at + |b|..];
    }
  }

  function EditedAll(content: Bytes, edits: seq<Edit>): (r: Bytes)
    ensures |r| == |content|
    decreases |edits|
  {
    if edits == [] then content else EditedAll(Edited(content, edits[0]), edits[1..])
  }

  // ----- The steps of Setup -----------------------------------------------

  datatype Faults = Faults(open: bool, writeHeader: bool, close: bool, mapper: bool, copied: Option<nat>, inject: bool)

  /** EnsureDevHeaderMatches: the device afterwards, and whether the header matched. */
  function HeaderEnsured(d: Bytes, hash: Bytes, f: Faults): (Bytes, Result<bool>)
    requires Device(d) && |hash| == HASH_SIZE
  {
    var hdr := DecodeHeader(d);
    if f.open then (d, Err)
    else if hdr.magic != MAGIC || hdr.hash != hash then
      if f.writeHeader then (d, Err)
      else (Splice(d, 0, EncodeHeader(hash)), if f.close then Err else Ok(false))
    else if hdr.version != VERSION then (d, Err)
    else (d, if f.close then Err else Ok(true))
  }

  /** The number of sectors that Map asks for, in 64-bit arithmetic. */
  function MinSectors(imageSize: nat): nat {
    (if imageSize + SECTOR - 1 < U64 then imageSize + SECTOR - 1 else (imageSize + SECTOR - 1) % U64) / SECTOR + 1
  }

  /** Rounding the size up to sectors does not overflow. */
  predicate SizeSafe(imageSize: nat) {
    imageSize + SECTOR - 1 < U64
  }

  /** Map succeeds: the device has enough sectors, and the device mapper obeys. */
  predicate Maps(d: Bytes, imageSize: nat, f: Faults) {
    |d| / SECTOR >= MinSectors(imageSize) && !f.mapper
  }

  /** The image is copied to the start of the mapped device; a failed copy may have written a part of it. */
  function Copied(content: Bytes, raw: Bytes, f: Faults): (r: (Bytes, bool))
    ensures |r.0| == |content|
  {
    if f.copied.Some? || |raw| > |content| then
      var k := if f.copied.Some? then f.copied.value else 0;
      (if k <= |raw| && k <= |content| then Splice(content, 0, raw[..k]) else content, false)
    else (Splice(content, 0, raw), true)
  }

  /** Setup: the device afterwards and whether it succeeded. */
  function SetUp(d: Bytes, image: Image, edits: seq<Edit>, f: Faults): (Bytes, bool)
    requires Device(d) && |image.hash| == HASH_SIZE
  {
    var (d1, matched) := HeaderEnsured(d, image.hash, f);
    if matched.Err? || !Maps(d1, |image.raw|, f) then (d1, false)
    else
      var (c, copied) := if matched.value then (Content(d1), true) else Copied(Content(d1), image.raw, f);
      if !copied then (d1[..SECTOR] + c, false)
      else if edits != [] && f.inject then (d1[..SECTOR] + c, false)
      else (d1[..SECTOR] + EditedAll(c, edits), true)
  }

  // ----- Runs -------------------------------------------------------------

  datatype Event =
    | SetupEvent(image: Image, edits: seq<Edit>, faults: Faults)
    | GuestWrite(edit: Edit)
    | TeardownEvent

  function Step(d: Bytes, e: Event): (d': Bytes)
    requires Device(d) && (e.SetupEvent? ==> |e.image.hash| == HASH_SIZE)
    ensures |d'| == |d|
  {
    match e
    case SetupEvent(image, edits, f) => SetUp(d, image, edits, f).0
    case GuestWrite(edit) => d[..SECTOR] + Edited(Content(d), edit)
    case TeardownEvent => d
  }

  /** Every set-up in the run succeeds. */
  predicate AllSucceed(d: Bytes, events: seq<Event>)
    requires Device(d)
    decreases |events|
  {
    events != [] ==>
      && (events[0].SetupEvent? ==>
            |events[0].image.hash| == HASH_SIZE && SetUp(d, events[0].image, events[0].edits, events[0].faults).1)
      && AllSucceed(Step(d, events[0]), events[1..])
  }

  function Run(d: Bytes, events: seq<Event>): (d': Bytes)
    requires Device(d) && AllSucceed(d, events)
    ensures |d'| == |d|
    decreases |events|
  {
    if events == [] then d else Run(Step(d, events[0]), events[1..])
  }

  /**
   * What a user expects of the device: it remembers the last image. Setting
   * it up again with that image shows what the machine left there; setting it
   * up with another image writes that image.
   */
  datatype Disk = Disk(last: Option<Bytes>, content: Bytes)

  /** The image fits if it has to be written. */
  predicate Holds(disk: Disk, image: Image) {
    disk.last != Some(image.hash) ==> |image.raw| <= |disk.content|
  }

  function Expected(disk: Disk, e: Event): Disk {
    match e
    case TeardownEvent => disk
    case GuestWrite(edit) => disk.(content := Edited(disk.content, edit))
    case SetupEvent(image, edits, _) =>
      var base := if disk.last == Some(image.hash) || !Holds(disk, image) then disk.content
                  else Splice(disk.content, 0, image.raw);
      Disk(Some(image.hash), EditedAll(base, edits))
  }

  /** The image that the header of a device names. */
  function Remembered(d: Bytes): Option<Bytes>
    requires Device(d)
  {
    var hdr := DecodeHeader(d);
    if hdr.magic == MAGIC && hdr.version == VERSION then Some(hdr.hash) else None
  }

  function View(d: Bytes): Disk
    requires Device(d)
  {
    Disk(Remembered(d), Content(d))
  }

  lemma SectorZeroDecides(d: Bytes, content: Bytes)
    requires Device(d) && |content| == |d| - SECTOR
    ensures var d' := d[..SECTOR] + content;
            Device(d') && DecodeHeader(d') == DecodeHeader(d) && Content(d') == content
  {
    var d' := d[..SECTOR] + content;
    assert d'[..8] == d[..8] && d'[8..10] == d[8..10] && d'[10..42] == d[10..42];
  }

  lemma HeaderEnsuredView(d: Bytes, hash: Bytes, f: Faults)
    requires Device(d) && |hash| == HASH_SIZE
    requires HeaderEnsured(d, hash, f).1.Ok?
    ensures var (d', matched) := HeaderEnsured(d, hash, f);
            && Device(d') && Content(d') == Content(d) && |d'| == |d|
            && Remembered(d') == Some(hash)
            && matched.value == (Remembered(d) == Some(hash))
  {
    var hdr := DecodeHeader(d);
    if hdr.magic != MAGIC || hdr.hash != hash {
      var d' := Splice(d, 0, EncodeHeader(hash));
      assert d' == EncodeHeader(hash) + d[HEADER_SIZE..];
      HeaderRoundTrip(hash, d[HEADER_SIZE..]);
      assert Content(d') == Content(d);
    }
  }

  /** One step of the real device is the expected one. */
  lemma StepExpected(d: Bytes, e: Event)
    requires Device(d)
    requires e.SetupEvent? ==> |e.image.hash| == HASH_SIZE && SetUp(d, e.image, e.edits, e.faults).1
    ensures Device(Step(d, e))
    ensures e.SetupEvent? ==> Holds(View(d), e.image)
    ensures e.SetupEvent? && SizeSafe(|e.image.raw|) ==> |e.image.raw| <= |Content(d)|
    ensures View(Step(d, e)) == Expected(View(d), e)
  {
    match e
    case GuestWrite(edit) =>
      SectorZeroDecides(d, Edited(Content(d), edit));
    case TeardownEvent =>
    case SetupEvent(image, edits, f) =>
      HeaderEnsuredView(d, image.hash, f);
      var (d1, matched) := HeaderEnsured(d, image.hash, f);
      var c := if matched.value then Content(d1) else Copied(Content(d1), image.raw, f).0;
      SectorZeroDecides(d1, EditedAll(c, edits));
  }

  function ExpectedRun(disk: Disk, events: seq<Event>): Disk
    decreases |events|
  {
    if events == [] then disk else ExpectedRun(Expected(disk, events[0]), events[1..])
  }

  /**
   * Over every run of set-ups, guest writes and teardowns in which each set-up succeeds,
   * the device behaves as expected: the guest's data survives exactly the
   * set-ups with the image that was set up last, and any other image is
   * written at the start of what the machine sees.
   */
  lemma {:induction false} RunExpected(d: Bytes, events: seq<Event>)
    requires Device(d) && AllSucceed(d, events)
    ensures Device(Run(d, events))
    ensures View(Run(d, events)) == ExpectedRun(View(d), events)
    decreases |events|
  {
    if events != [] {
      StepExpected(d, events[0]);
      RunExpected(Step(d, events[0]), events[1..]);
    }
  }

  /**
   * In such a run the mapped range holds the whole image of every set-up,
   * also of one that finds the image in place, for all sizes that do not
   * overflow the size check.
   */
  lemma {:induction false} RunHoldsImages(d: Bytes, events: seq<Event>, i: nat)
    requires Device(d) && AllSucceed(d, events)
    requires i < |events| && events[i].SetupEvent? && SizeSafe(|events[i].image.raw|)
    ensures |events[i].image.raw| <= |Content(d)|
    decreases |events|
  {
    StepExpected(d, events[0]);
    if i > 0 {
      RunHoldsImages(Step(d, events[0]), events[1..], i - 1);
    }
  }

  /** Guest writes never touch sector 0, with its header. */
  lemma GuestKeepsHeader(d: Bytes, edit: Edit)
    requires Device(d)
    ensures Step(d, GuestWrite(edit))[..SECTOR] == d[..SECTOR]
  {
  }

  // ----- Where the code falls short ---------------------------------------

  /**
   * The header is written before the image. If the copy then fails before it
   * has written anything, setting the same image up again succeeds and shows
   * the old contents instead of the image.
   */
  lemma StaleAfterFailedCopy(d: Bytes, image: Image, f: Faults, g: Faults)
    requires Device(d) && |image.hash| == HASH_SIZE
    requires DecodeHeader(d).magic != MAGIC || DecodeHeader(d).hash != image.hash
    requires f == Faults(false, false, false, false, Some(0), false)
    requires g == Faults(false, false, false, false, None, false)
    requires |d| / SECTOR >= MinSectors(|image.raw|)
    ensures var (d1, ok1) := SetUp(d, image, [], f);
            && !ok1 && Device(d1)
            && SetUp(d1, image, [], g).1
            && Device(SetUp(d1, image, [], g).0)
            && Content(SetUp(d1, image, [], g).0) == Content(d)
  {
    var (d1, matched) := HeaderEnsured(d, image.hash, f);
    HeaderEnsuredView(d, image.hash, f);
    var (c, copied) := Copied(Content(d1), image.raw, f);
    assert image.raw[..0] == [];
    assert c == Content(d1);
    assert d1[..SECTOR] + c == d1;
    HeaderEnsuredView(d1, image.hash, g);
    assert EditedAll(Content(d1), []) == Content(d1);
  }

  /** The set-up gets past writing the header, or finds it there. */
  predicate Marks(d: Bytes, image: Image, f: Faults)
    requires Device(d)
  {
    var hdr := DecodeHeader(d);
    if hdr.magic != MAGIC || hdr.hash != image.hash then !f.open && !f.writeHeader else hdr.version == VERSION
  }

  lemma HeaderMarks(d: Bytes, image: Image, f: Faults)
    requires Device(d) && |image.hash| == HASH_SIZE
    ensures Device(HeaderEnsured(d, image.hash, f).0)
    ensures Remembered(HeaderEnsured(d, image.hash, f).0) == Some(image.hash) <==> Marks(d, image, f)
  {
    var hdr := DecodeHeader(d);
    if (hdr.magic != MAGIC || hdr.hash != image.hash) && !f.open && !f.writeHeader {
      var d1 := Splice(d, 0, EncodeHeader(image.hash));
      assert d1 == EncodeHeader(image.hash) + d[HEADER_SIZE..];
      HeaderRoundTrip(image.hash, d[HEADER_SIZE..]);
    }
  }

  lemma SetupMarks(d: Bytes, image: Image, edits: seq<Edit>, f: Faults)
    requires Device(d) && |image.hash| == HASH_SIZE
    ensures Device(SetUp(d, image, edits, f).0)
    ensures Remembered(SetUp(d, image, edits, f).0) == Some(image.hash) <==> Marks(d, image, f)
  {
    HeaderMarks(d, image, f);
    var (d1, matched) := HeaderEnsured(d, image.hash, f);
    if matched.Ok? && Maps(d1, |image.raw|, f) {
      var c := if matched.value then Content(d1) else Copied(Content(d1), image.raw, f).0;
      SectorZeroDecides(d1, c);
      SectorZeroDecides(d1, EditedAll(c, edits));
    }
  }

  /** A successful set-up writes the image exactly when the device does not remember it. */
  lemma SetupWrites(d: Bytes, image: Image, f: Faults)
    requires Device(d) && |image.hash| == HASH_SIZE && SetUp(d, image, [], f).1
    ensures Device(SetUp(d, image, [], f).0) && Holds(View(d), image)
    ensures Content(SetUp(d, image, [], f).0) ==
              if Remembered(d) == Some(image.hash) then Content(d) else Splice(Content(d), 0, image.raw)
  {
    StepExpected(d, SetupEvent(image, [], f));
    assert View(Step(d, SetupEvent(image, [], f))).content == Content(SetUp(d, image, [], f).0);
  }

  /**
   * After any set-up, failed or not, the next successful one with the same
   * image writes the image exactly when the first one did not leave a
   * matching header; otherwise it shows what the first one left.
   */
  lemma SetupRedone(d: Bytes, image: Image, edits: seq<Edit>, f: Faults, d1: Bytes, g: Faults)
    requires Device(d) && |image.hash| == HASH_SIZE
    requires d1 == SetUp(d, image, edits, f).0 && Device(d1) && SetUp(d1, image, [], g).1
    ensures Holds(View(d1), image) && Device(SetUp(d1, image, [], g).0)
    ensures Content(SetUp(d1, image, [], g).0) ==
              if Marks(d, image, f) then Content(d1) else Splice(Content(d1), 0, image.raw)
  {
    SetupMarks(d, image, edits, f);
    SetupWrites(d1, image, g);
  }

  /** Map accepts a device of that many sectors for an image of that size. */
  predicate Accepts(sectors: nat, imageSize: nat) {
    sectors >= MinSectors(imageSize)
  }

  /** The sectors behind the header have room for the image. */
  predicate HasRoom(sectors: nat, imageSize: nat) {
    sectors >= 1 && (sectors - 1) * SECTOR >= imageSize
  }

  /**
   * The size check is right exactly for image sizes that do not overflow
   * 64-bit arithmetic: then it accepts precisely the devices with room for
   * the image behind the header sector.
   */
  lemma MapHoldsImage(imageSize: nat)
    requires imageSize < U64
    ensures (forall sectors: nat :: Accepts(sectors, imageSize) <==> HasRoom(sectors, imageSize))
            <==> SizeSafe(imageSize)
  {
    if imageSize + SECTOR - 1 >= U64 {
      var sectors := MinSectors(imageSize);
      assert Accepts(sectors, imageSize) && !HasRoom(sectors, imageSize);
    }
  }

  /**
   * When a set-up succeeds: the device can be opened and closed, is large
   * enough and gets mapped, its header names the image in the known version,
   * or the header and the image can be written, and files can be added if any
   * are to be.
   */
  lemma SetUpSucceedsIff(d: Bytes, image: Image, edits: seq<Edit>, f: Faults)
    requires Device(d) && |image.hash| == HASH_SIZE && SizeSafe(|image.raw|)
    ensures SetUp(d, image, edits, f).1 <==>
            && !f.open && !f.close && !f.mapper
            && HasRoom(|d| / SECTOR, |image.raw|)
            && (var hdr := DecodeHeader(d);
                if hdr.magic == MAGIC && hdr.hash == image.hash then hdr.version == VERSION
                else !f.writeHeader && f.copied.None?)
            && (edits == [] || !f.inject)
  {
    var d1 := HeaderEnsured(d, image.hash, f).0;
    assert |d1| == |d|;
    assert |d| / SECTOR >= MinSectors(|image.raw|) <==> HasRoom(|d| / SECTOR, |image.raw|);
  }

  // ----- The objects ------------------------------------------------------

  class PersistentRoot {
    const device: array<byte>
    var mapped: bool

    ghost predicate Valid()
      reads this, device
    {
      Device(device[..])
    }

    constructor (device: array<byte>)
      requires Device(device[..])
      ensures Valid() && this.device == device && !mapped
    {
      this.device := device;
      mapped := false;
    }

    /** Writes bytes at an offset of the device. */
    method WriteAt(at: nat, b: Bytes)
      requires at + |b| <= device.Length
      modifies device
      ensures device[..] == Splice(old(device[..]), at, b)
    {
      for i := 0 to |b|
        invariant device[..] == Splice(old(device[..]), at, b[..i])
      {
        device[at + i] := b[i];
        assert device[..] == Splice(old(device[..]), at, b[..i])[at + i := b[i]];
        assert b[..i + 1] == b[..i] + [b[i]];
      }
      assert b[..|b|] == b;
    }

    method EnsureDevHeaderMatches(hash: Bytes, f: Faults) returns (r: Result<bool>)
      requires Valid() && |hash| == HASH_SIZE
      modifies device
      ensures Valid()
      ensures (device[..], r) == HeaderEnsured(old(device[..]), hash, f)
    {
      if f.open { return Err; }
      var hdr := DecodeHeader(device[..]);
      if hdr.magic != MAGIC || hdr.hash != hash {
        if f.writeHeader { return Err; }
        WriteAt(0, EncodeHeader(hash));
        return if f.close then Err else Ok(false);
      }
      if hdr.version != VERSION { return Err; }
      return if f.close then Err else Ok(true);
    }

    method Map(imageSize: nat, f: Faults) returns (ok: bool)
      requires Valid()
      modifies this`mapped
      ensures ok == Maps(device[..], imageSize, f)
      ensures mapped == (old(mapped) || ok)
    {
      var sectors := device.Length / SECTOR;
      if sectors < MinSectors(imageSize) || f.mapper { return false; }
      mapped := true;
      return true;
    }

    /** A write through the mapped device; the mapping starts at sector 1. */
    method WriteMapped(e: Edit)
      requires Valid()
      modifies device
      ensures Valid()
      ensures device[..] == old(device[..])[..SECTOR] + Edited(Content(old(device[..])), e)
    {
      ghost var d := device[..];
      var size := device.Length - SECTOR;
      if e.at < size {
        var b := if e.at + |e.bytes| <= size then e.bytes else e.bytes[..size - e.at];
        WriteAt(SECTOR + e.at, b);
        SpliceMapped(d, e.at, b);
      } else {
        assert d == d[..SECTOR] + Content(d);
      }
    }

    /** Files are added through the mapped device. */
    method Inject(edits: seq<Edit>)
      requires Valid()
      modifies device
      ensures Valid()
      ensures device[..] == old(device[..])[..SECTOR] + EditedAll(Content(old(device[..])), edits)
    {
      ghost var d := device[..];
      ghost var sector0, c := d[..SECTOR], Content(d);
      assert d == sector0 + c && edits[0..] == edits;
      ghost var now := c;
      for i := 0 to |edits|
        invariant device[..] == sector0 + now && |now| == |c|
        invariant EditedAll(c, edits) == EditedAll(now, edits[i..])
      {
        assert edits[i..][1..] == edits[i + 1..];
        assert Content(device[..]) == now;
        WriteMapped(edits[i]);
        now := Edited(now, edits[i]);
      }
      assert edits[|edits|..] == [];
    }

    method Setup(image: Image, edits: seq<Edit>, f: Faults) returns (ok: bool)
      requires Valid() && |image.hash| == HASH_SIZE
      modifies this`mapped, device
      ensures Valid()
      ensures (device[..], ok) == SetUp(old(device[..]), image, edits, f)
      ensures ok ==> mapped
    {
      var matched := EnsureDevHeaderMatches(image.hash, f);
      if matched.Err? { return false; }
      ok := Map(|image.raw|, f);
      if !ok { return; }
      ghost var d1 := device[..];
      assert d1 == d1[..SECTOR] + Content(d1);
      if !matched.value {
        ok := CopyImage(image.raw, f);
        if !ok { return; }
      }
      ghost var d2 := device[..];
      assert d2[..SECTOR] == d1[..SECTOR];
      if edits != [] && f.inject { return false; }
      Inject(edits);
    }

    /** The image goes to the start of the mapped device. */
    method CopyImage(raw: Bytes, f: Faults) returns (ok: bool)
      requires Valid()
      modifies device
      ensures Valid()
      ensures var (c, copied) := Copied(Content(old(device[..])), raw, f);
              ok == copied && device[..] == old(device[..])[..SECTOR] + c
    {
      ghost var d := device[..];
      var size := device.Length - SECTOR;
      ok := f.copied.None? && |raw| <= size;
      var k := if ok then |raw| else if f.copied.Some? then f.copied.value else 0;
      if k <= |raw| && k <= size {
        WriteAt(SECTOR, raw[..k]);
        SpliceMapped(d, 0, raw[..k]);
        assert ok ==> raw[..k] == raw;
      } else {
        assert d == d[..SECTOR] + Content(d);
      }
    }

    method Teardown()
      modifies this`mapped
      ensures !mapped
    {
      mapped := false;
    }
  }

  lemma SpliceMapped(d: Bytes, at: nat, b: Bytes)
    requires Device(d) && at + |b| <= |d| - SECTOR
    ensures Splice(d, SECTOR + at, b) == d[..SECTOR] + Splice(Content(d), at, b)
  {
    var c := Content(d);
    assert d[..SECTOR + at] == d[..SECTOR] + c[..at];
    assert d[SECTOR + at + |b|..] == c[at + |b|..];
  }
}
