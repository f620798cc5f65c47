/**
 * Creating and removing the machine of a container: the set-up loop of
 * pkg/libvirttools/disklist.go with its rollback, and CreateContainer,
 * removeDomain and RemoveContainer of pkg/libvirttools/virtualization.go.
 * libvirt and the metadata store are reduced to the sets of domains and
 * volumes and the map of container records; which calls fail is part of the
 * input.
 */
module VmLifecycle {
  import opened Common
  import opened Disks

  datatype State = Created | Running | Exited | Unknown

  /** What the record of a container keeps of its configuration. */
  datatype Config = Config(volumes: seq<Volume>, driverName: string)

  datatype Record = Record(config: Config, state: State)

  datatype Host = Host(domains: set<string>, volumes: set<string>, records: map<string, Record>)

  /** How setting a volume up ends; a dirty failure leaves the volume behind. */
  datatype SetupOutcome = SetUp | FailsClean | FailsDirty

  type Outcomes = nat -> SetupOutcome

  ghost function Ids(items: seq<Item>): set<string> {
    set i | 0 <= i < |items| :: items[i].volume.id
  }

  // ----- Tearing down -----------------------------------------------------

  /** The volumes after tearing down every item; those in `stuck` stay. */
  ghost function TornDown(live: set<string>, items: seq<Item>, stuck: set<string>): set<string> {
    live - (Ids(items) - stuck)
  }

  /** Every teardown works: nothing is stuck, and every rigid volume is still there when its turn comes. */
  ghost predicate TearsDown(live: set<string>, items: seq<Item>, stuck: set<string>) {
    items == [] ||
    var front, last := items[..|items| - 1], items[|items| - 1].volume;
    TearsDown(live, front, stuck) && last.id !in stuck && (last.rigid ==> last.id in TornDown(live, front, stuck))
  }

  // ----- Setting up -------------------------------------------------------

  /** The first item from `i` on whose set-up fails, or the number of items. */
  ghost function FirstFailure(items: seq<Item>, outcome: Outcomes, i: nat): (n: nat)
    requires i <= |items|
    ensures i <= n <= |items|
    ensures forall k :: i <= k < n ==> outcome(k) == SetUp
    ensures n < |items| ==> outcome(n) != SetUp
    decreases |items| - i
  {
    if i == |items| || outcome(i) != SetUp then i else FirstFailure(items, outcome, i + 1)
  }

  /** diskList.setup: the volumes afterwards and whether it succeeded. */
  ghost function SetupAll(live: set<string>, items: seq<Item>, outcome: Outcomes,
                          stuck: set<string>): (set<string>, bool)
  {
    var n := FirstFailure(items, outcome, 0);
    if n == |items| then (live + Ids(items), true)
    else
      var left := if outcome(n) == FailsDirty then {items[n].volume.id} else {};
      (TornDown(live + Ids(items[..n]) + left, items[..n], stuck), false)
  }

  // ----- Creating and removing --------------------------------------------

  /** Failures of removeDomain; `source` is that of listing the volumes. */
  datatype RemoveFaults = RemoveFaults(lookup: bool, destroy: bool, undefine: bool, wait: bool,
                                        source: bool, stuck: set<string>)

  ghost function ListOf(config: Config): Result<seq<Item>> {
    if KindOf(config.driverName).None? then Err else Number(config.volumes, KindOf(config.driverName).value, 0)
  }

  /** removeDomain: the host afterwards and whether it returned no error. */
  ghost function DomainRemoved(h: Host, id: string, config: Config, state: State, strict: bool,
                               f: RemoveFaults): (Host, bool)
  {
    if f.lookup then (h, false)
    else if id in h.domains && ((state == Running && f.destroy) || f.undefine) then (h, false)
    else
      var h1 := h.(domains := h.domains - {id});
      if id in h.domains && f.wait then (h1, false)
      else if f.source || ListOf(config).Err? then (h1, !strict)
      else
        var items := ListOf(config).value;
        (h1.(volumes := TornDown(h1.volumes, items, f.stuck)), !strict || TearsDown(h1.volumes, items, f.stuck))
  }

  /** Failures of CreateContainer; `pathFor` computes the guest paths from the domain as libvirt defined it. */
  datatype CreateFaults = CreateFaults(
    annotations: bool, source: bool, setup: Outcomes, setupStuck: set<string>,
    serial: bool, define: bool, pathFor: Driver -> PathResult, images: bool, save: bool,
    removal: RemoveFaults, stuck: set<string>)

  /** The domain gets defined. */
  predicate Defines(f: CreateFaults) {
    !f.serial && !f.define
  }

  /** The steps after the volumes are set up all work. */
  predicate Finishes(items: seq<Item>, f: CreateFaults) {
    Defines(f) && VolumeMap(f.pathFor, items).Mapped? && !f.images && !f.save
  }

  /** CreateContainer: the host afterwards and whether it succeeded. */
  ghost function ContainerCreated(h: Host, id: string, config: Config, f: CreateFaults): (Host, bool) {
    if f.annotations || f.source || ListOf(config).Err? then (h, false)
    else
      var items := ListOf(config).value;
      var (volumes, up) := SetupAll(h.volumes, items, f.setup, f.setupStuck);
      var h1 := h.(volumes := volumes);
      if !up then (h1, false)
      else
        var h2 := if Defines(f) then h1.(domains := h.domains + {id}) else h1;
        if Finishes(items, f) then (h2.(records := h.records[id := Record(config, Created)]), true)
        else
          var h3 := DomainRemoved(h2, id, config, Unknown, true, f.removal).0;
          (h3.(volumes := TornDown(h3.volumes, items, f.stuck)), false)
  }

  /** RemoveContainer: the host afterwards and whether it returned no error. */
  ghost function ContainerRemoved(h: Host, id: string, f: RemoveFaults,
                                  readFails: bool, saveFails: bool): (Host, bool)
  {
    if readFails then (h, false)
    else if id !in h.records then (h, true)
    else
      var r := h.records[id];
      var (h1, ok) := DomainRemoved(h, id, r.config, r.state, r.state == Created || r.state == Running, f);
      if !ok then (h1, false)
      // The result of deleting the record is not looked at.
      else (if saveFails then h1 else h1.(records := h1.records - {id}), true)
  }

  // ----- Creation is all or nothing ---------------------------------------

  /** Nothing on the host carries the identity of the new container. */
  ghost predicate Fresh(h: Host, id: string, config: Config) {
    && id !in h.domains && id !in h.records
    && (ListOf(config).Ok? ==> Ids(ListOf(config).value) !! h.volumes)
  }

  /** The set-up leaves a volume behind: its first failure is dirty, and it is not one of the volumes rolled back. */
  ghost predicate LeavesVolume(items: seq<Item>, outcome: Outcomes) {
    var n := FirstFailure(items, outcome, 0);
    n < |items| && outcome(n) == FailsDirty && items[n].volume.id !in Ids(items[..n])
  }

  /** Removing the domain after a failed creation gets it undefined, if it was defined. */
  predicate Undefines(f: CreateFaults) {
    Defines(f) ==> !f.removal.lookup && !f.removal.undefine
  }

  /** It goes on to tear the volumes down. */
  predicate TearsTwice(f: CreateFaults) {
    !f.removal.lookup && !f.removal.source && (Defines(f) ==> !f.removal.undefine && !f.removal.wait)
  }

  /** The volumes that survive the clean-up: those on which every teardown fails. */
  function Survivors(f: CreateFaults): set<string> {
    if TearsTwice(f) then f.removal.stuck * f.stuck else f.stuck
  }

  /** What must work for a failed creation to leave nothing. */
  ghost predicate Restores(config: Config, f: CreateFaults) {
    if f.annotations || f.source || ListOf(config).Err? then true
    else
      var items := ListOf(config).value;
      var n := FirstFailure(items, f.setup, 0);
      if n < |items| then Ids(items[..n]) !! f.setupStuck && !LeavesVolume(items, f.setup)
      else Undefines(f) && Ids(items) !! Survivors(f)
  }

  lemma IdsOfPrefix(items: seq<Item>, n: nat)
    requires n <= |items|
    ensures Ids(items[..n]) <= Ids(items)
  {
    forall x | x in Ids(items[..n])
      ensures x in Ids(items)
    {
      var i :| 0 <= i < n && items[..n][i].volume.id == x;
      assert items[i].volume.id == x;
    }
  }

  /** A failed set-up restores the volumes exactly when the rollback works and the failing volume leaves nothing. */
  lemma SetupRestores(live: set<string>, items: seq<Item>, outcome: Outcomes, stuck: set<string>)
    requires Ids(items) !! live && FirstFailure(items, outcome, 0) < |items|
    ensures var n := FirstFailure(items, outcome, 0);
            SetupAll(live, items, outcome, stuck).0 == live <==>
            Ids(items[..n]) !! stuck && !LeavesVolume(items, outcome)
  {
    var n := FirstFailure(items, outcome, 0);
    var id := items[n].volume.id;
    var front := Ids(items[..n]);
    var after := SetupAll(live, items, outcome, stuck).0;
    IdsOfPrefix(items, n);
    assert id in Ids(items);
    var left := if outcome(n) == FailsDirty then {id} else {};
    assert after == (live + front + left) - (front - stuck);
    if x :| x in front && x in stuck {
      assert x in after && x !in live;
    } else if LeavesVolume(items, outcome) {
      assert id in after && id !in live;
    } else {
      assert front - stuck == front;
      assert after == live;
    }
  }

  /** The deferred clean-up of a creation whose volumes are all set up. */
  lemma CleanUpRestores(h: Host, id: string, config: Config, f: CreateFaults)
    requires Fresh(h, id, config) && !f.annotations && !f.source && ListOf(config).Ok?
    requires SetupAll(h.volumes, ListOf(config).value, f.setup, f.setupStuck).1 && !Finishes(ListOf(config).value, f)
    ensures var h' := ContainerCreated(h, id, config, f).0;
            && h'.records == h.records
            && (h'.domains == h.domains <==> Undefines(f))
            && (h'.volumes == h.volumes <==> Ids(ListOf(config).value) !! Survivors(f))
  {
    var ids := Ids(ListOf(config).value);
    var h' := ContainerCreated(h, id, config, f).0;
    assert h'.volumes == h.volumes + ids * Survivors(f);
    if Undefines(f) {
      assert h'.domains == h.domains;
    } else {
      assert id in h'.domains;
    }
    if x :| x in ids && x in Survivors(f) {
      assert x in h'.volumes && x !in h.volumes;
    }
  }

  /**
   * Creating the container of a fresh identifier either succeeds and adds
   * exactly its domain, volumes and record, or it fails. For every choice of
   * failing calls, in the clean-up too, a failure leaves the host exactly as
   * it was if and only if Restores holds.
   */
  lemma CreateAllOrNothing(h: Host, id: string, config: Config, f: CreateFaults)
    requires Fresh(h, id, config)
    ensures var (h', ok) := ContainerCreated(h, id, config, f);
            if ok then
              && ListOf(config).Ok?
              && h' == Host(h.domains + {id}, h.volumes + Ids(ListOf(config).value),
                         h.records[id := Record(config, Created)])
            else
              h' == h <==> Restores(config, f)
  {
    if !f.annotations && !f.source && ListOf(config).Ok? {
      var items := ListOf(config).value;
      if FirstFailure(items, f.setup, 0) < |items| {
        SetupRestores(h.volumes, items, f.setup, f.setupStuck);
      } else if !Finishes(items, f) {
        CleanUpRestores(h, id, config, f);
      }
    }
  }

  lemma NumbersAll(config: Config)
    requires ListOf(config).Ok?
    ensures |ListOf(config).value| == |config.volumes|
  {
    if config.volumes != [] {
      NumberPlaces(config.volumes, KindOf(config.driverName).value, 0, 0);
    }
  }

  /**
   * When a creation succeeds: the driver is known and has room for the disks,
   * every volume is set up, the domain gets defined, every disk with a UUID
   * has a path in it, and the other steps work.
   */
  lemma CreateSucceedsIff(h: Host, id: string, config: Config, f: CreateFaults)
    ensures ContainerCreated(h, id, config, f).1 <==>
            && !f.annotations && !f.source
            && KindOf(config.driverName).Some?
            && DiskCount(config.volumes) <= Capacity(KindOf(config.driverName).value)
            && (forall i :: 0 <= i < |config.volumes| ==> f.setup(i) == SetUp)
            && !f.serial && !f.define
            && (ListOf(config).Ok? ==>
                  forall i :: 0 <= i < |ListOf(config).value| ==> Locates(f.pathFor, ListOf(config).value[i]))
            && !f.images && !f.save
  {
    if KindOf(config.driverName).Some? {
      NumberFits(config.volumes, KindOf(config.driverName).value, 0);
    }
    if ListOf(config).Ok? {
      NumbersAll(config);
      VolumeMapIff(f.pathFor, ListOf(config).value);
    }
  }

  predicate CleanRemoval(f: RemoveFaults) {
    !f.lookup && !f.destroy && !f.undefine && !f.wait && !f.source && f.stuck == {}
  }

  /**
   * In particular: if the rollback and the removal of the domain work, only a
   * volume whose own failed set-up left it behind can remain. The second
   * teardown does not matter: it fails for every rigid volume that the first
   * one removed.
   */
  lemma CleanFailureRestores(h: Host, id: string, config: Config, f: CreateFaults)
    requires Fresh(h, id, config) && f.setupStuck == {} && CleanRemoval(f.removal)
    requires !ContainerCreated(h, id, config, f).1
    requires ListOf(config).Ok? ==> !LeavesVolume(ListOf(config).value, f.setup)
    ensures ContainerCreated(h, id, config, f).0 == h
  {
    CreateAllOrNothing(h, id, config, f);
  }

  /** The second teardown of a rigid volume always fails after a first one that worked. */
  lemma SecondTeardownFails(live: set<string>, items: seq<Item>, i: nat, stuck: set<string>)
    requires i < |items| && items[i].volume.rigid && items[i].volume.id !in stuck
    ensures !TearsDown(TornDown(live, items, stuck), items, stuck)
  {
    assert items[i].volume.id in Ids(items);
    TearsDownIff(TornDown(live, items, stuck), items, stuck);
  }

  /** Whatever fails, creation touches nothing that belongs to another container. */
  lemma CreateTouchesOnlyItsOwn(h: Host, id: string, config: Config, f: CreateFaults)
    ensures var h' := ContainerCreated(h, id, config, f).0;
            && h'.domains - {id} == h.domains - {id}
            && h'.records - {id} == h.records - {id}
            && (ListOf(config).Err? ==> h'.volumes == h.volumes)
            && (ListOf(config).Ok? ==> h'.volumes - Ids(ListOf(config).value) == h.volumes - Ids(ListOf(config).value))
  {
    if !f.annotations && !f.source && ListOf(config).Ok? {
      var items := ListOf(config).value;
      var n := FirstFailure(items, f.setup, 0);
      IdsOfPrefix(items, n);
      if n < |items| {
        assert items[n].volume.id in Ids(items);
      }
    }
  }

  // ----- Removal ----------------------------------------------------------

  /** No rigid volume is listed a second time. */
  ghost predicate RigidOnce(items: seq<Item>) {
    forall i :: 0 <= i < |items| && items[i].volume.rigid ==> items[i].volume.id !in Ids(items[..i])
  }

  /** Every rigid volume is there at the start. */
  ghost predicate RigidLive(live: set<string>, items: seq<Item>) {
    forall i :: 0 <= i < |items| && items[i].volume.rigid ==> items[i].volume.id in live
  }

  lemma RigidOfLast(live: set<string>, items: seq<Item>)
    requires items != []
    ensures var front, last := items[..|items| - 1], items[|items| - 1].volume;
            && (RigidOnce(items) <==> RigidOnce(front) && (last.rigid ==> last.id !in Ids(front)))
            && (RigidLive(live, items) <==> RigidLive(live, front) && (last.rigid ==> last.id in live))
  {
    var n := |items| - 1;
    var front := items[..n];
    assert forall i :: 0 <= i < n ==> front[i] == items[i] && front[..i] == items[..i];
    if RigidOnce(items) {
      forall i | 0 <= i < n && front[i].volume.rigid ensures front[i].volume.id !in Ids(front[..i]) {
        assert items[i].volume.rigid;
      }
    }
  }

  /**
   * Tearing a list down works if and only if no volume is stuck, and every
   * rigid volume is there and listed once.
   */
  lemma {:induction false} TearsDownIff(live: set<string>, items: seq<Item>, stuck: set<string>)
    ensures TearsDown(live, items, stuck) <==> Ids(items) !! stuck && RigidOnce(items) && RigidLive(live, items)
  {
    if items != [] {
      var n := |items| - 1;
      TearsDownIff(live, items[..n], stuck);
      RigidOfLast(live, items);
      IdsGrow(items, n);
      assert items[..n + 1] == items;
    }
  }

  /** Volumes that are all there tear down without error exactly when no rigid one is listed twice. */
  lemma LiveTearsDown(live: set<string>, items: seq<Item>)
    requires Ids(items) <= live
    ensures TearsDown(live, items, {}) <==> RigidOnce(items)
  {
    TearsDownIff(live, items, {});
    forall i | 0 <= i < |items| ensures items[i].volume.id in live {
      assert items[i].volume.id in Ids(items);
    }
  }

  /**
   * Removing a container undoes its creation if and only if no rigid volume
   * is listed twice; otherwise the removal fails.
   */
  lemma RemoveUndoesCreate(h: Host, id: string, config: Config, f: CreateFaults, g: RemoveFaults)
    requires Fresh(h, id, config) && CleanRemoval(g)
    requires ContainerCreated(h, id, config, f).1
    ensures ListOf(config).Ok?
    ensures ContainerRemoved(ContainerCreated(h, id, config, f).0, id, g, false, false) == (h, true)
            <==> RigidOnce(ListOf(config).value)
  {
    var items := ListOf(config).value;
    assert FirstFailure(items, f.setup, 0) == |items|;
    var h1 := ContainerCreated(h, id, config, f).0;
    LiveTearsDown(h1.volumes, items);
    if RigidOnce(items) {
      var h2 := ContainerRemoved(h1, id, g, false, false).0;
      assert h2.domains == h.domains;
      assert h2.volumes == h.volumes;
      assert h2.records == h.records;
    }
  }

  /** The domain of the container, if there is one, can be undefined. */
  predicate DomainGoes(h: Host, id: string, state: State, f: RemoveFaults) {
    !f.lookup && (id in h.domains ==> !(state == Running && f.destroy) && !f.undefine && !f.wait)
  }

  /**
   * When a removal succeeds: the record can be read, and there is none, or the
   * domain can be undefined and, for a container created or running, its
   * volumes can be listed and torn down.
   */
  lemma RemoveSucceedsIff(h: Host, id: string, f: RemoveFaults, readFails: bool, saveFails: bool)
    ensures ContainerRemoved(h, id, f, readFails, saveFails).1 <==>
            && !readFails
            && (id in h.records ==>
                  var Record(config, state) := h.records[id];
                  && DomainGoes(h, id, state, f)
                  && (state == Created || state == Running ==>
                        && !f.source && ListOf(config).Ok?
                        && var items := ListOf(config).value;
                        Ids(items) !! f.stuck && RigidOnce(items) && RigidLive(h.volumes, items)))
  {
    if id in h.records && ListOf(h.records[id].config).Ok? {
      TearsDownIff(h.volumes, ListOf(h.records[id].config).value, f.stuck);
    }
  }

  /**
   * What success of a removal means: the record is gone if and only if there
   * was none or its deletion, whose result is not looked at, worked; a
   * recorded container has lost its domain, and its volumes too if it was
   * created or running and they could be listed; otherwise the volumes that
   * remain are those whose teardown failed.
   */
  lemma RemovalReport(h: Host, id: string, f: RemoveFaults, readFails: bool, saveFails: bool)
    requires ContainerRemoved(h, id, f, readFails, saveFails).1
    ensures var h' := ContainerRemoved(h, id, f, readFails, saveFails).0;
            && (id !in h'.records <==> id !in h.records || !saveFails)
            && (id in h.records ==> id !in h'.domains)
            && (id in h.records && ListOf(h.records[id].config).Ok? && !f.source ==>
                  var ids := Ids(ListOf(h.records[id].config).value);
                  && h'.volumes * ids == h.volumes * ids * f.stuck
                  && (h.records[id].state == Created || h.records[id].state == Running ==> h'.volumes !! ids))
  {
    if id in h.records && ListOf(h.records[id].config).Ok? && !f.source {
      var r := h.records[id];
      var items := ListOf(r.config).value;
      if r.state == Created || r.state == Running {
        TearsDownIff(h.volumes, items, f.stuck);
      }
    }
  }

  /**
   * Freshness is needed: creating a container under an identifier in use,
   * when defining the domain fails, removes the domain that was there.
   */
  lemma ReusedIdLosesDomain(h: Host, id: string, config: Config, f: CreateFaults)
    requires id in h.domains && CleanRemoval(f.removal) && f.define && !f.annotations && !f.source
    requires ListOf(config).Ok? && FirstFailure(ListOf(config).value, f.setup, 0) == |ListOf(config).value|
    ensures id !in ContainerCreated(h, id, config, f).0.domains
  {
  }

  // ----- The object -------------------------------------------------------

  class VirtualizationTool {
    var domains: set<string>
    var volumes: set<string>
    var records: map<string, Record>

    constructor ()
      ensures Value() == Host({}, {}, map[])
    {
      domains, volumes, records := {}, {}, map[];
    }

    ghost function Value(): Host
      reads this
    {
      Host(domains, volumes, records)
    }

    /** diskList.teardown: every volume gets its turn, and one failure makes the call fail. */
    method Teardown(items: seq<Item>, stuck: set<string>) returns (ok: bool)
      modifies this`volumes
      ensures volumes == TornDown(old(volumes), items, stuck)
      ensures ok <==> TearsDown(old(volumes), items, stuck)
    {
      ok := true;
      for i := 0 to |items|
        invariant volumes == TornDown(old(volumes), items[..i], stuck)
        invariant ok <==> TearsDown(old(volumes), items[..i], stuck)
      {
        IdsGrow(items, i);
        assert items[..i + 1][..i] == items[..i];
        var volume := items[i].volume;
        if volume.id in stuck || (volume.rigid && volume.id !in volumes) {
          ok := false;
        } else {
          volumes := volumes - {volume.id};
        }
      }
      assert items[..|items|] == items;
    }

    /** diskList.setup */
    method SetupDisks(items: seq<Item>, outcome: Outcomes, stuck: set<string>) returns (ok: bool)
      modifies this`volumes
      ensures (volumes, ok) == SetupAll(old(volumes), items, outcome, stuck)
    {
      for n := 0 to |items|
        invariant volumes == old(volumes) + Ids(items[..n])
        invariant FirstFailure(items, outcome, 0) == FirstFailure(items, outcome, n)
      {
        IdsGrow(items, n);
        var result := outcome(n);
        if result != SetUp {
          if result == FailsDirty {
            volumes := volumes + {items[n].volume.id};
          }
          assert volumes == old(volumes) + Ids(items[..n])
                 + (if result == FailsDirty then {items[n].volume.id} else {});
          var torn := Teardown(items[..n], stuck);
          return false;
        }
        volumes := volumes + {items[n].volume.id};
      }
      assert items[..|items|] == items;
      return true;
    }

    method RemoveDomain(id: string, config: Config, state: State, strict: bool, f: RemoveFaults) returns (ok: bool)
      modifies this
      ensures (Value(), ok) == DomainRemoved(old(Value()), id, config, state, strict, f)
    {
      if f.lookup { return false; }
      if id in domains {
        if state == Running && f.destroy { return false; }
        if f.undefine { return false; }
        domains := domains - {id};
        if f.wait { return false; }
      }
      assert domains == old(domains) - {id};
      if f.source { return !strict; }
      var list := NewDiskList(config.volumes, config.driverName);
      if list.Err? { return !strict; }
      var torn := Teardown(list.value, f.stuck);
      return torn || !strict;
    }

    method CreateContainer(id: string, config: Config, f: CreateFaults) returns (ok: bool)
      modifies this
      ensures (Value(), ok) == ContainerCreated(old(Value()), id, config, f)
    {
      if f.annotations || f.source { return false; }
      var list := NewDiskList(config.volumes, config.driverName);
      if list.Err? { return false; }
      var items := list.value;
      ok := SetupDisks(items, f.setup, f.setupStuck);
      if !ok { return; }
      ok := false;
      if !f.serial && !f.define {
        domains := domains + {id};
        var paths := MapVolumes(f.pathFor, items);
        if paths.Mapped? && !f.images && !f.save {
          records := records[id := Record(config, Created)];
          ok := true;
        }
      }
      // the deferred clean-up
      if !ok {
        var removed := RemoveDomain(id, config, Unknown, true, f.removal);
        var torn := Teardown(items, f.stuck);
      }
    }

    method RemoveContainer(id: string, f: RemoveFaults, readFails: bool, saveFails: bool) returns (ok: bool)
      modifies this
      ensures (Value(), ok) == ContainerRemoved(old(Value()), id, f, readFails, saveFails)
    {
      if readFails { return false; }
      if id !in records { return true; }
      var r := records[id];
      ok := RemoveDomain(id, r.config, r.state, r.state == Created || r.state == Running, f);
      if !ok { return; }
      if !saveFails {
        records := records - {id};
      }
    }
  }

  lemma IdsGrow(items: seq<Item>, n: nat)
    requires n < |items|
    ensures Ids(items[..n + 1]) == Ids(items[..n]) + {items[n].volume.id}
  {
    var a, b := items[..n], items[..n + 1];
    forall x
      ensures x in Ids(b) <==> x in Ids(a) || x == items[n].volume.id
    {
      if x in Ids(a) {
        var i :| 0 <= i < n && a[i].volume.id == x;
        assert b[i].volume.id == x;
      }
      if x == items[n].volume.id {
        assert b[n].volume.id == x;
      }
      if x in Ids(b) {
        var i :| 0 <= i < n + 1 && b[i].volume.id == x;
        assert i < n ==> a[i].volume.id == x;
      }
    }
  }
}
