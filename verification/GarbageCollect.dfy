/**
 * Garbage collection of domains, volumes, config images and logical devices
 * by name: pkg/libvirttools/gc.go.
 */
module GarbageCollect {
  import opened Common

  const DOMAIN_PREFIX := "virtlet-"
  const ROOT_PREFIX := "virtlet_root_"
  const QCOW2_PREFIX := "virtlet-"
  const ISO_PREFIX := "config-"
  const ISO_SUFFIX := ".iso"
  const DM_PREFIX := "virtlet-dm-"
  const SHORT_ID := 13

  // ----- Names of what belongs to a container -----------------------------

  function DomainName(id: string, name: string): string
    requires |id| >= SHORT_ID
  {
    DOMAIN_PREFIX + id[..SHORT_ID] + "-" + name
  }

  function RootVolumeName(id: string): string {
    ROOT_PREFIX + id
  }

  function Qcow2VolumeName(id: string, name: string): string {
    QCOW2_PREFIX + id + "-" + name
  }

  function IsoName(id: string): string {
    ISO_PREFIX + id + ISO_SUFFIX
  }

  function DeviceName(id: string): string {
    DM_PREFIX + id
  }

  // ----- The tests that the passes make -----------------------------------

  predicate KeepsDomain(ids: seq<string>, name: string)
    requires forall i :: 0 <= i < |ids| ==> |ids[i]| >= SHORT_ID
  {
    exists i :: 0 <= i < |ids| && HasPrefix(name, DOMAIN_PREFIX + ids[i][..SHORT_ID])
  }

  predicate KeepsRoot(ids: seq<string>, name: string) {
    !HasPrefix(name, ROOT_PREFIX) || exists i :: 0 <= i < |ids| && ROOT_PREFIX + ids[i] == name
  }

  predicate KeepsQcow2(ids: seq<string>, name: string) {
    !HasPrefix(name, QCOW2_PREFIX) || exists i :: 0 <= i < |ids| && HasPrefix(name, QCOW2_PREFIX + ids[i])
  }

  /** The glob config-*.iso and the test behind it. */
  predicate KeepsIso(ids: seq<string>, name: string) {
    || |name| < |ISO_PREFIX| + |ISO_SUFFIX|
    || !HasPrefix(name, ISO_PREFIX) || !HasSuffix(name, ISO_SUFFIX)
    || exists i :: 0 <= i < |ids| && name == ISO_PREFIX + ids[i] + ISO_SUFFIX
  }

  predicate KeepsDevice(ids: seq<string>, name: string) {
    !HasPrefix(name, DM_PREFIX) || name[|DM_PREFIX|..] in ids
  }

  // ----- The collection ---------------------------------------------------

  datatype Host = Host(domains: set<string>, volumes: set<string>, isos: set<string>, devices: set<string>)

  /**
   * Which listings fail, which domain names cannot be read, and which objects
   * resist removal. `listed` is what listing the logical devices gives: those
   * whose underlying device has a readable Virtlet header, in table order.
   */
  datatype Faults = Faults(listDomains: bool, listRoot: bool, listQcow2: bool, listIsos: bool,
                           listed: Option<seq<string>>,
                           nameless: set<string>, pathless: set<string>, stuck: set<string>)

  /** Unmapping listed devices in order; a listed name without the prefix makes it panic there. */
  function Unmapped(devices: set<string>, names: seq<string>, ids: seq<string>,
                    stuck: set<string>): (set<string>, bool)
  {
    if names == [] then (devices, false)
    else
      var last := names[|names| - 1];
      var (left, panicked) := Unmapped(devices, names[..|names| - 1], ids, stuck);
      if panicked || !HasPrefix(last, DM_PREFIX) then (left, true)
      else if last[|DM_PREFIX|..] in ids || last in stuck then (left, false)
      else (left - {last}, false)
  }

  /**
   * It panics exactly when some listed name lacks the prefix. What goes is in
   * any case listed and of no listed container; without a panic all of that
   * goes, except what resists.
   */
  lemma {:induction false} UnmappedExactly(devices: set<string>, names: seq<string>, ids: seq<string>,
                                           stuck: set<string>)
    ensures var (left, panicked) := Unmapped(devices, names, ids, stuck);
            && (panicked <==> exists name :: name in names && !HasPrefix(name, DM_PREFIX))
            && left <= devices
            && (forall name :: name in devices && name !in left ==>
                  name in names && name !in stuck && !KeepsDevice(ids, name))
            && (!panicked ==> forall name :: name in left <==>
                  name in devices && (name !in names || name in stuck || KeepsDevice(ids, name)))
  {
    if names != [] {
      var n := |names| - 1;
      UnmappedExactly(devices, names[..n], ids, stuck);
      assert names == names[..n] + [names[n]];
    }
  }

  /** Which step on a sandbox fails, if any; reading one that has no data dereferences a nil pointer. */
  datatype Health = Fine | ReadFails | SaveFails | ListFails | NoData

  /** A sandbox with the containers that it really has; `gone` says that its network namespace is not there. */
  datatype Sandbox = Sandbox(ids: seq<string>, health: Health, gone: bool)

  /** Its containers get listed; saving matters only if the namespace is gone. */
  predicate Readable(s: Sandbox) {
    s.health.Fine? || (s.health.SaveFails? && !s.gone)
  }

  /** It gets marked as not ready: its namespace is gone, and it can be read and saved. */
  predicate Marks(s: Sandbox) {
    s.gone && (s.health.Fine? || s.health.ListFails?)
  }

  /** The containers of the sandboxes that can be read; the others are passed over. */
  function ContainerIds(sandboxes: seq<Sandbox>): seq<string> {
    if sandboxes == [] then []
    else
      var last := sandboxes[|sandboxes| - 1];
      ContainerIds(sandboxes[..|sandboxes| - 1]) + (if Readable(last) then last.ids else [])
  }

  /** Some sandbox that can be read has the container. */
  predicate Listed(sandboxes: seq<Sandbox>, id: string) {
    exists i :: 0 <= i < |sandboxes| && Readable(sandboxes[i]) && id in sandboxes[i].ids
  }

  /** The sandboxes up to the first one without data. */
  function Reached(sandboxes: seq<Sandbox>): nat {
    if sandboxes == [] || sandboxes[0].health.NoData? then 0 else 1 + Reached(sandboxes[1..])
  }

  lemma {:induction false} ReachedIs(sandboxes: seq<Sandbox>, n: nat)
    requires n <= |sandboxes| && forall k :: 0 <= k < n ==> !sandboxes[k].health.NoData?
    requires n < |sandboxes| ==> sandboxes[n].health.NoData?
    ensures Reached(sandboxes) == n
  {
    if n > 0 {
      ReachedIs(sandboxes[1..], n - 1);
    }
  }

  /** The sandboxes, by position, that a collection marks as not ready. */
  function MarkedNotReady(sandboxes: Option<seq<Sandbox>>): set<nat> {
    if sandboxes.None? then {}
    else set i: nat | i < |sandboxes.value| && i < Reached(sandboxes.value) && Marks(sandboxes.value[i])
  }

  datatype Listing = Ids(ids: seq<string>) | Fatal | Panic

  function List(sandboxes: Option<seq<Sandbox>>): Listing {
    if sandboxes.None? then Fatal
    else if exists i :: 0 <= i < |sandboxes.value| && sandboxes.value[i].health.NoData? then Panic
    else Ids(ContainerIds(sandboxes.value))
  }

  ghost function Collected(h: Host, ids: seq<string>, f: Faults): Host
    requires forall i :: 0 <= i < |ids| ==> |ids[i]| >= SHORT_ID
  {
    Host(
      set d | d in h.domains && (f.listDomains || d in f.nameless || d in f.stuck || KeepsDomain(ids, d)),
      set v | v in h.volumes &&
              (v in f.pathless || v in f.stuck ||
               ((f.listRoot || KeepsRoot(ids, v)) && (f.listQcow2 || KeepsQcow2(ids, v)))),
      set i | i in h.isos && (f.listIsos || i in f.stuck || KeepsIso(ids, i)),
      if f.listed.None? then h.devices else Unmapped(h.devices, f.listed.value, ids, f.stuck).0)
  }

  class Collector {
    var domains: set<string>
    var volumes: set<string>
    var isos: set<string>
    var devices: set<string>

    constructor (h: Host)
      ensures Value() == h
    {
      domains, volumes, isos, devices := h.domains, h.volumes, h.isos, h.devices;
    }

    ghost function Value(): Host
      reads this
    {
      Host(domains, volumes, isos, devices)
    }

    method RetrieveListOfContainerIDs(sandboxes: Option<seq<Sandbox>>) returns (r: Listing, notReady: set<nat>)
      ensures r == List(sandboxes)
      ensures notReady == MarkedNotReady(sandboxes)
    {
      notReady := {};
      if sandboxes.None? { return Fatal, notReady; }
      var ids: seq<string> := [];
      var list := sandboxes.value;
      for i := 0 to |list|
        invariant ids == ContainerIds(list[..i])
        invariant forall k :: 0 <= k < i ==> !list[k].health.NoData?
        invariant notReady == set k: nat | k < i && Marks(list[k])
      {
        assert list[..i + 1][..i] == list[..i];
        if list[i].health.NoData? {
          ReachedIs(list, i);
          return Panic, notReady;
        }
        if Marks(list[i]) {
          notReady := notReady + {i};
        }
        if Readable(list[i]) {
          ids := ids + list[i].ids;
        }
      }
      ReachedIs(list, |list|);
      assert list[..|list|] == list;
      return Ids(ids), notReady;
    }

    method RemoveOrphanDomains(ids: seq<string>, f: Faults)
      requires forall i :: 0 <= i < |ids| ==> |ids[i]| >= SHORT_ID
      modifies this`domains
      ensures domains ==
                set d | d in old(domains) && (f.listDomains || d in f.nameless || d in f.stuck || KeepsDomain(ids, d))
    {
      if f.listDomains { return; }
      var todo := domains;
      while todo != {}
        invariant todo <= old(domains)
        invariant domains ==
                    set d | d in old(domains) && (d in todo || d in f.nameless || d in f.stuck || KeepsDomain(ids, d))
        decreases todo
      {
        var d :| d in todo;
        todo := todo - {d};
        // A domain whose name cannot be read is looked up by the empty name, which finds nothing.
        if d !in f.nameless {
          var found := false;
          for i := 0 to |ids|
            invariant found <==> exists k :: 0 <= k < i && HasPrefix(d, DOMAIN_PREFIX + ids[k][..SHORT_ID])
          {
            if HasPrefix(d, DOMAIN_PREFIX + ids[i][..SHORT_ID]) {
              found := true;
            }
          }
          assert found <==> KeepsDomain(ids, d);
          if !found && d !in f.stuck {
            domains := domains - {d};
          }
        }
      }
    }

    method RemoveOrphanRootVolumes(ids: seq<string>, f: Faults)
      modifies this`volumes
      ensures volumes ==
                set v | v in old(volumes) && (f.listRoot || v in f.pathless || v in f.stuck || KeepsRoot(ids, v))
    {
      if f.listRoot { return; }
      var todo := volumes;
      while todo != {}
        invariant todo <= old(volumes)
        invariant volumes ==
                    set v | v in old(volumes) && (v in todo || v in f.pathless || v in f.stuck || KeepsRoot(ids, v))
        decreases todo
      {
        var v :| v in todo;
        todo := todo - {v};
        if v !in f.pathless && !KeepsRoot(ids, v) && v !in f.stuck {
          volumes := volumes - {v};
        }
      }
    }

    method RemoveOrphanQcow2Volumes(ids: seq<string>, f: Faults)
      modifies this`volumes
      ensures volumes ==
                set v | v in old(volumes) && (f.listQcow2 || v in f.pathless || v in f.stuck || KeepsQcow2(ids, v))
    {
      if f.listQcow2 { return; }
      var todo := volumes;
      while todo != {}
        invariant todo <= old(volumes)
        invariant volumes ==
                    set v | v in old(volumes) && (v in todo || v in f.pathless || v in f.stuck || KeepsQcow2(ids, v))
        decreases todo
      {
        var v :| v in todo;
        todo := todo - {v};
        if v !in f.pathless && !KeepsQcow2(ids, v) && v !in f.stuck {
          volumes := volumes - {v};
        }
      }
    }

    method RemoveOrphanConfigImages(ids: seq<string>, f: Faults)
      modifies this`isos
      ensures isos == set i | i in old(isos) && (f.listIsos || i in f.stuck || KeepsIso(ids, i))
    {
      if f.listIsos { return; }
      var todo := isos;
      while todo != {}
        invariant todo <= old(isos)
        invariant isos == set i | i in old(isos) && (i in todo || i in f.stuck || KeepsIso(ids, i))
        decreases todo
      {
        var i :| i in todo;
        todo := todo - {i};
        if !KeepsIso(ids, i) && i !in f.stuck {
          isos := isos - {i};
        }
      }
    }

    method RemoveOrphanVirtualBlockDevices(ids: seq<string>, f: Faults) returns (panicked: bool)
      modifies this`devices
      ensures (devices, panicked) ==
                if f.listed.None? then (old(devices), false) else Unmapped(old(devices), f.listed.value, ids, f.stuck)
    {
      if f.listed.None? { return false; }
      var names := f.listed.value;
      for i := 0 to |names|
        invariant (devices, false) == Unmapped(old(devices), names[..i], ids, f.stuck)
      {
        assert names[..i + 1][..i] == names[..i];
        if !HasPrefix(names[i], DM_PREFIX) {
          PanicSticks(old(devices), names, i, ids, f.stuck);
          return true;
        }
        if names[i][|DM_PREFIX|..] !in ids && names[i] !in f.stuck {
          devices := devices - {names[i]};
        }
      }
      assert names[..|names|] == names;
      return false;
    }

    /** Nothing is touched when the sandboxes cannot be listed, or when reading one of them panics. */
    method GarbageCollect(sandboxes: Option<seq<Sandbox>>, f: Faults) returns (panicked: bool, notReady: set<nat>)
      requires List(sandboxes).Ids? ==>
                 forall i :: 0 <= i < |List(sandboxes).ids| ==> |List(sandboxes).ids[i]| >= SHORT_ID
      modifies this
      ensures Value() == if List(sandboxes).Ids? then Collected(old(Value()), List(sandboxes).ids, f) else old(Value())
      ensures notReady == MarkedNotReady(sandboxes)
      ensures panicked <==>
                || List(sandboxes).Panic?
                || (List(sandboxes).Ids? && f.listed.Some?
                    && exists name :: name in f.listed.value && !HasPrefix(name, DM_PREFIX))
    {
      var listing;
      listing, notReady := RetrieveListOfContainerIDs(sandboxes);
      if !listing.Ids? { return listing.Panic?, notReady; }
      RemoveOrphanDomains(listing.ids, f);
      RemoveOrphanRootVolumes(listing.ids, f);
      RemoveOrphanQcow2Volumes(listing.ids, f);
      RemoveOrphanConfigImages(listing.ids, f);
      panicked := RemoveOrphanVirtualBlockDevices(listing.ids, f);
      if f.listed.Some? {
        UnmappedExactly(old(devices), f.listed.value, listing.ids, f.stuck);
      }
    }
  }

  lemma {:induction false} PanicSticks(devices: set<string>, names: seq<string>, i: nat,
                                       ids: seq<string>, stuck: set<string>)
    requires i < |names| && !HasPrefix(names[i], DM_PREFIX) && !Unmapped(devices, names[..i], ids, stuck).1
    ensures Unmapped(devices, names, ids, stuck) == (Unmapped(devices, names[..i], ids, stuck).0, true)
  {
    var n := |names| - 1;
    if i < n {
      assert names[..n][..i] == names[..i];
      PanicSticks(devices, names[..n], i, ids, stuck);
    }
  }

  // ----- What a collection leaves -----------------------------------------

  /** All listings and removals work. */
  predicate NoFaults(f: Faults) {
    f == Faults(false, false, false, false, Some([]), {}, {}, {}).(listed := f.listed) && f.listed.Some?
  }

  /** Every listed logical device has a name of ours, so that listing them does not panic. */
  predicate OnlyOurs(f: Faults) {
    f.listed.Some? && forall name :: name in f.listed.value ==> HasPrefix(name, DM_PREFIX)
  }

  predicate EqualLength(ids: seq<string>, n: nat) {
    n >= SHORT_ID && forall i :: 0 <= i < |ids| ==> |ids[i]| == n
  }

  lemma PrefixOfConcat<T>(p: seq<T>, a: seq<T>, b: seq<T>)
    requires |a| <= |b|
    ensures HasPrefix(p + b, p + a) <==> HasPrefix(b, a)
  {
    assert (p + b)[..|p + a|] == p + b[..|a|];
    if p + b[..|a|] == p + a {
      assert b[..|a|] == (p + b[..|a|])[|p|..] == (p + a)[|p|..] == a;
    }
  }

  /** Nothing that belongs to a listed container is removed, whatever fails. */
  lemma ListedIsKept(h: Host, ids: seq<string>, f: Faults, k: nat, name: string)
    requires forall i :: 0 <= i < |ids| ==> |ids[i]| >= SHORT_ID
    requires k < |ids|
    ensures var h' := Collected(h, ids, f);
            var id := ids[k];
            && (DomainName(id, name) in h.domains ==> DomainName(id, name) in h'.domains)
            && (RootVolumeName(id) in h.volumes ==> RootVolumeName(id) in h'.volumes)
            && (Qcow2VolumeName(id, name) in h.volumes ==> Qcow2VolumeName(id, name) in h'.volumes)
            && (IsoName(id) in h.isos ==> IsoName(id) in h'.isos)
            && (DeviceName(id) in h.devices ==> DeviceName(id) in h'.devices)
  {
    var id := ids[k];
    assert DomainName(id, name)[..|DOMAIN_PREFIX| + SHORT_ID] == DOMAIN_PREFIX + id[..SHORT_ID];
    assert Qcow2VolumeName(id, name)[..|QCOW2_PREFIX| + |id|] == QCOW2_PREFIX + id;
    assert KeepsDomain(ids, DomainName(id, name));
    assert KeepsQcow2(ids, Qcow2VolumeName(id, name));
    PassesDisjoint(ids, Qcow2VolumeName(id, name));
    PassesDisjoint(ids, RootVolumeName(id));
    assert KeepsRoot(ids, RootVolumeName(id));
    assert KeepsIso(ids, IsoName(id));
    assert DeviceName(id)[|DM_PREFIX|..] == id;
    if f.listed.Some? {
      UnmappedExactly(h.devices, f.listed.value, ids, f.stuck);
    }
  }

  /** The two volume passes never look at each other's names. */
  lemma PassesDisjoint(ids: seq<string>, name: string)
    ensures HasPrefix(name, ROOT_PREFIX) ==> KeepsQcow2(ids, name)
    ensures HasPrefix(name, QCOW2_PREFIX) ==> KeepsRoot(ids, name)
  {
    if HasPrefix(name, ROOT_PREFIX) {
      assert name[7] == name[..|ROOT_PREFIX|][7] == '_';
    }
  }

  lemma RootNameDetermines(a: string, b: string)
    requires RootVolumeName(a) == RootVolumeName(b)
    ensures a == b
  {
    assert a == RootVolumeName(a)[|ROOT_PREFIX|..] && b == RootVolumeName(b)[|ROOT_PREFIX|..];
  }

  lemma IsoNameDetermines(a: string, b: string)
    requires IsoName(a) == IsoName(b)
    ensures a == b
  {
    assert |a| == |b|;
    assert a == IsoName(a)[|ISO_PREFIX|..|ISO_PREFIX| + |a|] && b == IsoName(b)[|ISO_PREFIX|..|ISO_PREFIX| + |a|];
  }

  /** A domain belongs to this container as far as its name tells. */
  predicate DomainOf(name: string, id: string)
    requires |id| >= SHORT_ID
  {
    HasPrefix(name, DOMAIN_PREFIX + id[..SHORT_ID])
  }

  /**
   * With working listings and removals, whatever remains under a name of ours
   * carries the name of a listed container, for identifiers of any length:
   * root volumes, config images and logical devices exactly, qcow2 volumes
   * and domains by the beginning of their name.
   */
  lemma RemainingIsListed(h: Host, ids: seq<string>, f: Faults, name: string)
    requires NoFaults(f) && forall i :: 0 <= i < |ids| ==> |ids[i]| >= SHORT_ID
    ensures var h' := Collected(h, ids, f);
            && (name in h'.volumes && HasPrefix(name, ROOT_PREFIX) ==>
                  exists i :: 0 <= i < |ids| && name == RootVolumeName(ids[i]))
            && (name in h'.volumes && HasPrefix(name, QCOW2_PREFIX) ==>
                  exists i :: 0 <= i < |ids| && HasPrefix(name, QCOW2_PREFIX + ids[i]))
            && (name in h'.isos && HasPrefix(name, ISO_PREFIX) && HasSuffix(name, ISO_SUFFIX)
                && |name| >= |ISO_PREFIX| + |ISO_SUFFIX| ==>
                  exists i :: 0 <= i < |ids| && name == IsoName(ids[i]))
            && (name in h'.devices && name in f.listed.value && OnlyOurs(f) ==>
                  exists i :: 0 <= i < |ids| && name == DeviceName(ids[i]))
            && (name in h'.domains ==> exists i :: 0 <= i < |ids| && DomainOf(name, ids[i]))
  {
    var h' := Collected(h, ids, f);
    if name in h'.volumes {
      assert KeepsRoot(ids, name) && KeepsQcow2(ids, name);
      if i :| 0 <= i < |ids| && ROOT_PREFIX + ids[i] == name {
        assert name == RootVolumeName(ids[i]);
      }
    }
    if name in h'.isos {
      assert KeepsIso(ids, name);
      if i :| 0 <= i < |ids| && name == ISO_PREFIX + ids[i] + ISO_SUFFIX {
        assert name == IsoName(ids[i]);
      }
    }
    UnmappedExactly(h.devices, f.listed.value, ids, {});
    if name in h'.devices && name in f.listed.value && OnlyOurs(f) {
      assert KeepsDevice(ids, name);
      var i :| 0 <= i < |ids| && ids[i] == name[|DM_PREFIX|..];
      assert name == DM_PREFIX + name[|DM_PREFIX|..];
      assert name == DeviceName(ids[i]);
    }
    if name in h'.domains {
      assert KeepsDomain(ids, name);
      var i :| 0 <= i < |ids| && HasPrefix(name, DOMAIN_PREFIX + ids[i][..SHORT_ID]);
      assert DomainOf(name, ids[i]);
    }
  }

  /**
   * For identifiers of any length, a qcow2 volume remains exactly when a
   * listed identifier begins its name, be it that of its container or not.
   */
  lemma Qcow2RemainsIff(h: Host, ids: seq<string>, f: Faults, id: string, name: string)
    requires NoFaults(f) && forall i :: 0 <= i < |ids| ==> |ids[i]| >= SHORT_ID
    ensures Qcow2VolumeName(id, name) in Collected(h, ids, f).volumes <==>
            Qcow2VolumeName(id, name) in h.volumes &&
            exists i :: 0 <= i < |ids| && HasPrefix(id + "-" + name, ids[i])
  {
    var volume, tail := Qcow2VolumeName(id, name), id + "-" + name;
    assert volume == QCOW2_PREFIX + tail;
    assert HasPrefix(volume, QCOW2_PREFIX);
    PassesDisjoint(ids, volume);
    forall i | 0 <= i < |ids|
      ensures HasPrefix(volume, QCOW2_PREFIX + ids[i]) <==> HasPrefix(tail, ids[i])
    {
      if |ids[i]| <= |tail| {
        PrefixOfConcat(QCOW2_PREFIX, ids[i], tail);
      }
    }
  }

  /** Volumes and files under other names are left alone; domains under other names are not. */
  lemma ForeignNames(h: Host, ids: seq<string>, f: Faults, name: string)
    requires forall i :: 0 <= i < |ids| ==> |ids[i]| >= SHORT_ID
    ensures var h' := Collected(h, ids, f);
            && (!HasPrefix(name, ROOT_PREFIX) && !HasPrefix(name, QCOW2_PREFIX) ==>
                  (name in h'.volumes <==> name in h.volumes))
            && (!HasPrefix(name, ISO_PREFIX) ==> (name in h'.isos <==> name in h.isos))
            && (NoFaults(f) && !HasPrefix(name, DOMAIN_PREFIX) ==> name !in h'.domains)
  {
    if KeepsDomain(ids, name) {
      var i :| 0 <= i < |ids| && HasPrefix(name, DOMAIN_PREFIX + ids[i][..SHORT_ID]);
      var p := DOMAIN_PREFIX + ids[i][..SHORT_ID];
      assert name[..|DOMAIN_PREFIX|] == name[..|p|][..|DOMAIN_PREFIX|] == DOMAIN_PREFIX;
    }
  }

  lemma {:induction false} ListedIds(sandboxes: seq<Sandbox>, id: string)
    ensures id in ContainerIds(sandboxes) <==> Listed(sandboxes, id)
  {
    if sandboxes != [] {
      var n := |sandboxes| - 1;
      ListedIds(sandboxes[..n], id);
      assert Listed(sandboxes, id) <==>
             Listed(sandboxes[..n], id) || (Readable(sandboxes[n]) && id in sandboxes[n].ids);
    }
  }

  lemma {:induction false} ReachedIff(sandboxes: seq<Sandbox>, i: nat)
    ensures i < Reached(sandboxes) <==> i < |sandboxes| && forall k :: 0 <= k <= i ==> !sandboxes[k].health.NoData?
  {
    if sandboxes != [] && !sandboxes[0].health.NoData? && i > 0 {
      ReachedIff(sandboxes[1..], i - 1);
      assert forall k :: 1 <= k < |sandboxes| ==> sandboxes[k] == sandboxes[1..][k - 1];
    }
  }

  /**
   * A sandbox on which no step fails has all its containers listed, whether or
   * not its network namespace is gone.
   */
  lemma FineIsListed(sandboxes: seq<Sandbox>, i: nat, id: string)
    requires i < |sandboxes| && sandboxes[i].health.Fine?
    ensures id in sandboxes[i].ids ==> id in ContainerIds(sandboxes)
  {
    ListedIds(sandboxes, id);
  }

  /**
   * A sandbox is marked as not ready exactly if its network namespace is gone,
   * it can be read and saved, and no sandbox before it lacks data.
   */
  lemma MarkedIff(sandboxes: seq<Sandbox>, i: nat)
    ensures i in MarkedNotReady(Some(sandboxes)) <==>
            && i < |sandboxes| && sandboxes[i].gone
            && (sandboxes[i].health.Fine? || sandboxes[i].health.ListFails?)
            && forall k :: 0 <= k < i ==> !sandboxes[k].health.NoData?
  {
    ReachedIff(sandboxes, i);
  }

  /** A listed container is in a sandbox on which nothing fails, or only the save that a lost namespace would need. */
  lemma ListedIsFine(sandboxes: seq<Sandbox>, id: string)
    requires id in ContainerIds(sandboxes)
    ensures exists i :: 0 <= i < |sandboxes| && id in sandboxes[i].ids
                        && (sandboxes[i].health.Fine? || (sandboxes[i].health.SaveFails? && !sandboxes[i].gone))
  {
    ListedIds(sandboxes, id);
  }

  /** The names that belong to exactly one container. */
  lemma ExactNamesRemain(h: Host, ids: seq<string>, f: Faults, id: string)
    requires NoFaults(f) && forall i :: 0 <= i < |ids| ==> |ids[i]| >= SHORT_ID
    ensures var h' := Collected(h, ids, f);
            && (RootVolumeName(id) in h'.volumes <==> RootVolumeName(id) in h.volumes && id in ids)
            && (IsoName(id) in h'.isos <==> IsoName(id) in h.isos && id in ids)
            && (OnlyOurs(f) ==>
                  (DeviceName(id) in h'.devices <==>
                     DeviceName(id) in h.devices && (id in ids || DeviceName(id) !in f.listed.value)))
  {
    if id in ids && |id| >= SHORT_ID {
      var k :| 0 <= k < |ids| && ids[k] == id;
      ListedIsKept(h, ids, f, k, "");
    }
    RemainingIsListed(h, ids, f, RootVolumeName(id));
    RemainingIsListed(h, ids, f, IsoName(id));
    RemainingIsListed(h, ids, f, DeviceName(id));
    forall i | 0 <= i < |ids| && RootVolumeName(id) == RootVolumeName(ids[i]) ensures id == ids[i] {
      RootNameDetermines(id, ids[i]);
    }
    forall i | 0 <= i < |ids| && IsoName(id) == IsoName(ids[i]) ensures id == ids[i] {
      IsoNameDetermines(id, ids[i]);
    }
    UnmappedExactly(h.devices, f.listed.value, ids, {});
    forall i | 0 <= i < |ids| && DeviceName(id) == DeviceName(ids[i]) ensures id == ids[i] {
      assert DeviceName(id)[|DM_PREFIX|..] == id && DeviceName(ids[i])[|DM_PREFIX|..] == ids[i];
    }
  }

  /**
   * What a container keeps of its own, over all sandboxes, readable or not:
   * its root volume and config image, and its logical device if that has a
   * header and so is listed, remain if and only if they were there and a
   * sandbox that can be read lists the container. So a sandbox that cannot be
   * read costs its containers all three, although the failure is not fatal.
   */
  lemma ContainerRemains(h: Host, sandboxes: seq<Sandbox>, f: Faults, id: string)
    requires NoFaults(f)
    requires forall i :: 0 <= i < |ContainerIds(sandboxes)| ==> |ContainerIds(sandboxes)[i]| >= SHORT_ID
    ensures var h' := Collected(h, ContainerIds(sandboxes), f);
            && (RootVolumeName(id) in h'.volumes <==> RootVolumeName(id) in h.volumes && Listed(sandboxes, id))
            && (IsoName(id) in h'.isos <==> IsoName(id) in h.isos && Listed(sandboxes, id))
            && (OnlyOurs(f) ==>
                  (DeviceName(id) in h'.devices <==>
                     DeviceName(id) in h.devices && (Listed(sandboxes, id) || DeviceName(id) !in f.listed.value)))
  {
    ExactNamesRemain(h, ContainerIds(sandboxes), f, id);
    ListedIds(sandboxes, id);
  }

  /** With identifiers of one length the same holds of its qcow2 volumes. */
  lemma ContainerQcow2Remains(h: Host, sandboxes: seq<Sandbox>, f: Faults, n: nat, id: string, name: string)
    requires NoFaults(f) && EqualLength(ContainerIds(sandboxes), n) && |id| == n
    ensures var h' := Collected(h, ContainerIds(sandboxes), f);
            Qcow2VolumeName(id, name) in h'.volumes <==>
            Qcow2VolumeName(id, name) in h.volumes && Listed(sandboxes, id)
  {
    var ids := ContainerIds(sandboxes);
    ListedIds(sandboxes, id);
    Qcow2RemainsIff(h, ids, f, id, name);
    forall i | 0 <= i < |ids| ensures HasPrefix(id + "-" + name, ids[i]) <==> ids[i] == id {
      assert (id + "-" + name)[..n] == id;
    }
  }

  /** Of a domain, if and only if a sandbox that can be read lists a container with the same first 13 characters. */
  lemma ContainerDomainRemains(h: Host, sandboxes: seq<Sandbox>, f: Faults, id: string, name: string)
    requires NoFaults(f) && |id| >= SHORT_ID
    requires forall i :: 0 <= i < |ContainerIds(sandboxes)| ==> |ContainerIds(sandboxes)[i]| >= SHORT_ID
    ensures DomainName(id, name) in Collected(h, ContainerIds(sandboxes), f).domains <==>
            DomainName(id, name) in h.domains &&
            exists other :: Listed(sandboxes, other) && |other| >= 13 && other[..13] == id[..13]
  {
    var ids := ContainerIds(sandboxes);
    var domain := DomainName(id, name);
    forall i | 0 <= i < |ids| ensures DomainOf(domain, ids[i]) <==> ids[i][..SHORT_ID] == id[..SHORT_ID] {
      var tail := id[..SHORT_ID] + ("-" + name);
      assert domain == DOMAIN_PREFIX + tail;
      PrefixOfConcat(DOMAIN_PREFIX, ids[i][..SHORT_ID], tail);
      assert tail[..SHORT_ID] == id[..SHORT_ID];
    }
    if domain in Collected(h, ids, f).domains {
      RemainingIsListed(h, ids, f, domain);
      var i :| 0 <= i < |ids| && DomainOf(domain, ids[i]);
      ListedIds(sandboxes, ids[i]);
    }
    if other :| Listed(sandboxes, other) && |other| >= SHORT_ID && other[..SHORT_ID] == id[..SHORT_ID] {
      ListedIds(sandboxes, other);
      var i :| 0 <= i < |ids| && ids[i] == other;
      assert DomainOf(domain, ids[i]);
      assert KeepsDomain(ids, domain);
    }
  }
}
