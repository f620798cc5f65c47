/**
 * Device paths of PCI devices: findControllers and pciPath of
 * pkg/libvirttools/diskdriver.go.
 */
module PciPath {
  import opened Common
  import opened Digits

  const DEPTH_LIMIT := 256

  datatype PciAddr = PciAddr(domain: nat, bus: nat, slot: nat, func: nat)

  /** An address without a PCI part, with a PCI part that misses a field, or a complete one. */
  datatype Address = NoPci | Incomplete | Pci(pci: PciAddr)

  datatype Controller = Controller(kind: string, index: Option<nat>, address: Address)

  // ----- Finding controllers ----------------------------------------------

  function IndexOf(c: Controller): nat {
    if c.index.Some? then c.index.value else 0
  }

  function OfKind(cs: seq<Controller>, kind: string): (r: seq<Controller>)
    ensures forall c :: c in r <==> c in cs && c.kind == kind
  {
    if cs == [] then []
    else if cs[0].kind == kind then [cs[0]] + OfKind(cs[1..], kind)
    else OfKind(cs[1..], kind)
  }

  /** Puts a controller before the first one with a greater or equal index. */
  function Insert(c: Controller, cs: seq<Controller>): seq<Controller> {
    if cs == [] || IndexOf(c) <= IndexOf(cs[0]) then [c] + cs else [cs[0]] + Insert(c, cs[1..])
  }

  /** Stable sort by index. */
  function SortByIndex(cs: seq<Controller>): seq<Controller> {
    if cs == [] then [] else Insert(cs[0], SortByIndex(cs[1..]))
  }

  predicate Ordered(cs: seq<Controller>) {
    forall i, j :: 0 <= i < j < |cs| ==> IndexOf(cs[i]) <= IndexOf(cs[j])
  }

  /** The controllers with a given index, in order. */
  function WithIndex(cs: seq<Controller>, n: nat): seq<Controller> {
    if cs == [] then []
    else if IndexOf(cs[0]) == n then [cs[0]] + WithIndex(cs[1..], n)
    else WithIndex(cs[1..], n)
  }

  lemma {:induction false} InsertKeepsAll(c: Controller, cs: seq<Controller>)
    ensures multiset(Insert(c, cs)) == multiset(cs) + multiset{c}
  {
    if cs != [] && IndexOf(c) > IndexOf(cs[0]) {
      InsertKeepsAll(c, cs[1..]);
      assert cs == [cs[0]] + cs[1..];
    }
  }

  lemma {:induction false} InsertStable(c: Controller, cs: seq<Controller>, n: nat)
    ensures WithIndex(Insert(c, cs), n) == if IndexOf(c) == n then [c] + WithIndex(cs, n) else WithIndex(cs, n)
  {
    if cs == [] || IndexOf(c) <= IndexOf(cs[0]) {
      assert ([c] + cs)[1..] == cs;
    } else {
      InsertStable(c, cs[1..], n);
      assert ([cs[0]] + Insert(c, cs[1..]))[1..] == Insert(c, cs[1..]);
    }
  }

  lemma {:induction false} InsertOrdered(c: Controller, cs: seq<Controller>)
    requires Ordered(cs)
    ensures Ordered(Insert(c, cs))
  {
    if cs != [] && IndexOf(c) > IndexOf(cs[0]) {
      InsertOrdered(c, cs[1..]);
      InsertKeepsAll(c, cs[1..]);
      var rest := Insert(c, cs[1..]);
      forall i | 0 <= i < |rest|
        ensures IndexOf(cs[0]) <= IndexOf(rest[i])
      {
        assert rest[i] in multiset(rest);
        if rest[i] != c {
          var k :| 0 <= k < |cs[1..]| && cs[1..][k] == rest[i];
          assert cs[k + 1] == rest[i];
        }
      }
    }
  }

  /** Sorting orders by index, and loses and adds nothing. */
  lemma {:induction false} SortOrders(cs: seq<Controller>)
    ensures Ordered(SortByIndex(cs))
    ensures multiset(SortByIndex(cs)) == multiset(cs)
  {
    if cs != [] {
      SortOrders(cs[1..]);
      InsertOrdered(cs[0], SortByIndex(cs[1..]));
      InsertKeepsAll(cs[0], SortByIndex(cs[1..]));
      assert cs == [cs[0]] + cs[1..];
    }
  }

  /** Sorting keeps the order of controllers with equal index. */
  lemma {:induction false} SortStable(cs: seq<Controller>, n: nat)
    ensures WithIndex(SortByIndex(cs), n) == WithIndex(cs, n)
  {
    if cs != [] {
      SortStable(cs[1..], n);
      InsertStable(cs[0], SortByIndex(cs[1..]), n);
    }
  }

  /** findControllers */
  method FindControllers(devices: Option<seq<Controller>>, kind: string) returns (r: seq<Controller>)
    ensures r == if devices.Some? then SortByIndex(OfKind(devices.value, kind)) else []
  {
    if devices.None? { return []; }
    var cs := devices.value;
    r := [];
    for i := 0 to |cs|
      invariant OfKind(cs, kind) == r + OfKind(cs[i..], kind)
    {
      if cs[i].kind == kind {
        r := r + [cs[i]];
      }
    }
    assert OfKind(cs[|cs|..], kind) == [];
    assert r == OfKind(cs, kind);
    r := SortByIndex(r);
  }

  /** When the indices are 0 to n-1, each taken once, a controller's position is its index. */
  lemma PositionIsIndex(cs: seq<Controller>, i: nat)
    requires Ordered(cs) && i < |cs|
    requires forall j, k :: 0 <= j < k < |cs| ==> IndexOf(cs[j]) != IndexOf(cs[k])
    requires forall j :: 0 <= j < |cs| ==> IndexOf(cs[j]) < |cs|
    ensures IndexOf(cs[i]) == i
  {
    AtLeastPosition(cs, i);
    AtMostPosition(cs, i);
  }

  lemma {:induction false} AtLeastPosition(cs: seq<Controller>, i: nat)
    requires Ordered(cs) && i < |cs|
    requires forall j, k :: 0 <= j < k < |cs| ==> IndexOf(cs[j]) != IndexOf(cs[k])
    ensures IndexOf(cs[i]) >= i
  {
    if i > 0 {
      AtLeastPosition(cs, i - 1);
    }
  }

  lemma {:induction false} AtMostPosition(cs: seq<Controller>, i: nat)
    requires Ordered(cs) && i < |cs|
    requires forall j, k :: 0 <= j < k < |cs| ==> IndexOf(cs[j]) != IndexOf(cs[k])
    requires forall j :: 0 <= j < |cs| ==> IndexOf(cs[j]) < |cs|
    ensures IndexOf(cs[i]) <= i
    decreases |cs| - i
  {
    if i + 1 < |cs| {
      AtMostPosition(cs, i + 1);
    }
  }

  // ----- The path ---------------------------------------------------------

  /** One element of a path: a device address behind its prefix. */
  datatype Hop = Hop(prefix: string, address: PciAddr)

  /** Done carries what was appended to the paths, in order; Panicked is an index out of range. */
  datatype Outcome = Done(hops: seq<Hop>) | Failed | Panicked

  /** The recursion of pciPath: it climbs to the root first and appends on the way back. */
  function Climb(ctls: seq<Controller>, address: Address, prefix: string, depth: nat): (r: Outcome)
    requires depth <= DEPTH_LIMIT + 1
    decreases DEPTH_LIMIT + 1 - depth, ctls
  {
    if depth > DEPTH_LIMIT then Failed
    else if !address.Pci? then Failed
    else
      var a := address.pci;
      if a.bus > |ctls| then Failed
      else if a.bus == |ctls| then Panicked
      else
        var ctl := ctls[a.bus];
        if ctl.address.NoPci? then Done([Hop(prefix, a)])
        else
          match Climb(ctls, ctl.address, "pci", depth + 1)
          case Done(hops) => Done(hops + [Hop(prefix, a)])
          case Failed => Failed
          case Panicked => Panicked
  }

  /** pciPath on the controllers that findControllers returned. */
  function PathOf(ctls: seq<Controller>, address: Address): Outcome {
    Climb(ctls, address, "virtio-pci", 0)
  }

  function BusText(a: PciAddr): string {
    Padded(a.domain, Hex, 4) + ":" + Padded(a.bus, Hex, 2)
  }

  function AddressText(a: PciAddr): string {
    (BusText(a) + ":") + Padded(a.slot, Hex, 2) + ("." + Padded(a.func, Hex, 1))
  }

  /** What stands before and after the first separator. */
  function CutAt(s: string, separator: char): (string, string) {
    if s == [] then ([], [])
    else if s[0] == separator then ([], s[1..])
    else
      var (before, after) := CutAt(s[1..], separator);
      ([s[0]] + before, after)
  }

  lemma {:induction false} CutJoined(a: string, separator: char, b: string)
    requires separator !in a
    ensures CutAt(a + [separator] + b, separator) == (a, b)
  {
    var s := a + [separator] + b;
    if a == [] {
      assert s[1..] == b;
    } else {
      CutJoined(a[1..], separator, b);
      assert s[1..] == a[1..] + [separator] + b;
      assert [a[0]] + a[1..] == a;
    }
  }

  /** Reading domain:bus:slot.function, each a hexadecimal number. */
  function ReadAddress(s: string): PciAddr {
    var (domain, s1) := CutAt(s, ':');
    var (bus, s2) := CutAt(s1, ':');
    var (slot, func) := CutAt(s2, '.');
    PciAddr(Parse(domain, Hex), Parse(bus, Hex), Parse(slot, Hex), Parse(func, Hex))
  }

  lemma Regrouped(d: string, b: string, s: string, f: string)
    ensures (d + ":" + b + ":") + s + ("." + f) == d + [':'] + (b + [':'] + (s + ['.'] + f))
  {
  }

  /** The text of an address reads as that address. */
  lemma AddressReadsBack(a: PciAddr)
    ensures ReadAddress(AddressText(a)) == a
  {
    var d, b := Padded(a.domain, Hex, 4), Padded(a.bus, Hex, 2);
    var s, f := Padded(a.slot, Hex, 2), Padded(a.func, Hex, 1);
    PaddedShape(a.domain, Hex, 4);
    PaddedShape(a.bus, Hex, 2);
    PaddedShape(a.slot, Hex, 2);
    assert ':' !in DIGITS && '.' !in DIGITS;
    Regrouped(d, b, s, f);
    CutJoined(d, ':', b + [':'] + (s + ['.'] + f));
    CutJoined(b, ':', s + ['.'] + f);
    CutJoined(s, '.', f);
    ParsePadded(a.domain, Hex, 4);
    ParsePadded(a.bus, Hex, 2);
    ParsePadded(a.slot, Hex, 2);
    ParsePadded(a.func, Hex, 1);
  }

  /** The text of the device path: hops behind the directory, joined with dashes. */
  function DevText(hops: seq<Hop>): string {
    if hops == [] then "/dev/disk/by-path/"
    else
      var n := |hops| - 1;
      DevText(hops[..n]) + (if n == 0 then "" else "-") + hops[n].prefix + "-" + AddressText(hops[n].address)
  }

  /** The text of the sysfs path: the root bus, which has no hop of its own, and then the hops. */
  function SysText(hops: seq<Hop>): string {
    if hops == [] then "/sys/devices"
    else if |hops| == 1 then
      "/sys/devices/pci" + BusText(hops[0].address) + "/" + AddressText(hops[0].address)
    else SysText(hops[..|hops| - 1]) + "/" + AddressText(hops[|hops| - 1].address)
  }

  // ----- Chains: what the path should be ----------------------------------

  /** Addresses from the root to the device; each bus is the one its predecessor's controller provides. */
  ghost predicate Chain(ctls: seq<Controller>, chain: seq<PciAddr>) {
    && |chain| > 0
    && (forall i :: 0 <= i < |chain| ==> chain[i].bus < |ctls|)
    && ctls[chain[0].bus].address.NoPci?
    && (forall i :: 0 < i < |chain| ==> ctls[chain[i].bus].address == Pci(chain[i - 1]))
  }

  /** The hops of a chain, root first; only the last one is the device. */
  function HopsOf(chain: seq<PciAddr>, last: string): (hops: seq<Hop>)
    ensures |hops| == |chain|
  {
    seq(|chain|, i requires 0 <= i < |chain| => Hop(if i == |chain| - 1 then last else "pci", chain[i]))
  }

  lemma ChainGrows(ctls: seq<Controller>, rest: seq<PciAddr>, a: PciAddr)
    requires Chain(ctls, rest) && a.bus < |ctls| && ctls[a.bus].address == Pci(rest[|rest| - 1])
    ensures Chain(ctls, rest + [a])
  {
    var chain := rest + [a];
    forall i | 0 < i < |chain|
      ensures ctls[chain[i].bus].address == Pci(chain[i - 1])
    {
      if i < |rest| {
        assert chain[i] == rest[i] && chain[i - 1] == rest[i - 1];
      }
    }
  }

  lemma ChainShrinks(ctls: seq<Controller>, chain: seq<PciAddr>)
    requires Chain(ctls, chain) && |chain| > 1
    ensures var rest := chain[..|chain| - 1];
            Chain(ctls, rest) && ctls[chain[|chain| - 1].bus].address == Pci(rest[|rest| - 1])
  {
  }

  lemma {:induction false} ClimbFollowsChain(ctls: seq<Controller>, chain: seq<PciAddr>, prefix: string, depth: nat)
    requires Chain(ctls, chain)
    requires depth + |chain| <= DEPTH_LIMIT + 1
    ensures Climb(ctls, Pci(chain[|chain| - 1]), prefix, depth) == Done(HopsOf(chain, prefix))
    decreases |chain|
  {
    if |chain| > 1 {
      var rest := chain[..|chain| - 1];
      ChainShrinks(ctls, chain);
      ClimbFollowsChain(ctls, rest, "pci", depth + 1);
      assert HopsOf(chain, prefix) == HopsOf(rest, "pci") + [Hop(prefix, chain[|chain| - 1])];
    }
  }

  lemma {:induction false} ClimbNeedsChain(ctls: seq<Controller>, a: PciAddr, prefix: string, depth: nat)
      returns (chain: seq<PciAddr>)
    requires depth <= DEPTH_LIMIT + 1
    requires Climb(ctls, Pci(a), prefix, depth).Done?
    ensures Chain(ctls, chain) && chain[|chain| - 1] == a && depth + |chain| <= DEPTH_LIMIT + 1
    decreases DEPTH_LIMIT + 1 - depth
  {
    var ctl := ctls[a.bus];
    if ctl.address.NoPci? {
      chain := [a];
    } else {
      var rest := ClimbNeedsChain(ctls, ctl.address.pci, "pci", depth + 1);
      ChainGrows(ctls, rest, a);
      chain := rest + [a];
    }
  }

  /** A chain of at most 257 addresses that ends in the given address. */
  ghost predicate ShortChainTo(ctls: seq<Controller>, chain: seq<PciAddr>, address: Address) {
    Chain(ctls, chain) && |chain| <= DEPTH_LIMIT + 1 && address == Pci(chain[|chain| - 1])
  }

  /**
   * A device gets a path exactly when it has a chain of at most 257 addresses
   * to the root, and then the path lists that chain in order.
   */
  lemma PathIffChain(ctls: seq<Controller>, address: Address)
    ensures PathOf(ctls, address).Done? <==> exists chain :: ShortChainTo(ctls, chain, address)
    ensures forall chain :: ShortChainTo(ctls, chain, address) ==>
              PathOf(ctls, address) == Done(HopsOf(chain, "virtio-pci"))
  {
    if PathOf(ctls, address).Done? {
      var chain := ClimbNeedsChain(ctls, address.pci, "virtio-pci", 0);
      assert ShortChainTo(ctls, chain, address);
    }
    forall chain | ShortChainTo(ctls, chain, address)
      ensures PathOf(ctls, address) == Done(HopsOf(chain, "virtio-pci"))
    {
      ClimbFollowsChain(ctls, chain, "virtio-pci", 0);
    }
  }

  // ----- Well-formed topologies -------------------------------------------

  /** Every controller is a root or has a complete address on the bus of a controller. */
  ghost predicate WellFormed(ctls: seq<Controller>) {
    forall i :: 0 <= i < |ctls| ==>
      ctls[i].address.NoPci? || (ctls[i].address.Pci? && ctls[i].address.pci.bus < |ctls|)
  }

  /** The bus that `k` hops up from bus `b` reaches; None once the root is passed. */
  ghost function Up(ctls: seq<Controller>, b: nat, k: nat): (r: Option<nat>)
    requires WellFormed(ctls) && b < |ctls|
    ensures r.Some? ==> r.value < |ctls|
    decreases k
  {
    if k == 0 then Some(b)
    else if ctls[b].address.NoPci? then None
    else Up(ctls, ctls[b].address.pci.bus, k - 1)
  }

  /** No bus is above itself. */
  ghost predicate Acyclic(ctls: seq<Controller>)
    requires WellFormed(ctls)
  {
    forall b: nat, k: nat :: b < |ctls| && k > 0 ==> Up(ctls, b, k) != Some(b)
  }

  lemma {:induction false} UpComposes(ctls: seq<Controller>, b: nat, i: nat, j: nat)
    requires WellFormed(ctls) && b < |ctls|
    ensures Up(ctls, b, i + j) == match Up(ctls, b, i) { case None => None case Some(c) => Up(ctls, c, j) }
    decreases i
  {
    if i > 0 && !ctls[b].address.NoPci? {
      UpComposes(ctls, ctls[b].address.pci.bus, i - 1, j);
    }
  }

  /** In an acyclic topology the climb from any bus passes the root within as many hops as there are controllers. */
  lemma ClimbIsShort(ctls: seq<Controller>, b: nat)
    requires WellFormed(ctls) && Acyclic(ctls) && b < |ctls|
    ensures Up(ctls, b, |ctls|).None?
  {
    var n := |ctls|;
    if Up(ctls, b, n).Some? {
      forall k: nat | k <= n
        ensures Up(ctls, b, k).Some?
      {
        UpComposes(ctls, b, k, n - k);
      }
      var buses: seq<nat> := seq(n + 1, k requires 0 <= k <= n => Up(ctls, b, k).value);
      forall i, j | 0 <= i < j < |buses|
        ensures buses[i] != buses[j]
      {
        UpComposes(ctls, b, i, j - i);
      }
      Pigeonhole(buses, n);
      assert false;
    }
  }

  /** The chain above a bus that passes the root after `k` hops. */
  lemma {:induction false} ChainTo(ctls: seq<Controller>, a: PciAddr, k: nat) returns (chain: seq<PciAddr>)
    requires WellFormed(ctls) && a.bus < |ctls| && Up(ctls, a.bus, k).None?
    ensures Chain(ctls, chain) && chain[|chain| - 1] == a && |chain| <= k
    decreases k
  {
    if ctls[a.bus].address.NoPci? {
      chain := [a];
    } else {
      var rest := ChainTo(ctls, ctls[a.bus].address.pci, k - 1);
      ChainGrows(ctls, rest, a);
      chain := rest + [a];
    }
  }

  /**
   * In a well-formed acyclic topology of at most 257 controllers every device
   * address on an existing bus gets a path, which lists its chain in order.
   */
  lemma AcyclicAlwaysPath(ctls: seq<Controller>, a: PciAddr) returns (chain: seq<PciAddr>)
    requires WellFormed(ctls) && Acyclic(ctls)
    requires |ctls| <= DEPTH_LIMIT + 1 && a.bus < |ctls|
    ensures Chain(ctls, chain) && chain[|chain| - 1] == a
    ensures PathOf(ctls, Pci(a)) == Done(HopsOf(chain, "virtio-pci"))
  {
    ClimbIsShort(ctls, a.bus);
    chain := ChainTo(ctls, a, |ctls|);
    assert ShortChainTo(ctls, chain, Pci(a));
    PathIffChain(ctls, Pci(a));
  }

  /** The climb from an address goes on for at least `k` hops more. */
  ghost predicate GoesOn(ctls: seq<Controller>, address: Address, k: nat)
    decreases k
  {
    && address.Pci? && address.pci.bus < |ctls|
    && (k > 0 ==> GoesOn(ctls, ctls[address.pci.bus].address, k - 1))
  }

  lemma {:induction false} LongClimbFails(ctls: seq<Controller>, address: Address, prefix: string, depth: nat)
    requires depth <= DEPTH_LIMIT + 1 && GoesOn(ctls, address, DEPTH_LIMIT + 1 - depth)
    ensures Climb(ctls, address, prefix, depth) == Failed
    decreases DEPTH_LIMIT + 1 - depth
  {
    if depth <= DEPTH_LIMIT {
      LongClimbFails(ctls, ctls[address.pci.bus].address, "pci", depth + 1);
    }
  }

  /**
   * A device whose climb never ends is reported as an error, neither
   * divergence nor a panic, whatever the controllers off its chain are.
   */
  lemma LoopIsError(ctls: seq<Controller>, address: Address)
    requires forall k: nat :: GoesOn(ctls, address, k)
    ensures PathOf(ctls, address) == Failed
  {
    var hops: nat := DEPTH_LIMIT + 1;
    assert GoesOn(ctls, address, hops);
    LongClimbFails(ctls, address, "virtio-pci", 0);
  }

  /**
   * The bound check lets one bus number too many through. For a device that is
   * itself on a bad bus: an error above the number of controllers, a panic at it.
   */
  lemma BadBus(ctls: seq<Controller>, a: PciAddr)
    requires a.bus >= |ctls|
    ensures PathOf(ctls, Pci(a)) == if a.bus == |ctls| then Panicked else Failed
  {
  }

  /** An address among the first ones of the climb is on the bus just past the last controller. */
  ghost predicate StepsOff(ctls: seq<Controller>, address: Address, hops: nat)
    decreases hops
  {
    && address.Pci?
    && (address.pci.bus == |ctls|
        || (address.pci.bus < |ctls| && hops > 0 && StepsOff(ctls, ctls[address.pci.bus].address, hops - 1)))
  }

  lemma {:induction false} ClimbPanics(ctls: seq<Controller>, address: Address, prefix: string, depth: nat)
    requires depth <= DEPTH_LIMIT
    ensures Climb(ctls, address, prefix, depth).Panicked? <==> StepsOff(ctls, address, DEPTH_LIMIT - depth)
    decreases DEPTH_LIMIT - depth
  {
    if address.Pci? && address.pci.bus < |ctls| && depth < DEPTH_LIMIT {
      ClimbPanics(ctls, ctls[address.pci.bus].address, "pci", depth + 1);
    }
  }
}
