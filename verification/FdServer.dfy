/**
 * The registry of the FD server and the map of its source:
 * pkg/tapmanager/fdserver.go and the fdMap side of
 * pkg/tapmanager/tapfdsource.go. Network set-up is reduced to the set of
 * network namespaces and the set of pods attached to a CNI network; which
 * calls fail is part of the input.
 */
module FdServer {
  import opened Common

  type Key = string

  /** A list of descriptors; None is the nil slice. */
  type Fds = Option<seq<int>>

  // ----- The registry -----------------------------------------------------

  type Registry = map<Key, Fds>

  function Added(reg: Registry, key: Key, fds: Fds): (Registry, bool) {
    if key in reg then (reg, false) else (reg[key := fds], true)
  }

  function Removed(reg: Registry, key: Key): Registry {
    reg - {key}
  }

  /** getFDs; `retrieved` is what the source returns if it is asked. */
  function Got(reg: Registry, key: Key, retrieved: Result<Fds>): (Registry, Result<Fds>) {
    if key !in reg then (reg, Err)
    else if reg[key].Some? then (reg, Ok(reg[key]))
    else if retrieved.Err? then (reg, Err)
    else (reg[key := retrieved.value], Ok(retrieved.value))
  }

  function Marked(reg: Registry, key: Key): (Registry, bool) {
    if key in reg then (reg, false) else (reg[key := None], true)
  }

  datatype LockedStep =
    | AddStep(key: Key, fds: Fds)
    | RemoveStep(key: Key)
    | GetStep(key: Key, retrieved: Result<Fds>)
    | MarkStep(key: Key)

  function StepRegistry(reg: Registry, step: LockedStep): Registry {
    match step
    case AddStep(key, fds) => Added(reg, key, fds).0
    case RemoveStep(key) => Removed(reg, key)
    case GetStep(key, retrieved) => Got(reg, key, retrieved).0
    case MarkStep(key) => Marked(reg, key).0
  }

  function RunRegistry(reg: Registry, steps: seq<LockedStep>): Registry
    decreases |steps|
  {
    if steps == [] then reg else RunRegistry(StepRegistry(reg, steps[0]), steps[1..])
  }

  /** Adding and recovering leave an existing entry alone, and report failure exactly then. */
  lemma AddAndMarkNeverReplace(reg: Registry, key: Key, fds: Fds)
    ensures Added(reg, key, fds).1 == Marked(reg, key).1 == (key !in reg)
    ensures forall k :: k in reg ==>
              && k in Added(reg, key, fds).0 && Added(reg, key, fds).0[k] == reg[k]
              && k in Marked(reg, key).0 && Marked(reg, key).0[k] == reg[k]
  {
  }

  /**
   * Under any interleaving of the locked steps, once a key has a descriptor
   * list, every Get for it returns that list until the key is removed.
   */
  lemma {:induction false} ListIsStable(reg: Registry, steps: seq<LockedStep>, key: Key, list: seq<int>)
    requires key in reg && reg[key] == Some(list)
    requires RemoveStep(key) !in steps
    ensures key in RunRegistry(reg, steps) && RunRegistry(reg, steps)[key] == Some(list)
    ensures forall i, retrieved ::
              0 <= i < |steps| && steps[i] == GetStep(key, retrieved) ==>
                Got(RunRegistry(reg, steps[..i]), key, retrieved).1 == Ok(Some(list))
    decreases |steps|
  {
    if steps != [] {
      var reg1 := StepRegistry(reg, steps[0]);
      assert steps[0] in steps;
      assert forall s :: s in steps[1..] ==> s in steps;
      ListIsStable(reg1, steps[1..], key, list);
      forall i, retrieved | 0 <= i < |steps| && steps[i] == GetStep(key, retrieved)
        ensures Got(RunRegistry(reg, steps[..i]), key, retrieved).1 == Ok(Some(list))
      {
        if i == 0 {
          assert steps[..0] == [];
        } else {
          assert steps[..i][1..] == steps[1..][..i - 1];
          assert steps[1..][i - 1] == GetStep(key, retrieved);
        }
      }
    }
  }

  // ----- The source -------------------------------------------------------

  /** The network of a pod; its DHCP server serves until a release has closed it, which works only once. */
  datatype PodNet = PodNet(pod: string, fds: Fds, serving: bool)

  datatype Source = Source(fdMap: map<Key, PodNet>, netns: set<string>, attached: set<string>)

  datatype AddFaults = AddFaults(payload: bool, create: bool, attach: bool, setup: bool, detach: bool, destroy: bool)

  /** Failures of Release: opening the namespace, restoring VFs, closing the DHCP server, links, CNI, namespace. */
  datatype ReleaseFaults = ReleaseFaults(open: bool, vfs: bool, dhcp: bool, links: bool, detach: bool, destroy: bool)

  datatype RecoverFaults = RecoverFaults(payload: bool, open: bool, setup: bool)

  /** GetFDs; a namespace that already exists cannot be created again. */
  function SourceAdd(s: Source, key: Key, pod: string, fds: Fds, f: AddFaults): (Source, bool) {
    if f.payload || f.create || pod in s.netns then (s, false)
    else if f.attach then
      (if f.destroy then s.(netns := s.netns + {pod}) else s, false)
    else if f.setup then
      (Source(s.fdMap,
              if f.destroy then s.netns + {pod} else s.netns,
              if f.detach then s.attached + {pod} else s.attached - {pod}), false)
    else
      (Source(s.fdMap[key := PodNet(pod, fds, true)], s.netns + {pod}, s.attached + {pod}), true)
  }

  /**
   * Release; once the namespace is open it is destroyed, whatever else fails.
   * A DHCP server that is already closed cannot be closed again.
   */
  function SourceRelease(s: Source, key: Key, f: ReleaseFaults): (Source, bool) {
    if key !in s.fdMap then (s, false)
    else
      var net := s.fdMap[key];
      if f.open || net.pod !in s.netns then (s, false)
      else
        var s1 := if f.destroy then s else s.(netns := s.netns - {net.pod});
        if f.vfs || f.dhcp || !net.serving then (s1, false)
        else if f.links || f.detach then (s1.(fdMap := s.fdMap[key := net.(serving := false)]), false)
        else (s1.(fdMap := s.fdMap - {key}, attached := s.attached - {net.pod}), true)
  }

  function SourceRecover(s: Source, key: Key, pod: string, fds: Fds, f: RecoverFaults): (Source, bool) {
    if f.payload || f.open || pod !in s.netns || f.setup then (s, false)
    else (s.(fdMap := s.fdMap[key := PodNet(pod, fds, true)]), true)
  }

  /** RetrieveFDs opens the descriptors of the entry anew and keeps them there. */
  function SourceRetrieve(s: Source, key: Key, retrieved: Result<Fds>): (Source, Result<Fds>) {
    if key !in s.fdMap || s.fdMap[key].pod !in s.netns || retrieved.Err? then (s, Err)
    else (s.(fdMap := s.fdMap[key := s.fdMap[key].(fds := retrieved.value)]), retrieved)
  }

  /** Get on both sides: the source is asked only for a key whose list is not known yet. */
  function GotFrom(reg: Registry, s: Source, key: Key, retrieved: Result<Fds>): (Registry, Source, Result<Fds>) {
    if key in reg && reg[key].None? then
      var (s', r) := SourceRetrieve(s, key, retrieved);
      (Got(reg, key, r).0, s', Got(reg, key, r).1)
    else (reg, s, Got(reg, key, Err).1)
  }

  /** The Get handler: it also asks the source for information about the key, which only needs the key to be there. */
  function ServedGet(reg: Registry, s: Source, key: Key, retrieved: Result<Fds>): (Registry, Source, Result<Fds>) {
    var (reg', s', got) := GotFrom(reg, s, key, retrieved);
    (reg', s', if key in s'.fdMap then got else Err)
  }

  /**
   * A Get succeeds exactly when both maps have the key and its list is known
   * or can be opened anew; it hands out that list, and the list is then known.
   */
  lemma GetSucceedsIff(reg: Registry, s: Source, key: Key, retrieved: Result<Fds>, fds: Fds)
    ensures ServedGet(reg, s, key, retrieved).2 == Ok(fds) <==>
            && key in reg && key in s.fdMap
            && if reg[key].Some? then fds == reg[key] else s.fdMap[key].pod in s.netns && retrieved == Ok(fds)
    ensures var (reg', _, got) := ServedGet(reg, s, key, retrieved);
            got == Ok(fds) ==> key in reg' && reg'[key] == fds
  {
  }

  /** A failed GetFDs whose clean-up calls work leaves no trace of a pod that was not attached before. */
  lemma FailedAddLeavesNothing(s: Source, key: Key, pod: string, fds: Fds, f: AddFaults)
    requires !SourceAdd(s, key, pod, fds, f).1 && !f.detach && !f.destroy
    requires pod !in s.attached
    ensures SourceAdd(s, key, pod, fds, f).0 == s
  {
  }

  /**
   * GetFDs succeeds exactly when no call fails and the namespace is new; the
   * key is then in order, with its descriptors and an attached pod.
   */
  lemma AddSucceedsIff(s: Source, key: Key, pod: string, fds: Fds, f: AddFaults)
    ensures var (s', ok) := SourceAdd(s, key, pod, fds, f);
            && (ok <==> !f.payload && !f.create && !f.attach && !f.setup && pod !in s.netns)
            && (ok ==> InOrder(s', key) && s'.fdMap[key].pod == pod && s'.fdMap[key].fds == fds && pod in s'.attached)
  {
  }

  /** Releasing a key undoes adding it. */
  lemma ReleaseUndoesAdd(s: Source, key: Key, pod: string, fds: Fds, f: AddFaults)
    requires SourceAdd(s, key, pod, fds, f).1 && key !in s.fdMap && pod !in s.attached
    ensures SourceRelease(SourceAdd(s, key, pod, fds, f).0, key, NO_RELEASE_FAULTS) == (s, true)
  {
    var s' := SourceRelease(SourceAdd(s, key, pod, fds, f).0, key, NO_RELEASE_FAULTS).0;
    assert s'.fdMap == s.fdMap && s'.netns == s.netns && s'.attached == s.attached;
  }

  const NO_RELEASE_FAULTS := ReleaseFaults(false, false, false, false, false, false)

  /** A key can be released exactly when the source knows it, its namespace exists and its DHCP server runs. */
  lemma ReleasePossible(s: Source, key: Key)
    ensures (exists f :: SourceRelease(s, key, f).1) <==>
            key in s.fdMap && s.fdMap[key].pod in s.netns && s.fdMap[key].serving
  {
    if key in s.fdMap && s.fdMap[key].pod in s.netns && s.fdMap[key].serving {
      assert SourceRelease(s, key, NO_RELEASE_FAULTS).1;
    }
  }

  /** A key whose network is in order. */
  predicate InOrder(s: Source, key: Key) {
    key in s.fdMap && s.fdMap[key].pod in s.netns && s.fdMap[key].serving
  }

  /**
   * A release that failed can be repeated if and only if it failed to open
   * the namespace, or failed before closing the DHCP server and could not
   * destroy the namespace either.
   */
  lemma FailedReleaseRetry(s: Source, key: Key, f: ReleaseFaults)
    requires InOrder(s, key) && !SourceRelease(s, key, f).1
    ensures (exists again :: SourceRelease(SourceRelease(s, key, f).0, key, again).1) <==>
            f.open || (f.destroy && (f.vfs || f.dhcp))
  {
    ReleasePossible(SourceRelease(s, key, f).0, key);
  }

  const NO_ADD_FAULTS := AddFaults(false, false, false, false, false, false)

  /** The pod of the key can be added to the source again. */
  ghost predicate CanAdd(s: Source, key: Key, pod: string) {
    exists fds, f :: SourceAdd(s, key, pod, fds, f).1
  }

  lemma AddPossible(s: Source, key: Key, pod: string)
    ensures CanAdd(s, key, pod) <==> pod !in s.netns
  {
    if pod !in s.netns {
      assert SourceAdd(s, key, pod, None, NO_ADD_FAULTS).1;
    }
  }

  /**
   * Neither releasing nor adding works after a failed release if and only if
   * it closed the DHCP server and then could not destroy the namespace.
   */
  lemma FailedReleaseSticks(s: Source, key: Key, f: ReleaseFaults)
    requires InOrder(s, key) && !SourceRelease(s, key, f).1
    ensures var s1 := SourceRelease(s, key, f).0;
            !(exists again :: SourceRelease(s1, key, again).1) && !CanAdd(s1, key, s.fdMap[key].pod) <==>
            !f.open && !f.vfs && !f.dhcp && f.destroy
  {
    FailedReleaseRetry(s, key, f);
    AddPossible(SourceRelease(s, key, f).0, key, s.fdMap[key].pod);
  }

  /**
   * The way out when the namespace is gone: adding the key again brings it
   * back but is refused by the registry; after that refusal the key can be
   * released, and both maps forget it.
   */
  lemma RefusedAddUnblocksRelease(s: Source, reg: Registry, key: Key, f: ReleaseFaults, fds: Fds, add: AddFaults)
    requires key in s.fdMap && key in reg && s.fdMap[key].pod in s.netns
    requires !SourceRelease(s, key, f).1 && !f.open && !f.destroy
    requires !add.payload && !add.create && !add.attach && !add.setup
    ensures var s1 := SourceRelease(s, key, f).0;
            var (s2, added) := SourceAdd(s1, key, s.fdMap[key].pod, fds, add);
            var (s3, released) := SourceRelease(s2, key, NO_RELEASE_FAULTS);
            && added && Added(reg, key, fds) == (reg, false)
            && released && key !in s3.fdMap && key !in Removed(reg, key)
            && s.fdMap[key].pod !in s3.netns && s.fdMap[key].pod !in s3.attached
  {
  }

  /** The way out when the namespace stayed: a recovery, which the registry refuses too, starts a DHCP server again. */
  lemma RefusedRecoverUnblocksRelease(s: Source, reg: Registry, key: Key, f: ReleaseFaults,
                                      fds: Fds, rec: RecoverFaults)
    requires key in s.fdMap && key in reg && s.fdMap[key].pod in s.netns
    requires !SourceRelease(s, key, f).1 && (f.open || f.destroy)
    requires !rec.payload && !rec.open && !rec.setup
    ensures var s1 := SourceRelease(s, key, f).0;
            var (s2, recovered) := SourceRecover(s1, key, s.fdMap[key].pod, fds, rec);
            var (s3, released) := SourceRelease(s2, key, NO_RELEASE_FAULTS);
            && recovered && Marked(reg, key) == (reg, false)
            && released && key !in s3.fdMap && s.fdMap[key].pod !in s3.netns && s.fdMap[key].pod !in s3.attached
  {
  }

  /**
   * A recovered key is as good as an added one: the first Get asks the source
   * for the list, every later Get returns that list until the key is removed,
   * whatever other steps come between, and the key can be released.
   */
  lemma RecoveredKeyServes(s: Source, reg: Registry, key: Key, pod: string, fds: Fds, f: RecoverFaults,
                           list: seq<int>, steps: seq<LockedStep>)
    requires SourceRecover(s, key, pod, fds, f).1 && key !in reg && RemoveStep(key) !in steps
    ensures var s1, reg1 := SourceRecover(s, key, pod, fds, f).0, Marked(reg, key).0;
            var (reg2, s2, got) := GotFrom(reg1, s1, key, Ok(Some(list)));
            && got == Ok(Some(list))
            && key in RunRegistry(reg2, steps) && RunRegistry(reg2, steps)[key] == Some(list)
            && exists g :: SourceRelease(s2, key, g).1
  {
    var s1, reg1 := SourceRecover(s, key, pod, fds, f).0, Marked(reg, key).0;
    var (reg2, s2, got) := GotFrom(reg1, s1, key, Ok(Some(list)));
    ListIsStable(reg2, steps, key, list);
    ReleasePossible(s2, key);
  }

  // ----- Requests over both maps ------------------------------------------

  datatype Call =
    | AddCall(pod: string, fds: Fds, addFaults: AddFaults)
    | ReleaseCall(releaseFaults: ReleaseFaults)
    | GetCall(retrieved: Result<Fds>)
    | RecoverCall(pod: string, fds: Fds, recoverFaults: RecoverFaults)

  /** A request in progress: the source has yet to act, or it has acted and the registry is next. */
  datatype Progress = Progress(key: Key, call: Call, sourced: bool)

  datatype World = World(reg: Registry, source: Source, busy: map<nat, Progress>)

  datatype Event = Begin(id: nat, key: Key, call: Call) | SourceTurn(id: nat) | ServerTurn(id: nat)

  function SourceAct(s: Source, p: Progress): (Source, bool) {
    match p.call
    case AddCall(pod, fds, f) => SourceAdd(s, p.key, pod, fds, f)
    case ReleaseCall(f) => SourceRelease(s, p.key, f)
    case RecoverCall(pod, fds, f) => SourceRecover(s, p.key, pod, fds, f)
    case GetCall(_) => (s, true)
  }

  function ServerAct(reg: Registry, s: Source, p: Progress): (Registry, Source) {
    match p.call
    case AddCall(_, fds, _) => (Added(reg, p.key, fds).0, s)
    case ReleaseCall(_) => (Removed(reg, p.key), s)
    case RecoverCall(_, _, _) => (Marked(reg, p.key).0, s)
    case GetCall(retrieved) => (ServedGet(reg, s, p.key, retrieved).0, ServedGet(reg, s, p.key, retrieved).1)
  }

  /** Each request is two atomic steps, each under its own lock; other requests may come between them. */
  function Step(w: World, e: Event): World {
    match e
    case Begin(id, key, call) =>
      if id in w.busy then w else w.(busy := w.busy[id := Progress(key, call, false)])
    case SourceTurn(id) =>
      if id !in w.busy || w.busy[id].sourced then w
      else
        var (s, ok) := SourceAct(w.source, w.busy[id]);
        w.(source := s, busy := if ok then w.busy[id := w.busy[id].(sourced := true)] else w.busy - {id})
    case ServerTurn(id) =>
      if id !in w.busy || !w.busy[id].sourced then w
      else
        var (reg, s) := ServerAct(w.reg, w.source, w.busy[id]);
        World(reg, s, w.busy - {id})
  }

  function Run(w: World, events: seq<Event>): World
    decreases |events|
  {
    if events == [] then w else Run(Step(w, events[0]), events[1..])
  }

  const START := World(map[], Source(map[], {}, {}), map[])

  /** No request begins on a key that has a request in progress. */
  ghost predicate NonOverlapping(w: World, events: seq<Event>)
    decreases |events|
  {
    events != [] ==>
      && (events[0].Begin? ==> forall id :: id in w.busy ==> w.busy[id].key != events[0].key)
      && NonOverlapping(Step(w, events[0]), events[1..])
  }

  ghost predicate Agrees(w: World, key: Key) {
    key in w.reg <==> key in w.source.fdMap
  }

  ghost predicate Valid(w: World) {
    && (forall a, b :: a in w.busy && b in w.busy && w.busy[a].key == w.busy[b].key ==> a == b)
    && (forall key :: (forall id :: id in w.busy && w.busy[id].sourced ==> w.busy[id].key != key) ==> Agrees(w, key))
    && (forall id :: id in w.busy && w.busy[id].sourced ==>
          match w.busy[id].call
          case AddCall(_, _, _) => w.busy[id].key in w.source.fdMap
          case RecoverCall(_, _, _) => w.busy[id].key in w.source.fdMap
          case ReleaseCall(_) => w.busy[id].key !in w.source.fdMap
          case GetCall(_) => Agrees(w, w.busy[id].key))
  }

  lemma SourceActKeys(s: Source, p: Progress)
    ensures var (s', ok) := SourceAct(s, p);
            s'.fdMap.Keys ==
              if !ok || p.call.GetCall? then s.fdMap.Keys
              else if p.call.ReleaseCall? then s.fdMap.Keys - {p.key}
              else s.fdMap.Keys + {p.key}
  {
  }

  lemma ServerActKeys(reg: Registry, s: Source, p: Progress)
    ensures ServerAct(reg, s, p).1.fdMap.Keys == s.fdMap.Keys
    ensures ServerAct(reg, s, p).0.Keys ==
              if p.call.GetCall? then reg.Keys
              else if p.call.ReleaseCall? then reg.Keys - {p.key}
              else reg.Keys + {p.key}
  {
  }

  lemma BeginValid(w: World, e: Event)
    requires Valid(w) && e.Begin?
    requires forall id :: id in w.busy ==> w.busy[id].key != e.key
    ensures Valid(Step(w, e))
  {
    var w' := Step(w, e);
    forall k | (forall id :: id in w'.busy && w'.busy[id].sourced ==> w'.busy[id].key != k)
      ensures Agrees(w', k)
    {
      forall id | id in w.busy && w.busy[id].sourced
        ensures w.busy[id].key != k
      {
        assert id in w'.busy && w'.busy[id] == w.busy[id];
      }
      assert Agrees(w, k);
    }
  }

  lemma SourceValid(w: World, e: Event)
    requires Valid(w) && e.SourceTurn?
    ensures Valid(Step(w, e))
  {
    var w' := Step(w, e);
    if e.id in w.busy && !w.busy[e.id].sourced {
      var p := w.busy[e.id];
      SourceActKeys(w.source, p);
      var ok := SourceAct(w.source, p).1;
      assert Agrees(w, p.key);
      forall k | (forall id :: id in w'.busy && w'.busy[id].sourced ==> w'.busy[id].key != k)
        ensures Agrees(w', k)
      {
        forall i | i in w.busy && w.busy[i].sourced
          ensures w.busy[i].key != k
        {
          assert i in w'.busy && w'.busy[i] == w.busy[i];
        }
        assert Agrees(w, k);
        assert ok ==> e.id in w'.busy && w'.busy[e.id].sourced && w'.busy[e.id].key == p.key;
      }
    }
  }

  lemma ServerValid(w: World, e: Event)
    requires Valid(w) && e.ServerTurn?
    ensures Valid(Step(w, e))
  {
    var w' := Step(w, e);
    if e.id in w.busy && w.busy[e.id].sourced {
      var p := w.busy[e.id];
      ServerActKeys(w.reg, w.source, p);
      assert Agrees(w', p.key);
      forall k | (forall id :: id in w'.busy && w'.busy[id].sourced ==> w'.busy[id].key != k)
        ensures Agrees(w', k)
      {
        if k != p.key {
          forall i | i in w.busy && w.busy[i].sourced
            ensures w.busy[i].key != k
          {
            assert i != e.id ==> i in w'.busy && w'.busy[i] == w.busy[i];
          }
          assert Agrees(w, k);
        }
      }
    }
  }

  lemma StepValid(w: World, e: Event)
    requires Valid(w)
    requires e.Begin? ==> forall id :: id in w.busy ==> w.busy[id].key != e.key
    ensures Valid(Step(w, e))
  {
    match e
    case Begin(_, _, _) => BeginValid(w, e);
    case SourceTurn(_) => SourceValid(w, e);
    case ServerTurn(_) => ServerValid(w, e);
  }

  lemma {:induction false} RunValid(w: World, events: seq<Event>)
    requires Valid(w) && NonOverlapping(w, events)
    ensures Valid(Run(w, events))
    decreases |events|
  {
    if events != [] {
      StepValid(w, events[0]);
      RunValid(Step(w, events[0]), events[1..]);
    }
  }

  /**
   * In every run in which requests for the same key do not overlap, the two
   * maps agree on every key that has no request in progress, including after
   * failed requests; so when nothing is in progress their key sets are equal.
   */
  lemma MapsAgree(events: seq<Event>)
    requires NonOverlapping(START, events)
    ensures var w := Run(START, events);
            && (forall key :: (forall id :: id in w.busy ==> w.busy[id].key != key) ==> Agrees(w, key))
            && (w.busy == map[] ==> w.reg.Keys == w.source.fdMap.Keys)
  {
    assert Valid(START);
    RunValid(START, events);
    var w := Run(START, events);
    if w.busy == map[] {
      forall key
        ensures key in w.reg.Keys <==> key in w.source.fdMap.Keys
      {
        assert Agrees(w, key);
      }
    }
  }

  // ----- What a Get returns in a run --------------------------------------

  /** The registry has this list for the key and no request is about to release it. */
  ghost predicate Known(w: World, key: Key, list: seq<int>) {
    && key in w.reg && w.reg[key] == Some(list)
    && forall id :: id in w.busy && w.busy[id].key == key ==> !w.busy[id].call.ReleaseCall?
  }

  /** No release of the key begins among the events. */
  ghost predicate Unreleased(events: seq<Event>, key: Key) {
    forall e :: e in events && e.Begin? && e.key == key ==> !e.call.ReleaseCall?
  }

  lemma StepKnown(w: World, e: Event, key: Key, list: seq<int>)
    requires Known(w, key, list)
    requires e.Begin? && e.key == key ==> !e.call.ReleaseCall?
    ensures Known(Step(w, e), key, list)
  {
    if e.ServerTurn? && e.id in w.busy && w.busy[e.id].sourced && w.busy[e.id].key != key {
      ActsOnOwnKey(w.reg, w.source, w.busy[e.id], key);
    }
  }

  lemma {:induction false} RunKnown(w: World, events: seq<Event>, key: Key, list: seq<int>)
    requires Known(w, key, list) && Unreleased(events, key)
    ensures Known(Run(w, events), key, list)
    decreases |events|
  {
    if events != [] {
      assert events[0] in events;
      StepKnown(w, events[0], key, list);
      RunKnown(Step(w, events[0]), events[1..], key, list);
    }
  }

  /** The server's turn of this request is a Get of the key. */
  predicate GetsNext(w: World, id: nat, key: Key) {
    id in w.busy && w.busy[id].sourced && w.busy[id].key == key && w.busy[id].call.GetCall?
  }

  /**
   * Once the registry has a list for a key, every Get of the key, at every
   * point of every run up to the next release of the key, returns that list
   * and leaves the registry and the source as they are.
   */
  lemma KnownListServed(w: World, events: seq<Event>, id: nat, key: Key, list: seq<int>)
    requires Valid(w) && NonOverlapping(w, events)
    requires Known(w, key, list) && Unreleased(events, key)
    requires GetsNext(Run(w, events), id, key)
    ensures var now := Run(w, events);
            && ServedGet(now.reg, now.source, key, now.busy[id].call.retrieved) == (now.reg, now.source, Ok(Some(list)))
            && Step(now, ServerTurn(id)) == now.(busy := now.busy - {id})
  {
    RunValid(w, events);
    RunKnown(w, events, key, list);
    assert Agrees(Run(w, events), key);
  }

  /**
   * A list that an Add has brought into both maps is the one that every Get
   * of the key returns, until a release of the key begins.
   */
  lemma AddedListServed(w: World, id: nat, list: seq<int>, events: seq<Event>, get: nat)
    requires Valid(w) && id in w.busy && w.busy[id].sourced
    requires w.busy[id].call.AddCall? && w.busy[id].call.fds == Some(list) && w.busy[id].key !in w.reg
    requires NonOverlapping(Step(w, ServerTurn(id)), events) && Unreleased(events, w.busy[id].key)
    requires GetsNext(Run(Step(w, ServerTurn(id)), events), get, w.busy[id].key)
    ensures var now := Run(Step(w, ServerTurn(id)), events);
            ServedGet(now.reg, now.source, w.busy[id].key, now.busy[get].call.retrieved)
            == (now.reg, now.source, Ok(Some(list)))
  {
    StepValid(w, ServerTurn(id));
    KnownListServed(Step(w, ServerTurn(id)), events, get, w.busy[id].key, list);
  }

  // ----- The descriptors agree too ----------------------------------------

  /** The list that the registry hands out is the one that the source has for the key. */
  ghost predicate InStep(reg: Registry, s: Source, key: Key) {
    key in reg && reg[key].Some? ==> key in s.fdMap && s.fdMap[key].fds == reg[key]
  }

  /** The source takes new descriptors for a key, and the registry will refuse them and keep its own. */
  predicate Displaces(reg: Registry, s: Source, p: Progress) {
    && (p.call.AddCall? || p.call.RecoverCall?) && SourceAct(s, p).1
    && p.key in reg && reg[p.key].Some? && reg[p.key] != p.call.fds
  }

  /** A whole request keeps the lists of its key in step if and only if it displaces nothing. */
  lemma RequestKeepsList(reg: Registry, s: Source, p: Progress)
    requires InStep(reg, s, p.key) && (p.key in reg <==> p.key in s.fdMap)
    ensures var (s1, ok) := SourceAct(s, p);
            var (reg2, s2) := if ok then ServerAct(reg, s1, p) else (reg, s1);
            InStep(reg2, s2, p.key) <==> !Displaces(reg, s, p)
  {
  }

  /** No source turn of the run displaces anything. */
  ghost predicate Undisplaced(w: World, events: seq<Event>)
    decreases |events|
  {
    events != [] ==>
      && (events[0].SourceTurn? && events[0].id in w.busy && !w.busy[events[0].id].sourced ==>
            !Displaces(w.reg, w.source, w.busy[events[0].id]))
      && Undisplaced(Step(w, events[0]), events[1..])
  }

  /** The lists of every key that no request has left half done, and what half a request has done. */
  ghost predicate ListsValid(w: World) {
    && (forall key :: (forall id :: id in w.busy && w.busy[id].sourced ==> w.busy[id].key != key) ==>
          InStep(w.reg, w.source, key))
    && (forall id :: id in w.busy && w.busy[id].sourced ==> HalfInStep(w.reg, w.source, w.busy[id]))
  }

  ghost predicate HalfInStep(reg: Registry, s: Source, p: Progress) {
    match p.call
    case AddCall(_, fds, _) =>
      p.key in s.fdMap && s.fdMap[p.key].fds == fds && (p.key in reg && reg[p.key].Some? ==> reg[p.key] == fds)
    case RecoverCall(_, fds, _) =>
      p.key in s.fdMap && s.fdMap[p.key].fds == fds && (p.key in reg && reg[p.key].Some? ==> reg[p.key] == fds)
    case ReleaseCall(_) => p.key !in s.fdMap
    case GetCall(_) => InStep(reg, s, p.key)
  }

  /** Acting on one key leaves the entries of the others alone. */
  lemma ActsOnOwnKey(reg: Registry, s: Source, p: Progress, key: Key)
    requires key != p.key
    ensures var s1 := SourceAct(s, p).0;
            (key in s1.fdMap <==> key in s.fdMap) && (key in s.fdMap ==> s1.fdMap[key].fds == s.fdMap[key].fds)
    ensures var (reg2, s2) := ServerAct(reg, s, p);
            && (key in s2.fdMap <==> key in s.fdMap) && (key in s.fdMap ==> s2.fdMap[key].fds == s.fdMap[key].fds)
            && (key in reg2 <==> key in reg) && (key in reg ==> reg2[key] == reg[key])
  {
  }

  lemma OthersInStep(reg: Registry, s: Source, p: Progress, key: Key)
    requires key != p.key && InStep(reg, s, key)
    ensures InStep(reg, SourceAct(s, p).0, key)
    ensures InStep(ServerAct(reg, s, p).0, ServerAct(reg, s, p).1, key)
  {
    ActsOnOwnKey(reg, s, p, key);
  }

  lemma OthersHalfInStep(reg: Registry, s: Source, p: Progress, q: Progress)
    requires q.key != p.key && HalfInStep(reg, s, q)
    ensures HalfInStep(reg, SourceAct(s, p).0, q)
    ensures HalfInStep(ServerAct(reg, s, p).0, ServerAct(reg, s, p).1, q)
  {
    ActsOnOwnKey(reg, s, p, q.key);
  }

  lemma SourceActInStep(reg: Registry, s: Source, p: Progress)
    requires InStep(reg, s, p.key) && !Displaces(reg, s, p)
    ensures var (s1, ok) := SourceAct(s, p);
            if ok then HalfInStep(reg, s1, p) else InStep(reg, s1, p.key)
  {
  }

  lemma ServerActInStep(reg: Registry, s: Source, p: Progress)
    requires HalfInStep(reg, s, p)
    ensures var (reg2, s2) := ServerAct(reg, s, p); InStep(reg2, s2, p.key)
  {
  }

  lemma SourceTurnLists(w: World, id: nat)
    requires Valid(w) && ListsValid(w) && id in w.busy && !w.busy[id].sourced
    requires !Displaces(w.reg, w.source, w.busy[id])
    ensures ListsValid(Step(w, SourceTurn(id)))
  {
    var p, w' := w.busy[id], Step(w, SourceTurn(id));
    forall i | i in w.busy && w.busy[i].sourced ensures w.busy[i].key != p.key {
      assert i != id;
    }
    SourceActInStep(w.reg, w.source, p);
    assert SourceAct(w.source, p).1 ==> id in w'.busy && w'.busy[id].sourced && w'.busy[id].key == p.key;
    forall key | (forall i :: i in w'.busy && w'.busy[i].sourced ==> w'.busy[i].key != key)
      ensures InStep(w'.reg, w'.source, key)
    {
      forall i | i in w.busy && w.busy[i].sourced ensures w.busy[i].key != key {
        assert i in w'.busy && w'.busy[i] == w.busy[i];
      }
      if key != p.key {
        assert InStep(w.reg, w.source, key);
        OthersInStep(w.reg, w.source, p, key);
      }
    }
    forall i | i in w'.busy && w'.busy[i].sourced && i != id ensures HalfInStep(w'.reg, w'.source, w'.busy[i]) {
      assert w'.busy[i] == w.busy[i];
      OthersHalfInStep(w.reg, w.source, p, w.busy[i]);
    }
  }

  lemma ServerTurnLists(w: World, id: nat)
    requires Valid(w) && ListsValid(w) && id in w.busy && w.busy[id].sourced
    ensures ListsValid(Step(w, ServerTurn(id)))
  {
    var p, w' := w.busy[id], Step(w, ServerTurn(id));
    ServerActInStep(w.reg, w.source, p);
    forall key | key != p.key && (forall i :: i in w'.busy && w'.busy[i].sourced ==> w'.busy[i].key != key)
      ensures InStep(w'.reg, w'.source, key)
    {
      forall i | i in w.busy && w.busy[i].sourced ensures w.busy[i].key != key {
        assert i != id ==> i in w'.busy && w'.busy[i] == w.busy[i];
      }
      assert InStep(w.reg, w.source, key);
      OthersInStep(w.reg, w.source, p, key);
    }
    forall i | i in w'.busy && w'.busy[i].sourced ensures HalfInStep(w'.reg, w'.source, w'.busy[i]) {
      assert w'.busy[i] == w.busy[i] && i != id;
      OthersHalfInStep(w.reg, w.source, p, w.busy[i]);
    }
  }

  lemma BeginLists(w: World, e: Event)
    requires ListsValid(w) && e.Begin?
    ensures ListsValid(Step(w, e))
  {
    var w' := Step(w, e);
    forall key | (forall i :: i in w'.busy && w'.busy[i].sourced ==> w'.busy[i].key != key)
      ensures InStep(w'.reg, w'.source, key)
    {
      forall i | i in w.busy && w.busy[i].sourced ensures w.busy[i].key != key {
        assert i in w'.busy && w'.busy[i] == w.busy[i];
      }
    }
  }

  lemma {:induction false} RunLists(w: World, events: seq<Event>)
    requires Valid(w) && ListsValid(w) && NonOverlapping(w, events) && Undisplaced(w, events)
    ensures ListsValid(Run(w, events))
    decreases |events|
  {
    if events != [] {
      var e := events[0];
      StepValid(w, e);
      match e {
        case Begin(_, _, _) => BeginLists(w, e);
        case SourceTurn(id) =>
          if id in w.busy && !w.busy[id].sourced {
            SourceTurnLists(w, id);
          }
        case ServerTurn(id) =>
          if id in w.busy && w.busy[id].sourced {
            ServerTurnLists(w, id);
          }
      }
      RunLists(Step(w, e), events[1..]);
    }
  }

  /**
   * In every run in which requests for the same key do not overlap and no
   * refused request displaces descriptors, the list that the registry hands
   * out for an idle key is the one that the source has.
   */
  lemma DescriptorsAgree(events: seq<Event>, key: Key)
    requires NonOverlapping(START, events) && Undisplaced(START, events)
    requires forall id :: id in Run(START, events).busy ==> Run(START, events).busy[id].key != key
    ensures InStep(Run(START, events).reg, Run(START, events).source, key)
  {
    assert Valid(START) && ListsValid(START);
    RunLists(START, events);
  }

  const ADD := AddCall("p", Some([3]), NO_ADD_FAULTS)
  const RELEASE := ReleaseCall(NO_RELEASE_FAULTS)

  /** Without that restriction the maps can end up different: an Add that a Release of the same key overtakes. */
  lemma OverlapBreaksAgreement()
    ensures exists events :: var w := Run(START, events); w.busy == map[] && w.reg.Keys != w.source.fdMap.Keys
  {
    var events := [Begin(1, "k", ADD), SourceTurn(1), Begin(2, "k", RELEASE),
                   SourceTurn(2), ServerTurn(2), ServerTurn(1)];
    var w1 := Step(START, events[0]);
    var w2 := Step(w1, events[1]);
    var w3 := Step(w2, events[2]);
    var w4 := Step(w3, events[3]);
    var w5 := Step(w4, events[4]);
    var w6 := Step(w5, events[5]);
    assert w6.busy == map[];
    assert "k" in w6.reg && "k" !in w6.source.fdMap;
    RunUnfolds(START, events, [START, w1, w2, w3, w4, w5, w6]);
  }

  lemma {:induction false} RunUnfolds(w: World, events: seq<Event>, worlds: seq<World>)
    requires |worlds| == |events| + 1 && worlds[0] == w
    requires forall i :: 0 <= i < |events| ==> worlds[i + 1] == Step(worlds[i], events[i])
    ensures Run(w, events) == worlds[|events|]
    decreases |events|
  {
    if events != [] {
      assert worlds[1] == Step(worlds[0], events[0]);
      RunUnfolds(worlds[1], events[1..], worlds[1..]);
    }
  }

  // ----- The objects ------------------------------------------------------

  class TapFDSource {
    var fdMap: map<Key, PodNet>
    var netns: set<string>
    var attached: set<string>

    constructor ()
      ensures Value() == Source(map[], {}, {})
    {
      fdMap, netns, attached := map[], {}, {};
    }

    ghost function Value(): Source
      reads this
    {
      Source(fdMap, netns, attached)
    }

    method GetFDs(key: Key, pod: string, fds: Fds, f: AddFaults) returns (ok: bool)
      modifies this
      ensures (Value(), ok) == SourceAdd(old(Value()), key, pod, fds, f)
    {
      if f.payload || f.create || pod in netns { return false; }
      netns := netns + {pod};
      var gotError, podAddedToNetwork := false, false;
      if f.attach {
        gotError := true;
      } else {
        podAddedToNetwork := true;
        attached := attached + {pod};
        if f.setup {
          gotError := true;
        } else {
          fdMap := fdMap[key := PodNet(pod, fds, true)];
        }
      }
      // the deferred clean-up
      if gotError {
        if podAddedToNetwork && !f.detach {
          attached := attached - {pod};
        }
        if !f.destroy {
          netns := netns - {pod};
        }
      }
      ok := !gotError;
      assert f.attach && !f.destroy ==> netns == old(netns);
      assert f.setup && !f.attach && !f.detach ==> attached == old(attached) - {pod};
      assert f.setup && !f.attach && !f.destroy ==> netns == old(netns);
    }

    method Release(key: Key, f: ReleaseFaults) returns (ok: bool)
      modifies this
      ensures (Value(), ok) == SourceRelease(old(Value()), key, f)
    {
      if key !in fdMap { return false; }
      var net := fdMap[key];
      var pod := net.pod;
      if f.open || pod !in netns { return false; }
      ok := false;
      if !f.vfs && !f.dhcp && net.serving {
        // the DHCP server is closed from here on
        fdMap := fdMap[key := net.(serving := false)];
        if !f.links && !f.detach {
          attached := attached - {pod};
          fdMap := fdMap - {key};
          ok := true;
        }
      }
      assert ok ==> fdMap == old(fdMap) - {key};
      // the deferred removal of the namespace
      if !f.destroy {
        netns := netns - {pod};
      }
    }

    method Recover(key: Key, pod: string, fds: Fds, f: RecoverFaults) returns (ok: bool)
      modifies this
      ensures (Value(), ok) == SourceRecover(old(Value()), key, pod, fds, f)
    {
      if f.payload || f.open || pod !in netns || f.setup { return false; }
      fdMap := fdMap[key := PodNet(pod, fds, true)];
      return true;
    }

    method RetrieveFDs(key: Key, retrieved: Result<Fds>) returns (r: Result<Fds>)
      modifies this
      ensures (Value(), r) == SourceRetrieve(old(Value()), key, retrieved)
    {
      if key !in fdMap { return Err; }
      if fdMap[key].pod !in netns || retrieved.Err? { return Err; }
      fdMap := fdMap[key := fdMap[key].(fds := retrieved.value)];
      return retrieved;
    }
  }

  class FDServer {
    var fds: Registry
    const source: TapFDSource

    constructor (source: TapFDSource)
      ensures this.source == source && fds == map[]
    {
      this.source := source;
      fds := map[];
    }

    method AddFDs(key: Key, list: Fds) returns (ok: bool)
      modifies this
      ensures (fds, ok) == Added(old(fds), key, list)
    {
      if key in fds { return false; }
      fds := fds[key := list];
      return true;
    }

    method RemoveFDs(key: Key)
      modifies this
      ensures fds == Removed(old(fds), key)
    {
      fds := fds - {key};
    }

    method GetFDs(key: Key, retrieved: Result<Fds>) returns (r: Result<Fds>)
      modifies this, source
      ensures (fds, source.Value(), r) == GotFrom(old(fds), old(source.Value()), key, retrieved)
      ensures old(key in fds && fds[key].Some?) ==>
                r == Ok(old(fds)[key]) && fds == old(fds) && source.Value() == old(source.Value())
    {
      if key !in fds { return Err; }
      var list := fds[key];
      if list.None? {
        r := source.RetrieveFDs(key, retrieved);
        if r.Err? { return Err; }
        list := r.value;
        fds := fds[key := list];
      }
      return Ok(list);
    }

    method MarkAsRecovered(key: Key) returns (ok: bool)
      modifies this
      ensures (fds, ok) == Marked(old(fds), key)
    {
      if key in fds { return false; }
      fds := fds[key := None];
      return true;
    }

    /** The handlers: the source acts first; the registry follows only if that succeeded. */
    method ServeAdd(key: Key, pod: string, list: Fds, f: AddFaults) returns (ok: bool)
      modifies this, source
      ensures source.Value() == SourceAdd(old(source.Value()), key, pod, list, f).0
      ensures fds ==
                if SourceAdd(old(source.Value()), key, pod, list, f).1 then Added(old(fds), key, list).0 else old(fds)
      ensures ok == (SourceAdd(old(source.Value()), key, pod, list, f).1 && key !in old(fds))
      ensures old(fds.Keys == source.fdMap.Keys) ==> fds.Keys == source.fdMap.Keys
    {
      ok := source.GetFDs(key, pod, list, f);
      if !ok { return; }
      ok := AddFDs(key, list);
    }

    method ServeRelease(key: Key, f: ReleaseFaults) returns (ok: bool)
      modifies this, source
      ensures (source.Value(), ok) == SourceRelease(old(source.Value()), key, f)
      ensures fds == if ok then old(fds) - {key} else old(fds)
      ensures old(fds.Keys == source.fdMap.Keys) ==> fds.Keys == source.fdMap.Keys
    {
      ok := source.Release(key, f);
      if !ok { return; }
      RemoveFDs(key);
    }

    method ServeGet(key: Key, retrieved: Result<Fds>) returns (r: Result<Fds>)
      modifies this, source
      ensures (fds, source.Value(), r) == ServedGet(old(fds), old(source.Value()), key, retrieved)
      ensures old(key in fds && fds[key].Some? && key in source.fdMap) ==>
                r == Ok(old(fds)[key]) && fds == old(fds) && source.Value() == old(source.Value())
      ensures old(fds.Keys == source.fdMap.Keys) ==> fds.Keys == source.fdMap.Keys
    {
      r := GetFDs(key, retrieved);
      if r.Ok? && key !in source.fdMap { return Err; }
    }

    method ServeRecover(key: Key, pod: string, list: Fds, f: RecoverFaults) returns (ok: bool)
      modifies this, source
      ensures source.Value() == SourceRecover(old(source.Value()), key, pod, list, f).0
      ensures fds ==
                if SourceRecover(old(source.Value()), key, pod, list, f).1 then Marked(old(fds), key).0 else old(fds)
      ensures ok == (SourceRecover(old(source.Value()), key, pod, list, f).1 && key !in old(fds))
      ensures old(fds.Keys == source.fdMap.Keys) ==> fds.Keys == source.fdMap.Keys
    {
      ok := source.Recover(key, pod, list, f);
      if !ok { return; }
      ok := MarkAsRecovered(key);
    }
  }
}
