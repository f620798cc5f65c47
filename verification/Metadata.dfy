/**
 * The metadata store: pkg/metadata/containers.go and pkg/metadata/sandboxes.go.
 *
 * Container records live in one bucket. Each sandbox has a bucket of its own
 * that holds the sandbox data and one marker for each of its containers.
 * A transaction either commits or leaves the database as it was.
 */
module Metadata {
  import opened Common
  import opened ImageRefs
  import opened Cursor

  const SANDBOX_PREFIX := "sandboxes/"
  const CONTAINER_PREFIX := "containers/"
  const SANDBOX_DATA := "data"

  datatype ContainerInfo = ContainerInfo(id: string, pod: string, image: ImageSpec, state: int)

  datatype SandboxInfo = SandboxInfo(state: int, labels: map<string, string>)

  datatype Entry = SandboxData(info: SandboxInfo) | Marker

  type Bucket = map<string, Entry>

  datatype Db = Db(containers: map<string, ContainerInfo>, root: map<string, Bucket>)

  function SandboxKey(pod: string): (key: string)
    ensures HasPrefix(key, SANDBOX_PREFIX) && key[|SANDBOX_PREFIX|..] == pod
  {
    SANDBOX_PREFIX + pod
  }

  function ContainerKey(id: string): (key: string)
    ensures HasPrefix(key, CONTAINER_PREFIX) && key[|CONTAINER_PREFIX|..] == id
    ensures key != SANDBOX_DATA
  {
    CONTAINER_PREFIX + id
  }

  /**
   * What an updater did: it failed, or it returned a value after changing the
   * record it was given in place. The value it returns may be that same,
   * changed, record.
   */
  datatype Outcome<!T> = Rejected | Returned(inPlace: T -> T, result: Option<T>)

  type Updater<!T> = Option<T> -> Outcome<T>

  function Lookup<V>(m: map<string, V>, key: string): Option<V> {
    if key in m then Some(m[key]) else None
  }

  // ----- Specification on values ------------------------------------------

  ghost predicate Lists(db: Db, pod: string, id: string) {
    SandboxKey(pod) in db.root && ContainerKey(id) in db.root[SandboxKey(pod)]
  }

  function AddToSandbox(db: Db, id: string, pod: string): Db {
    var bucket := if SandboxKey(pod) in db.root then db.root[SandboxKey(pod)] else map[];
    db.(root := db.root[SandboxKey(pod) := bucket[ContainerKey(id) := Marker]])
  }

  function RemoveFromSandbox(db: Db, id: string, pod: string): Db {
    if SandboxKey(pod) !in db.root then db
    else db.(root := db.root[SandboxKey(pod) := db.root[SandboxKey(pod)] - {ContainerKey(id)}])
  }

  function ContainerSaved(db: Db, id: string, updater: Updater<ContainerInfo>, txFails: bool): (Db, bool) {
    if id == "" then (db, false)
    else
      var current := Lookup(db.containers, id);
      var outcome := updater(current);
      if outcome.Rejected? || txFails then (db, false)
      else if current.None? && outcome.result.None? then (db, true)
      else
        var oldPod := if current.Some? then current.value.pod else "";
        if outcome.result.None? then
          var db1 := if oldPod != "" then RemoveFromSandbox(db, id, oldPod) else db;
          (db1.(containers := db1.containers - {id}), true)
        else
          var record := outcome.result.value.(id := id);
          var db1 := if oldPod != record.pod && oldPod != "" then RemoveFromSandbox(db, id, oldPod) else db;
          var db2 := if oldPod != record.pod && record.pod != "" then AddToSandbox(db1, id, record.pod) else db1;
          (db2.(containers := db2.containers[id := record]), true)
  }

  function SandboxOf(bucket: Bucket): Option<SandboxInfo> {
    if SANDBOX_DATA in bucket && bucket[SANDBOX_DATA].SandboxData? then Some(bucket[SANDBOX_DATA].info) else None
  }

  function SandboxSaved(db: Db, pod: string, updater: Updater<SandboxInfo>, txFails: bool): (Db, bool) {
    if pod == "" then (db, false)
    else
      var bucket := if SandboxKey(pod) in db.root then db.root[SandboxKey(pod)] else map[];
      var outcome := updater(SandboxOf(bucket));
      if outcome.Rejected? || txFails then (db, false)
      else if outcome.result.None? then (db.(root := db.root - {SandboxKey(pod)}), true)
      else (db.(root := db.root[SandboxKey(pod) := bucket[SANDBOX_DATA := SandboxData(outcome.result.value)]]), true)
  }

  datatype Event =
    | ContainerSave(id: string, change: Updater<ContainerInfo>, txFails: bool)
    | SandboxSave(pod: string, update: Updater<SandboxInfo>, txFails: bool)

  function Apply(db: Db, e: Event): Db {
    match e
    case ContainerSave(id, change, txFails) => ContainerSaved(db, id, change, txFails).0
    case SandboxSave(pod, update, txFails) => SandboxSaved(db, pod, update, txFails).0
  }

  function Run(db: Db, events: seq<Event>): Db
    decreases |events|
  {
    if events == [] then db else Run(Apply(db, events[0]), events[1..])
  }

  const EMPTY := Db(map[], map[])

  // ----- The index agrees with the records --------------------------------

  /** Each index entry has a record, and that record names the pod of the entry. */
  ghost predicate Sound(db: Db) {
    && SandboxKey("") !in db.root
    && (forall pod, id :: Lists(db, pod, id) ==>
          id != "" && id in db.containers && db.containers[id].pod == pod)
  }

  /** Each record that names a pod is in the index of that pod. */
  ghost predicate Complete(db: Db) {
    forall id :: id in db.containers && db.containers[id].pod != "" ==> Lists(db, db.containers[id].pod, id)
  }

  lemma AddLists(db: Db, id: string, pod: string)
    ensures forall p, c :: Lists(AddToSandbox(db, id, pod), p, c) <==> Lists(db, p, c) || (p == pod && c == id)
    ensures AddToSandbox(db, id, pod).containers == db.containers
    ensures AddToSandbox(db, id, pod).root.Keys == db.root.Keys + {SandboxKey(pod)}
  {
    forall p, c
      ensures Lists(AddToSandbox(db, id, pod), p, c) <==> Lists(db, p, c) || (p == pod && c == id)
    {
      assert SandboxKey(p) == SandboxKey(pod) ==> p == pod;
      assert ContainerKey(c) == ContainerKey(id) ==> c == id;
    }
  }

  lemma RemoveLists(db: Db, id: string, pod: string)
    ensures forall p, c :: Lists(RemoveFromSandbox(db, id, pod), p, c) <==> Lists(db, p, c) && !(p == pod && c == id)
    ensures RemoveFromSandbox(db, id, pod).containers == db.containers
    ensures RemoveFromSandbox(db, id, pod).root.Keys == db.root.Keys
  {
    forall p, c
      ensures Lists(RemoveFromSandbox(db, id, pod), p, c) <==> Lists(db, p, c) && !(p == pod && c == id)
    {
      assert SandboxKey(p) == SandboxKey(pod) ==> p == pod;
      assert ContainerKey(c) == ContainerKey(id) ==> c == id;
    }
  }

  /**
   * What a committed container save does to the index, given that the index
   * was sound: the entry of this container moves to its new pod if the pod
   * changed, and nothing else moves.
   */
  lemma SaveContainerLists(db: Db, id: string, updater: Updater<ContainerInfo>)
    requires Sound(db) && id != "" && updater(Lookup(db.containers, id)).Returned?
    ensures var db' := ContainerSaved(db, id, updater, false).0;
            var result := updater(Lookup(db.containers, id)).result;
            && db'.containers == (if result.Some? then db.containers[id := result.value.(id := id)]
                                  else db.containers - {id})
            && (forall p, c :: c != id ==> (Lists(db', p, c) <==> Lists(db, p, c)))
            && (forall p :: Lists(db', p, id) <==>
                  && result.Some? && result.value.pod == p
                  && (Lists(db, p, id) || (p != "" && !(id in db.containers && db.containers[id].pod == p))))
            && SandboxKey("") !in db'.root
  {
    var current := Lookup(db.containers, id);
    var oldPod := if current.Some? then current.value.pod else "";
    var result := updater(current).result;
    var db' := ContainerSaved(db, id, updater, false).0;
    RemoveLists(db, id, oldPod);
    if result.None? {
      assert current.None? ==> db.containers - {id} == db.containers;
      var db1 := if oldPod != "" then RemoveFromSandbox(db, id, oldPod) else db;
      assert db'.root == db1.root;
      assert forall p, c :: Lists(db', p, c) <==> Lists(db1, p, c);
    } else if result.value.pod == oldPod {
      assert db'.root == db.root;
      assert forall p, c :: Lists(db', p, c) <==> Lists(db, p, c);
    } else {
      var pod := result.value.pod;
      var db1 := if oldPod != "" then RemoveFromSandbox(db, id, oldPod) else db;
      var db2 := if pod != "" then AddToSandbox(db1, id, pod) else db1;
      AddLists(db1, id, pod);
      assert db'.root == db2.root;
      assert SandboxKey(pod) == SandboxKey("") ==> pod == "";
      assert forall p, c :: Lists(db', p, c) <==> Lists(db2, p, c);
    }
  }

  lemma SaveSandboxLists(db: Db, pod: string, updater: Updater<SandboxInfo>, txFails: bool)
    requires Sound(db)
    ensures var (db', ok) := SandboxSaved(db, pod, updater, txFails);
            var bucket := if SandboxKey(pod) in db.root then db.root[SandboxKey(pod)] else map[];
            var drops := ok && updater(SandboxOf(bucket)).result.None?;
            && db'.containers == db.containers
            && (forall p, c :: Lists(db', p, c) <==> Lists(db, p, c) && !(drops && p == pod))
            && SandboxKey("") !in db'.root
  {
    var (db', ok) := SandboxSaved(db, pod, updater, txFails);
    assert SandboxKey(pod) == SandboxKey("") ==> pod == "";
    forall p, c
      ensures Lists(db', p, c) ==> Lists(db, p, c)
      ensures Lists(db, p, c) && p != pod ==> Lists(db', p, c)
    {
      assert SandboxKey(p) == SandboxKey(pod) ==> p == pod;
    }
  }

  lemma ApplySound(db: Db, e: Event)
    requires Sound(db)
    ensures Sound(Apply(db, e))
  {
    match e
    case SandboxSave(pod, update, txFails) =>
      SaveSandboxLists(db, pod, update, txFails);
    case ContainerSave(id, change, txFails) =>
      if id != "" && change(Lookup(db.containers, id)).Returned? && !txFails {
        SaveContainerLists(db, id, change);
      }
  }

  /** Soundness of the index over every run of saves, whatever the updaters do. */
  lemma {:induction false} RunSound(db: Db, events: seq<Event>)
    requires Sound(db)
    ensures Sound(Run(db, events))
    decreases |events|
  {
    if events != [] {
      ApplySound(db, events[0]);
      RunSound(Apply(db, events[0]), events[1..]);
    }
  }

  /** What updaters do to the record in place does not matter: only their result, or that they failed, does. */
  lemma SaveIgnoresInPlace(db: Db, id: string, u: Updater<ContainerInfo>, v: Updater<ContainerInfo>, txFails: bool)
    requires var a, b := u(Lookup(db.containers, id)), v(Lookup(db.containers, id));
             a.Rejected? == b.Rejected? && (a.Returned? ==> a.result == b.result)
    ensures ContainerSaved(db, id, u, txFails) == ContainerSaved(db, id, v, txFails)
  {
  }

  /** The save removes the sandbox. */
  ghost predicate Drops(db: Db, e: Event) {
    && e.SandboxSave? && e.pod != "" && !e.txFails
    && var bucket := if SandboxKey(e.pod) in db.root then db.root[SandboxKey(e.pod)] else map[];
       e.update(SandboxOf(bucket)).Returned? && e.update(SandboxOf(bucket)).result.None?
  }

  /** No save removes a sandbox that still lists a container. */
  ghost predicate Disciplined(db: Db, events: seq<Event>)
    decreases |events|
  {
    events != [] ==>
      && (Drops(db, events[0]) ==> forall id :: !Lists(db, events[0].pod, id))
      && Disciplined(Apply(db, events[0]), events[1..])
  }

  /** One save keeps the index complete exactly when it does not remove a sandbox with containers. */
  lemma ApplyComplete(db: Db, e: Event)
    requires Sound(db) && Complete(db)
    ensures Complete(Apply(db, e)) <==> (Drops(db, e) ==> forall id :: !Lists(db, e.pod, id))
  {
    var db' := Apply(db, e);
    match e
    case SandboxSave(pod, update, txFails) =>
      SaveSandboxLists(db, pod, update, txFails);
      if Drops(db, e) && Complete(db') {
        forall id
          ensures !Lists(db, pod, id)
        {
          if Lists(db, pod, id) {
            assert false;
          }
        }
      }
    case ContainerSave(id, change, txFails) =>
      if id != "" && change(Lookup(db.containers, id)).Returned? && !txFails {
        SaveContainerLists(db, id, change);
        forall c | c in db'.containers && db'.containers[c].pod != ""
          ensures Lists(db', db'.containers[c].pod, c)
        {
          assert c != id ==> db'.containers[c] == db.containers[c];
        }
      }
  }

  /**
   * If sandboxes are removed only when they list no containers, the index of a
   * pod is exactly the containers whose record names the pod, after every run.
   */
  lemma {:induction false} RunComplete(db: Db, events: seq<Event>)
    requires Sound(db) && Complete(db) && Disciplined(db, events)
    ensures var db' := Run(db, events);
            forall pod, id :: pod != "" ==>
              (Lists(db', pod, id) <==> id in db'.containers && db'.containers[id].pod == pod)
  {
    RunSoundAndComplete(db, events);
  }

  lemma {:induction false} RunSoundAndComplete(db: Db, events: seq<Event>)
    requires Sound(db) && Complete(db) && Disciplined(db, events)
    ensures Sound(Run(db, events)) && Complete(Run(db, events))
    decreases |events|
  {
    if events != [] {
      ApplySound(db, events[0]);
      ApplyComplete(db, events[0]);
      RunSoundAndComplete(Apply(db, events[0]), events[1..]);
    }
  }

  /**
   * Once an entry is lost with its sandbox, saving the container again with
   * the same pod does not bring it back.
   */
  lemma LostEntryStaysLost(db: Db, id: string, updater: Updater<ContainerInfo>)
    requires Sound(db) && id in db.containers && id != ""
    requires !Lists(db, db.containers[id].pod, id)
    requires var o := updater(Some(db.containers[id]));
             o.Returned? && o.result.Some? && o.result.value.pod == db.containers[id].pod
    ensures var db' := ContainerSaved(db, id, updater, false).0;
            id in db'.containers && forall pod :: !Lists(db', pod, id)
  {
    SaveContainerLists(db, id, updater);
  }

  // ----- What a save stores ----------------------------------------------

  /** The data of a sandbox, as Retrieve gives it. */
  function DataOf(db: Db, pod: string): Option<SandboxInfo> {
    if SandboxKey(pod) in db.root then SandboxOf(db.root[SandboxKey(pod)]) else None
  }

  /** What a save of this pod's sandbox commits, if it commits: the new data, or none when it drops the sandbox. */
  function Committed(db: Db, e: Event, pod: string): Option<Option<SandboxInfo>> {
    if e.SandboxSave? && e.pod == pod && pod != "" && !e.txFails && e.update(DataOf(db, pod)).Returned?
    then Some(e.update(DataOf(db, pod)).result)
    else None
  }

  /** A committed save of a sandbox can be read back, and leaves every other sandbox as it was. */
  lemma SaveSandboxStores(db: Db, pod: string, updater: Updater<SandboxInfo>, txFails: bool, other: string)
    ensures var (db', ok) := SandboxSaved(db, pod, updater, txFails);
            && (ok <==> pod != "" && !txFails && updater(DataOf(db, pod)).Returned?)
            && (!ok ==> db' == db)
            && (ok ==> DataOf(db', pod) == updater(DataOf(db, pod)).result)
            && (ok ==> (SandboxKey(pod) in db'.root <==> updater(DataOf(db, pod)).result.Some?))
            && (other != pod ==> DataOf(db', other) == DataOf(db, other))
  {
    assert SandboxKey(other) == SandboxKey(pod) ==> other == pod;
  }

  lemma AddKeepsData(db: Db, id: string, pod: string, other: string)
    ensures DataOf(AddToSandbox(db, id, pod), other) == DataOf(db, other)
  {
    assert SandboxKey(other) == SandboxKey(pod) ==> other == pod;
    assert ContainerKey(id) != SANDBOX_DATA;
  }

  lemma RemoveKeepsData(db: Db, id: string, pod: string, other: string)
    ensures DataOf(RemoveFromSandbox(db, id, pod), other) == DataOf(db, other)
  {
    assert SandboxKey(other) == SandboxKey(pod) ==> other == pod;
    assert ContainerKey(id) != SANDBOX_DATA;
  }

  /**
   * Saving a container changes no sandbox data and no other record, and its
   * own record can be read back; it succeeds exactly when the identifier is
   * not empty and the updater and the transaction work.
   */
  lemma SaveContainerStores(db: Db, id: string, updater: Updater<ContainerInfo>, txFails: bool, pod: string)
    ensures var (db', ok) := ContainerSaved(db, id, updater, txFails);
            var outcome := updater(Lookup(db.containers, id));
            && (ok <==> id != "" && !txFails && outcome.Returned?)
            && (!ok ==> db' == db)
            && (ok && outcome.result.Some? ==> Lookup(db'.containers, id) == Some(outcome.result.value.(id := id)))
            && (ok && outcome.result.None? ==> Lookup(db'.containers, id) == None)
            && db'.containers - {id} == db.containers - {id}
            && DataOf(db', pod) == DataOf(db, pod)
  {
    var (db', ok) := ContainerSaved(db, id, updater, txFails);
    if ok {
      var current := Lookup(db.containers, id);
      var oldPod := if current.Some? then current.value.pod else "";
      var result := updater(current).result;
      var db1 := RemoveFromSandbox(db, id, oldPod);
      RemoveKeepsData(db, id, oldPod, pod);
      if result.Some? {
        AddKeepsData(db, id, result.value.pod, pod);
        AddKeepsData(db1, id, result.value.pod, pod);
      }
    }
  }

  /** The last committed save of a pod's sandbox in a run. */
  function LastCommitted(db: Db, events: seq<Event>, pod: string): Option<Option<SandboxInfo>>
    decreases |events|
  {
    if events == [] then None
    else
      var later := LastCommitted(Apply(db, events[0]), events[1..], pod);
      if later.Some? then later else Committed(db, events[0], pod)
  }

  /**
   * Over every run of saves, the data of a pod's sandbox is what its last
   * committed save returned, and is gone exactly when that save dropped the
   * sandbox; without such a save it is what it was.
   */
  lemma {:induction false} RunData(db: Db, events: seq<Event>, pod: string)
    ensures DataOf(Run(db, events), pod) ==
              var last := LastCommitted(db, events, pod);
              if last.Some? then last.value else DataOf(db, pod)
    decreases |events|
  {
    if events != [] {
      var e := events[0];
      match e {
        case SandboxSave(p, update, txFails) => SaveSandboxStores(db, p, update, txFails, pod);
        case ContainerSave(id, change, txFails) => SaveContainerStores(db, id, change, txFails, pod);
      }
      RunData(Apply(db, e), events[1..], pod);
    }
  }

  // ----- Filtering sandboxes ----------------------------------------------

  datatype SandboxFilter = SandboxFilter(id: string, state: Option<int>, labels: map<string, string>)

  /** The value of a label as a selector of the Kubernetes libraries reads it: a missing one is empty. */
  function LabelOf(labels: map<string, string>, l: string): string {
    if l in labels then labels[l] else ""
  }

  /** The sandbox has what the filter asks of its data. */
  predicate Selects(filter: SandboxFilter, info: SandboxInfo) {
    && (filter.state.Some? ==> info.state == filter.state.value)
    && forall l :: l in filter.labels ==> LabelOf(info.labels, l) == filter.labels[l]
  }

  /** filterPodSandboxMeta: a sandbox whose data is missing is an error unless the filter names another one. */
  function Filtered(db: Db, pod: string, filter: Option<SandboxFilter>): Result<bool> {
    if filter.None? then Ok(true)
    else if filter.value.id != "" && filter.value.id != pod then Ok(false)
    else if pod == "" || SandboxKey(pod) !in db.root || SandboxOf(db.root[SandboxKey(pod)]).None? then Err
    else Ok(Selects(filter.value, SandboxOf(db.root[SandboxKey(pod)]).value))
  }

  /** A filter lets a sandbox that was just saved through exactly if its identifier and data are asked for. */
  lemma SavedIsFiltered(db: Db, pod: string, info: SandboxInfo, filter: SandboxFilter)
    requires pod != ""
    ensures var db' := SandboxSaved(db, pod, _ => Returned(x => x, Some(info)), false).0;
            Filtered(db', pod, Some(filter)) ==
              Ok((filter.id == "" || filter.id == pod)
                 && (filter.state == None || filter.state == Some(info.state))
                 && forall l :: l in filter.labels ==>
                      || Lookup(info.labels, l) == Some(filter.labels[l])
                      || (l !in info.labels && filter.labels[l] == ""))
  {
    SaveSandboxStores(db, pod, _ => Returned(x => x, Some(info)), false, pod);
  }

  // ----- Images in use ----------------------------------------------------

  /** Every container that the pod lists has a record. */
  ghost predicate AllRecorded(db: Db, pod: string) {
    forall id :: Lists(db, pod, id) ==> id != "" && id in db.containers
  }

  /** Listing the images in use fails: an indexed container has no record. */
  ghost predicate Broken(db: Db) {
    exists pod :: SandboxKey(pod) in db.root && (pod == "" || !AllRecorded(db, pod))
  }

  /** The images of the recorded containers that a pod lists. */
  ghost function PodImages(db: Db, pod: string): set<ImageSpec> {
    set id | id in db.containers && Lists(db, pod, id) :: db.containers[id].image
  }

  /** The images of all the indexed containers that have a record. */
  ghost function UsedImages(db: Db): set<ImageSpec> {
    set id | id in db.containers && Indexed(db, id) :: db.containers[id].image
  }

  ghost predicate Indexed(db: Db, id: string) {
    exists pod :: Lists(db, pod, id)
  }

  lemma KeyParts(key: string, prefix: string)
    requires HasPrefix(key, prefix)
    ensures key == prefix + key[|prefix|..]
  {
  }

  /** The pods that have a sandbox. */
  function Pods(db: Db): (pods: set<string>)
    ensures forall pod :: pod in pods <==> SandboxKey(pod) in db.root
  {
    assert forall key :: key in db.root && HasPrefix(key, SANDBOX_PREFIX) ==>
                           key == SandboxKey(key[|SANDBOX_PREFIX|..]) by {
      forall key | key in db.root && HasPrefix(key, SANDBOX_PREFIX) ensures key == SandboxKey(key[|SANDBOX_PREFIX|..]) {
        KeyParts(key, SANDBOX_PREFIX);
      }
    }
    set key | key in db.root && HasPrefix(key, SANDBOX_PREFIX) :: key[|SANDBOX_PREFIX|..]
  }

  /** The containers that a pod lists. */
  function Members(db: Db, pod: string): (ids: set<string>)
    ensures forall id :: id in ids <==> Lists(db, pod, id)
  {
    if SandboxKey(pod) !in db.root then {}
    else
      var bucket := db.root[SandboxKey(pod)];
      assert forall key :: key in bucket && HasPrefix(key, CONTAINER_PREFIX) ==>
                             key == ContainerKey(key[|CONTAINER_PREFIX|..]) by {
        forall key | key in bucket && HasPrefix(key, CONTAINER_PREFIX)
          ensures key == ContainerKey(key[|CONTAINER_PREFIX|..]) {
          KeyParts(key, CONTAINER_PREFIX);
        }
      }
      set key | key in bucket && HasPrefix(key, CONTAINER_PREFIX) :: key[|CONTAINER_PREFIX|..]
  }

  /** In a sound database listing the images in use never fails on a missing record. */
  lemma SoundNotBroken(db: Db)
    requires Sound(db)
    ensures !Broken(db)
  {
  }

  // ----- The store object -------------------------------------------------

  class BoltClient {
    var containers: map<string, ContainerInfo>
    var root: map<string, Bucket>

    constructor ()
      ensures Value() == EMPTY
    {
      containers, root := map[], map[];
    }

    function Value(): Db
      reads this
    {
      Db(containers, root)
    }

    method SaveContainer(id: string, updater: Updater<ContainerInfo>, txFails: bool) returns (ok: bool)
      modifies this
      ensures (Value(), ok) == ContainerSaved(old(Value()), id, updater, txFails)
    {
      if id == "" { return false; }
      var tx := Value();
      var current: Option<ContainerInfo> := None;
      var oldPod := "";
      if id in tx.containers {
        current := Some(tx.containers[id]);
        oldPod := tx.containers[id].pod;
      }
      var outcome := updater(current);
      if outcome.Rejected? { return false; }
      // From here on the record is as the updater left it; the old pod was read before.
      if current.Some? {
        current := Some(outcome.inPlace(current.value));
      }
      if current.None? && outcome.result.None? {
        return !txFails;
      }
      if outcome.result.None? {
        if oldPod != "" {
          tx := RemoveFromSandbox(tx, id, oldPod);
        }
        tx := tx.(containers := tx.containers - {id});
      } else {
        var record := outcome.result.value.(id := id);
        if oldPod != record.pod {
          if oldPod != "" {
            tx := RemoveFromSandbox(tx, id, oldPod);
          }
          if record.pod != "" {
            tx := AddToSandbox(tx, id, record.pod);
          }
        }
        tx := tx.(containers := tx.containers[id := record]);
      }
      if txFails { return false; }
      containers, root := tx.containers, tx.root;
      return true;
    }

    method SaveSandbox(pod: string, updater: Updater<SandboxInfo>, txFails: bool) returns (ok: bool)
      modifies this
      ensures (Value(), ok) == SandboxSaved(old(Value()), pod, updater, txFails)
    {
      if pod == "" { return false; }
      var key := SandboxKey(pod);
      var tx := root;
      if key !in tx {
        tx := tx[key := map[]];
      }
      var outcome := updater(SandboxOf(tx[key]));
      if outcome.Rejected? || txFails { return false; }
      if outcome.result.None? {
        tx := tx - {key};
        assert tx == root - {key};
      } else {
        var bucket := tx[key][SANDBOX_DATA := SandboxData(outcome.result.value)];
        tx := tx[key := bucket];
        assert tx == root[key := bucket];
      }
      root := tx;
      return true;
    }

    /** The containers in the index of a pod, in key order. */
    method ListPodContainers(pod: string) returns (r: Result<seq<string>>)
      ensures r.Ok? <==> pod != "" && SandboxKey(pod) in root
      ensures r.Ok? ==> Sorted(r.value) && forall id :: id in r.value <==> Lists(Value(), pod, id)
    {
      if pod == "" || SandboxKey(pod) !in root { return Err; }
      var bucket := root[SandboxKey(pod)];
      var keys := CursorKeys(bucket.Keys);
      var found := Scan(keys, CONTAINER_PREFIX);
      forall id
        ensures id in found <==> Lists(Value(), pod, id)
      {
        assert ContainerKey(id) in ToSet(keys) <==> ContainerKey(id) in bucket;
      }
      return Ok(found);
    }

    /** All the pods that have a sandbox bucket, in key order. */
    method SandboxPods() returns (pods: seq<string>)
      ensures Sorted(pods) && forall pod :: pod in pods <==> SandboxKey(pod) in root
    {
      // The bucket of container records sits beside the sandbox buckets.
      var keys := CursorKeys(root.Keys + {"containers"});
      pods := Scan(keys, SANDBOX_PREFIX);
      forall pod
        ensures pod in pods <==> SandboxKey(pod) in root
      {
        assert SandboxKey(pod)[0] == 's';
        assert SandboxKey(pod) in ToSet(keys) <==> SandboxKey(pod) in root;
      }
    }

    /** The pods that the filter lets through, in key order; an error if the filter fails on any of them. */
    method ListPodSandboxes(filter: Option<SandboxFilter>) returns (r: Result<seq<string>>)
      ensures r.Err? <==> exists pod :: SandboxKey(pod) in root && Filtered(Value(), pod, filter).Err?
      ensures r.Ok? ==> Sorted(r.value)
      ensures r.Ok? ==>
                forall pod :: pod in r.value <==> SandboxKey(pod) in root && Filtered(Value(), pod, filter) == Ok(true)
    {
      var pods := SandboxPods();
      var found: seq<string> := [];
      for i := 0 to |pods|
        invariant forall k :: 0 <= k < i ==> Filtered(Value(), pods[k], filter).Ok?
        invariant forall pod :: pod in found <==> pod in pods[..i] && Filtered(Value(), pod, filter) == Ok(true)
        invariant Sorted(found)
      {
        var through := Filtered(Value(), pods[i], filter);
        if through.Err? {
          assert SandboxKey(pods[i]) in root;
          return Err;
        }
        assert pods[..i + 1] == pods[..i] + [pods[i]];
        if through.value {
          assert forall k :: 0 <= k < |found| ==> found[k] in pods[..i];
          found := found + [pods[i]];
        }
      }
      assert pods[..|pods|] == pods;
      forall pod | SandboxKey(pod) in root ensures Filtered(Value(), pod, filter).Ok? {
        assert pod in pods;
      }
      return Ok(found);
    }

    /** The inner loop of ImagesInUse: the images of one pod are added. */
    method AddPodImages(pod: string, images: set<ImageSpec>) returns (r: Option<set<ImageSpec>>)
      ensures r.None? <==> pod == "" || SandboxKey(pod) !in root || !AllRecorded(Value(), pod)
      ensures r.Some? ==> r.value == images + PodImages(Value(), pod)
    {
      var listed := ListPodContainers(pod);
      if listed.Err? { return None; }
      var ids := listed.value;
      var found := images;
      for j := 0 to |ids|
        invariant forall l :: 0 <= l < j ==> ids[l] != "" && ids[l] in containers
        invariant found == images + set l | 0 <= l < j :: containers[ids[l]].image
      {
        if ids[j] == "" || ids[j] !in containers {
          assert Lists(Value(), pod, ids[j]);
          return None;
        }
        found := found + {containers[ids[j]].image};
      }
      assert (set l | 0 <= l < |ids| :: containers[ids[l]].image) == PodImages(Value(), pod);
      return Some(found);
    }

    /**
     * The images of the indexed containers, each mapped to true; it fails only
     * if an indexed container has no record.
     */
    method ImagesInUse() returns (r: Option<map<ImageSpec, bool>>)
      ensures r.None? <==> Broken(Value())
      ensures r.Some? ==> r.value == map image | image in UsedImages(Value()) :: true
    {
      var images: set<ImageSpec> := {};
      var pods := SandboxPods();
      for i := 0 to |pods|
        invariant forall j :: 0 <= j < i ==> pods[j] != "" && AllRecorded(Value(), pods[j])
        invariant images == set j, image | 0 <= j < i && image in PodImages(Value(), pods[j]) :: image
      {
        var more := AddPodImages(pods[i], images);
        assert SandboxKey(pods[i]) in root;
        if more.None? { return None; }
        images := more.value;
      }
      forall pod | SandboxKey(pod) in root
        ensures pod != "" && AllRecorded(Value(), pod) && PodImages(Value(), pod) <= images
      {
        assert pod in pods;
      }
      assert images == UsedImages(Value());
      return Some(map image | image in images :: true);
    }
  }
}
