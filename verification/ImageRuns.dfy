/**
 * Runs of the image store beside the metadata store: pulls download outside
 * the lock, placements, removals and collections happen inside it, and a
 * locked operation first reads the list of images in use from the metadata
 * store. That list is read pod by pod and record by record, each in a
 * transaction of its own, and the metadata store has no part in the lock
 * (pkg/image/image.go, pkg/metadata/containers.go, pkg/manager/manager.go).
 */
module ImageRuns {
  import opened Common
  import opened ImageRefs
  import opened ImageStore
  import Metadata

  /** A pull in progress; content is what was downloaded, once that is done. */
  datatype Pull = Pull(spec: ImageSpec, content: Option<Bytes>)

  /** How far the operation that holds the lock is with the images in use: pods and containers to come, images found. */
  datatype Scan =
    | Idle
    | Scanning(pods: set<string>, ids: set<string>, images: set<ImageSpec>)
    | Read(refs: Refs)

  datatype World = World(
    files: Files,
    pulls: map<nat, Pull>,
    next: nat,            // serial number of the next partial download
    db: Metadata.Db,
    scan: Scan
  )

  datatype LockedOp =
    | PlacePull(n: nat)
    | RemoveImage(spec: ImageSpec)
    | Collect(stuck: set<DataFile>)

  datatype Event =
    | Meta(save: Metadata.Event)
    | StartPull(spec: ImageSpec)
    | Write(n: nat, bytes: Bytes)
    | Downloaded(n: nat, bytes: Bytes)
    | AbortPull(n: nat, cleaned: bool)
    | ScanStart
    | ScanPod(pod: string)
    | ScanContainer(id: string)
    | ScanEnd
    | ScanFails
    | Commit(op: LockedOp, faults: Faults)

  /** The pulled content has the digest that the specification pins, if it pins one. */
  predicate Admits(spec: ImageSpec, d: Hex) {
    var pinned := SplitImageName(spec).1;
    pinned.Some? ==> pinned.value == Sha256(d)
  }

  ghost function PutTemp(s: Files, n: nat, bytes: Bytes): Files {
    // A collection may have unlinked the file; the writer does not notice.
    if Part(n) in s.data then s.(data := s.data[Part(n) := bytes]) else s
  }

  ghost function Perform(hash: Bytes -> Hex, w: World, op: LockedOp, refs: Refs, f: Faults): World {
    match op
    case PlacePull(n) =>
      if n in w.pulls && w.pulls[n].content.Some? && Admits(w.pulls[n].spec, hash(w.pulls[n].content.value)) then
        var link := LinkName(SplitImageName(w.pulls[n].spec).0);
        w.(files := Place(w.files, Part(n), hash(w.pulls[n].content.value), link, refs, f).0, pulls := w.pulls - {n})
      else w
    case RemoveImage(spec) =>
      w.(files := Remove(w.files, LinkName(SplitImageName(spec).0), None, refs, f).files)
    case Collect(stuck) =>
      w.(files := Sweep(w.files, refs, stuck).0)
  }

  /** One step of ImagesInUse; an event that cannot happen changes nothing. */
  ghost function ScanStep(scan: Scan, db: Metadata.Db, e: Event): Scan {
    match e
    case ScanStart => if scan.Idle? then Scanning(Metadata.Pods(db), {}, {}) else scan
    case ScanPod(pod) =>
      if !scan.Scanning? || scan.ids != {} || pod !in scan.pods then scan
      else if pod == "" || Metadata.SandboxKey(pod) !in db.root then Read(None)
      else Scanning(scan.pods - {pod}, Metadata.Members(db, pod), scan.images)
    case ScanContainer(id) =>
      if !scan.Scanning? || id !in scan.ids then scan
      else if id == "" || id !in db.containers then Read(None)
      else Scanning(scan.pods, scan.ids - {id}, scan.images + {db.containers[id].image})
    case ScanEnd =>
      if scan.Scanning? && scan.pods == {} && scan.ids == {} then Read(Some(map image | image in scan.images :: true))
      else scan
    case ScanFails => if scan.Read? then scan else Read(None)
    case _ => scan
  }

  /** One step; an event that cannot happen in the given world changes nothing. */
  ghost function Step(hash: Bytes -> Hex, w: World, e: Event): World {
    match e
    case Meta(save) => w.(db := Metadata.Apply(w.db, save))
    case StartPull(spec) =>
      w.(files := w.files.(data := w.files.data[Part(w.next) := []]),
         pulls := w.pulls[w.next := Pull(spec, None)],
         next := w.next + 1)
    case Write(n, bytes) =>
      if n in w.pulls && w.pulls[n].content.None? then w.(files := PutTemp(w.files, n, bytes)) else w
    case Downloaded(n, bytes) =>
      if n in w.pulls && w.pulls[n].content.None? then
        w.(files := PutTemp(w.files, n, bytes), pulls := w.pulls[n := w.pulls[n].(content := Some(bytes))])
      else w
    case AbortPull(n, cleaned) =>
      if n in w.pulls then
        w.(files := if cleaned then w.files.(data := w.files.data - {Part(n)}) else w.files, pulls := w.pulls - {n})
      else w
    case Commit(op, f) =>
      if w.scan.Read? then Perform(hash, w, op, w.scan.refs, f).(scan := Idle) else w
    case _ => w.(scan := ScanStep(w.scan, w.db, e))
  }

  ghost function Run(hash: Bytes -> Hex, w: World, events: seq<Event>): World
    decreases |events|
  {
    if events == [] then w else Run(hash, Step(hash, w, events[0]), events[1..])
  }

  const START := World(Files(map[], map[]), map[], 0, Metadata.EMPTY, Idle)

  ghost predicate Valid(hash: Bytes -> Hex, w: World) {
    && Sound(hash, w.files)
    && Metadata.Sound(w.db)
    && (forall link :: link in w.files.links ==> '/' !in link)
    && (forall n: nat :: Part(n) in w.files.data ==> n < w.next)
    && (forall n :: n in w.pulls ==> n < w.next)
    && (forall n :: n in w.pulls && w.pulls[n].content.Some? && Part(n) in w.files.data ==>
          w.files.data[Part(n)] == w.pulls[n].content.value)
    && (w.scan.Scanning? ==> "" !in w.scan.pods && "" !in w.scan.ids)
  }

  lemma LinkNameFlat(name: string)
    ensures '/' !in LinkName(name)
  {
  }

  lemma PlacePullValid(hash: Bytes -> Hex, w: World, n: nat, refs: Refs, f: Faults)
    requires Valid(hash, w) && !w.scan.Scanning? && n in w.pulls && w.pulls[n].content.Some?
    ensures Valid(hash, Perform(hash, w, PlacePull(n), refs, f))
  {
    var d, link := hash(w.pulls[n].content.value), LinkName(SplitImageName(w.pulls[n].spec).0);
    LinkNameFlat(SplitImageName(w.pulls[n].spec).0);
    PlaceKeeps(hash, w.files, Part(n), d, link, refs, f);
    var s' := Place(w.files, Part(n), d, link, refs, f).0;
    forall other | other in s'.links ensures '/' !in other {
      if other != link {
        assert other in s'.links - {link};
      }
    }
  }

  lemma PerformValid(hash: Bytes -> Hex, w: World, op: LockedOp, refs: Refs, f: Faults)
    requires Valid(hash, w) && !w.scan.Scanning?
    ensures Valid(hash, Perform(hash, w, op, refs, f))
  {
    match op
    case PlacePull(n) =>
      if n in w.pulls && w.pulls[n].content.Some? {
        PlacePullValid(hash, w, n, refs, f);
      }
    case RemoveImage(spec) =>
      RemoveKeeps(hash, w.files, LinkName(SplitImageName(spec).0), None, refs, f);
    case Collect(stuck) =>
      SweepKeeps(hash, w.files, refs, stuck);
  }

  lemma StepValid(hash: Bytes -> Hex, w: World, e: Event)
    requires Valid(hash, w)
    ensures Valid(hash, Step(hash, w, e))
  {
    match e
    case Meta(save) => Metadata.ApplySound(w.db, save);
    case Commit(op, f) =>
      if w.scan.Read? {
        PerformValid(hash, w, op, w.scan.refs, f);
      }
    case _ =>
  }

  /**
   * In every state that any interleaving of pulls, removals, collections and
   * metadata changes can reach, whichever file calls fail: every link
   * resolves, and every blob has the content that its name promises.
   */
  lemma {:induction false} RunValid(hash: Bytes -> Hex, w: World, events: seq<Event>)
    requires Valid(hash, w)
    ensures Valid(hash, Run(hash, w, events))
    decreases |events|
  {
    if events != [] {
      StepValid(hash, w, events[0]);
      RunValid(hash, Step(hash, w, events[0]), events[1..]);
    }
  }

  lemma StartRunsSound(hash: Bytes -> Hex, events: seq<Event>)
    ensures Sound(hash, Run(hash, START, events).files)
  {
    RunValid(hash, START, events);
  }

  // ----- Reading the images in use ----------------------------------------

  /** What a scan finds if nothing changes any more. */
  ghost function Outlook(scan: Scan, db: Metadata.Db): set<ImageSpec>
    requires scan.Scanning?
  {
    scan.images
    + (set id | id in scan.ids && id in db.containers :: db.containers[id].image)
    + (set id | id in db.containers && exists pod :: pod in scan.pods && Metadata.Lists(db, pod, id) ::
         db.containers[id].image)
  }

  /** The scan is on its way to the images of all the indexed containers, or there. */
  ghost predicate Exact(scan: Scan, db: Metadata.Db) {
    match scan
    case Idle => true
    case Scanning(pods, ids, _) =>
      && pods <= Metadata.Pods(db) && (forall id :: id in ids ==> Metadata.Indexed(db, id))
      && Outlook(scan, db) == Metadata.UsedImages(db)
    case Read(refs) =>
      refs == Some(map image | image in Metadata.UsedImages(db) :: true)
  }

  lemma ScanStartExact(db: Metadata.Db)
    ensures Exact(Scanning(Metadata.Pods(db), {}, {}), db)
  {
    var scan := Scanning(Metadata.Pods(db), {}, {});
    forall id | id in db.containers
      ensures Metadata.Indexed(db, id) <==> exists pod :: pod in scan.pods && Metadata.Lists(db, pod, id)
    {
    }
    assert Outlook(scan, db) == Metadata.UsedImages(db);
  }

  lemma ScanPodExact(scan: Scan, db: Metadata.Db, pod: string)
    requires Metadata.Sound(db) && scan.Scanning? && scan.ids == {} && pod in scan.pods && Exact(scan, db)
    ensures Exact(ScanStep(scan, db, ScanPod(pod)), db)
  {
    var scan' := ScanStep(scan, db, ScanPod(pod));
    assert scan' == Scanning(scan.pods - {pod}, Metadata.Members(db, pod), scan.images);
    forall id | id in db.containers
      ensures (exists q :: q in scan.pods && Metadata.Lists(db, q, id)) <==>
              Metadata.Lists(db, pod, id) || exists q :: q in scan'.pods && Metadata.Lists(db, q, id)
    {
      if q :| q in scan.pods && Metadata.Lists(db, q, id) {
        assert q == pod || q in scan'.pods;
      }
    }
    assert Outlook(scan', db) == Outlook(scan, db);
  }

  lemma ScanContainerExact(scan: Scan, db: Metadata.Db, id: string)
    requires Metadata.Sound(db) && scan.Scanning? && id in scan.ids && Exact(scan, db)
    ensures Exact(ScanStep(scan, db, ScanContainer(id)), db)
  {
    assert Metadata.Indexed(db, id);
    var scan' := ScanStep(scan, db, ScanContainer(id));
    assert Outlook(scan', db) == Outlook(scan, db);
  }

  /**
   * While the metadata store does not change, the steps of a scan in any
   * order give what ImagesInUse gives in one go: exactly the images of the
   * indexed containers, and no failure of its own.
   */
  lemma QuietScanExact(scan: Scan, db: Metadata.Db, e: Event)
    requires Metadata.Sound(db) && Exact(scan, db) && !e.ScanFails?
    ensures Exact(ScanStep(scan, db, e), db)
  {
    match e
    case ScanStart => ScanStartExact(db);
    case ScanPod(pod) =>
      if scan.Scanning? && scan.ids == {} && pod in scan.pods {
        ScanPodExact(scan, db, pod);
      }
    case ScanContainer(id) =>
      if scan.Scanning? && id in scan.ids {
        ScanContainerExact(scan, db, id);
      }
    case ScanEnd =>
      if scan.Scanning? && scan.pods == {} && scan.ids == {} {
        assert Outlook(scan, db) == scan.images;
      }
    case _ =>
  }

  /** The scan after some steps, each of which sees the database of its own transaction. */
  ghost function ScanOver(views: nat -> Metadata.Db, events: seq<Event>): Scan {
    if events == [] then Idle
    else
      var n := |events| - 1;
      ScanStep(ScanOver(views, events[..n]), views(n), events[n])
  }

  lemma ScanOverSnoc(views: nat -> Metadata.Db, events: seq<Event>, e: Event)
    ensures ScanOver(views, events + [e]) == ScanStep(ScanOver(views, events), views(|events|), e)
  {
    assert (events + [e])[..|events|] == events;
  }

  /** The inner loop of ImagesInUse: the records of one pod; None when one of them is missing. */
  method ReadRecords(views: nat -> Metadata.Db, ghost before: seq<Event>, t: nat, ghost pods: set<string>,
                     ids: set<string>, images: set<ImageSpec>)
    returns (r: Option<set<ImageSpec>>, t': nat, ghost events: seq<Event>)
    requires t == |before| && ScanFails !in before && ScanOver(views, before) == Scanning(pods, ids, images)
    ensures t' == |events| && ScanFails !in events
    ensures ScanOver(views, events) == if r.None? then Read(None) else Scanning(pods, {}, r.value)
  {
    var todo, found := ids, images;
    t', events := t, before;
    while todo != {}
      invariant t' == |events| && ScanFails !in events
      invariant ScanOver(views, events) == Scanning(pods, todo, found)
      decreases todo
    {
      var id :| id in todo;
      var db := views(t');
      ScanOverSnoc(views, events, ScanContainer(id));
      events, t' := events + [ScanContainer(id)], t' + 1;
      if id == "" || id !in db.containers { return None, t', events; }
      todo, found := todo - {id}, found + {db.containers[id].image};
    }
    return Some(found), t', events;
  }

  /**
   * ImagesInUse as it runs: the pods are read in one transaction, and then
   * each list of containers and each record in one of its own; `views` is
   * what these transactions see. It is a sequence of scan steps.
   */
  method ImagesInUse(views: nat -> Metadata.Db) returns (refs: Refs)
    ensures exists events :: ScanFails !in events && ScanOver(views, events) == Read(refs)
  {
    ScanOverSnoc(views, [], ScanStart);
    ghost var events := [] + [ScanStart];
    var pods, images, t := Metadata.Pods(views(0)), {}, 1;
    while pods != {}
      invariant t == |events| && ScanFails !in events
      invariant ScanOver(views, events) == Scanning(pods, {}, images)
      decreases pods
    {
      var pod :| pod in pods;
      var db := views(t);
      ScanOverSnoc(views, events, ScanPod(pod));
      events, t := events + [ScanPod(pod)], t + 1;
      if pod == "" || Metadata.SandboxKey(pod) !in db.root {
        assert ScanOver(views, events) == Read(None);
        return None;
      }
      pods := pods - {pod};
      var found: Option<set<ImageSpec>>;
      found, t, events := ReadRecords(views, events, t, pods, Metadata.Members(db, pod), images);
      if found.None? { return None; }
      images := found.value;
    }
    ScanOverSnoc(views, events, ScanEnd);
    events := events + [ScanEnd];
    return Some(map image | image in images :: true);
  }

  /** If all the transactions see one sound database, the result is exactly the images of the indexed containers. */
  lemma {:induction false} SteadyScanExact(views: nat -> Metadata.Db, db: Metadata.Db, events: seq<Event>)
    requires Metadata.Sound(db) && (forall n :: views(n) == db) && ScanFails !in events
    ensures Exact(ScanOver(views, events), db)
  {
    if events != [] {
      var n := |events| - 1;
      assert events[n] in events;
      SteadyScanExact(views, db, events[..n]);
      QuietScanExact(ScanOver(views, events[..n]), db, events[n]);
    }
  }

  // ----- What a pull links ------------------------------------------------

  /** A link that a step creates or redirects is the pulled name, and leads to the digest of the pulled content. */
  lemma PullLinksContent(hash: Bytes -> Hex, w: World, e: Event, link: string)
    requires Valid(hash, w)
    requires link in Step(hash, w, e).files.links
    requires link in w.files.links ==> w.files.links[link] != Step(hash, w, e).files.links[link]
    ensures && e.Commit? && e.op.PlacePull? && e.op.n in w.pulls && w.pulls[e.op.n].content.Some?
            && link == LinkName(SplitImageName(w.pulls[e.op.n].spec).0)
            && Step(hash, w, e).files.links[link] == hash(w.pulls[e.op.n].content.value)
            && Admits(w.pulls[e.op.n].spec, Step(hash, w, e).files.links[link])
  {
    if e.Commit? && w.scan.Read? {
      match e.op
      case PlacePull(n) =>
        if n in w.pulls && w.pulls[n].content.Some? {
          var d, own := hash(w.pulls[n].content.value), LinkName(SplitImageName(w.pulls[n].spec).0);
          PlaceKeeps(hash, w.files, Part(n), d, own, w.scan.refs, e.faults);
          var s' := Place(w.files, Part(n), d, own, w.scan.refs, e.faults).0;
          assert link != own && link in s'.links ==> link in s'.links - {own};
        }
      case RemoveImage(spec) =>
        RemoveKeeps(hash, w.files, LinkName(SplitImageName(spec).0), None, w.scan.refs, e.faults);
      case Collect(stuck) =>
    }
  }

  /** The last event places a pull of the specification, and its link then newly leads to the digest. */
  ghost predicate PullLinks(hash: Bytes -> Hex, events: seq<Event>, spec: ImageSpec, d: Hex) {
    && events != []
    && var n := |events| - 1;
       var w, e := Run(hash, START, events[..n]), events[n];
       var link := LinkName(SplitImageName(spec).0);
       && e.Commit? && e.op.PlacePull? && e.op.n in w.pulls && w.pulls[e.op.n].spec == spec
       && link in Step(hash, w, e).files.links && Step(hash, w, e).files.links[link] == d
       && !(link in w.files.links && w.files.links[link] == d)
  }

  const NO_FAULTS := Faults(false, false, false, false, false, false)

  lemma {:induction false} RunUnfolds(hash: Bytes -> Hex, w: World, events: seq<Event>, worlds: seq<World>)
    requires |worlds| == |events| + 1 && worlds[0] == w
    requires forall i :: 0 <= i < |events| ==> worlds[i + 1] == Step(hash, worlds[i], events[i])
    ensures Run(hash, w, events) == worlds[|events|]
    decreases |events|
  {
    if events != [] {
      assert worlds[1] == Step(hash, worlds[0], events[0]);
      RunUnfolds(hash, worlds[1], events[1..], worlds[1..]);
    }
  }

  /** The placement of a pull into the empty store. */
  lemma FirstPlacement(n: nat, b: Bytes, d: Hex, link: string)
    ensures Place(Files(map[Part(n) := b], map[]), Part(n), d, link, Some(map[]), NO_FAULTS)
            == (Files(map[Blob(d) := b], map[link := d]), true)
  {
    var s := Files(map[Part(n) := b], map[]);
    assert s.data - {Part(n)} == map[];
    assert Settle(s, Part(n), d, false) == Some(Files(map[Blob(d) := b], map[]));
  }

  /** The events of a pull up to its placement. */
  function PullEvents(spec: ImageSpec, b: Bytes): seq<Event> {
    [StartPull(spec), Downloaded(0, b), ScanStart, ScanEnd]
  }

  lemma FirstDownload(hash: Bytes -> Hex, spec: ImageSpec, b: Bytes)
    ensures Run(hash, START, PullEvents(spec, b))
            == World(Files(map[Part(0) := b], map[]), map[0 := Pull(spec, Some(b))],
                     1, Metadata.EMPTY, Read(Some(map[])))
  {
    var events := PullEvents(spec, b);
    var w1 := Step(hash, START, events[0]);
    var w2 := Step(hash, w1, events[1]);
    var w3 := Step(hash, w2, events[2]);
    assert w3.scan == Scanning({}, {}, {});
    var w4 := Step(hash, w3, events[3]);
    assert w4.files.data == map[Part(0) := b] && w4.pulls == map[0 := Pull(spec, Some(b))];
    RunUnfolds(hash, START, events, [START, w1, w2, w3, w4]);
  }

  lemma {:induction false} RunAppend(hash: Bytes -> Hex, w: World, a: seq<Event>, b: seq<Event>)
    ensures Run(hash, w, a + b) == Run(hash, Run(hash, w, a), b)
    decreases |a|
  {
    if a == [] {
      assert a + b == b;
    } else {
      RunAppend(hash, Step(hash, w, a[0]), a[1..], b);
      assert (a + b)[1..] == a[1..] + b;
    }
  }

  lemma RunOne(hash: Bytes -> Hex, w: World, e: Event)
    ensures Run(hash, w, [e]) == Step(hash, w, e)
  {
    assert [e][1..] == [];
  }

  /** A pull of any content that its specification admits, as the first thing that happens. */
  lemma FirstPull(hash: Bytes -> Hex, spec: ImageSpec, b: Bytes) returns (events: seq<Event>, w: World)
    requires Admits(spec, hash(b))
    ensures w == Run(hash, START, events)
    ensures w.files == Files(map[Blob(hash(b)) := b], map[LinkName(SplitImageName(spec).0) := hash(b)])
    ensures w.db == Metadata.EMPTY && w.scan == Idle
    ensures PullLinks(hash, events, spec, hash(b))
  {
    var front, last := PullEvents(spec, b), Commit(PlacePull(0), NO_FAULTS);
    var w1 := Run(hash, START, front);
    FirstDownload(hash, spec, b);
    FirstPlacement(0, b, hash(b), LinkName(SplitImageName(spec).0));
    w := Step(hash, w1, last);
    events := front + [last];
    RunAppend(hash, START, front, [last]);
    RunOne(hash, w1, last);
    assert events[..|events| - 1] == front;
  }

  /**
   * A pull whose specification carries a digest always links that digest if
   * and only if the specification is a reference with a name: the text of a
   * bare digest is taken for a name and a tag, and then nothing compares the
   * content with it.
   */
  lemma PullPinsIff(hash: Bytes -> Hex, spec: ImageSpec, h: Hex, b: Bytes)
    requires GetHexDigest(spec) == Some(h) && hash(b) != h
    ensures (forall events, d :: PullLinks(hash, events, spec, d) ==> d == h) <==> spec.Reference?
  {
    if spec.Reference? {
      forall events, d | PullLinks(hash, events, spec, d) ensures d == h {
        var n := |events| - 1;
        RunValid(hash, START, events[..n]);
        PullLinksContent(hash, Run(hash, START, events[..n]), events[n], LinkName(SplitImageName(spec).0));
      }
    } else {
      var events, w := FirstPull(hash, spec, b);
    }
  }

  /**
   * Placing a pull that was downloaded and admitted, with its partial file
   * still there and the images in use known, ends with its link on the digest
   * of its content if no file call fails, whatever the link named before and
   * whatever uses that.
   */
  lemma PullCommits(hash: Bytes -> Hex, w: World, n: nat)
    requires Valid(hash, w) && w.scan.Read? && w.scan.refs.Some?
    requires n in w.pulls && w.pulls[n].content.Some? && Part(n) in w.files.data
    requires Admits(w.pulls[n].spec, hash(w.pulls[n].content.value))
    ensures var files := Step(hash, w, Commit(PlacePull(n), NO_FAULTS)).files;
            var link, d := LinkName(SplitImageName(w.pulls[n].spec).0), hash(w.pulls[n].content.value);
            && link in files.links && files.links[link] == d
            && Blob(d) in files.data && hash(files.data[Blob(d)]) == d && Part(n) !in files.data
  {
    var link, d := LinkName(SplitImageName(w.pulls[n].spec).0), hash(w.pulls[n].content.value);
    PlaceSucceedsIff(hash, w.files, Part(n), d, link, w.scan.refs, NO_FAULTS);
    PlaceKeeps(hash, w.files, Part(n), d, link, w.scan.refs, NO_FAULTS);
  }

  /** The reference that a pull returns: the name, pinned to the digest of the content. */
  function PulledReference(spec: ImageSpec, d: Hex): ImageSpec {
    Reference(SplitImageName(spec).0, Some(Sha256(d)))
  }

  /**
   * The reference that such a pull returns carries the digest that it placed,
   * so that a container with this image has the blob in use, and both the
   * status and the lookup of the reference give the downloaded image.
   */
  lemma PullReturnsItsImage(hash: Bytes -> Hex, w: World, n: nat, vsize: Bytes -> Option<nat>)
    requires Valid(hash, w) && w.scan.Read? && w.scan.refs.Some?
    requires n in w.pulls && w.pulls[n].content.Some? && Part(n) in w.files.data
    requires Admits(w.pulls[n].spec, hash(w.pulls[n].content.value))
    ensures var files := Step(hash, w, Commit(PlacePull(n), NO_FAULTS)).files;
            var d := hash(w.pulls[n].content.value);
            var ref := PulledReference(w.pulls[n].spec, d);
            && d in RefDigests(map[ref := true])
            && Status(files, ref).Ok? && Status(files, ref).value.Some? && Status(files, ref).value.value.digest == d
            && (vsize(files.data[Blob(d)]).Some? ==>
                  Locate(files, ref, vsize).Ok? && Locate(files, ref, vsize).value.digest == d)
  {
    PullCommits(hash, w, n);
    StepValid(hash, w, Commit(PlacePull(n), NO_FAULTS));
    var files := Step(hash, w, Commit(PlacePull(n), NO_FAULTS)).files;
    var d := hash(w.pulls[n].content.value);
    var ref := PulledReference(w.pulls[n].spec, d);
    assert ref in map[ref := true] && GetHexDigest(ref) == Some(d);
    StatusIs(hash, files, ref);
    LocateFindsIff(files, ref, vsize, d);
  }

  // ----- What a commit deletes --------------------------------------------

  /** Two links name the digest. */
  ghost predicate TwoLinks(s: Files, d: Hex) {
    exists a, b :: a in s.links && b in s.links && a != b && s.links[a] == d && s.links[b] == d
  }

  lemma CommitKeepsShielded(hash: Bytes -> Hex, w: World, op: LockedOp, f: Faults, d: Hex)
    requires Valid(hash, w) && w.scan.Read? && Blob(d) in w.files.data && Shielded(d, w.scan.refs)
    ensures Blob(d) in Perform(hash, w, op, w.scan.refs, f).files.data
  {
    match op
    case PlacePull(n) =>
      if n in w.pulls && w.pulls[n].content.Some? {
        var p := hash(w.pulls[n].content.value);
        PlaceKeeps(hash, w.files, Part(n), p, LinkName(SplitImageName(w.pulls[n].spec).0), w.scan.refs, f);
      }
    case RemoveImage(spec) =>
      RemoveKeeps(hash, w.files, LinkName(SplitImageName(spec).0), None, w.scan.refs, f);
    case Collect(stuck) =>
      SweepKeeps(hash, w.files, w.scan.refs, stuck);
  }

  /** An operation changes at most one link. */
  lemma CommitTouchesOneLink(hash: Bytes -> Hex, w: World, op: LockedOp, f: Faults) returns (link: string)
    requires Valid(hash, w) && w.scan.Read?
    ensures Perform(hash, w, op, w.scan.refs, f).files.links - {link} == w.files.links - {link}
  {
    link := "";
    match op
    case PlacePull(n) =>
      if n in w.pulls && w.pulls[n].content.Some? {
        link := LinkName(SplitImageName(w.pulls[n].spec).0);
        PlaceKeeps(hash, w.files, Part(n), hash(w.pulls[n].content.value), link, w.scan.refs, f);
      }
    case RemoveImage(spec) =>
      link := LinkName(SplitImageName(spec).0);
      RemoveKeeps(hash, w.files, link, None, w.scan.refs, f);
    case Collect(stuck) =>
      SweepKeeps(hash, w.files, w.scan.refs, stuck);
  }

  lemma CommitKeepsTwiceLinked(hash: Bytes -> Hex, w: World, op: LockedOp, f: Faults, d: Hex)
    requires Valid(hash, w) && w.scan.Read? && TwoLinks(w.files, d)
    ensures Blob(d) in Perform(hash, w, op, w.scan.refs, f).files.data
  {
    var a, b :| a in w.files.links && b in w.files.links && a != b && w.files.links[a] == d && w.files.links[b] == d;
    var link := CommitTouchesOneLink(hash, w, op, f);
    PerformValid(hash, w, op, w.scan.refs, f);
    var other := if a == link then b else a;
    var links := Perform(hash, w, op, w.scan.refs, f).files.links;
    assert other in w.files.links - {link};
    assert other in links - {link} && links[other] == d;
  }

  lemma FlatLinkName(link: string)
    requires '/' !in link
    ensures LinkName(link) == link
  {
  }

  /** A digest that is neither shielded nor named by two links can be deleted: by a collection or with its link. */
  lemma CommitCanDelete(hash: Bytes -> Hex, w: World, d: Hex) returns (op: LockedOp)
    requires Valid(hash, w) && w.scan.Read? && Blob(d) in w.files.data
    requires !Shielded(d, w.scan.refs) && !TwoLinks(w.files, d)
    ensures Blob(d) !in Perform(hash, w, op, w.scan.refs, NO_FAULTS).files.data
  {
    var m := w.scan.refs.value;
    if link :| link in w.files.links && w.files.links[link] == d {
      op := RemoveImage(Reference(link, None));
      FlatLinkName(link);
      RemoveCompletes(hash, w.files, link, m, NO_FAULTS);
    } else {
      op := Collect({});
      SweepCompletes(hash, w.files, m, Blob(d));
    }
  }

  /** The next commit can delete a blob if and only if no reference shields it and at most one link names it. */
  lemma CommitDeletesIff(hash: Bytes -> Hex, w: World, d: Hex)
    requires Valid(hash, w) && w.scan.Read? && Blob(d) in w.files.data
    ensures (exists op, f :: Blob(d) !in Step(hash, w, Commit(op, f)).files.data) <==>
            !Shielded(d, w.scan.refs) && !TwoLinks(w.files, d)
  {
    if Shielded(d, w.scan.refs) || TwoLinks(w.files, d) {
      forall op, f ensures Blob(d) in Step(hash, w, Commit(op, f)).files.data {
        if Shielded(d, w.scan.refs) {
          CommitKeepsShielded(hash, w, op, f, d);
        } else {
          CommitKeepsTwiceLinked(hash, w, op, f, d);
        }
      }
    } else {
      var op := CommitCanDelete(hash, w, d);
      assert Blob(d) !in Step(hash, w, Commit(op, NO_FAULTS)).files.data;
    }
  }

  // ----- Images of containers are kept ------------------------------------

  /** The pod lists the container, whose record names its image by digest. */
  ghost predicate Names(db: Metadata.Db, pod: string, id: string, d: Hex) {
    && Metadata.Lists(db, pod, id) && id in db.containers
    && GetHexDigest(db.containers[id].image) == Some(d)
  }

  /** The list of images in use has the digest, or will get it from this container. */
  ghost predicate OnItsWay(scan: Scan, pod: string, id: string, d: Hex) {
    match scan
    case Idle => true
    case Scanning(pods, ids, images) =>
      pod in pods || id in ids || exists spec :: spec in images && GetHexDigest(spec) == Some(d)
    case Read(refs) => Shielded(d, refs)
  }

  /** The blob is there, and the operation in progress, if any, will see that it is needed. */
  ghost predicate Guarded(w: World, pod: string, id: string, d: Hex) {
    Blob(d) in w.files.data && (OnItsWay(w.scan, pod, id, d) || TwoLinks(w.files, d))
  }

  lemma ScanKeepsWay(scan: Scan, db: Metadata.Db, e: Event, pod: string, id: string, d: Hex)
    requires Names(db, pod, id, d) && OnItsWay(scan, pod, id, d)
    ensures OnItsWay(ScanStep(scan, db, e), pod, id, d)
  {
    match e
    case ScanPod(q) =>
    case ScanContainer(c) =>
      if scan.Scanning? && c in scan.ids && c != "" && c in db.containers {
        var scan' := ScanStep(scan, db, e);
        if c == id {
          assert db.containers[id].image in scan'.images;
        } else if spec :| spec in scan.images && GetHexDigest(spec) == Some(d) {
          assert spec in scan'.images;
        }
      }
    case ScanEnd =>
      if scan.Scanning? && scan.pods == {} && scan.ids == {} {
        var spec :| spec in scan.images && GetHexDigest(spec) == Some(d);
        var refs := ScanStep(scan, db, e).refs;
        assert spec in refs.value && refs.value[spec];
      }
    case _ =>
  }

  lemma StepGuards(hash: Bytes -> Hex, w: World, e: Event, pod: string, id: string, d: Hex)
    requires Valid(hash, w) && Guarded(w, pod, id, d) && Names(w.db, pod, id, d)
    ensures Guarded(Step(hash, w, e), pod, id, d)
  {
    match e
    case Commit(op, f) =>
      if w.scan.Read? {
        if Shielded(d, w.scan.refs) {
          CommitKeepsShielded(hash, w, op, f, d);
        } else {
          CommitKeepsTwiceLinked(hash, w, op, f, d);
        }
      }
    case Meta(_) =>
    case StartPull(_) => assert Step(hash, w, e).files.links == w.files.links;
    case Write(_, _) => assert Step(hash, w, e).files.links == w.files.links;
    case Downloaded(_, _) => assert Step(hash, w, e).files.links == w.files.links;
    case AbortPull(_, _) => assert Step(hash, w, e).files.links == w.files.links;
    case _ =>
      if OnItsWay(w.scan, pod, id, d) {
        ScanKeepsWay(w.scan, w.db, e, pod, id, d);
      }
  }

  /** The pod lists the container with that digest in every state of the run, the last one excepted. */
  ghost predicate NamedThroughout(hash: Bytes -> Hex, w: World, events: seq<Event>, pod: string, id: string, d: Hex)
    decreases |events|
  {
    events != [] ==>
      Names(w.db, pod, id, d) && NamedThroughout(hash, Step(hash, w, events[0]), events[1..], pod, id, d)
  }

  /**
   * Once a pod lists a container that names its image by digest and the blob
   * is guarded, no pull, removal or collection deletes the blob while the pod
   * lists the container: not when another image is pulled under the same
   * name, and not when reading the images in use fails half-way or records
   * change under it.
   */
  lemma {:induction false} RunKeepsContainerImage(hash: Bytes -> Hex, w: World, events: seq<Event>,
                                                  pod: string, id: string, d: Hex)
    requires Valid(hash, w) && Guarded(w, pod, id, d)
    requires NamedThroughout(hash, w, events, pod, id, d)
    ensures Blob(d) in Run(hash, w, events).files.data
    ensures hash(Run(hash, w, events).files.data[Blob(d)]) == d
    decreases |events|
  {
    if events == [] {
      assert Run(hash, w, events) == w;
    } else {
      StepGuards(hash, w, events[0], pod, id, d);
      StepValid(hash, w, events[0]);
      RunKeepsContainerImage(hash, Step(hash, w, events[0]), events[1..], pod, id, d);
    }
  }

  // ----- The guard is needed ----------------------------------------------

  lemma {:induction false} NamedConcat(hash: Bytes -> Hex, w: World, a: seq<Event>, b: seq<Event>,
                                       pod: string, id: string, d: Hex)
    requires NamedThroughout(hash, w, a, pod, id, d) && NamedThroughout(hash, Run(hash, w, a), b, pod, id, d)
    ensures NamedThroughout(hash, w, a + b, pod, id, d)
    decreases |a|
  {
    if a == [] {
      assert a + b == b;
    } else {
      NamedConcat(hash, Step(hash, w, a[0]), a[1..], b, pod, id, d);
      assert (a + b)[1..] == a[1..] + b;
    }
  }

  lemma NamedOne(hash: Bytes -> Hex, w: World, e: Event, pod: string, id: string, d: Hex)
    requires Names(w.db, pod, id, d)
    ensures NamedThroughout(hash, w, [e], pod, id, d)
  {
    assert [e][1..] == [];
  }

  /** An image without a digest. */
  const NO_DIGEST := Unparsable("")

  /** Another container's record is replaced by one of the same pod whose image has no digest. */
  ghost function Rename(db: Metadata.Db, other: string): Metadata.Event {
    var pod := if other in db.containers then db.containers[other].pod else "";
    var record := Metadata.ContainerInfo(other, pod, NO_DIGEST, 0);
    Metadata.ContainerSave(other, _ => Metadata.Returned(x => x, Some(record)), false)
  }

  lemma RenameKeepsNames(db: Metadata.Db, other: string, pod: string, id: string, d: Hex)
    requires Metadata.Sound(db) && Names(db, pod, id, d) && other != id && other != ""
    ensures var db' := Metadata.Apply(db, Rename(db, other));
            Names(db', pod, id, d) && other in db'.containers && db'.containers[other].image == NO_DIGEST
  {
    Metadata.SaveContainerLists(db, other, Rename(db, other).change);
  }

  /** A sandbox is saved, which makes sure that it exists. */
  const TOUCH: Metadata.Updater<Metadata.SandboxInfo> :=
    _ => Metadata.Returned(x => x, Some(Metadata.SandboxInfo(0, map[])))

  lemma TouchKeepsNames(db: Metadata.Db, other: string, pod: string, id: string, d: Hex)
    requires Metadata.Sound(db) && Names(db, pod, id, d) && other != "" && other != pod
    ensures var db' := Metadata.Apply(db, Metadata.SandboxSave(other, TOUCH, false));
            && Names(db', pod, id, d) && Metadata.SandboxKey(other) in db'.root
            && id !in Metadata.Members(db', other)
  {
    Metadata.SaveSandboxLists(db, other, TOUCH, false);
  }

  /** The scan gets closer to its end and has still missed the container. */
  ghost predicate Progress(hash: Bytes -> Hex, w: World, w': World, pod: string, id: string, d: Hex) {
    && w'.files == w.files && Valid(hash, w') && Names(w'.db, pod, id, d)
    && w.scan.Scanning? && w'.scan.Scanning? && !OnItsWay(w'.scan, pod, id, d)
    && (w'.scan.pods < w.scan.pods || (w'.scan.pods == w.scan.pods && w'.scan.ids < w.scan.ids))
  }

  lemma MissContainer(hash: Bytes -> Hex, w: World, other: string, pod: string, id: string, d: Hex)
    requires Valid(hash, w) && Names(w.db, pod, id, d)
    requires w.scan.Scanning? && !OnItsWay(w.scan, pod, id, d) && other in w.scan.ids
    ensures var w1 := Step(hash, w, Meta(Rename(w.db, other)));
            Names(w1.db, pod, id, d) && Progress(hash, w, Step(hash, w1, ScanContainer(other)), pod, id, d)
  {
    RenameKeepsNames(w.db, other, pod, id, d);
    StepValid(hash, w, Meta(Rename(w.db, other)));
    StepValid(hash, Step(hash, w, Meta(Rename(w.db, other))), ScanContainer(other));
  }

  lemma ScanPodMisses(scan: Scan, db: Metadata.Db, other: string, pod: string, id: string, d: Hex)
    requires scan.Scanning? && scan.ids == {} && other in scan.pods && !OnItsWay(scan, pod, id, d)
    requires other != "" && Metadata.SandboxKey(other) in db.root && id !in Metadata.Members(db, other)
    ensures var scan' := ScanStep(scan, db, ScanPod(other));
            scan'.Scanning? && scan'.pods < scan.pods && !OnItsWay(scan', pod, id, d)
  {
  }

  lemma MissPod(hash: Bytes -> Hex, w: World, other: string, pod: string, id: string, d: Hex)
    requires Valid(hash, w) && Names(w.db, pod, id, d)
    requires w.scan.Scanning? && !OnItsWay(w.scan, pod, id, d) && w.scan.ids == {} && other in w.scan.pods
    ensures var w1 := Step(hash, w, Meta(Metadata.SandboxSave(other, TOUCH, false)));
            Names(w1.db, pod, id, d) && Progress(hash, w, Step(hash, w1, ScanPod(other)), pod, id, d)
  {
    TouchKeepsNames(w.db, other, pod, id, d);
    var save := Metadata.SandboxSave(other, TOUCH, false);
    var db := Metadata.Apply(w.db, save);
    StepValid(hash, w, Meta(save));
    PodStep(hash, w.(db := db), other, pod, id, d);
  }

  lemma PodStep(hash: Bytes -> Hex, w: World, other: string, pod: string, id: string, d: Hex)
    requires Valid(hash, w) && Names(w.db, pod, id, d)
    requires w.scan.Scanning? && !OnItsWay(w.scan, pod, id, d) && w.scan.ids == {} && other in w.scan.pods
    requires Metadata.SandboxKey(other) in w.db.root && id !in Metadata.Members(w.db, other)
    ensures Progress(hash, w, Step(hash, w, ScanPod(other)), pod, id, d)
  {
    StepValid(hash, w, ScanPod(other));
    ScanPodMisses(w.scan, w.db, other, pod, id, d);
  }

  lemma TwoSteps(hash: Bytes -> Hex, w: World, e1: Event, e2: Event, pod: string, id: string, d: Hex)
    requires Names(w.db, pod, id, d) && Names(Step(hash, w, e1).db, pod, id, d)
    ensures Run(hash, w, [e1, e2]) == Step(hash, Step(hash, w, e1), e2)
    ensures NamedThroughout(hash, w, [e1, e2], pod, id, d)
  {
    var w1 := Step(hash, w, e1);
    RunUnfolds(hash, w, [e1, e2], [w, w1, Step(hash, w1, e2)]);
    NamedOne(hash, w1, e2, pod, id, d);
    assert [e1, e2][1..] == [e2];
  }

  /** The next step of a scan that has missed the container, after a metadata change that keeps it going. */
  lemma NextScanStep(hash: Bytes -> Hex, w: World, pod: string, id: string, d: Hex) returns (events: seq<Event>)
    requires Valid(hash, w) && Names(w.db, pod, id, d)
    requires w.scan.Scanning? && !OnItsWay(w.scan, pod, id, d) && (w.scan.pods != {} || w.scan.ids != {})
    ensures NamedThroughout(hash, w, events, pod, id, d)
    ensures Progress(hash, w, Run(hash, w, events), pod, id, d)
  {
    if w.scan.ids != {} {
      var other :| other in w.scan.ids;
      MissContainer(hash, w, other, pod, id, d);
      events := [Meta(Rename(w.db, other)), ScanContainer(other)];
      TwoSteps(hash, w, events[0], events[1], pod, id, d);
    } else {
      var other :| other in w.scan.pods;
      MissPod(hash, w, other, pod, id, d);
      events := [Meta(Metadata.SandboxSave(other, TOUCH, false)), ScanPod(other)];
      TwoSteps(hash, w, events[0], events[1], pod, id, d);
    }
  }

  /** A scan that has missed the container can end without its digest. */
  lemma {:induction false} ScanCanMiss(hash: Bytes -> Hex, w: World, pod: string, id: string, d: Hex)
      returns (events: seq<Event>)
    requires Valid(hash, w) && Names(w.db, pod, id, d)
    requires w.scan.Scanning? && !OnItsWay(w.scan, pod, id, d)
    ensures NamedThroughout(hash, w, events, pod, id, d)
    ensures var w' := Run(hash, w, events);
            && w'.files == w.files && Valid(hash, w') && Names(w'.db, pod, id, d)
            && w'.scan.Read? && !Shielded(d, w'.scan.refs)
    decreases w.scan.pods, w.scan.ids
  {
    if w.scan.pods != {} || w.scan.ids != {} {
      var first := NextScanStep(hash, w, pod, id, d);
      var w1 := Run(hash, w, first);
      var rest := ScanCanMiss(hash, w1, pod, id, d);
      events := first + rest;
      RunAppend(hash, w, first, rest);
      NamedConcat(hash, w, first, rest, pod, id, d);
    } else {
      events := [ScanEnd];
      var w' := Step(hash, w, ScanEnd);
      StepValid(hash, w, ScanEnd);
      RunOne(hash, w, ScanEnd);
      NamedOne(hash, w, ScanEnd, pod, id, d);
      assert d !in RefDigests(w'.scan.refs.value);
    }
  }

  /** Without the guard the blob can be lost although the container stays listed. */
  lemma UnguardedCanLose(hash: Bytes -> Hex, w: World, pod: string, id: string, d: Hex) returns (events: seq<Event>)
    requires Valid(hash, w) && Names(w.db, pod, id, d) && Blob(d) in w.files.data && !Guarded(w, pod, id, d)
    ensures NamedThroughout(hash, w, events, pod, id, d) && Blob(d) !in Run(hash, w, events).files.data
  {
    var front: seq<Event> := [];
    if w.scan.Scanning? {
      front := ScanCanMiss(hash, w, pod, id, d);
    }
    var w1 := Run(hash, w, front);
    var op := CommitCanDelete(hash, w1, d);
    var last := Commit(op, NO_FAULTS);
    events := front + [last];
    RunAppend(hash, w, front, [last]);
    RunOne(hash, w1, last);
    NamedOne(hash, w1, last, pod, id, d);
    NamedConcat(hash, w, front, [last], pod, id, d);
  }

  /**
   * The exact condition: a blob that a listed container names survives every
   * run in which the pod lists the container if and only if it is guarded.
   */
  lemma ImageKeptIff(hash: Bytes -> Hex, w: World, pod: string, id: string, d: Hex)
    requires Valid(hash, w) && Names(w.db, pod, id, d) && Blob(d) in w.files.data
    ensures (forall events :: NamedThroughout(hash, w, events, pod, id, d) ==>
               Blob(d) in Run(hash, w, events).files.data)
            <==> Guarded(w, pod, id, d)
  {
    if Guarded(w, pod, id, d) {
      forall events | NamedThroughout(hash, w, events, pod, id, d) ensures Blob(d) in Run(hash, w, events).files.data {
        RunKeepsContainerImage(hash, w, events, pod, id, d);
      }
    } else {
      var events := UnguardedCanLose(hash, w, pod, id, d);
    }
  }

  /** The record of a container "c" in the pod "p" whose image is named by digest. */
  function Creation(d: Hex): Metadata.Event {
    var record := Metadata.ContainerInfo("c", "p", BareDigest(Sha256(d)), 0);
    Metadata.ContainerSave("c", _ => Metadata.Returned(x => x, Some(record)), false)
  }

  /** An operation reads the images in use, and then a container is saved. */
  lemma SaveAfterScan(hash: Bytes -> Hex, w: World, d: Hex)
    requires w.db == Metadata.EMPTY && w.scan == Idle
    ensures var w' := Run(hash, w, [ScanStart, ScanEnd, Meta(Creation(d))]);
            w'.files == w.files && w'.scan == Read(Some(map[])) && Names(w'.db, "p", "c", d)
  {
    var w1 := Step(hash, w, ScanStart);
    assert w1.scan == Scanning({}, {}, {});
    var w2 := Step(hash, w1, ScanEnd);
    var w3 := Step(hash, w2, Meta(Creation(d)));
    Metadata.SaveContainerLists(Metadata.EMPTY, "c", Creation(d).change);
    RunUnfolds(hash, w, [ScanStart, ScanEnd, Meta(Creation(d))], [w, w1, w2, w3]);
  }

  /**
   * Such a state is reachable for every content and every hash: the lock does
   * not cover the metadata store, so a container can be saved after the
   * operation that holds the lock has read the images in use.
   */
  lemma UnguardedReachable(hash: Bytes -> Hex, b: Bytes)
    ensures exists events :: var w := Run(hash, START, events);
              Names(w.db, "p", "c", hash(b)) && Blob(hash(b)) in w.files.data && !Guarded(w, "p", "c", hash(b))
  {
    var front, w := FirstPull(hash, Reference("a", None), b);
    var last := [ScanStart, ScanEnd, Meta(Creation(hash(b)))];
    SaveAfterScan(hash, w, hash(b));
    RunAppend(hash, START, front, last);
    var w' := Run(hash, START, front + last);
    assert RefDigests(map[]) == {};
    assert !TwoLinks(w'.files, hash(b));
  }
}
