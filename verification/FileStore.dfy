/**
 * The content-addressed image store of pkg/image/image.go.
 *
 * The store directory is two maps: `data` holds partial downloads and blobs
 * named by their digest, `links` maps mangled image names to digests. A
 * mutating file call either takes effect or fails without effect; which calls
 * fail is part of the input. Reads are truthful.
 */
module ImageStore {
  import opened Common
  import opened ImageRefs

  datatype DataFile = Part(serial: nat) | Blob(hex: Hex)

  datatype Files = Files(data: map<DataFile, Bytes>, links: map<string, Hex>)

  /** What the reference getter answered: None is an error. */
  type Refs = Option<map<ImageSpec, bool>>

  /** Which of the mutating calls made while placing or removing an image fail. */
  datatype Faults = Faults(move: bool, mkdir: bool, unlink: bool, purge: bool, symlink: bool, undo: bool)

  datatype Image = Image(name: string, digest: Hex, size: nat)

  // ----- Specification on values ------------------------------------------

  ghost function RefDigests(refs: map<ImageSpec, bool>): set<Hex> {
    set spec | spec in refs && refs[spec] && GetHexDigest(spec).Some? :: GetHexDigest(spec).value
  }

  /** Digests that some link names and whose blob exists: listing skips dangling links. */
  ghost function LinkedDigests(s: Files): set<Hex> {
    set link | link in s.links && Blob(s.links[link]) in s.data :: s.links[link]
  }

  ghost function InUse(s: Files, refs: Refs): Option<set<Hex>> {
    match refs
    case None => None
    case Some(m) => Some(RefDigests(m) + LinkedDigests(s))
  }

  /** removeIfUnreferenced: the new directory and whether the call succeeded. */
  ghost function Purge(s: Files, d: Hex, refs: Refs, fails: bool): (Files, bool) {
    match InUse(s, refs)
    case None => (s, false)
    case Some(used) =>
      if d in used then (s, true)
      else if fails || Blob(d) !in s.data then (s, false)
      else (s.(data := s.data - {Blob(d)}), true)
  }

  datatype Removal = Removal(files: Files, removed: bool, ok: bool)

  /** removeImageIfItsNotNeeded */
  ghost function Remove(s: Files, link: string, keep: Option<Hex>, refs: Refs, f: Faults): Removal {
    if link !in s.links then Removal(s, true, true)
    else if keep == Some(s.links[link]) then Removal(s, false, true)
    else if f.unlink then Removal(s, false, false)
    else
      var (s', ok) := Purge(s.(links := s.links - {link}), s.links[link], refs, f.purge);
      Removal(s', true, ok)
  }

  /** renameIfNewOrDelete for a partial download: None when the call failed. */
  ghost function Settle(s: Files, temp: DataFile, d: Hex, fails: bool): Option<Files> {
    if fails || temp !in s.data then None
    else if Blob(d) in s.data then Some(s.(data := s.data - {temp}))
    else Some(s.(data := (s.data - {temp})[Blob(d) := s.data[temp]]))
  }

  /** Creation of the link, the last step of placeImage. */
  ghost function AddLink(s: Files, d: Hex, link: string, isNew: bool, f: Faults): (Files, bool) {
    if f.symlink || link in s.links then
      (if isNew && !f.undo then s.(data := s.data - {Blob(d)}) else s, false)
    else
      (s.(links := s.links[link := d]), true)
  }

  /** The part of placeImage after the blob is in place: the old link goes and the new one is made. */
  ghost function Relink(s: Files, d: Hex, link: string, isNew: bool, refs: Refs, f: Faults): (Files, bool) {
    if f.mkdir then (s, false)
    else if link in s.links && Blob(s.links[link]) in s.data then
      var r := Remove(s, link, Some(d), refs, f);
      if !r.ok then (r.files, false)
      else if !r.removed then (r.files, true)
      else AddLink(r.files, d, link, isNew, f)
    else AddLink(s, d, link, isNew, f)
  }

  /** placeImage */
  ghost function Place(s: Files, temp: DataFile, d: Hex, link: string, refs: Refs, f: Faults): (Files, bool) {
    match Settle(s, temp, d, f.move)
    case None => (s, false)
    case Some(s1) => Relink(s1, d, link, Blob(d) !in s.data, refs, f)
  }

  /** GC: every data file goes, except the blobs in use and the files whose removal fails. */
  ghost function Sweep(s: Files, refs: Refs, stuck: set<DataFile>): (Files, bool) {
    match InUse(s, refs)
    case None => (s, false)
    case Some(used) =>
      (s.(data :=
        map file | file in s.data && (file in stuck || (file.Blob? && file.hex in used)) :: s.data[file]), true)
  }

  // ----- What the store keeps ---------------------------------------------

  /** Every link resolves, and every blob has the content its name promises. */
  ghost predicate Sound(hash: Bytes -> Hex, s: Files) {
    && (forall link :: link in s.links ==> Blob(s.links[link]) in s.data)
    && (forall d :: Blob(d) in s.data ==> hash(s.data[Blob(d)]) == d)
  }

  /** A digest that the operation must treat as used: a reference names it, or references are unknown. */
  ghost predicate Shielded(d: Hex, refs: Refs) {
    refs.None? || d in RefDigests(refs.value)
  }

  lemma PurgeKeeps(hash: Bytes -> Hex, s: Files, d: Hex, refs: Refs, fails: bool)
    requires Sound(hash, s)
    ensures var s' := Purge(s, d, refs, fails).0;
            && Sound(hash, s')
            && s'.links == s.links
            && s'.data.Keys <= s.data.Keys
            && (forall file :: file in s.data && file !in s'.data ==> file == Blob(d) && !Shielded(d, refs))
            && (forall file :: file in s'.data ==> s'.data[file] == s.data[file])
  {
    var s' := Purge(s, d, refs, fails).0;
    if refs.Some? {
      forall link | link in s.links
        ensures Blob(s.links[link]) in s'.data
      {
        assert s.links[link] in LinkedDigests(s);
      }
    }
  }

  /**
   * Removing a link keeps the store sound, touches no other link, and deletes
   * at most the blob that the link named, never a shielded one.
   */
  lemma RemoveKeeps(hash: Bytes -> Hex, s: Files, link: string, keep: Option<Hex>, refs: Refs, f: Faults)
    requires Sound(hash, s)
    ensures var r := Remove(s, link, keep, refs, f);
            && Sound(hash, r.files)
            && r.files.links == (if link in s.links && keep != Some(s.links[link]) && !f.unlink
                                 then s.links - {link} else s.links)
            && (r.removed ==> link !in r.files.links)
            && (!r.removed && r.ok ==> link in s.links && keep == Some(s.links[link]) && r.files == s)
            && r.files.data.Keys <= s.data.Keys
            && (forall file :: file in s.data && file !in r.files.data ==>
                  link in s.links && file == Blob(s.links[link]) && keep != Some(file.hex) && !Shielded(file.hex, refs))
            && (forall file :: file in r.files.data ==> r.files.data[file] == s.data[file])
  {
    if link in s.links && keep != Some(s.links[link]) && !f.unlink {
      var s1 := s.(links := s.links - {link});
      assert Sound(hash, s1);
      PurgeKeeps(hash, s1, s.links[link], refs, f.purge);
    }
  }

  /** What a removal that succeeds leaves behind: neither the link nor an unused blob. */
  lemma RemoveCompletes(hash: Bytes -> Hex, s: Files, link: string, m: map<ImageSpec, bool>, f: Faults)
    requires Sound(hash, s) && link in s.links
    requires Remove(s, link, None, Some(m), f).ok
    ensures var s' := Remove(s, link, None, Some(m), f).files;
            && link !in s'.links
            && (Blob(s.links[link]) in s'.data <==> OtherwiseUsed(s, link, m))
  {
    UsedWithoutLink(s, link, m);
  }

  /** Something other than this link keeps the blob that the link names. */
  ghost predicate OtherwiseUsed(s: Files, link: string, m: map<ImageSpec, bool>)
    requires link in s.links
  {
    || s.links[link] in RefDigests(m)
    || exists other :: other in s.links && other != link && s.links[other] == s.links[link]
  }

  /** What must work to take a link away: unlinking, reading the references, deleting a blob that nothing else uses. */
  ghost predicate CanUnlink(s: Files, link: string, refs: Refs, f: Faults)
    requires link in s.links
  {
    !f.unlink && refs.Some? && (OtherwiseUsed(s, link, refs.value) || !f.purge)
  }

  /**
   * A removal succeeds if and only if there is no such link, or it names the
   * blob to keep, or it can be taken away; in particular an image in use can
   * be removed.
   */
  lemma RemoveSucceedsIff(hash: Bytes -> Hex, s: Files, link: string, keep: Option<Hex>, refs: Refs, f: Faults)
    requires Sound(hash, s)
    ensures Remove(s, link, keep, refs, f).ok <==>
            link !in s.links || keep == Some(s.links[link]) || CanUnlink(s, link, refs, f)
    ensures Remove(s, link, keep, refs, f).removed <==>
            link !in s.links || (keep != Some(s.links[link]) && !f.unlink)
  {
    if link in s.links && refs.Some? {
      UsedWithoutLink(s, link, refs.value);
    }
  }

  /** Once the link is gone, its digest is in use exactly when something else uses it. */
  lemma UsedWithoutLink(s: Files, link: string, m: map<ImageSpec, bool>)
    requires link in s.links && Blob(s.links[link]) in s.data
    ensures s.links[link] in InUse(s.(links := s.links - {link}), Some(m)).value <==> OtherwiseUsed(s, link, m)
  {
    var d, s1 := s.links[link], s.(links := s.links - {link});
    if other :| other in s.links && other != link && s.links[other] == d {
      assert other in s1.links && s1.links[other] in LinkedDigests(s1);
    }
    if d in LinkedDigests(s1) {
      var other :| other in s1.links && s1.links[other] == d;
      assert other in s.links && other != link;
    }
  }

  /** The first step of placing: the partial download becomes the blob, or goes away if the blob exists. */
  lemma SettleKeeps(hash: Bytes -> Hex, s: Files, temp: DataFile, d: Hex, fails: bool)
    requires Sound(hash, s) && temp.Part?
    requires temp in s.data ==> hash(s.data[temp]) == d
    requires Settle(s, temp, d, fails).Some?
    ensures var s1 := Settle(s, temp, d, fails).value;
            && Sound(hash, s1)
            && s1.links == s.links
            && s1.data.Keys == s.data.Keys - {temp} + {Blob(d)}
            && (forall file :: file in s.data && file != temp ==> s1.data[file] == s.data[file])
  {
  }

  /** Undoing a placement removes a blob that no link can name yet. */
  lemma AddLinkKeeps(hash: Bytes -> Hex, s: Files, d: Hex, link: string, isNew: bool, f: Faults)
    requires Sound(hash, s) && Blob(d) in s.data
    requires isNew ==> forall other :: other in s.links ==> s.links[other] != d
    ensures var (s', ok) := AddLink(s, d, link, isNew, f);
            && Sound(hash, s')
            && s'.links == (if ok then s.links[link := d] else s.links)
            && s'.data.Keys <= s.data.Keys
            && (forall file :: file in s.data && file !in s'.data ==> isNew && !ok && file == Blob(d))
            && (forall file :: file in s'.data ==> s'.data[file] == s.data[file])
  {
  }

  /** What relinking keeps. */
  ghost predicate Relinked(hash: Bytes -> Hex, s: Files, d: Hex, link: string, isNew: bool,
                           refs: Refs, s': Files, ok: bool)
  {
    && Sound(hash, s')
    && s'.links - {link} == s.links - {link}
    && (link in s'.links ==> s'.links[link] == d || (link in s.links && s'.links[link] == s.links[link]))
    && (ok ==> link in s'.links && s'.links[link] == d)
    && s'.data.Keys <= s.data.Keys
    && (forall file :: file in s.data && file !in s'.data ==>
          || (isNew && file == Blob(d))
          || (link in s.links && file == Blob(s.links[link]) && file != Blob(d) && !Shielded(file.hex, refs)))
    && (forall file :: file in s'.data ==> s'.data[file] == s.data[file])
  }

  lemma AddLinkRelinks(hash: Bytes -> Hex, s: Files, d: Hex, link: string, isNew: bool, refs: Refs, f: Faults)
    requires Sound(hash, s) && Blob(d) in s.data && link !in s.links
    requires isNew ==> forall other :: other in s.links ==> s.links[other] != d
    ensures var (s', ok) := AddLink(s, d, link, isNew, f); Relinked(hash, s, d, link, isNew, refs, s', ok)
  {
    AddLinkKeeps(hash, s, d, link, isNew, f);
  }

  lemma RemoveThenAddLink(hash: Bytes -> Hex, s: Files, d: Hex, link: string, isNew: bool, refs: Refs, f: Faults)
    requires Sound(hash, s) && Blob(d) in s.data && link in s.links
    requires isNew ==> forall other :: other in s.links ==> s.links[other] != d
    requires var r := Remove(s, link, Some(d), refs, f); r.ok && r.removed
    ensures var (s', ok) := AddLink(Remove(s, link, Some(d), refs, f).files, d, link, isNew, f);
            Relinked(hash, s, d, link, isNew, refs, s', ok)
  {
    RemoveKeeps(hash, s, link, Some(d), refs, f);
    var r := Remove(s, link, Some(d), refs, f);
    AddLinkRelinks(hash, r.files, d, link, isNew, refs, f);
  }

  /** Relinking, whatever fails on the way. */
  lemma RelinkKeeps(hash: Bytes -> Hex, s: Files, d: Hex, link: string, isNew: bool, refs: Refs, f: Faults)
    requires Sound(hash, s) && Blob(d) in s.data
    requires isNew ==> forall other :: other in s.links ==> s.links[other] != d
    ensures var (s', ok) := Relink(s, d, link, isNew, refs, f); Relinked(hash, s, d, link, isNew, refs, s', ok)
  {
    if !f.mkdir {
      if link in s.links {
        RemoveKeeps(hash, s, link, Some(d), refs, f);
        var r := Remove(s, link, Some(d), refs, f);
        if r.ok && r.removed {
          RemoveThenAddLink(hash, s, d, link, isNew, refs, f);
        }
      } else {
        AddLinkRelinks(hash, s, d, link, isNew, refs, f);
      }
    }
  }

  /**
   * Placing an image, whatever fails on the way:
   * the store stays sound; only this link changes, to the placed digest or
   * away; no content changes; a blob that was there before is deleted only if
   * it is the one the link named, differs from the placed one and is not
   * shielded by a reference.
   */
  lemma PlaceKeeps(hash: Bytes -> Hex, s: Files, temp: DataFile, d: Hex, link: string, refs: Refs, f: Faults)
    requires Sound(hash, s) && temp.Part?
    requires temp in s.data ==> hash(s.data[temp]) == d
    ensures var (s', ok) := Place(s, temp, d, link, refs, f);
            && Sound(hash, s')
            && s'.links - {link} == s.links - {link}
            && (link in s'.links ==> s'.links[link] == d || (link in s.links && s'.links[link] == s.links[link]))
            && (ok ==> link in s'.links && s'.links[link] == d && temp !in s'.data)
            && s'.data.Keys <= s.data.Keys + {Blob(d)}
            && (forall file :: file in s.data && file !in s'.data ==>
                  || file == temp
                  || (link in s.links && file == Blob(s.links[link]) && file != Blob(d) && !Shielded(file.hex, refs)))
            && (forall file :: file in s'.data && file in s.data ==> s'.data[file] == s.data[file])
  {
    if Settle(s, temp, d, f.move).Some? {
      SettleKeeps(hash, s, temp, d, f.move);
      RelinkKeeps(hash, Settle(s, temp, d, f.move).value, d, link, Blob(d) !in s.data, refs, f);
    }
  }

  /**
   * A placement succeeds if and only if the partial download is there and can
   * be moved, the directory can be made, and the link leads to the digest
   * already, or can be made after an old one, if any, was taken away.
   */
  lemma PlaceSucceedsIff(hash: Bytes -> Hex, s: Files, temp: DataFile, d: Hex, link: string, refs: Refs, f: Faults)
    requires Sound(hash, s) && temp.Part?
    requires temp in s.data ==> hash(s.data[temp]) == d
    ensures Place(s, temp, d, link, refs, f).1 <==>
            && temp in s.data && !f.move && !f.mkdir
            && ((link in s.links && s.links[link] == d)
                || (!f.symlink && (link in s.links ==> CanUnlink(s, link, refs, f))))
  {
    if Settle(s, temp, d, f.move).Some? {
      SettleKeeps(hash, s, temp, d, f.move);
      var s1 := Settle(s, temp, d, f.move).value;
      if link in s1.links {
        RemoveSucceedsIff(hash, s1, link, Some(d), refs, f);
        RemoveKeeps(hash, s1, link, Some(d), refs, f);
        assert refs.Some? ==> OtherwiseUsed(s1, link, refs.value) == OtherwiseUsed(s, link, refs.value);
      }
    }
  }

  /** Collection, whatever fails on the way: links and contents stay, and so do linked and shielded blobs. */
  lemma SweepKeeps(hash: Bytes -> Hex, s: Files, refs: Refs, stuck: set<DataFile>)
    requires Sound(hash, s)
    ensures var s' := Sweep(s, refs, stuck).0;
            && Sound(hash, s')
            && s'.links == s.links
            && s'.data.Keys <= s.data.Keys
            && (forall file :: file in s'.data ==> s'.data[file] == s.data[file])
            && (forall d :: Blob(d) in s.data && Shielded(d, refs) ==> Blob(d) in s'.data)
            && (Sweep(s, refs, stuck).1 <==> refs.Some?)
  {
    var s' := Sweep(s, refs, stuck).0;
    if refs.Some? {
      forall link | link in s.links
        ensures Blob(s.links[link]) in s'.data
      {
        assert s.links[link] in LinkedDigests(s);
      }
    }
  }

  /** A collection with no failures leaves exactly the blobs that a link or a reference names. */
  lemma SweepCompletes(hash: Bytes -> Hex, s: Files, m: map<ImageSpec, bool>, file: DataFile)
    requires Sound(hash, s)
    ensures file in Sweep(s, Some(m), {}).0.data <==>
              && file in s.data && file.Blob?
              && (file.hex in RefDigests(m) || exists link :: link in s.links && s.links[link] == file.hex)
  {
    if file in s.data && file.Blob? {
      if link :| link in s.links && s.links[link] == file.hex {
        assert s.links[link] in LinkedDigests(s);
      }
    }
  }

  // ----- Looking images up ------------------------------------------------

  ghost predicate Matches(s: Files, link: string, filter: Option<ImageSpec>) {
    && link in s.links
    && Blob(s.links[link]) in s.data
    && (filter.Some? ==>
          var (name, pinned) := SplitImageName(filter.value);
          && (name != "" ==> NameOfLink(link) == name)
          && (pinned.Some? ==> pinned.value == Sha256(s.links[link])))
  }

  function ImageInfo(s: Files, link: string): Image
    requires link in s.links && Blob(s.links[link]) in s.data
  {
    Image(NameOfLink(link), s.links[link], |s.data[Blob(s.links[link])]|)
  }

  /** What listing reports for a link that matches. */
  ghost predicate Describes(s: Files, image: Image, link: string, filter: Option<ImageSpec>) {
    Matches(s, link, filter) && image == ImageInfo(s, link)
  }

  /** The images are those of the matching links, each of which comes once, in this order. */
  ghost predicate ListsInOrder(s: Files, images: seq<Image>, order: seq<string>, filter: Option<ImageSpec>) {
    && Distinct(order) && |images| == |order|
    && (forall link :: link in order <==> Matches(s, link, filter))
    && (forall i :: 0 <= i < |images| ==> Describes(s, images[i], order[i], filter))
  }

  /** Listing everything shows exactly the digests that links name. */
  lemma ListedDigests(s: Files, images: seq<Image>, order: seq<string>)
    requires ListsInOrder(s, images, order, None)
    ensures (set k | 0 <= k < |images| :: images[k].digest) == LinkedDigests(s)
  {
    forall link | link in s.links && Blob(s.links[link]) in s.data
      ensures exists k :: 0 <= k < |images| && images[k].digest == s.links[link]
    {
      assert Matches(s, link, None);
      var k :| 0 <= k < |order| && order[k] == link;
      assert Describes(s, images[k], order[k], None);
    }
    forall k | 0 <= k < |images| ensures images[k].digest in LinkedDigests(s) {
      assert Describes(s, images[k], order[k], None);
    }
  }

  /** imageStatusUnlocked */
  function Status(s: Files, spec: ImageSpec): Result<Option<Image>> {
    var (name, pinned) := SplitImageName(spec);
    var link := LinkName(name);
    if link !in s.links then Ok(None)
    else if Blob(s.links[link]) !in s.data then Err
    else if pinned.Some? && pinned.value != Sha256(s.links[link]) then Err
    else Ok(Some(ImageInfo(s, link)))
  }

  datatype Located = Located(file: DataFile, digest: Hex, vsize: nat)

  /** GetImagePathDigestAndVirtualSize; vsize inspects the file and may fail. */
  function Locate(s: Files, spec: ImageSpec, vsize: Bytes -> Option<nat>): Result<Located> {
    match spec
    case Unparsable(_) => Err
    case BareDigest(OtherDigest(_, _)) => Err
    case BareDigest(Sha256(hex)) => Measure(s, hex, hex, vsize)
    case Unnamed(_, pinned) => LocateParsed(s, "", pinned, vsize)
    case Reference(name, pinned) => LocateParsed(s, name, pinned, vsize)
  }

  function Measure(s: Files, path: Hex, d: Hex, vsize: Bytes -> Option<nat>): Result<Located> {
    if Blob(path) !in s.data then Err
    else match vsize(s.data[Blob(path)])
      case None => Err
      case Some(n) => Ok(Located(Blob(path), d, n))
  }

  function LocateParsed(s: Files, name: string, pinned: Option<Digest>, vsize: Bytes -> Option<nat>): Result<Located> {
    if pinned.Some? && pinned.value.OtherDigest? then Err
    else
      var viaDigest := if pinned.Some? then Some(pinned.value.hex) else None;
      var viaName := if name != "" && LinkName(name) in s.links then Some(s.links[LinkName(name)]) else None;
      match (viaDigest, viaName)
      case (None, None) => Err
      case (None, Some(d)) => Measure(s, d, d, vsize)
      case (Some(p), None) => Measure(s, p, p, vsize)
      case (Some(p), Some(d)) =>
        if Blob(d) !in s.data || Blob(p) !in s.data || p != d then Err
        else Measure(s, p, d, vsize)
  }

  /**
   * A successful lookup names a blob whose content has the reported digest;
   * that digest is the one the specification pins, and the one its name links to.
   */
  lemma LocateSound(hash: Bytes -> Hex, s: Files, spec: ImageSpec, vsize: Bytes -> Option<nat>)
    requires Sound(hash, s)
    requires Locate(s, spec, vsize).Ok?
    ensures var r := Locate(s, spec, vsize).value;
            && r.file == Blob(r.digest) && r.file in s.data
            && hash(s.data[r.file]) == r.digest
            && vsize(s.data[r.file]) == Some(r.vsize)
            && (GetHexDigest(spec).Some? ==> r.digest == GetHexDigest(spec).value)
            && (spec.Reference? && spec.name != "" && LinkName(spec.name) in s.links ==>
                  r.digest == s.links[LinkName(spec.name)])
  {
  }

  /** The specification carries a digest that is not SHA-256. */
  predicate OtherAlgorithm(spec: ImageSpec) {
    match spec
    case BareDigest(digest) => digest.OtherDigest?
    case Reference(_, pinned) => pinned.Some? && pinned.value.OtherDigest?
    case Unnamed(_, pinned) => pinned.Some? && pinned.value.OtherDigest?
    case Unparsable(_) => false
  }

  /** The specification has a name that a link carries; a bare digest has none. */
  predicate NamesLink(s: Files, spec: ImageSpec) {
    spec.Reference? && spec.name != "" && LinkName(spec.name) in s.links
  }

  /** The digest that a specification stands for: its own and that of its link, where it has them, and at least one. */
  predicate StandsFor(s: Files, spec: ImageSpec, d: Hex) {
    && !spec.Unparsable? && !OtherAlgorithm(spec)
    && (GetHexDigest(spec).Some? || NamesLink(s, spec))
    && (GetHexDigest(spec).Some? ==> GetHexDigest(spec).value == d)
    && (NamesLink(s, spec) ==> s.links[LinkName(spec.name)] == d)
  }

  /** A lookup finds a blob if and only if the specification stands for it and it can be measured. */
  lemma LocateFindsIff(s: Files, spec: ImageSpec, vsize: Bytes -> Option<nat>, d: Hex)
    ensures (Locate(s, spec, vsize).Ok? && Locate(s, spec, vsize).value.digest == d) <==>
            StandsFor(s, spec, d) && Blob(d) in s.data && vsize(s.data[Blob(d)]).Some?
  {
  }

  /**
   * The status of an image by name, in a sound store: none without a link, an
   * error if the link leads to another digest than the one asked for, and
   * otherwise the image.
   */
  lemma StatusIs(hash: Bytes -> Hex, s: Files, spec: ImageSpec)
    requires Sound(hash, s)
    ensures var (name, pinned) := SplitImageName(spec);
            var link, status := LinkName(name), Status(s, spec);
            && (status == Ok(None) <==> link !in s.links)
            && (status.Err? <==> link in s.links && pinned.Some? && pinned.value != Sha256(s.links[link]))
            && (status.Ok? && status.value.Some? ==>
                  status.value.value.digest == s.links[link]
                  && status.value.value.size == |s.data[Blob(s.links[link])]|)
  {
  }

  /**
   * Listing with a specification as the filter and asking for its status agree:
   * the list has exactly the image that the status reports, and is empty when
   * the status reports none or an error.
   */
  lemma FilterIsStatus(s: Files, spec: ImageSpec, link: string)
    requires SplitImageName(spec).0 != "" && '%' !in SplitImageName(spec).0 && '/' !in link
    ensures Matches(s, link, Some(spec)) <==>
            && link == LinkName(SplitImageName(spec).0)
            && Status(s, spec).Ok? && Status(s, spec).value.Some?
    ensures Matches(s, link, Some(spec)) ==> Status(s, spec) == Ok(Some(ImageInfo(s, link)))
  {
    var name := SplitImageName(spec).0;
    LinkNameRoundTrip(name);
    LinkOfItsName(link);
  }

  /** Right after a placement that succeeded, both lookups find the downloaded content under its name. */
  lemma PlacedIsFound(hash: Bytes -> Hex, s: Files, temp: DataFile, d: Hex, name: string, pinned: Option<Digest>,
                      refs: Refs, f: Faults, vsize: Bytes -> Option<nat>)
    requires Sound(hash, s) && temp.Part? && temp in s.data
    requires hash(s.data[temp]) == d && vsize(s.data[temp]).Some?
    requires Blob(d) in s.data ==> s.data[Blob(d)] == s.data[temp]
    requires name != "" && '%' !in name
    requires pinned.None? || pinned == Some(Sha256(d))
    requires Place(s, temp, d, LinkName(name), refs, f).1
    ensures var s' := Place(s, temp, d, LinkName(name), refs, f).0;
            && Status(s', Reference(name, pinned)) == Ok(Some(Image(name, d, |s.data[temp]|)))
            && Locate(s', Reference(name, pinned), vsize) == Ok(Located(Blob(d), d, vsize(s.data[temp]).value))
            && s'.data[Blob(d)] == s.data[temp]
  {
    LinkNameRoundTrip(name);
    PlaceKeeps(hash, s, temp, d, LinkName(name), refs, f);
    SettleKeeps(hash, s, temp, d, f.move);
    var s1 := Settle(s, temp, d, f.move).value;
    assert s1.data[Blob(d)] == s.data[temp];
    RelinkKeeps(hash, s1, d, LinkName(name), Blob(d) !in s.data, refs, f);
  }

  // ----- The store object -------------------------------------------------

  class FileStore {
    var data: map<DataFile, Bytes>
    var links: map<string, Hex>

    constructor ()
      ensures Value() == Files(map[], map[])
    {
      data, links := map[], map[];
    }

    ghost function Value(): Files
      reads this
    {
      Files(data, links)
    }

    method RenameIfNewOrDelete(temp: DataFile, d: Hex, fails: bool) returns (isNew: bool, ok: bool)
      modifies this`data
      ensures ok == Settle(old(Value()), temp, d, fails).Some?
      ensures Value() == if ok then Settle(old(Value()), temp, d, fails).value else old(Value())
      ensures ok ==> isNew == (Blob(d) !in old(data))
    {
      if Blob(d) in data {
        if fails || temp !in data { return false, false; }
        data := data - {temp};
        return false, true;
      }
      if fails || temp !in data { return true, false; }
      var content := data[temp];
      data := (data - {temp})[Blob(d) := content];
      return true, true;
    }

    /** The first loop of getImageHexDigestsInUse: the digests that references name. */
    method ReferencedDigests(refs: map<ImageSpec, bool>) returns (found: set<Hex>)
      ensures found == RefDigests(refs)
    {
      found := {};
      var specs := refs.Keys;
      while specs != {}
        invariant specs <= refs.Keys
        invariant found ==
                    set spec | spec in refs.Keys - specs && refs[spec] && GetHexDigest(spec).Some? ::
                      GetHexDigest(spec).value
        decreases specs
      {
        var spec :| spec in specs;
        if refs[spec] && GetHexDigest(spec).Some? {
          found := found + {GetHexDigest(spec).value};
        }
        specs := specs - {spec};
      }
    }

    method GetImageHexDigestsInUse(refs: Refs) returns (used: Option<set<Hex>>)
      ensures used == InUse(Value(), refs)
    {
      if refs.None? { return None; }
      var found := ReferencedDigests(refs.value);
      var images := ListImages(None);
      for i := 0 to |images|
        invariant found == RefDigests(refs.value) + set k | 0 <= k < i :: images[k].digest
      {
        found := found + {images[i].digest};
      }
      ghost var order :| ListsInOrder(Value(), images, order, None);
      ListedDigests(Value(), images, order);
      return Some(found);
    }

    /** The images whose link matches the filter: one entry for each such link. */
    method ListImages(filter: Option<ImageSpec>) returns (images: seq<Image>)
      ensures exists order :: ListsInOrder(Value(), images, order, filter)
    {
      images := [];
      ghost var order: seq<string> := [];
      var todo := links.Keys;
      while todo != {}
        invariant todo <= links.Keys
        invariant Distinct(order) && |images| == |order|
        invariant forall link :: link in order <==> link in links.Keys - todo && Matches(Value(), link, filter)
        invariant forall i :: 0 <= i < |images| ==> Describes(Value(), images[i], order[i], filter)
        decreases todo
      {
        var link :| link in todo;
        var skip := Skips(link, filter);
        if !skip {
          images := images + [Image(NameOfLink(link), links[link], |data[Blob(links[link])]|)];
          order := order + [link];
        }
        todo := todo - {link};
      }
      assert ListsInOrder(Value(), images, order, filter);
    }

    /** The tests that make listing pass over a link. */
    method Skips(link: string, filter: Option<ImageSpec>) returns (skip: bool)
      requires link in links
      ensures skip == !Matches(Value(), link, filter)
    {
      var digest := links[link];
      skip := Blob(digest) !in data;
      if filter.Some? {
        var (name, pinned) := SplitImageName(filter.value);
        skip := skip || (name != "" && NameOfLink(link) != name) || (pinned.Some? && pinned.value != Sha256(digest));
      }
    }

    method RemoveIfUnreferenced(d: Hex, refs: Refs, fails: bool) returns (ok: bool)
      modifies this`data
      ensures (Value(), ok) == Purge(old(Value()), d, refs, fails)
    {
      var used := GetImageHexDigestsInUse(refs);
      if used.None? { return false; }
      if d in used.value { return true; }
      if fails || Blob(d) !in data { return false; }
      data := data - {Blob(d)};
      return true;
    }

    method RemoveImageIfItsNotNeeded(link: string, keep: Option<Hex>, refs: Refs, f: Faults)
      returns (removed: bool, ok: bool)
      modifies this
      ensures Removal(Value(), removed, ok) == Remove(old(Value()), link, keep, refs, f)
    {
      if link !in links { return true, true; }
      var dest := links[link];
      if keep == Some(dest) { return false, true; }
      if f.unlink { return false, false; }
      links := links - {link};
      ok := RemoveIfUnreferenced(dest, refs, f.purge);
      return true, ok;
    }

    method PlaceImage(temp: DataFile, d: Hex, link: string, refs: Refs, f: Faults) returns (ok: bool)
      modifies this
      ensures (Value(), ok) == Place(old(Value()), temp, d, link, refs, f)
    {
      var isNew, moved := RenameIfNewOrDelete(temp, d, f.move);
      if !moved { return false; }
      if f.mkdir { return false; }
      if link in links && Blob(links[link]) in data {
        var removed, fine := RemoveImageIfItsNotNeeded(link, Some(d), refs, f);
        if !fine { return false; }
        if !removed { return true; }
      }
      if f.symlink || link in links {
        if isNew && !f.undo {
          data := data - {Blob(d)};
        }
        return false;
      }
      links := links[link := d];
      return true;
    }

    method RemoveImage(spec: ImageSpec, refs: Refs, f: Faults) returns (ok: bool)
      modifies this
      ensures var r := Remove(old(Value()), LinkName(SplitImageName(spec).0), None, refs, f);
              Value() == r.files && ok == r.ok
    {
      var (name, _) := SplitImageName(spec);
      var removed;
      removed, ok := RemoveImageIfItsNotNeeded(LinkName(name), None, refs, f);
    }

    method GC(refs: Refs, stuck: set<DataFile>) returns (ok: bool)
      modifies this`data
      ensures (Value(), ok) == Sweep(old(Value()), refs, stuck)
    {
      var used := GetImageHexDigestsInUse(refs);
      if used.None? { return false; }
      var matches := data.Keys;
      while matches != {}
        invariant matches <= old(data).Keys
        invariant data == map file | file in old(data) &&
                            (file in matches || file in stuck || (file.Blob? && file.hex in used.value)) ::
                              old(data)[file]
        decreases matches
      {
        var m :| m in matches;
        matches := matches - {m};
        if !(m.Blob? && m.hex in used.value) && m !in stuck {
          data := data - {m};
        }
      }
      assert data == Sweep(old(Value()), refs, stuck).0.data;
      return true;
    }
  }
}
