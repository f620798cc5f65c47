# Verified models of Virtlet

Virtlet is a Kubernetes runtime for virtual machines. This project models the
parts of it that carry state or encode data and proves what they promise:

- the content-addressed image store beside the metadata store
  (`ImageRefs`, `FileStore`, `Cursor`, `Metadata`, `ImageRuns`),
- the FD server: its wire protocol, its registry and the map of its source
  (`Endian`, `FdProtocol`, `FdServer`),
- virtual machine disks: numbering, PCI paths, guest paths
  (`Digits`, `PciPath`, `Disks`),
- creation, removal and garbage collection of machines
  (`VmLifecycle`, `GarbageCollect`),
- the persistent root device (`RootDevice`),
- DHCP options and cloud-init routes
  (`StaticRoutes`, `DomainSearch`, `CloudInitRoutes`),
- configuration layering and deep merge (`NodeConfig`, `DeepMerge`).

Code that changes state is a class or a method with loops, proved equal to a
function on values; the theorems are about those functions and about runs,
which are sequences of events of any length. Calls into libvirt, bolt, the
file system, the network and the device mapper are reduced to small abstract
maps and sets. Whether such a call fails is a parameter (`Faults` records,
`stuck` sets, `Option` results), so every theorem holds for every choice of
failures it does not exclude by name. Hashing, subnet membership and image
inspection are function parameters.

`dafny verify dfyconfig.toml` checks everything.

## Where the code and its documentation disagree

The models follow the code.

- The bus check of `pciPath` lets the bus number equal to the number of
  controllers through, which is an index out of range: `ClimbPanics` says
  exactly when.
- `compressedDomainList` accepts labels of up to 254 bytes although section
  3.1 of RFC 1035 allows 63, and the last name lacks its zero byte:
  `ListRoundTrip`, `SentListUnreadable`.
- The comment on `TapFDSource.Release` hopes that a failed release can be
  followed by a new start of the sandbox. That start is refused by the
  registry, and only after the refusal can the key be released; if the
  namespace could not be destroyed after the DHCP server was closed, nothing
  but a refused recovery helps: `FailedReleaseRetry`, `FailedReleaseSticks`,
  `RefusedAddUnblocksRelease`, `RefusedRecoverUnblocksRelease`.
- `getStaticRoutes` does not look whether a destination is IPv4: an IPv6 route
  without a gateway takes the IPv4 one and then crashes the encoder or is
  announced as an IPv4 default route: `ForeignRouteMisread`,
  `RouteReadsItselfIff`.
- The cloud-init warning about several default routes says that the first one
  is used; the walk goes backwards and uses the last: `AssignUsesDefault`.
- The device header is written before the image, so a set-up that fails in
  between is taken for complete by the next one: `SetupRedone`.
- `RemoveContainer` does not look at the result of deleting the record, so
  success does not mean that the record is gone: `RemovalReport`.
- The lock of the image store does not cover the metadata store, and the
  images in use are read in many transactions, so a container saved at the
  wrong moment can lose its image: `ImageKeptIff` says exactly when.
- A pull by a bare digest does not compare the content with that digest:
  `PullPinsIff`.
- Garbage collection passes over sandboxes that it cannot read, and then
  removes what their containers own: `ContainerRemains`. It removes domains of
  any name that it does not know: `ForeignNames`.

## Model

| member | source | states |
|---|---|---|
| ImageRefs.LinkNameRoundTrip | pkg/image/image.go:154-157 | listing reports an image name back as it was pulled if and only if the name has no '%' |
| ImageRefs.LinkNameInjective | pkg/image/image.go:154-157 | two names share a link only when one of them contains '%' |
| ImageStore.FileStore.RenameIfNewOrDelete | pkg/image/image.go:159-171 | a partial download becomes the blob, or goes away if the blob exists; a failure changes nothing |
| ImageStore.FileStore.ReferencedDigests | pkg/image/image.go:176-191 | exactly the digests that the references in use carry |
| ImageStore.FileStore.GetImageHexDigestsInUse | pkg/image/image.go:173-204 | the result is exactly the digests that a reference or a resolving link names, and an error exactly when the reference getter fails |
| ImageStore.FileStore.ListImages | pkg/image/image.go:317-353 | one entry for each link that resolves and matches the filter, none for dangling links, none missed |
| ImageStore.FileStore.Skips | pkg/image/image.go:335-348 | a link is passed over exactly when it dangles or the filter names another name or digest |
| ImageStore.ListedDigests | pkg/image/image.go:192-202 | listing everything shows exactly the digests that resolving links name |
| ImageStore.FileStore.RemoveIfUnreferenced | pkg/image/image.go:206-217 | refines Purge, whose outcome RemoveSucceedsIff and whose effect PurgeKeeps and RemoveCompletes pin down, for every failure choice |
| ImageStore.FileStore.RemoveImageIfItsNotNeeded | pkg/image/image.go:222-243 | refines Remove: new store, whether the link went and the outcome |
| ImageStore.FileStore.PlaceImage | pkg/image/image.go:245-283 | refines Place, with its undo of a new blob when the link cannot be made; PlaceSucceedsIff says when it succeeds |
| ImageStore.FileStore.RemoveImage | pkg/image/image.go:446-451 | refines Remove on the link of the name without tag and digest |
| ImageStore.FileStore.GC | pkg/image/image.go:454-476 | refines Sweep: loop over the data files with files that resist removal |
| ImageStore.PurgeKeeps | pkg/image/image.go:206-217 | purging keeps the store sound and deletes at most the blob asked for, never one that a reference shields |
| ImageStore.RemoveKeeps | pkg/image/image.go:222-243 | removing a link keeps the store sound, touches no other link or content, and deletes at most the blob of that link, never a shielded or kept one |
| ImageStore.RemoveCompletes | pkg/image/image.go:222-243 | after a removal that succeeds the link is gone, and the blob remains if and only if a reference or another link names it |
| ImageStore.RemoveSucceedsIff | pkg/image/image.go:206-243 | a removal succeeds if and only if there is no link, or it names the blob to keep, or it can be unlinked, the references can be read, and the blob can be deleted unless something else uses it |
| ImageStore.SettleKeeps | pkg/image/image.go:159-171 | the data files afterwards are those before, minus the partial download, plus the blob, with unchanged contents |
| ImageStore.AddLinkKeeps | pkg/image/image.go:270-283 | the undo of a placement only deletes a new blob that no link can name |
| ImageStore.RelinkKeeps | pkg/image/image.go:254-283 | replacing the link, whatever fails: sound store, no other link changes, and a blob goes only if it is new or it is the unshielded one that the link named |
| ImageStore.PlaceKeeps | pkg/image/image.go:245-283 | whatever fails: sound store, only this link changes and only to the placed digest or away, and an old blob goes only if the link named it, it differs from the placed one and no reference shields it |
| ImageStore.PlaceSucceedsIff | pkg/image/image.go:245-283 | a placement succeeds if and only if the download is there and can be moved or dropped, the link directory can be made, and the link is right already or the old one can be taken away and the new one made |
| ImageStore.SweepKeeps | pkg/image/image.go:454-476 | collection keeps links, contents, linked blobs and shielded blobs, whatever fails |
| ImageStore.SweepCompletes | pkg/image/image.go:454-476 | a collection without failures leaves a file if and only if it is a blob that a link or reference names |
| ImageStore.LocateSound | pkg/image/image.go:479-543 | a successful lookup names a blob with content of the reported digest, which is the pinned one and the one that the name links to |
| ImageStore.LocateFindsIff | pkg/image/image.go:479-543 | a lookup finds a blob if and only if the specification stands for its digest, by its own digest and by its link where it has them, and the blob is there and can be measured |
| ImageStore.StatusIs | pkg/image/image.go:362-381 | in a sound store, the status is none exactly without a link, an error exactly when the link leads to another digest than the one asked for, and otherwise the image of the link |
| ImageStore.FilterIsStatus | pkg/image/image.go:317-381 | listing with a specification as the filter shows exactly the image that its status reports |
| ImageStore.PlacedIsFound | pkg/image/image.go:245-283 | right after a successful placement, status and lookup find the downloaded content under its name and digest |
| ImageRuns.StepValid | pkg/image/image.go:391-476 | every step of pulls, removals, collections and metadata saves keeps the store sound and the pull bookkeeping right |
| ImageRuns.RunValid | pkg/image/image.go:391-476 | soundness in every state of every interleaving |
| ImageRuns.StartRunsSound | pkg/image/image.go:159-283 | from the empty store, every link resolves and every blob has the content its name promises, after any events |
| ImageRuns.PullLinksContent | pkg/image/image.go:391-444 | a link that a step creates or redirects is that of the pull being placed and leads to the digest of its content, which is the pinned one if one is pinned |
| ImageRuns.PullCommits | pkg/image/image.go:391-444 | an admitted pull whose download and placement meet no failure ends with its link on the digest of its content |
| ImageRuns.PullReturnsItsImage | pkg/image/image.go:391-444 | the reference that it returns carries that digest, so that a container with this image has the blob in use, and status and lookup of the reference give the downloaded image |
| ImageRuns.PullPinsIff | pkg/image/image.go:391-444 | over all runs, a pull whose specification carries a digest links only that digest if and only if the specification is a named reference; a bare digest is not compared with the content |
| ImageRuns.ImagesInUse | pkg/metadata/containers.go:176-201 | with a database of its own for each transaction, the two loops are a sequence of scan steps that ends in the result |
| ImageRuns.QuietScanExact | pkg/metadata/containers.go:176-201 | while the metadata store does not change, reading pod by pod and record by record heads for exactly the images of the indexed containers |
| ImageRuns.SteadyScanExact | pkg/metadata/containers.go:176-201 | if all transactions see one sound database the result is exactly those images, without an error |
| ImageRuns.ScanKeepsWay | pkg/metadata/containers.go:176-201 | whatever changes between its transactions, the list gets the digest of a container that its pod lists throughout, or reading fails |
| ImageRuns.StepGuards | pkg/image/image.go:173-243 | no step takes the guard of a listed container's blob away |
| ImageRuns.RunKeepsContainerImage | pkg/image/image.go:173-243 | in every run, a guarded blob of a listed container stays, with its content, while the pod lists the container, although the images in use are read in separate transactions |
| ImageRuns.CommitDeletesIff | pkg/image/image.go:206-476 | the next locked operation can delete a blob if and only if no reference it has read shields the blob and at most one link names it |
| ImageRuns.ImageKeptIff | pkg/image/image.go:173-243 | the blob of a listed container survives every run in which the pod lists it if and only if it is guarded: the list of images in use has it or will still get it, or two links name it |
| ImageRuns.UnguardedCanLose | pkg/image/image.go:173-243 | from any other state there is a run that deletes the blob, also when the list is only half read |
| ImageRuns.UnguardedReachable | pkg/manager/manager.go:97 | such a state is reachable, for every hash and every content, because the lock of the store does not cover the metadata store |
| Cursor.CursorKeys | pkg/metadata/sandboxes.go:108-118 | a cursor visits every key of a bucket once, in byte order |
| Cursor.LessIff | pkg/metadata/sandboxes.go:108-118 | the key order is that of the bytes at the first difference, a key coming before its extensions |
| Cursor.Scan | pkg/metadata/containers.go:165-168 | seeking to the prefix and walking while it holds finds exactly the keys with the prefix, in order |
| Cursor.PrefixBlock | pkg/metadata/containers.go:165-168 | the keys with a prefix form one block of the key order |
| Metadata.BoltClient.SaveContainer | pkg/metadata/containers.go:73-128 | refines ContainerSaved for every updater, including one that changes the record in place, and every failing transaction |
| Metadata.BoltClient.SaveSandbox | pkg/metadata/sandboxes.go:73-97 | refines SandboxSaved, which SaveSandboxStores and SaveSandboxLists pin down, for every updater and failing transaction |
| Metadata.BoltClient.ListPodContainers | pkg/metadata/containers.go:155-172 | the sorted list of exactly the containers in the index of the pod, an error exactly for an empty or unknown pod |
| Metadata.BoltClient.SandboxPods | pkg/metadata/sandboxes.go:107-118 | the sorted list of exactly the pods that have a sandbox bucket |
| Metadata.BoltClient.ListPodSandboxes | pkg/metadata/sandboxes.go:105-187 | the sorted list of exactly the pods that the filter lets through, and an error exactly when the filter meets a sandbox without data |
| Metadata.BoltClient.AddPodImages | pkg/metadata/containers.go:176-201 | adds exactly the images of the containers that the pod lists, and fails exactly when one of them has no record |
| Metadata.BoltClient.ImagesInUse | pkg/metadata/containers.go:176-201 | on a database that does not change, sound or not: exactly the images of the indexed containers, and an error exactly when an indexed container has no record |
| Metadata.AddLists | pkg/metadata/containers.go:130-136 | indexing a container adds that entry and no other |
| Metadata.RemoveLists | pkg/metadata/containers.go:138-147 | removing a container from an index removes that entry and no other |
| Metadata.SaveContainerLists | pkg/metadata/containers.go:73-128 | a committed save moves the entry of its container to the new pod exactly when the pod changed, and moves nothing else |
| Metadata.SaveSandboxLists | pkg/metadata/sandboxes.go:73-97 | a sandbox save drops index entries exactly when it removes the sandbox, and then exactly those of that pod |
| Metadata.SaveSandboxStores | pkg/metadata/sandboxes.go:51-97 | a save succeeds if and only if the pod has a name and updater and transaction work; then the data read back is what the updater returned, the bucket is there exactly if it returned any, and no other sandbox changes |
| Metadata.SaveContainerStores | pkg/metadata/containers.go:50-128 | the same for container records, which changes no sandbox data |
| Metadata.RunData | pkg/metadata/sandboxes.go:51-97 | over every run of saves, the data of a sandbox is what its last committed save returned, and is gone exactly if that save dropped it |
| Metadata.SavedIsFiltered | pkg/metadata/sandboxes.go:160-187 | a filter lets a saved sandbox through if and only if identifier, state and every label agree, a missing label counting as empty |
| Metadata.SaveIgnoresInPlace | pkg/metadata/containers.go:73-128 | what an updater does to the record in place does not matter, only its result |
| Metadata.RunSound | pkg/metadata/containers.go:73-128 | over every run of saves, each index entry has a record that names its pod |
| Metadata.ApplyComplete | pkg/metadata/sandboxes.go:73-97 | a save keeps the index complete if and only if it does not remove a sandbox that still lists a container |
| Metadata.RunComplete | pkg/metadata/containers.go:155-172 | if sandboxes are removed only when empty, the index of a pod is exactly the containers whose record names it, after every run |
| Metadata.LostEntryStaysLost | pkg/metadata/containers.go:73-128 | an entry lost with its sandbox does not come back when the container is saved again with the same pod |
| Metadata.SoundNotBroken | pkg/metadata/containers.go:176-201 | in a sound database listing the images in use never meets a missing record |
| Endian.GetPutBE | pkg/tapmanager/fdserver.go:66-72 | reading a big-endian number of any width back gives the number |
| Endian.PutGetBE | pkg/tapmanager/fdserver.go:66-72 | writing what was read gives the same bytes |
| Endian.GetBEFirst | pkg/tapmanager/fdserver.go:66-72 | the first octet is the most significant one |
| FdProtocol.HeaderRoundTrip | pkg/tapmanager/fdserver.go:66-72 | decoding an encoded header gives the header |
| FdProtocol.HeaderBytesRoundTrip | pkg/tapmanager/fdserver.go:66-72 | encoding a decoded block of 77 bytes gives the block |
| FdProtocol.HeaderLayout | pkg/tapmanager/fdserver.go:66-72 | magic, command, the two sizes and the key are at bytes 0, 4, 5, 9 and 13 |
| FdProtocol.FillKey | pkg/tapmanager/fdserver.go:78-88 | the fresh array holds the key, byte by byte, cut or padded with spaces to 64 bytes |
| FdProtocol.KeyRoundTrip | pkg/tapmanager/fdserver.go:74-88 | the server reads a key back if and only if it has at most 64 bytes and no surrounding white space |
| FdProtocol.ServeLoop | pkg/tapmanager/fdserver.go:334-391 | the loop, for any turns that take something, logs and replies as ServeWith says, and stops at the first reply that cannot be written |
| FdProtocol.ServeConn | pkg/tapmanager/fdserver.go:334-391 | the same with the turns of the server, on every input |
| FdProtocol.TurnOfHeader | pkg/tapmanager/fdserver.go:334-391 | on any header, well-formed or not: a wrong magic number ends the connection, an unknown command or a short payload gets an error without a call of a handler, and only Add and Recover read a payload |
| FdProtocol.ServeAll | pkg/tapmanager/fdserver.go:334-391 | on the bytes of any list of well-formed requests the loop recovers exactly these requests and keys in order, whichever handlers fail, and closes cleanly; if a reply cannot be written it handles the requests up to that one |
| FdProtocol.ClientsSeeTheirAnswers | pkg/tapmanager/fdserver.go:451-502 | the client of each request accepts the reply and reports what the handler answered to that request |
| FdProtocol.AnsweredIff | pkg/tapmanager/fdserver.go:451-502 | a client takes a reply for an answer if and only if its magic number, command and sizes are right and, except for Get, its key is the client's |
| FdServer.AddAndMarkNeverReplace | pkg/tapmanager/fdserver.go:144-191 | adding and recovering leave every existing entry alone and fail exactly when the key is there |
| FdServer.ListIsStable | pkg/tapmanager/fdserver.go:144-191 | under any interleaving of the locked steps, every Get of a key returns the same descriptor list until the key is removed |
| FdServer.FailedAddLeavesNothing | pkg/tapmanager/tapfdsource.go:137-213 | a failed GetFDs whose clean-up works leaves the source as it was |
| FdServer.AddSucceedsIff | pkg/tapmanager/tapfdsource.go:137-213 | GetFDs succeeds if and only if no call fails and the namespace is new; the key then has a namespace, its descriptors, an attached pod and a DHCP server |
| FdServer.ReleaseUndoesAdd | pkg/tapmanager/tapfdsource.go:137-261 | releasing a key that was added leaves the source as it was |
| FdServer.ReleasePossible | pkg/tapmanager/tapfdsource.go:216-261 | a key can be released if and only if the source knows it, the namespace of its pod exists and its DHCP server has not been closed |
| FdServer.FailedReleaseRetry | pkg/tapmanager/tapfdsource.go:216-261 | a failed release can be repeated if and only if it failed to open the namespace, or failed before closing the DHCP server and could not destroy the namespace |
| FdServer.FailedReleaseSticks | pkg/tapmanager/tapfdsource.go:216-261 | neither releasing nor adding the key works any more if and only if the release closed the DHCP server and then could not destroy the namespace |
| FdServer.RefusedAddUnblocksRelease | pkg/tapmanager/tapfdsource.go:137-261 | once a failed release has destroyed the namespace, adding the key brings it back and is refused by the registry, and then the key can be released from both maps |
| FdServer.RefusedRecoverUnblocksRelease | pkg/tapmanager/tapfdsource.go:216-342 | when the namespace stayed, a recovery, refused by the registry too, starts a DHCP server again, and then the key can be released |
| FdServer.StepValid | pkg/tapmanager/fdserver.go:256-332 | each half of a request keeps registry and source in step for all keys without a half-done request |
| FdServer.RunValid | pkg/tapmanager/fdserver.go:256-332 | the same over every run without overlapping requests for a key |
| FdServer.MapsAgree | pkg/tapmanager/fdserver.go:256-332 | in every such run registry and source agree on every idle key, and have equal key sets when nothing is in progress, after failures too |
| FdServer.GetSucceedsIff | pkg/tapmanager/fdserver.go:160-311 | a Get returns a list if and only if both maps have the key and the list is the known one, or none is known and the source opens this one; it is known afterwards |
| FdServer.KnownListServed | pkg/tapmanager/fdserver.go:160-311 | over every run without overlapping requests for a key, once the registry has its list, every Get until a release begins returns that list and changes neither map |
| FdServer.AddedListServed | pkg/tapmanager/fdserver.go:256-311 | in particular the list that an Add has brought into both maps |
| FdServer.RequestKeepsList | pkg/tapmanager/fdserver.go:256-332 | a request keeps the descriptor list of the registry equal to that of the source if and only if it does not give the source new descriptors that the registry refuses |
| FdServer.DescriptorsAgree | pkg/tapmanager/fdserver.go:256-332 | in every run of non-overlapping requests without such a refusal, the list handed out for an idle key is that of the source |
| FdServer.OverlapBreaksAgreement | pkg/tapmanager/fdserver.go:256-290 | with overlapping requests for a key the maps can end up different |
| FdServer.TapFDSource.GetFDs | pkg/tapmanager/tapfdsource.go:137-213 | refines SourceAdd, with the deferred clean-up |
| FdServer.TapFDSource.Release | pkg/tapmanager/tapfdsource.go:216-261 | refines SourceRelease: the DHCP server is closed before the links and CNI are torn down, and the namespace is removed at the end in any case |
| FdServer.RecoveredKeyServes | pkg/tapmanager/tapfdsource.go:313-383 | a recovered key is as good as an added one: the first Get asks the source, every later Get returns that list until the key is removed, and the key can be released |
| FdServer.FDServer.AddFDs | pkg/tapmanager/fdserver.go:144-152 | refines Added |
| FdServer.FDServer.GetFDs | pkg/tapmanager/fdserver.go:160-181 | refines GotFrom: a known list is returned and nothing changes; a recovered key asks the source once and keeps the list |
| FdServer.FDServer.MarkAsRecovered | pkg/tapmanager/fdserver.go:183-191 | refines Marked |
| FdServer.FDServer.ServeAdd | pkg/tapmanager/fdserver.go:256-277 | source and registry afterwards, success exactly when both accept, and equal key sets stay equal |
| FdServer.FDServer.ServeRelease | pkg/tapmanager/fdserver.go:279-290 | the registry drops the key exactly when the source released it; equal key sets stay equal |
| FdServer.FDServer.ServeGet | pkg/tapmanager/fdserver.go:292-311 | refines ServedGet: a known list is returned and nothing changes; equal key sets stay equal |
| FdServer.FDServer.ServeRecover | pkg/tapmanager/fdserver.go:313-332 | source and registry afterwards; equal key sets stay equal |
| Digits.ParsePrint | pkg/libvirttools/diskdriver.go:143-150 | a printed number reads back |
| Digits.PaddedInjective | pkg/libvirttools/diskdriver.go:252 | zero-padded hexadecimal fields of different numbers differ |
| Digits.PaddedShape | pkg/libvirttools/diskdriver.go:252 | a padded number is digits, at least as many as asked for, with leading zeros only up to that width |
| PciPath.AddressReadsBack | pkg/libvirttools/diskdriver.go:250-252 | the text of an address, read as four hexadecimal fields apart by colons and a dot, is that address |
| Disks.DriveReadsBack | pkg/libvirttools/diskdriver.go:144 | the text of a drive, read as three decimal fields, is that drive |
| Disks.RootPathForm | pkg/libvirttools/storage_utils.go:31-34 | a device path on the root bus has the form that the comment gives |
| Disks.BridgedPathForm | pkg/libvirttools/storage_utils.go:31-38 | device and sysfs paths behind a bridge have the forms that the comment gives |
| PciPath.FindControllers | pkg/libvirttools/diskdriver.go:202-226 | the controllers of the type, stably sorted by index |
| PciPath.SortOrders | pkg/libvirttools/diskdriver.go:214-223 | the sort orders by index and is a permutation |
| PciPath.SortStable | pkg/libvirttools/diskdriver.go:214-223 | controllers of equal index keep their order |
| PciPath.PositionIsIndex | pkg/libvirttools/diskdriver.go:243 | with indices 0 to n-1, each once, looking a bus up by position finds the controller of that index |
| PciPath.PathIffChain | pkg/libvirttools/diskdriver.go:228-264 | a device has a path if and only if it has a chain of at most 257 addresses to the root, and the path lists that chain in order |
| PciPath.ClimbIsShort | pkg/libvirttools/diskdriver.go:233-236 | in an acyclic topology the climb passes the root within as many hops as there are controllers |
| PciPath.AcyclicAlwaysPath | pkg/libvirttools/diskdriver.go:228-264 | in a well-formed acyclic topology within the depth limit every device on an existing bus gets the path of its chain |
| PciPath.LoopIsError | pkg/libvirttools/diskdriver.go:233-236 | a device whose climb never ends yields an error, neither divergence nor a panic, whatever the other controllers are |
| PciPath.BadBus | pkg/libvirttools/diskdriver.go:240-243 | a device on a bus past the controllers yields an error, but a panic on the first such bus |
| PciPath.ClimbPanics | pkg/libvirttools/diskdriver.go:240-243 | the climb panics if and only if one of its addresses within the depth limit is on that bus |
| Disks.NewDiskList | pkg/libvirttools/disklist.go:69-94 | the loop numbers the volumes as Number says, or fails before anything is set up |
| Disks.NumberFits | pkg/libvirttools/diskdriver.go:56-62 | numbering succeeds if and only if the disks fit the driver: 21 for virtio, 26 for SCSI |
| Disks.NumberPlaces | pkg/libvirttools/disklist.go:69-94 | volumes keep their places and each disk is numbered by the disks before it |
| Disks.DisksDistinct | pkg/libvirttools/diskdriver.go:76-182 | the disks of a machine have pairwise distinct target names and addresses |
| Disks.NameTellsAddress | pkg/libvirttools/diskdriver.go:76-182 | the letter of the target name, within the capacity of the driver, gives the slot or unit of the disk |
| Disks.FindsOwnDisk | pkg/libvirttools/diskdriver.go:191-200 | looking a disk up by target name finds the disk of that driver |
| Disks.PathOfOwnDisk | pkg/libvirttools/diskdriver.go:64-74 | a guest path is computed from the address of the disk itself |
| Disks.SlotsSeparate | pkg/libvirttools/diskdriver.go:228-264 | addresses that differ in their slot give different device paths |
| Disks.UnitsSeparate | pkg/libvirttools/diskdriver.go:118-154 | drives that differ in their unit give different device paths |
| Disks.SysSlotsSeparate | pkg/libvirttools/diskdriver.go:228-264 | addresses that differ in their slot give different sysfs paths |
| Disks.SysUnitsSeparate | pkg/libvirttools/diskdriver.go:118-154 | drives that differ in their unit give different sysfs paths |
| Disks.OwnPathsDiffer | pkg/libvirttools/diskdriver.go:64-182 | guest paths of different disk numbers differ for either driver |
| Disks.PathsDistinct | pkg/libvirttools/diskdriver.go:64-154 | different disks of one machine have different device and sysfs paths |
| Disks.MapVolumes | pkg/libvirttools/disklist.go:125-141 | the loop of writeImages builds VolumeMap and stops at the first failing path |
| Disks.VolumeMapOrigin | pkg/libvirttools/disklist.go:125-141 | each entry is the path of the last disk whose volume has that UUID |
| Disks.VolumeMapCovers | pkg/libvirttools/disklist.go:125-141 | every disk whose volume has a UUID has an entry |
| Disks.VolumeMapIff | pkg/libvirttools/disklist.go:125-141 | the map can be built if and only if every disk with a UUID has a path |
| Disks.VolumePathsDistinct | pkg/libvirttools/disklist.go:125-150 | for the disks of a machine as defined, different UUIDs get different device and sysfs paths |
| VmLifecycle.VirtualizationTool.Teardown | pkg/libvirttools/disklist.go:152-163 | every volume gets its turn and goes unless it resists; success means that none resisted and none that minds was already gone |
| VmLifecycle.VirtualizationTool.SetupDisks | pkg/libvirttools/disklist.go:98-120 | refines SetupAll, with the roll-back of the volumes before the first failure |
| VmLifecycle.VirtualizationTool.RemoveDomain | pkg/libvirttools/virtualization.go:633-680 | refines DomainRemoved for every failure choice |
| VmLifecycle.VirtualizationTool.CreateContainer | pkg/libvirttools/virtualization.go:315-414 | refines ContainerCreated: guest paths are computed by MapVolumes, and the deferred clean-up lists the volumes anew and tears them down twice |
| VmLifecycle.VirtualizationTool.RemoveContainer | pkg/libvirttools/virtualization.go:594-712 | refines ContainerRemoved, with a record that cannot be read and a deletion whose result is not looked at |
| VmLifecycle.CreateAllOrNothing | pkg/libvirttools/virtualization.go:315-414 | for a fresh identifier creation adds exactly its domain, volumes and record, or fails; for every choice of failing calls, clean-up included, a failure leaves the host as it was if and only if Restores holds |
| VmLifecycle.CreateSucceedsIff | pkg/libvirttools/virtualization.go:315-414 | creation succeeds if and only if the driver is known and has room for the disks, every volume is set up, the domain gets defined, every disk with a UUID has a path, and the other calls work |
| VmLifecycle.SetupRestores | pkg/libvirttools/disklist.go:98-120 | a failed set-up restores the volumes if and only if its roll-back works and the failing volume leaves nothing |
| VmLifecycle.CleanUpRestores | pkg/libvirttools/virtualization.go:368-380 | the deferred clean-up removes the domain if and only if it gets undefined, and the volumes if and only if none resists every teardown that it reaches |
| VmLifecycle.CleanFailureRestores | pkg/libvirttools/virtualization.go:315-414 | with a working roll-back and removal, and no set-up that leaves its volume, a failure leaves the host as it was, whatever the second teardown does |
| VmLifecycle.SecondTeardownFails | pkg/libvirttools/filesystemvolume.go:68-80 | the second teardown of a volume that minds being gone always fails after a first one that worked |
| VmLifecycle.CreateTouchesOnlyItsOwn | pkg/libvirttools/virtualization.go:315-414 | whatever fails, domains, records and volumes of other containers stay |
| VmLifecycle.RemoveUndoesCreate | pkg/libvirttools/virtualization.go:685-712 | removing a container undoes its creation if and only if no volume that minds being gone is listed twice |
| VmLifecycle.LiveTearsDown | pkg/libvirttools/disklist.go:152-163 | volumes that are all there tear down without error under the same condition |
| VmLifecycle.TearsDownIff | pkg/libvirttools/disklist.go:152-163 | tearing a list down works if and only if no volume resists, and every volume that minds being gone is there and listed once |
| VmLifecycle.RemoveSucceedsIff | pkg/libvirttools/virtualization.go:594-712 | removal succeeds if and only if the record can be read and there is none, or the domain can be undefined and, for a container created or running, its volumes can be listed and torn down |
| VmLifecycle.RemovalReport | pkg/libvirttools/virtualization.go:685-712 | what success of a removal means: the record is gone if and only if there was none or its deletion worked; the domain is gone; the volumes are gone if the container was created or running, and otherwise exactly those remain whose teardown failed |
| VmLifecycle.ReusedIdLosesDomain | pkg/libvirttools/virtualization.go:368-395 | freshness is needed: a failed creation under an identifier in use removes the domain that was there |
| GarbageCollect.Collector.RetrieveListOfContainerIDs | pkg/libvirttools/gc.go:55-111 | the identifiers of all readable sandboxes in order; a fatal error exactly when sandboxes cannot be listed, a panic exactly when one has no data; and exactly the reached sandboxes whose namespace is gone and that can be saved are marked not ready |
| GarbageCollect.FineIsListed | pkg/libvirttools/gc.go:55-111 | a sandbox on which no step fails has all its containers listed, whether or not its namespace is gone |
| GarbageCollect.MarkedIff | pkg/libvirttools/gc.go:91-111 | a sandbox is marked not ready if and only if its namespace is gone, it can be read and saved, and no sandbox before it lacks data |
| GarbageCollect.ListedIsFine | pkg/libvirttools/gc.go:55-111 | a listed container is in a sandbox on which nothing fails, or only a save that is not needed |
| GarbageCollect.Collector.RemoveOrphanDomains | pkg/libvirttools/gc.go:122-172 | exactly the domains remain that match a listed identifier, resist, have no readable name, or were not listed |
| GarbageCollect.Collector.RemoveOrphanRootVolumes | pkg/libvirttools/gc.go:174-215 | exactly the foreign, listed, pathless and resisting volumes remain |
| GarbageCollect.Collector.RemoveOrphanQcow2Volumes | pkg/libvirttools/gc.go:217-258 | exactly the foreign, listed, pathless and resisting volumes remain |
| GarbageCollect.Collector.RemoveOrphanConfigImages | pkg/libvirttools/gc.go:260-296 | exactly the foreign, listed and resisting images remain |
| GarbageCollect.Collector.RemoveOrphanVirtualBlockDevices | pkg/libvirttools/gc.go:298-326 | refines Unmapped: the listed devices in order, with a panic at a listed name that lacks the prefix |
| GarbageCollect.UnmappedExactly | pkg/libvirttools/gc.go:298-326 | it panics if and only if a listed name lacks the prefix; only listed devices of no listed container go, and without a panic all of them that do not resist |
| GarbageCollect.Collector.GarbageCollect | pkg/libvirttools/gc.go:37-53 | the passes together make the host Collected; nothing happens on a fatal listing error or a panic while listing; and exactly when the call panics |
| GarbageCollect.ListedIsKept | pkg/libvirttools/gc.go:37-326 | nothing of a listed container is removed, whatever fails |
| GarbageCollect.PassesDisjoint | pkg/libvirttools/gc.go:174-258 | the two volume passes never touch each other's names |
| GarbageCollect.RemainingIsListed | pkg/libvirttools/gc.go:37-326 | for identifiers of any length, every name of ours that remains is that of a listed container: root volumes, config images and devices exactly, qcow2 volumes and domains by the beginning of the name |
| GarbageCollect.RootNameDetermines | pkg/libvirttools/root_volumesource.go:52-54 | a root volume name determines its container |
| GarbageCollect.Qcow2RemainsIff | pkg/libvirttools/gc.go:217-258 | for identifiers of any length a qcow2 volume remains if and only if some listed identifier begins its name |
| GarbageCollect.ForeignNames | pkg/libvirttools/gc.go:122-296 | volumes and images under other names stay, domains under other names do not |
| GarbageCollect.ContainerRemains | pkg/libvirttools/gc.go:37-326 | root volume and config image of a container, and its logical device if that is listed, remain if and only if they were there and a readable sandbox lists the container |
| GarbageCollect.ContainerQcow2Remains | pkg/libvirttools/gc.go:217-258 | the same for its qcow2 volumes, with identifiers of one length |
| GarbageCollect.ContainerDomainRemains | pkg/libvirttools/gc.go:122-172 | a domain remains if and only if it was there and a readable sandbox lists a container with the same first 13 characters |
| RootDevice.HeaderRoundTrip | pkg/blockdev/blockdev.go:74-118 | the header that is written is the one that is read back |
| RootDevice.HeaderBytes | pkg/blockdev/blockdev.go:37-48 | the header is eight octets of magic number, two of version, most significant first, and the hash |
| RootDevice.HeaderEnsuredView | pkg/blockdev/blockdev.go:74-118 | after the header check the device names the image, its content is unchanged, and the result says whether it named it before |
| RootDevice.MapHoldsImage | pkg/blockdev/blockdev.go:141-169 | the size check accepts exactly the devices with room for the image behind the header if and only if the rounding does not overflow 64 bits |
| RootDevice.StepExpected | pkg/libvirttools/persistentroot_volumesource.go:60-130 | one successful set-up, guest write or teardown is the expected step of a disk that remembers its last image; the mapped range holds the image, also when it was in place, for sizes that do not overflow |
| RootDevice.SetUpSucceedsIff | pkg/libvirttools/persistentroot_volumesource.go:69-126 | for sizes that do not overflow, a set-up succeeds if and only if the device can be opened, closed and mapped, has room, its header names the image in the known version or header and image can be written, and files can be added if there are any |
| RootDevice.RunExpected | pkg/libvirttools/persistentroot_volumesource.go:60-130 | over every run in which set-ups succeed, guest data survives exactly the set-ups with the last image, and any other image is written at the start |
| RootDevice.RunHoldsImages | pkg/blockdev/blockdev.go:141-169 | over every such run the mapped range holds the whole image of every set-up whose size does not overflow the check |
| RootDevice.GuestKeepsHeader | pkg/blockdev/blockdev.go:141-169 | writes through the mapping never touch sector 0 |
| RootDevice.EditedAt | pkg/blockdev/blockdev.go:166-169 | a write through the mapping changes exactly the octets it covers, up to the end of the device |
| RootDevice.StaleAfterFailedCopy | pkg/libvirttools/persistentroot_volumesource.go:69-126 | after a copy that failed, setting the same image up again succeeds and shows the old contents |
| RootDevice.SetupMarks | pkg/blockdev/blockdev.go:74-118 | a set-up, failed or not, leaves a matching header if and only if it got past writing the header or found it |
| RootDevice.SetupRedone | pkg/libvirttools/persistentroot_volumesource.go:69-126 | the next successful set-up with the same image writes the image if and only if the first one left no matching header |
| RootDevice.PersistentRoot.WriteAt | pkg/blockdev/blockdev.go:94-103 | exactly the given range of the device changes |
| RootDevice.PersistentRoot.EnsureDevHeaderMatches | pkg/blockdev/blockdev.go:74-118 | refines HeaderEnsured on the bytes of the device |
| RootDevice.PersistentRoot.Map | pkg/blockdev/blockdev.go:141-169 | maps exactly when the device has enough sectors and the device mapper obeys |
| RootDevice.PersistentRoot.WriteMapped | pkg/blockdev/blockdev.go:166-169 | a write through the mapping edits the content behind sector 0 |
| RootDevice.PersistentRoot.CopyImage | pkg/libvirttools/persistentroot_volumesource.go:60-67 | refines Copied, with partial copies |
| RootDevice.PersistentRoot.Inject | pkg/libvirttools/persistentroot_volumesource.go:115-119 | files are added behind sector 0, in order |
| RootDevice.PersistentRoot.Setup | pkg/libvirttools/persistentroot_volumesource.go:69-126 | refines SetUp on the bytes of the device |
| StaticRoutes.LastIPv4Gateway | pkg/dhcp/server.go:286-290 | the gateway of the last IPv4 configuration, none if there is none |
| StaticRoutes.DecodeEncodeAll | pkg/dhcp/server.go:326-346 | every list of expressible routes comes back from its option 121 bytes by the format of RFC 3442, with the octet counts of its table |
| StaticRoutes.SignificantOctetsByTable | pkg/dhcp/server.go:344-346 | the encoder's formula gives the octet counts of that table, and at most four exactly for widths up to 32 |
| StaticRoutes.MaskSizeIff | pkg/dhcp/server.go:326-327 | the size of a mask is n if and only if its bits are n ones and then zeros |
| StaticRoutes.Assemble | pkg/dhcp/server.go:278-321 | the loop stops at the first bad route, and otherwise the bytes decode to exactly the in-subnet routes in order, then the default |
| StaticRoutes.GetStaticRoutes | pkg/dhcp/server.go:272-322 | the same for the routes of a CNI result, with the fallback gateway and the crash of a missing IPv4 configuration |
| StaticRoutes.StaticsInOrder | pkg/dhcp/server.go:278-310 | every in-subnet route other than a default one is carried, right after those before it |
| StaticRoutes.StaticsOnly | pkg/dhcp/server.go:278-310 | nothing else is carried |
| StaticRoutes.LastDefaultIsLast | pkg/dhcp/server.go:302-307 | of several in-subnet default routes the last one counts |
| StaticRoutes.RouterOrRoutes | pkg/dhcp/server.go:311-321 | router and option 121 are never both given, and an in-subnet default route is in one of them |
| StaticRoutes.IPv4RouteRead | pkg/dhcp/server.go:278-333 | a route to an IPv4 network through an IPv4 gateway is never bad; it is dropped if and only if its gateway is outside the subnet, and otherwise carried with its gateway and mask, its destination exact if and only if the octets past the mask are zero |
| StaticRoutes.ForeignRouteMisread | pkg/dhcp/server.go:278-333 | a route to any other network through an IPv4 gateway of the subnet is read as an IPv4 default route if its mask is empty, and otherwise crashes the encoder |
| StaticRoutes.CrashIff | pkg/dhcp/server.go:326-333 | with its gateway in the subnet a route crashes the encoder if and only if its mask has more ones than its IPv4 address has bits |
| StaticRoutes.RouteReadsItselfIff | pkg/dhcp/server.go:278-346 | such a route reaches the client as itself if and only if it is to an IPv4 network without host octets past its mask |
| DomainSearch.SplitIsInverse | pkg/dhcp/server.go:359 | the labels contain no dot, and joining them gives the domain back |
| DomainSearch.EncodeDomain | pkg/dhcp/server.go:359-366 | appends the labels of a domain, and fails exactly for a label over 254 bytes |
| DomainSearch.CompressedDomainList | pkg/dhcp/server.go:348-370 | fails exactly for a label over 254 bytes; otherwise adding one zero byte gives all the names, each terminated |
| DomainSearch.ReadTerminated | pkg/dhcp/server.go:348-370 | names of legal labels come back by section 3.1 of RFC 1035 |
| DomainSearch.ListRoundTrip | pkg/dhcp/server.go:348-370 | the option with its last zero byte gives the list back if and only if every label has 1 to 63 bytes |
| DomainSearch.SentListUnreadable | pkg/dhcp/server.go:348-370 | as sent, no legal list but the empty one is readable |
| CloudInitRoutes.DeleteAt | pkg/libvirttools/cloudinit.go:284 | deletion in place removes exactly that element and keeps the order |
| CloudInitRoutes.Visit | pkg/libvirttools/cloudinit.go:262-284 | a route is taken out of the list exactly when the address reaches it and it is no second default; otherwise the list stays |
| CloudInitRoutes.TakeRoutes | pkg/libvirttools/cloudinit.go:260-285 | the backward walk with deletions stays in range and is Walk on the old list |
| CloudInitRoutes.GetSubnetsForNthInterface | pkg/libvirttools/cloudinit.go:245-302 | the subnets are those of Assign on the CNI routes, which do not change, and DHCP if the interface has no address |
| CloudInitRoutes.WalkConserves | pkg/libvirttools/cloudinit.go:260-285 | taken and left routes of one address are a permutation of the list |
| CloudInitRoutes.WalkLeaves | pkg/libvirttools/cloudinit.go:262-277 | a route that is left was not reachable, or was one default too many |
| CloudInitRoutes.LastReachableIsLast | pkg/libvirttools/cloudinit.go:260-277 | of the default routes that an address reaches, the walk meets the last of the list first |
| CloudInitRoutes.AssignUsesDefault | pkg/libvirttools/cloudinit.go:245-302 | the one default route of an interface is, for its first address that reaches any, the last such route of the CNI list |
| CloudInitRoutes.AssignConserves | pkg/libvirttools/cloudinit.go:245-302 | over all addresses of an interface, used and leftover routes are a permutation of the CNI routes, and at most one default is used |
| CloudInitRoutes.AssignLeaves | pkg/libvirttools/cloudinit.go:245-302 | a leftover route is reached by no address of the interface, or is one default too many |
| CloudInitRoutes.AssignServes | pkg/libvirttools/cloudinit.go:245-302 | there is one subnet for each address of the interface, in order, and its routes go through the gateway by which the address reaches them |
| CloudInitRoutes.UsedGateways | pkg/libvirttools/cloudinit.go:262-277 | a used route with a gateway goes through that one, which is in the subnet of the address; one without goes through the gateway of the address, which is not unspecified |
| CloudInitRoutes.UnusedRoutes | pkg/libvirttools/cloudinit.go:262-277 | for every address of the interface a leftover route has its gateway outside the subnet or finds none, or has an empty mask and another such route is used |
| NodeConfig.VirtletConfig.ApplyDefaults | pkg/config/fields.go:262-266 | unset fields get their defaults and set ones stay |
| NodeConfig.VirtletConfig.Override | pkg/config/config.go:121-123 | fields that the other configuration sets replace ours, also when both are the same object |
| NodeConfig.GetDefaultConfig | pkg/config/config.go:113-117 | a fresh configuration with every field at its default |
| NodeConfig.MergeConfigs | pkg/config/config.go:155-165 | the first configuration becomes the stack of all, is returned, and no other one changes, also with repeated configurations |
| NodeConfig.StackAt | pkg/config/config.go:155-165 | a field of the stack is that of the last layer that sets it, else that of the bottom |
| NodeConfig.MappingMatches | pkg/config/config.go:137-151 | a mapping matches exactly when it has a configuration, names no other node, and all its labels are on the node |
| NodeConfig.SortByPriority | pkg/config/config.go:208-212 | some permutation in order of priority; nothing is promised about ties |
| NodeConfig.MatchingByPriority | pkg/config/config.go:202-212 | exactly the matching mappings, in order of priority |
| NodeConfig.StackProper | pkg/config/config.go:200-222 | for any order by priority, a field is the local one, else one of the top priority among those that set it, else the default |
| NodeConfig.MergeOver | pkg/config/config.go:214-221 | merging over the defaults gives every field its proper value and changes no mapping's or local configuration |
| NodeConfig.ConfigForNode | pkg/config/config.go:200-222 | a fresh configuration, every field set and proper, for any number of mappings; the inputs are not changed |
| DeepMerge.CopyFields | pkg/utils/merge.go:79-82 | the first loop copies the base |
| DeepMerge.MergeFields | pkg/utils/merge.go:71-108 | the two loops over the keys give the merged map, in whatever order keys come |
| DeepMerge.MergeRecursive | pkg/utils/merge.go:39-115 | refines Merge, which MergeAt and NodesDetermine fix value by value |
| DeepMerge.MergeAt | pkg/utils/merge.go:27-115 | at every path of keys, from what the two values have there: the override wins, nulls delete shared keys, a slice has the items of the base by index and then those of the override, and the base stays where the override has nothing in the way |
| DeepMerge.LeafOrigin | pkg/utils/merge.go:39-115 | every leaf of the merged value, also within slices, is the leaf of one of the two values at its place of origin, items of the override moved up by the length of the base |
| DeepMerge.NodesDetermine | pkg/utils/merge.go:27-115 | values that have the same at every path of keys are equal, so MergeAt determines the merge |
| DeepMerge.MergedKeys | pkg/utils/merge.go:71-108 | the keys of a merged map are those of both, minus the shared ones that the override sets to null |
| DeepMerge.AbsorbedMerge | pkg/utils/merge.go:39-115 | the override comes out unchanged if and only if it leaves nothing of the base |
| DeepMerge.MergeAssociative | pkg/utils/merge.go:39-115 | merging three values is associative if and only if Associates holds, a test on the values that merges nothing |
| DeepMerge.AgreeingAssociate | pkg/utils/merge.go:39-115 | in particular for null-free values whose kinds agree at shared paths |
| DeepMerge.NullBreaksAssociativity | pkg/utils/merge.go:85-106 | a null makes the order of merging matter |
| DeepMerge.KindBreaksAssociativity | pkg/utils/merge.go:39-42 | a value of another kind in between makes it matter too |

## Left out

- Image download, TLS and image name translation: a download is an arbitrary byte sequence or a failure.
- Parsing of image references and digests, JSON, YAML and XML: values are represented by what the parsers make of them.
- libvirt, bolt, netlink, CNI, libguestfs and the device mapper themselves: maps and sets whose calls may fail without effect.
- NodeConfig.SortByPriority: its insertion is one of the orders that the library's unstable sort may give; callers see only the contract.
- Metadata.BoltClient.ImagesInUse: all its reads see one database; the scan of ImageRuns models the separate transactions.
- RootDevice.PersistentRoot.CopyImage: a failed copy has written some prefix of the image.
- RootDevice.PersistentRoot.Setup: a failed injection of files is taken to have written nothing.
- FdProtocol.ServeConn: bytes arrive as one sequence; a read that blocks for ever is not modelled, error texts are abstract, and a reply is written as a whole or not at all.
- FdServer.TapFDSource.Release: a second release that would wait for ever for a closed DHCP server is modelled as a failure.
- DeepMerge.MergeRecursive: pointers to maps and slices, which JSON-like values do not have, and sharing of slice storage by appending.
- Metadata.BoltClient.ListPodSandboxes: stored sandbox data without a configuration, whose labels the code reads through a nil pointer.
- ImageRuns.PullReturnsItsImage: names that the reference library refuses, for which a pull fails after it has placed the image.
- StaticRoutes.GetStaticRoutes: the other options of the response, which are constants or copies.
- VmLifecycle.VirtualizationTool.CreateContainer: the text of the domain definition and of the cloud-init image.
- Start and stop of containers, container listing and statistics, and the mapping of domain states.
- Stopping the FD server, its accept back-off and the timing of wait loops.
- Network interface set-up and SR-IOV, virtletctl, diagnostics, generated clients, namespaces and re-execution.
