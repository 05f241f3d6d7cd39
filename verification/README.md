# A verified model of nibrun

nibrun runs tenants in microVMs. This project models the parts of it that decide things, in Dafny,
and proves what those parts promise. Tools and I/O around them (tar, compression, sockets, systemd,
cgroups, nft) enter as parameters: lists of entries, answers from outside, arbitrary moves of other
actors.

| files | part of the program |
|---|---|
| `Paths`, `Nodes`, `Resolution`, `Layers`, `HardLinks`, `Image`, `Survival`, `Whiteouts`, `Emission`, `Counterexamples`, `Flattening` | flattening the layers of an OCI image into one archive |
| `StartRecord`, `Activation` | starting the host's services and certifying, by receipts, what runs with which inputs |
| `BestFirst`, `RoutePlanner`, `Routes` | the best-first route search of the documentation's host drawing |
| `LogFrames`, `CronFrames`, `FileFrames`, `Bytes` | the framed protocols between host and guest |
| `References`, `InstanceEnv`, `ConfigReader` | the guest's configuration file, written by the host and read by the guest |
| `Firewall` | the rendered ruleset, given a packet semantics |
| `SharedState` | per-app transition locks and cron guards |
| `FreezeControl` | the guest's freeze and release loop |
| `Capacity` | slots, ports and devices, and growing them while the daemon runs |
| `Patterns`, `Validators`, `Addresses` | the hand-written validators against the patterns published beside them |
| `Basics`, `Results` | what several of these use |

Conventions:

- The filesystem is keyed by sequences of names. `Paths` proves this interchangeable with the
  program's joined strings, including the order in which the string-keyed map is iterated.
- A node's `inode` is the identity of the shared allocation behind it. Every insertion takes the
  next number, so applying a layer is a function and two runs can be compared for equality.
- Where the program loops over mutable state, the model is a class or a loop whose contract equates
  it with a function, and the theorems are about that function. What that function computes is in turn
  stated without it: as a relation of its own (`Resolution`, `Routes`), from the texts and figures the
  program is given (`Whiteouts`, `ConfigReader`, the layouts of the frames), or path by path.
- Text that the program handles as bytes is a sequence of bytes, with UTF-8 validity a parameter; a
  name or link text in an archive is a text, or bytes that are none.

What the proofs found out about the code, each with an input that shows it and the exact condition:

- Writing an image out and reading it back is not always the identity, in two ways. Reading keeps an
  extended attribute whatever its key, but writing refuses a key that is not UTF-8:
  `Counterexamples.BadKeyAccepted` is a layer that is accepted and then cannot be written. And the
  tree may hold a *directory* whose name starts with `.wh.` (made as an implicit parent), whose
  archive is refused on reading: `Counterexamples.WhiteoutDirectoryReached` is such an image.
  `Emission.RoundTrip` proves that, given an archive format that keeps names and link texts as they
  are, the round trip holds if and only if every attribute key is text and no path ends in a
  whiteout name.
- The receipt of the storage preparation unit can name an activation that was not started with the
  certified inputs, because that unit is only ever asked to start and an active one keeps running.
  `Activation.StaleReadyIsCertified` is such a run. `Activation.Host.Activate` proves that in an
  undisturbed run the receipt is true if and only if the unit was inactive or up to date, and that
  in any run it never lies if that was so at the start and its receipt then true.
- A hard-link chain may be longer than 39 hops and still settle: `Counterexamples.LongChainSettles`
  has one of every length. `HardLinks.RoundsExactly` gives the exact measure, the number of times a
  chain steps back in map order; chains of at most 39 hops are a special case of it.
- A thaw write that fails inside a failed freeze is dropped by the guest's loop, so a tenant can stay
  frozen without a lease, as in `FreezeControl.TenantStranded`. `FreezeControl.Guest.Serve` proves
  that between requests this is so exactly while such a lost thaw stands.
- A filesystem request is read the same whatever follows its body and whatever its flags say besides
  truncation, so unlike the cron frames it has more than one encoding (`FileFrames.ManyEncodings`);
  `FileFrames.RequestExactly` says exactly which.
- At the root, a listing can be marked truncated when only `lost+found` is missing from it, because
  the limit is checked before the name is: `FileFrames.MarkedWithNothingMissing` is such a listing.
  `FileFrames.MarkExactly` says from the entries alone when a listing is marked, and
  `FileFrames.MarkTruthful` that the mark is wrong if and only if the listing ends early and nothing
  but hidden entries stands after the place where it ends.

- The check of IPv4 addresses accepts more than the pattern published beside it, because it reads each
  octet as a number and a number may start with a plus sign: `Addresses.PlusAccepted` is the text
  "+1.2.3.4". `Addresses.Ipv4Exactly` proves that the two agree exactly on texts without a plus sign.

`dafny verify dfyconfig.toml` checks the project.

## Model

| member | source | states |
|---|---|---|
| `Paths.SplitJoin` | crates/oci-image/src/filesystem.rs:39-55 | splitting a joined path gives its names back; only the root comes back as one empty piece |
| `Paths.JoinInjective` | crates/oci-image/src/filesystem.rs:39-55 | two paths with the same string key are the same path |
| `Paths.DescendantIsTextPrefix` | crates/oci-image/src/filesystem.rs:111-120 | the textual test "starts with dir/" holds of exactly the proper descendants of dir |
| `Paths.ArchivePathExactly` | crates/oci-image/src/filesystem.rs:39-55 | a tar entry's path is refused if and only if it is absolute or holds ".."; otherwise it is its pieces without empty ones and "." |
| `Paths.ArchiveNameRoundTrip` | crates/oci-image/src/filesystem.rs:302-309 | the name written for any path reads back as that path, the root included |
| `Paths.LessTotal` | crates/oci-image/src/filesystem.rs:302-309 | the map's iteration order is a strict total order on paths |
| `Paths.TextLessExactly` | crates/oci-image/src/filesystem.rs:302-309 | of two texts the first is the one that is a proper start of the other, or has the lower character where they first differ |
| `Paths.AncestorLess` | crates/oci-image/src/filesystem.rs:302-309 | a directory comes before everything under it in that order |
| `Paths.ListingIs` | crates/oci-image/src/filesystem.rs:302-309 | any finite set of paths has an ascending listing of exactly its members |
| `Paths.ListingUnique` | crates/oci-image/src/filesystem.rs:302-309 | that listing is the only one, so iteration is deterministic |
| `Nodes.WalkSound` | crates/oci-image/src/filesystem.rs:68-109 | from any stage of the walk, a result stays under the root, is made of real names, and has only directories or nothing above it |
| `Nodes.WalkFixed` | crates/oci-image/src/filesystem.rs:68-109 | walking names with nothing but directories above them changes nothing |
| `Nodes.ResolveFixed` | crates/oci-image/src/filesystem.rs:68-109 | a path with only directories or nothing above it resolves to itself |
| `Nodes.ResolveSound` | crates/oci-image/src/filesystem.rs:68-109 | whatever the links, a resolved path is a real path under the root, clear above, and resolving it again returns it, with or without following its last component |
| `Nodes.ResolveKeepsLastName` | crates/oci-image/src/filesystem.rs:68-109 | resolving without following keeps the last name |
| `Resolution.ResolveExactly` | crates/oci-image/src/filesystem.rs:68-109 | resolution answers a path if and only if a journey over the names arrives there, and fails with each of its three errors if and only if the journey meets a 41st link, a link that is not text, or something on its way that is neither a directory nor missing; the journey is a relation of its own |
| `Resolution.ResolveChild` | crates/oci-image/src/filesystem.rs:68-109 | a name below a path, not followed, resolves to that name below what the path leads to, provided that is a directory or nothing |
| `Resolution.FollowAbsolute` | crates/oci-image/src/filesystem.rs:90-98 | a link to "/" and a path leads to that path from the root, and so do the names below it |
| `Resolution.FollowRelative` | crates/oci-image/src/filesystem.rs:90-98 | a link to any number of "../" and a path leads there from the directory the link stands in |
| `Layers.ReadExactly` | crates/oci-image/src/filesystem.rs:143-201 | a layer reads if and only if it is within the entry limit, every entry reads and no path repeats; the items then are the entries in order |
| `Layers.ReadableExactly` | crates/oci-image/src/filesystem.rs:143-201 | an entry reads if and only if its name is a relative path going never up, it has no record of the unsupported kind, its type is one of four, and what it links to is not empty and for a hard link such a path too |
| `Layers.ItemExactly` | crates/oci-image/src/filesystem.rs:143-201 | what an entry is read as: the pieces of its name, its header, and its type with its data or its link |
| `Layers.AttributesExactly` | crates/oci-image/src/filesystem.rs:154-168 | an entry's attributes are exactly its records of the one kind, each as often as it stands there, and one record of the unsupported kind refuses it |
| `Layers.RemoveAllExactly` | crates/oci-image/src/filesystem.rs:111-120 | any sequence of removals leaves exactly what none of them covers, so removals commute |
| `Layers.RemoveKeepsWellFormed` | crates/oci-image/src/filesystem.rs:111-120 | removing a subtree keeps the tree invariant and adds nothing |
| `Layers.ParentsNeverFail` | crates/oci-image/src/filesystem.rs:122-141 | above a resolved name the error branch is dead; missing parents are added as directories and nothing else changes |
| `Layers.InsertKeepsWellFormed` | crates/oci-image/src/filesystem.rs:229-265 | inserting any entry keeps the tree invariant and the node limit, and never blames a parent |
| `Layers.InsertAllKeepsWellFormed` | crates/oci-image/src/filesystem.rs:229-265 | the same over all entries of a layer |
| `Layers.EmptyImageValid` | crates/oci-image/src/filesystem.rs:62-66 | the new filesystem satisfies the invariant |
| `HardLinks.RoundFrom` | crates/oci-image/src/filesystem.rs:267-294 | part of a round, in map order, settles exactly the links whose chain steps back at most once |
| `HardLinks.RoundExactly` | crates/oci-image/src/filesystem.rs:267-294 | a whole round without directory targets computes exactly that tree, and reports progress if and only if some link settled |
| `HardLinks.RoundReduces` | crates/oci-image/src/filesystem.rs:281-297 | a round that settles anything leaves strictly fewer placeholders |
| `HardLinks.RoundsExactly` | crates/oci-image/src/filesystem.rs:266-299 | the rounds succeed if and only if every chain ends at a file or symbolic link within the rounds there are; every placeholder then becomes the very node its chain ends at, identity included, and nothing else changes |
| `HardLinks.LayerSettlesExactly` | crates/oci-image/src/filesystem.rs:266-299 | the rounds a layer has are enough if and only if every chain ends at a file or symbolic link and steps back at most 39 times in map order |
| `HardLinks.ShortChainsSettle` | crates/oci-image/src/filesystem.rs:266-299 | chains of at most 39 hops to a file or symbolic link always settle |
| `HardLinks.SuccessNeedsEnding` | crates/oci-image/src/filesystem.rs:266-299 | success means every placeholder's chain ends, and not at a directory |
| `HardLinks.BadChainFails` | crates/oci-image/src/filesystem.rs:266-299 | one cyclic chain, missing target or directory target fails the layer |
| `Counterexamples.LongChainSettles` | crates/oci-image/src/filesystem.rs:266-299 | for every n there is a tree whose longest chain takes n hops and no fewer, and which settles |
| `Image.ApplyKeepsValid` | crates/oci-image/src/filesystem.rs:143-300 | after every successful layer: a directory at the root, a directory above every path, no placeholder left, equal nodes wherever an identity is shared, at most the entry limit; and no run fails in making parents |
| `Image.ApplyAllKeepsValid` | crates/oci-image/src/lib.rs:259-269 | the same after any sequence of layers |
| `Image.LayersInOrder` | crates/oci-image/src/lib.rs:259-269 | one more layer is applied to what the layers before it left, or not at all if they failed |
| `Image.WhiteoutsExactly` | crates/oci-image/src/filesystem.rs:202-225 | the removals are those of the whiteout entries, resolved in the tree before the layer, and one bad whiteout refuses the layer |
| `Image.WhiteoutOrderIrrelevant` | crates/oci-image/src/filesystem.rs:202-236 | any reordering of a layer that keeps the order of its other entries succeeds alike and gives the same tree |
| `Whiteouts.NamedWhiteout` | crates/oci-image/src/filesystem.rs:202-225 | `d/.wh.n` covers exactly `n` in the directory `d` leads to and all under it |
| `Whiteouts.OpaqueWhiteout` | crates/oci-image/src/filesystem.rs:202-225 | `d/.wh..wh..opq` covers exactly what is under the directory `d` leads to, and not that directory |
| `Whiteouts.RefusedExactly` | crates/oci-image/src/filesystem.rs:202-225 | a whiteout is refused if and only if it is not an empty file, names nothing, "." or "..", or its directory does not resolve |
| `Whiteouts.LayerDeletes` | crates/oci-image/src/filesystem.rs:202-300 | after an accepted layer nothing a whiteout deletes is there, unless an entry of the layer lands there, makes it or lies under it |
| `Whiteouts.EntryDeletes` | crates/oci-image/src/filesystem.rs:202-300 | the same for the entry of that name in the archive: its directory resolved, and what it deletes is gone unless the layer puts it back |
| `Whiteouts.LayerDeletesExactly` | crates/oci-image/src/filesystem.rs:202-300 | a path of the image below that no entry touches is gone if and only if a whiteout deletes it |
| `Survival.InsertExactly` | crates/oci-image/src/filesystem.rs:237-264 | one insertion path by path: the new node where it lands, nothing under it unless directories merge, missing parents as directories, everything else as it was |
| `Survival.InsertRefusedExactly` | crates/oci-image/src/filesystem.rs:237-264 | an insertion is refused if and only if its path does not resolve, or does to the root and it is no directory, or it is a hard link to a directory or through a target that does not resolve, or more than 100000 paths were left |
| `Survival.EntryLands` | crates/oci-image/src/filesystem.rs:237-264 | with only directories above it, an entry that is no hard link is put at its path with its header, as a node of its own |
| `Survival.HardLinkLands` | crates/oci-image/src/filesystem.rs:237-264 | a hard link is put there as the very node its target names, a symbolic link not followed; as a placeholder if the target is missing; and refused for a directory |
| `Survival.LayerKeeps` | crates/oci-image/src/filesystem.rs:202-300 | a path of the image below that no entry lands on, buries or makes anew survives a layer, with its very node, if and only if no whiteout covers it |
| `Survival.EntryTurn` | crates/oci-image/src/filesystem.rs:237-264 | every entry of an accepted layer that is no whiteout is inserted, on what the entries before it left |
| `Survival.EntryInstalled` | crates/oci-image/src/filesystem.rs:143-300 | what an entry of an accepted layer put at its path on its turn is there when the layer is done, if the entries after it do not touch it |
| `Emission.OrderIsGood` | crates/oci-image/src/filesystem.rs:306-308 | the order of writing lists every path once, with everything above a path written before it as a directory |
| `Emission.OrderExactly` | crates/oci-image/src/filesystem.rs:306-308 | directories are written before all else, and either kind in the order of the map |
| `Emission.EmissionReads` | crates/oci-image/src/filesystem.rs:302-361 | the entries there are to write read back as the same paths, attributes, payloads and links in order, each shared identity in full once and as a link to its first path after that |
| `Emission.ArchiveExactly` | crates/oci-image/src/filesystem.rs:313-327 | writing succeeds if and only if every attribute key in the tree is text, and then writes those entries |
| `Emission.RoundTrip` | crates/oci-image/src/filesystem.rs:302-361 | for every valid image, writing it succeeds if and only if every attribute key is text; applying what is written to an empty filesystem succeeds if and only if, besides, no path ends in a whiteout name, and then rebuilds the same paths, metadata, kinds and sharing |
| `Emission.SameImageSameArchive` | crates/oci-image/src/filesystem.rs:302-361 | images alike up to renaming identities are written out alike, or both not at all |
| `Emission.EmissionCanonical` | crates/oci-image/src/filesystem.rs:302-361 | whenever the round trip succeeds, the rebuilt image is written out as the same archive |
| `Emission.TextLayersAreWritten` | crates/oci-image/src/filesystem.rs:143-361 | any sequence of layers whose attribute keys are text and that is accepted leaves an image that can be written |
| `Counterexamples.WhiteoutDirectoryReached` | crates/oci-image/src/filesystem.rs:122-141 | one layer holding the file `.wh.a/b` is accepted, leaves a directory `.wh.a`, and is written out as an archive that is refused |
| `Counterexamples.BadKeyAccepted` | crates/oci-image/src/filesystem.rs:154-327 | one layer whose file has an attribute key that is not text is accepted and leaves no whiteout name, and writing the image fails |
| `Flattening.Filesystem.constructor` | crates/oci-image/src/filesystem.rs:62-66 | the object starts as the empty image, which is valid |
| `Flattening.Filesystem.Resolve` | crates/oci-image/src/filesystem.rs:68-109 | the loop over a queue of names computes the resolution the lemmas are about |
| `Flattening.Filesystem.Remove` | crates/oci-image/src/filesystem.rs:111-120 | filtering the string-keyed map by text drops exactly the path's subtree, with or without the path |
| `Flattening.Filesystem.Parents` | crates/oci-image/src/filesystem.rs:122-141 | the loop makes the missing parents, or fails as specified |
| `Flattening.Filesystem.Apply` | crates/oci-image/src/filesystem.rs:143-300 | one layer applied in place: the specified tree or the specified error, and a valid tree on success |
| `Flattening.Filesystem.ReadLayer` | crates/oci-image/src/filesystem.rs:144-201 | the reading loop returns the items `Layers.ReadExactly` characterises |
| `Flattening.Filesystem.ReadAttributes` | crates/oci-image/src/filesystem.rs:155-168 | the loop over an entry's records returns the attributes `Layers.AttributesExactly` characterises, or its error |
| `Flattening.Filesystem.FindRemovals` | crates/oci-image/src/filesystem.rs:203-225 | the whiteout loop collects the removals `Image.WhiteoutsExactly` characterises, before anything is removed |
| `Flattening.Filesystem.Insert` | crates/oci-image/src/filesystem.rs:237-264 | one insertion in place, with merging of directories and reuse of a hard link's node |
| `Flattening.Filesystem.SettleHardlinks` | crates/oci-image/src/filesystem.rs:266-299 | the rounds in place end in the tree `HardLinks.RoundsExactly` characterises, or in its error |
| `Flattening.TotalRemove` | crates/oci-image/src/filesystem.rs:343-346 | the sum over distinct identities does not depend on the order of summing |
| `Flattening.LinkedBefore` | crates/oci-image/src/filesystem.rs:328-337 | an identity is in the links table exactly when an earlier path shares it, the table names the first such path, and a directory is never in it |
| `Flattening.SizesOfAll` | crates/oci-image/src/filesystem.rs:343-346 | what the writing loop adds up is exactly one size for each distinct file identity |
| `Flattening.CheckedDigestExactly` | crates/oci-image/src/lib.rs:127-140 | a digest names a hash if and only if it is "sha256:" and that hash, in 64 lower-case hexadecimal digits |
| `Flattening.Write` | crates/oci-image/src/filesystem.rs:308-355 | the writing loop never meets a placeholder, writes the specified entries up to a key that is not text, where it fails, and counts each distinct file's bytes once |
| `Flattening.Filesystem.Finish` | crates/oci-image/src/filesystem.rs:302-361 | on a valid filesystem it succeeds if and only if every attribute key is text, and fails with no other error; the archive, the data bytes (a sum over distinct file identities) and the entry count are as specified |
| `Flattening.Flatten` | crates/oci-image/src/lib.rs:243-270 | it succeeds if and only if manifest (schema 2) and configuration (of type "layers") agree on 1 to 128 layers, all decode to the hashes named, fit a gibibyte together, apply in turn and leave only text attribute keys; the output is the written form of the filesystem they leave |
| `StartRecord.MonitorSees` | crates/nibrunnerd/src/start.rs:133-232 | one pass over a run's record decides: receipts sound at every entry (the storage preparation's apart), nothing issued, and ZeroFS commanded only after a last look that found it inactive |
| `StartRecord.MonitorOwes` | crates/nibrunnerd/src/start.rs:133-232 | when the pass owes no mount restart, every ZeroFS command was followed by one |
| `StartRecord.MonitorMeansMountRule` | crates/nibrunnerd/src/start.rs:133-232 | the pass's verdict implies, over every pair of entries, that from a ZeroFS command on the mount has no receipt until a mount restart was issued, and then one for an activation begun after the ZeroFS command |
| `StartRecord.MonitorMeansReceiptRule` | crates/nibrunnerd/src/start.rs:175-183 | from a command for a unit on, the unit has no receipt until one is written |
| `StartRecord.MonitorMeansWriteRule` | crates/nibrunnerd/src/start.rs:210-232 | a receipt is only written for an activation that, after the last command of all, was seen active and named by the unit again |
| `StartRecord.MonitorMeansPrepareRule` | crates/nibrunnerd/src/start.rs:124-184 | the pass's verdict implies that every command came after a `daemon-reload` and after that the enabling of exactly these units, and that the storage preparation is only ever asked to start |
| `StartRecord.MonitorTakes` | crates/nibrunnerd/src/start.rs:151-170 | what the pass has taken from the daemon is the last of its answers in the record |
| `Activation.PlanIsOk` | crates/nibrunnerd/src/start.rs:297-343 | every plan lists each unit once, ZeroFS before the mount, with digests and receipts as they were read |
| `Activation.PlanExactly` | crates/nibrunnerd/src/start.rs:297-343 | the daemon is always planned, the storage preparation exactly with host storage, ZeroFS and the mount exactly with ZeroFS, in that order of dependence, each with its digest and its receipt |
| `StartRecord.DisturbDrifts` | crates/nibrunnerd/src/start.rs:433-436 | whatever other actors do between two interactions, receipts stay and any new activation is numbered later and has the inputs as they are |
| `Activation.Host.Command` | crates/nibrunnerd/src/start.rs:422-436 | a command needs the unit's receipt gone (and the mount's, for ZeroFS); a restart that reports success leaves an activation begun after it with the present inputs, and a start may leave the old one |
| `Activation.Host.Invalidate` | crates/nibrunnerd/src/start/inputs.rs:49-58 | removing a receipt removes that one only, or fails and removes none |
| `Activation.Host.Certify` | crates/nibrunnerd/src/start/inputs.rs:60-73 | a receipt is written only for the planned digest while the inputs still have it, only for an activation confirmed since the last command, and changes no other |
| `Activation.Host.CheckPermission` | crates/nibrunnerd/src/start.rs:117-123 | before anything is touched, a quiet host passes if and only if no running ZeroFS lacks a certificate for its inputs |
| `Activation.Host.Prepare` | crates/nibrunnerd/src/start.rs:117-131 | nothing is commanded before the units were read anew and then all but the storage preparation enabled; a quiet host gets past it if and only if it may touch ZeroFS or need not; receipts stay |
| `Activation.Host.DropReceipts` | crates/nibrunnerd/src/start.rs:175-183 | on success exactly the unit's receipt is gone, and the mount's with ZeroFS's; on failure none was added or changed |
| `Activation.Host.Inspect` | crates/nibrunnerd/src/start.rs:136-142 | whether a unit runs, as what, and whether it is due; and that a unit left for a command is fit for it: ZeroFS without permission was just seen inactive, and a mere start finds up-to-date inputs |
| `Activation.Host.Leave` | crates/nibrunnerd/src/start.rs:143-171 | a unit that is up to date is left running; the daemon only if it takes its configuration up in place, and then its outcome says how it did |
| `Activation.Host.LeaveOrRenew` | crates/nibrunnerd/src/start.rs:143-209 | one inspected unit left or brought up anew: which receipts may go, and what the outcome says about how it was before |
| `Activation.Host.ReadBack` | crates/nibrunnerd/src/start.rs:185-200 | an activation reported for a unit is one the unit has, and no report means failed or an error |
| `Activation.Host.Bring` | crates/nibrunnerd/src/start.rs:184-205 | a unit reported up has an activation with the planned inputs, whatever happened in between |
| `Activation.Host.Visit` | crates/nibrunnerd/src/start.rs:135-209 | one unit of the plan: soundness, the mount rule and the ZeroFS rule are kept; a settled unit is left untouched |
| `Activation.Host.VisitAll` | crates/nibrunnerd/src/start.rs:133-209 | units are reached in order up to the first failure, each fit to be certified |
| `Activation.Host.Recheck` | crates/nibrunnerd/src/start.rs:210-222 | a unit left as up was seen active and named its activation again; any other is marked failed, in a quiet host exactly those that are not up as reported |
| `Activation.Host.LookAgain` | crates/nibrunnerd/src/start.rs:214-221 | the same for one unit |
| `Activation.Host.Settle` | crates/nibrunnerd/src/start.rs:223-232 | each reached unit ends with exactly the receipt its outcome calls for, and no other receipt changes |
| `Activation.Host.Activate` | crates/nibrunnerd/src/start.rs:111-237 | with any other actors and any failures, cut anywhere: every receipt but the storage preparation's names an activation started with its digest, and that one does too if at the start its receipt was true and it was inactive or up to date; a command comes after the reload and the enabling, is of the kind that fits the unit, and takes a receipt away until one is written, which happens only after a second look; a mount certified after a ZeroFS command began after it; without permission ZeroFS is commanded only when last seen inactive; all up means every planned unit; outcomes say how a unit came up, receipts are exactly what the outcomes call for, and units outside the plan keep theirs. A quiet host converges or is refused untouched, and its storage preparation's receipt is true if and only if that was inactive or up to date |
| `Activation.SameReceipts` | crates/nibrunnerd/src/start.rs:223-232 | certifying what is already certified changes no receipt |
| `Activation.ReceiptedIsSettled` | crates/nibrunnerd/src/start.rs:297-343 | what a run left up and certified is settled in any plan made from that world |
| `Activation.StartTwice` | crates/nibrunnerd/src/start.rs:111-237 | however the first start went and whoever moved meanwhile: if it came up entirely and its units are still up as reported, a second start that nobody disturbs issues no start or restart, reports every unit running and leaves every receipt as it was |
| `Activation.Start` | crates/nibrunnerd/src/start.rs:111-343 | a start over its own plan: all up means that exactly the units the configuration calls for, the daemon always among them, are up and certified; undisturbed, each then runs with its present inputs under a receipt for that activation, and every other unit is as it was |
| `Activation.StaleReadyIsCertified` | crates/nibrunnerd/src/start.rs:172-174 | an undisturbed run that certifies inputs 2 for a storage preparation started with inputs 1 |
| `BestFirst.EstimateGrows` | docs/src/lib/host.ts:337-373 | with a consistent guess, the estimate never falls along a walk |
| `BestFirst.OfferSparesExpanded` | docs/src/lib/host.ts:309-320 | relaxation never improves an expanded cell, so no cell is expanded twice |
| `BestFirst.Frontier` | docs/src/lib/host.ts:343-366 | every route to the goal passes an open cell whose cost is at most the route's length so far |
| `BestFirst.GoalIsOptimal` | docs/src/lib/host.ts:343-366 | when the goal is the cheapest open cell, no route is shorter than its cost |
| `BestFirst.NothingOpenNoRoute` | docs/src/lib/host.ts:343-366 | when nothing is open there is no route |
| `BestFirst.WayBack` | docs/src/lib/host.ts:368-372 | following the predecessors yields a route of exactly the goal's cost |
| `RoutePlanner.SquareRootOfTwoIsADiagonal` | docs/src/lib/host.ts:301-305 | the diagonal cost the program uses is one the theorems cover |
| `RoutePlanner.OctileConsistent` | docs/src/lib/host.ts:301-305 | the octile distance never falls by more than a step costs, for any diagonal cost from 1 to 2 |
| `RoutePlanner.GridIsConsistent` | docs/src/lib/host.ts:301-305 | the grid with that guess is a consistent search problem |
| `RoutePlanner.NeighboursOf` | docs/src/lib/host.ts:322-334 | exactly the cells of the grid adjacent in one of the eight directions |
| `RoutePlanner.Relax` | docs/src/lib/host.ts:309-320 | it reports an improvement exactly when a free cell gets a cheaper way, and writes that cell only |
| `RoutePlanner.Cheapest` | docs/src/lib/host.ts:343-353 | an open cell of least estimate |
| `RoutePlanner.Expand` | docs/src/lib/host.ts:354-366 | relaxing all neighbours keeps the search invariant |
| `RoutePlanner.Search` | docs/src/lib/host.ts:337-373 | the result is empty if and only if start is goal or no route exists; otherwise it is a route through free cells (the goal exempt) of least total cost |
| `Routes.RouteMeans` | docs/src/lib/host.ts:309-334 | what the search calls a route is a way from start to goal by cells beside one another, none blocked but perhaps the goal |
| `Routes.LengthMeans` | docs/src/lib/host.ts:309-320 | a way costs one for each straight step and the cost of a diagonal for each diagonal one |
| `Routes.OpenGridCost` | docs/src/lib/host.ts:301-373 | with nothing blocked, a cheapest way takes as many steps as the farther of the two differences and as many of them diagonal as the nearer |
| `LogFrames.FrontOf` | crates/guest-contract/src/logs.rs:45-66 | a frame found whole lies within the bytes, and bytes kept for later are shorter than a header and the longest payload |
| `LogFrames.WholeExactly` | crates/guest-contract/src/logs.rs:3-97 | a stream that starts with "NBL1", a kind, a length and a payload of it starts with the frame of that kind, or with the error its kind or its payload calls for |
| `LogFrames.OtherwiseExactly` | crates/guest-contract/src/logs.rs:44-61 | every other stream is too short for a header, starts with something else, announces a payload too long, or holds part of one |
| `LogFrames.RestartExactly` | crates/guest-contract/src/logs.rs:99-135 | the fields of a restart by their places, the status in two's complement, and which of them are refused |
| `LogFrames.DecodeFrames` | crates/guest-contract/src/logs.rs:35-68 | one call computes the decoding of the carried bytes and the chunk together, and carries less than a header and the longest payload |
| `LogFrames.FrontSettled` | crates/guest-contract/src/logs.rs:45-66 | more bytes never change a frame or an error already decided |
| `LogFrames.DecodeSplit` | crates/guest-contract/src/logs.rs:35-68 | decoding in two parts with the carried bytes in between is decoding at once, errors included |
| `LogFrames.RestIsStuck` | crates/guest-contract/src/logs.rs:45-68 | what is carried holds no whole frame and stays below the bound |
| `LogFrames.ChunkingIrrelevant` | crates/guest-contract/src/logs.rs:35-68 | any two ways of cutting a stream give the same frames, the same rest or the same error |
| `LogFrames.RestartRoundTrip` | crates/guest-contract/src/logs.rs:99-162 | a restart's payload decodes to the restart, signed exit statuses included |
| `LogFrames.EncodeAllRoundTrip` | crates/guest-contract/src/logs.rs:35-171 | any concatenation of encoded frames within the limits decodes to those frames with nothing left |
| `Bytes.BigEndianRoundTrip` | crates/guest-contract/src/logs.rs:144-171 | a number that fits is read back from its big-endian bytes |
| `Bytes.FromBigEndianRoundTrip` | crates/guest-contract/src/cron_execution.rs:51-60 | any bytes are the ones written for the number they read as |
| `Bytes.FirstByteWeighsMost` | crates/guest-contract/src/logs.rs:51-52 | of the bytes of a number the first weighs most |
| `Bytes.FrameExactly` | crates/guest-contract/src/cron_execution.rs:51-89 | framing a body and checking a frame are exact inverses |
| `Bytes.TakeFieldExactly` | crates/guest-contract/src/cron_execution.rs:135-154 | a length-prefixed field is taken off bytes exactly when they start with its encoding |
| `CronFrames.WriteRequest` | crates/guest-contract/src/cron_execution.rs:110-133 | the appending encoder yields the frame the theorems are about, or refuses |
| `CronFrames.ReadBody` | crates/guest-contract/src/cron_execution.rs:156-175 | the advancing decoder computes the decoding the theorems are about |
| `CronFrames.RequestExactly` | crates/guest-contract/src/cron_execution.rs:51-175 | bytes are accepted as a request if and only if they are that request's encoding: two-way inverses |
| `CronFrames.EntryExactly` | crates/guest-contract/src/cron_execution.rs:110-133 | an environment entry is a name of letters, digits and underscores not starting with a digit, "=", and a value without a zero byte |
| `CronFrames.RequestLayout` | crates/guest-contract/src/cron_execution.rs:110-133 | the bytes of a request in figures, and the limits beyond which there are none |
| `CronFrames.ReplyExactly` | crates/guest-contract/src/cron_execution.rs:70-224 | the same for replies, with their limits on output, exit codes and signals |
| `CronFrames.ReplyLayout` | crates/guest-contract/src/cron_execution.rs:177-224 | the bytes of each reply in figures, and the limits beyond which there are none |
| `CronFrames.RegistrationExactly` | crates/guest-contract/src/cron_registration.rs:47-99 | the same for registrations of a crontab |
| `CronFrames.RegistrationLayout` | crates/guest-contract/src/cron_registration.rs:47-99 | the bytes of a registration in figures, and which texts are crontabs |
| `CronFrames.AnswerExactly` | crates/guest-contract/src/cron_registration.rs:47-127 | an answer is read back if and only if its status is one of the two and its text is short enough, and then exactly |
| `FileFrames.Cursor.Take` | crates/guest-contract/src/filesystem.rs:457-472 | the cursor takes exactly the next bytes, or none and stays where it is |
| `FileFrames.ParseRequest` | crates/guest-contract/src/filesystem.rs:544-599 | reading through the cursor computes the request the theorems are about |
| `FileFrames.RequestExactly` | crates/guest-contract/src/filesystem.rs:544-599 | a body is read as a request if and only if it is that request's body, up to flags of the same meaning and any tail |
| `FileFrames.RequestRoundTrip` | crates/guest-contract/src/filesystem.rs:88-139 | every request that fits one frame is read back as itself; one that does not is refused |
| `FileFrames.RequestLayout` | crates/guest-contract/src/filesystem.rs:88-139 | the bytes of each of the nine requests in figures |
| `FileFrames.ManyEncodings` | crates/guest-contract/src/filesystem.rs:544-599 | a request's body followed by anything is another frame that is read as the same request |
| `FileFrames.EncodeListing` | crates/guest-contract/src/filesystem.rs:659-678 | the writer sends the encodable entries up to the first that does not fit, marked if any are missing, within the body limit |
| `FileFrames.DecodeListing` | crates/guest-contract/src/filesystem.rs:277-322 | the offset loop computes the listing the theorems are about |
| `FileFrames.FitIsGreatest` | crates/guest-contract/src/filesystem.rs:659-678 | the number sent fits, and one more would not |
| `FileFrames.NextExactly` | crates/guest-contract/src/filesystem.rs:277-322 | an entry's fields by their places, any kind but two read as something else, times in two's complement |
| `FileFrames.CutExactly` | crates/guest-contract/src/filesystem.rs:277-322 | a listing is refused where an entry is cut short or has an empty name |
| `FileFrames.VisibleExactly` | crates/guest-contract/src/filesystem.rs:277-322 | all is shown in order but, at the root, `lost+found` |
| `FileFrames.EncodableExactly` | crates/guest-contract/src/filesystem.rs:659-678 | all is sent in order but names of no bytes or of more than 255 |
| `FileFrames.ListingRoundTrip` | crates/guest-contract/src/filesystem.rs:277-322 | a listing arrives as the encodable entries before the first that the frame cannot take or that comes after as many as may be shown, with name, kind, size and time, less `lost+found` at the root; truncated if and only if there is such an entry |
| `FileFrames.MarkExactly` | crates/guest-contract/src/filesystem.rs:284-306 | a listing is marked truncated if and only if its entries are too many bytes for a frame or one of them comes after as many as may be shown |
| `FileFrames.MarkTruthful` | crates/guest-contract/src/filesystem.rs:284-306 | the mark says whether something to be shown is missing, if and only if the listing does not end early or something not hidden stands after its end |
| `FileFrames.MarkedWithNothingMissing` | crates/guest-contract/src/filesystem.rs:277-322 | a root listing of as many entries as may be shown and `lost+found` arrives with all that is visible, marked truncated |
| `References.NothingInside` | crates/protocol/src/domain.rs:26-46 | no reference starts inside another |
| `References.ReferenceExactly` | crates/protocol/src/domain.rs:26-46 | a reference stands at a place if and only if the text there is "${", "NIBRUN_" with letters, digits and underscores after it, and "}"; its name is what stands between |
| `References.ReferencesOrdered` | crates/protocol/src/domain.rs:26-46 | the ranges found are increasing, disjoint and inside the text |
| `References.SpliceIsScan` | crates/guest-contract/src/instance_env.rs:134-153 | splicing values between ranges is copying and replacing from left to right |
| `References.ExpandIsScan` | crates/guest-contract/src/instance_env.rs:134-153 | index-based expansion equals a plain left-to-right scanner |
| `References.ExpandInto` | crates/guest-contract/src/instance_env.rs:134-153 | the expansion loop computes that scan, or names the unknown reference |
| `References.ScanSucceeds` | crates/guest-contract/src/instance_env.rs:134-153 | it succeeds if and only if every complete reference names an offered value |
| `References.ReferenceExpands` | crates/guest-contract/src/instance_env.rs:134-153 | a reference between texts without a dollar sign is replaced by its value, and the texts stay |
| `InstanceEnv.Render` | crates/guest-contract/src/instance_env.rs:52-98 | the writer succeeds if and only if nothing would break a line, and otherwise names the first argument or variable that would |
| `InstanceEnv.Read` | crates/guest-contract/src/instance_env.rs:155-246 | the reader's loops compute the parse the theorems are about, with the same first error |
| `InstanceEnv.LinesRoundTrip` | crates/guest-contract/src/instance_env.rs:96-98 | unbroken lines joined and split again are the same lines |
| `InstanceEnv.NumberRoundTrip` | crates/guest-contract/src/instance_env.rs:184-189 | a figure reads back if and only if it fits 32 bits |
| `InstanceEnv.SortBack` | crates/guest-contract/src/instance_env.rs:155-173 | the written lines sort back into the runtime values and the tenant's own variables |
| `InstanceEnv.ArgumentsBack` | crates/guest-contract/src/instance_env.rs:198-204 | the numbered arguments come back in order |
| `InstanceEnv.ListsBack` | crates/guest-contract/src/instance_env.rs:198-224 | arguments and expanded variables come back if and only if there are not too many variables and every reference resolves |
| `InstanceEnv.FiguresBack` | crates/guest-contract/src/instance_env.rs:226-246 | the scalars come back if and only if the figures fit and the backoff factor's text reads as a number |
| `InstanceEnv.RoundTrip` | crates/guest-contract/src/instance_env.rs:52-246 | what the host writes the guest reads, if and only if it fits, the backoff factor's text reads as a number and its references resolve, as the same scalars, arguments and variables with exactly the complete references replaced |
| `InstanceEnv.NameserversArrive` | crates/guest-contract/src/instance_env.rs:12-196 | the guest asks 1.1.1.1 and then 1.0.0.1 |
| `InstanceEnv.PlatformHostnameIsFirst` | crates/guest-contract/src/instance_env.rs:37-42 | the hostname written is the first of the platform's |
| `InstanceEnv.PlainVariableArrives` | crates/guest-contract/src/instance_env.rs:52-246 | a variable without a dollar sign reaches the tenant as it is |
| `InstanceEnv.HostnameArrives` | crates/guest-contract/src/instance_env.rs:52-246 | a variable with "${NIBRUN_HOSTNAME}" in it reaches the tenant with the platform's hostname in that place |
| `InstanceEnv.PortArrives` | crates/guest-contract/src/instance_env.rs:52-246 | a variable with "${NIBRUN_HTTP_PORT}" in it reaches the tenant with the port in that place |
| `ConfigReader.ParseExactly` | crates/guest-contract/src/instance_env.rs:155-246 | the reader takes any file if and only if each line is empty or has an equals sign, its arguments run from 0 without a gap, it has at most 256 variables and no reference that is not offered, and every scalar is there and reads |
| `ConfigReader.LinesExactly` | crates/guest-contract/src/instance_env.rs:155-158 | lines end at a newline, a carriage return before it not part of them, and the last need not end |
| `ConfigReader.SortExactly` | crates/guest-contract/src/instance_env.rs:158-173 | the lines are taken if and only if each is empty or has an equals sign |
| `ConfigReader.RefusedLine` | crates/guest-contract/src/instance_env.rs:162-167 | the refusal names the first line that is neither, by at most 32 of its characters |
| `ConfigReader.LineExactly` | crates/guest-contract/src/instance_env.rs:168-172 | a line adds a value of the runtime's, a variable of the tenant's, or nothing, by the start of its key |
| `ConfigReader.NamedExactly` | crates/guest-contract/src/instance_env.rs:175-183 | a key given twice has its first value |
| `ConfigReader.FigureExactly` | crates/guest-contract/src/instance_env.rs:184-189 | a figure is one or more digits, with or without a plus sign, below 2^32 |
| `ConfigReader.ArgumentsExactly` | crates/guest-contract/src/instance_env.rs:198-204 | the arguments are those numbered from 0 up to the first number missing, and a 65th refuses the file |
| `ConfigReader.NameserversExactly` | crates/guest-contract/src/instance_env.rs:191-196 | the first three of the nameservers between commas that are not empty |
| `ConfigReader.VariablesExactly` | crates/guest-contract/src/instance_env.rs:216-224 | all variables are expanded in order, if and only if every complete reference is offered |
| `ConfigReader.RefusedVariable` | crates/guest-contract/src/instance_env.rs:134-153 | a refusal names the first variable with a reference that is not offered, and that reference |
| `Firewall.ForwardVerdict` | crates/nft-render/src/firewall.rs:209-253 | the first-match verdict of the forward hook for every packet, instance list and deny list |
| `Firewall.PrefixExactly` | crates/nft-render/src/firewall.rs:16-23 | a prefix of so many bits holds exactly the addresses that agree with its base in those bits |
| `Firewall.PrivateExactly` | crates/nft-render/src/firewall.rs:16-23 | the private destinations, octet by octet |
| `Firewall.RangesExactly` | crates/nft-render/src/firewall.rs:10-10 | the metadata address, the guests' network and loopback, octet by octet |
| `Firewall.GuestReaches` | crates/nft-render/src/firewall.rs:209-253 | a new flow of a guest that leaves by no other guest's device is refused if and only if its destination is denied by the host or, by its first two octets, a private one |
| `Firewall.GuestsApart` | crates/nft-render/src/firewall.rs:209-253 | between guests nothing new passes, and nothing at all from a guest to what the host denies |
| `Firewall.ForwardRejectsExactly` | crates/nft-render/src/firewall.rs:209-253 | a packet is refused if and only if it goes from a guest to a denied range, goes around the proxy to an HTTP port, or opens a flow from a guest to the metadata address, a guest or a private range |
| `Firewall.InputVerdict` | crates/nft-render/src/firewall.rs:255-265 | no guest opens a flow into the host, and nothing else is refused there |
| `Firewall.NatVerdict` | crates/nft-render/src/firewall.rs:299-328 | a destination is rewritten exactly where some instance forwards the port, from outside for raw ports and from the host for all |
| `Firewall.NatExactly` | crates/nft-render/src/firewall.rs:299-328 | what arrives is rewritten if and only if it is not from a guest and for a raw port's host port, over TCP or UDP; what the host sends if and only if to 127.0.0.1 and for any port's, UDP only if raw; and then to that guest and port |
| `Firewall.ForwardsOnce` | crates/nft-render/src/firewall.rs:299-328 | with distinct host ports there is one place at most |
| `Firewall.HookCountsExactly` | crates/nft-render/src/firewall.rs:146-202 | at each hook a packet counts for an app if and only if the rules of the hook, said in words of the packet, let it through and it is to or from that app's guest |
| `Firewall.CountedOnce` | crates/nft-render/src/firewall.rs:146-202 | with distinct guest addresses no packet counts for two apps or two ways |
| `Firewall.OrderIrrelevant` | crates/nft-render/src/firewall.rs:146-328 | permuting the instances changes no verdict, rewritten destination or counter |
| `SharedState.StepKeepsLocksOk` | crates/nibrunnerd/src/state.rs:100-112 | every request, grant, cancellation and release keeps each claim on the one lock the map has for its app |
| `SharedState.RunKeepsLocksOk` | crates/nibrunnerd/src/state.rs:100-112 | the same over every interleaving |
| `SharedState.OneTransitionPerApp` | crates/nibrunnerd/src/state.rs:96-112 | in any run two guards of an app are one guard, and all its claims are on one lock, the map's |
| `SharedState.CallLeavesOnlyLiveEntries` | crates/nibrunnerd/src/state.rs:100-112 | after each call every map entry has a live guard or waiter |
| `SharedState.WaiterCanBeGranted` | crates/nibrunnerd/src/state.rs:100-112 | a waiter can be granted if and only if nobody holds its app: pruning strands nobody |
| `SharedState.RequestExactly` | crates/nibrunnerd/src/state.rs:100-112 | a request leaves every other task as it was and one more waiting, on the lock of the app's other tasks, or on one no task has |
| `SharedState.TableExactly` | crates/nibrunnerd/src/state.rs:100-112 | the map then has a lock for an app if and only if a task waits for it or holds it |
| `SharedState.GrantAndLeaveExactly` | crates/nibrunnerd/src/state.rs:100-112 | a grant makes its waiter the holder, a leave takes its task away, and nothing else changes |
| `SharedState.NextInLine` | crates/nibrunnerd/src/state.rs:100-112 | a waiter behind a holder cannot be granted, and can be once the holder leaves |
| `SharedState.CronRunningExactly` | crates/nibrunnerd/src/state.rs:130-135 | an app counts as running cron jobs if and only if a guard of it is alive |
| `SharedState.GuardAdded` | crates/nibrunnerd/src/state.rs:118-128 | taking a guard keeps counts equal to live guards |
| `SharedState.GuardDropped` | crates/nibrunnerd/src/state.rs:65-75 | dropping a guard never underflows and keeps counts equal to live guards |
| `SharedState.CronRunKeeps` | crates/nibrunnerd/src/state.rs:60-75 | over any interleaving of guards taken and dropped no count underflows, each is the number of live guards, and an app runs cron jobs exactly while one is alive |
| `SharedState.HostState.Transition` | crates/nibrunnerd/src/state.rs:100-112 | the synchronous part of the call is the request step and keeps the invariant |
| `SharedState.HostState.CronActivity` | crates/nibrunnerd/src/state.rs:118-128 | one more live guard of the app, nothing else changed |
| `SharedState.HostState.DropCronActivity` | crates/nibrunnerd/src/state.rs:65-75 | one fewer, nothing else changed |
| `SharedState.HostState.CronRunning` | crates/nibrunnerd/src/state.rs:130-135 | true if and only if a guard of the app is alive |
| `FreezeControl.Guest.FreezeTenantNow` | crates/init/src/guest/control.rs:126-146 | success means that the write went through, every look before the last found the tenant running and the last found it frozen; failure that the write or the last look failed or three seconds were over; it then leaves the tenant frozen only if it was or a thaw was lost, and without a lease exactly if nothing records it |
| `FreezeControl.Guest.AnswerFreeze` | crates/init/src/guest/control.rs:68-83 | the host is told only after it committed, of a tenant that reported itself frozen under a lease of 30 seconds, and is told if all goes well at once; a freeze it was not told of is undone |
| `FreezeControl.Guest.AnswerRelease` | crates/init/src/guest/control.rs:84-94 | the release succeeds if and only if the time arrives and is set, the thaw goes through and the host is told; the host's time is set before the tenant runs, and the lease is given up exactly then |
| `FreezeControl.Guest.AnswerVolume` | crates/init/src/guest/control.rs:95-123 | ignored under a lease, refused exactly if the freeze fails; the volume is frozen when the host is told, stays so until the host is found gone or 15 minutes are over, and is thawed on return |
| `FreezeControl.Guest.HoldVolume` | crates/init/src/guest/control.rs:106-122 | it waits until the first look that finds the host gone or the first after 15 minutes, never more than a tenth of a second between looks |
| `FreezeControl.Guest.Answer` | crates/init/src/guest/control.rs:55-124 | each request is answered and changes only what it is for, and the freeze invariant is kept |
| `FreezeControl.Guest.Turn` | crates/init/src/guest/control.rs:40-53 | an expired lease is released, and the tenant thawed, before the next request is taken, unless the thaw fails; the request is then answered |
| `FreezeControl.Guest.Serve` | crates/init/src/guest/control.rs:40-53 | over any number of turns: the tenant is frozen without a lease if and only if a lost thaw of it stands; unless a thaw was lost, and always if thaws succeed, a frozen tenant has a lease, the volume is thawed and both were never frozen at once |
| `FreezeControl.TenantStranded` | crates/init/src/guest/control.rs:126-146 | a run of one request that leaves the tenant frozen with no lease |
| `Capacity.PortsAreApart` | crates/nft-render/src/slot.rs:104-109 | every port of every slot is a valid port of that slot and place alone |
| `Capacity.ReservedExactly` | crates/nft-render/src/slot.rs:37-49 | the reserved range is exactly the ports the slots below the limit can use |
| `Capacity.SlotExactly` | crates/nft-render/src/slot.rs:84-125 | the ports, addresses, hardware address and device of a slot in figures |
| `Capacity.AddressesAreApart` | crates/nft-render/src/slot.rs:84-125 | addresses, hardware addresses and devices of slots are in range and pairwise distinct |
| `Capacity.WrappedIsModulo` | crates/nibrunnerd/src/adapters/net/allocator.rs:90-94 | the two truncating remainders compute the mathematical one, for negative cursors too |
| `Capacity.RingMeets` | crates/nibrunnerd/src/adapters/net/allocator.rs:96-101 | once round the ring from any cursor meets every slot |
| `Capacity.SlotAllocator.NextFree` | crates/nibrunnerd/src/adapters/net/allocator.rs:96-101 | the first free slot round the ring from the cursor is found, unless every slot is held |
| `Capacity.SlotAllocator.Allocate` | crates/nibrunnerd/src/adapters/net/allocator.rs:103-111 | an app keeps its slot, a new one gets the first round the ring that nobody holds and moves the cursor past it, and refusal means all are held |
| `Capacity.SlotAllocator.Release` | crates/nibrunnerd/src/adapters/net/allocator.rs:119-121 | one app's slot is given back, nothing else changes |
| `Capacity.SlotAllocator.Grow` | crates/nibrunnerd/src/adapters/net/allocator.rs:82-84 | the limit only rises |
| `Capacity.Daemon.Reload` | crates/nibrunnerd/src/reload.rs:171-197 | one request: the allocator's limit stays the configured one, never shrinks, all else stays fixed, a ZeroFS host never grows; growth happens exactly when the request asks for nothing else |
| `Capacity.AcceptedExactly` | crates/nibrunnerd/src/config.rs:1357-1407 | what the configuration's checks accept, in figures |
| `Capacity.Lives` | crates/nibrunnerd/src/reload.rs:171-197 | the same over any sequence of reloads, allocations and releases, with no port ever shared; an app that never leaves keeps its slot, and one that left for good has none |
| `Capacity.SafeMeansApart` | crates/nibrunnerd/src/config.rs:1357-1407 | in any state reached no listener's port is a slot's, and on a ZeroFS host the export reader's device is no app's |
| `Capacity.AppsAreApart` | crates/nft-render/src/slot.rs:84-125 | two apps never share a port, address, hardware address or device |
| `Patterns.ListExactly` | crates/protocol/src/wire.rs:278-286 | a pattern of pieces and separators matches a text exactly when splitting at the separators yields that many pieces, all matching |
| `Validators.ClassesExactly` | crates/protocol/src/wire.rs:125-286 | the classes of characters, code by code |
| `Validators.IdentifierExactly` | crates/protocol/src/wire.rs:125-135 | the identifier check accepts exactly the published pattern |
| `Validators.IsTimestamp` | crates/protocol/src/wire.rs:182-234 | the cursor-moving check accepts exactly the published pattern, its length bound implied by it |
| `Validators.LabelExactly` | crates/protocol/src/wire.rs:262-273 | the DNS label check accepts exactly the published pattern |
| `Validators.HostnameExactly` | crates/protocol/src/wire.rs:277-286 | the hostname check accepts exactly the published pattern within its length |
| `Addresses.Ipv4Exactly` | crates/protocol/src/wire.rs:296-308 | the published pattern accepts a text if and only if the check does and there is no plus sign in it |
| `Addresses.PlusAccepted` | crates/protocol/src/wire.rs:296-308 | a text with a plus sign that the check accepts and the pattern does not |
| `Validators.RepositoryExactly` | crates/protocol/src/control.rs:176-206 | the OCI repository check, which cuts at the first slash and colon, accepts exactly the published pattern within its length |
| `Validators.GuestPathExactly` | crates/protocol/src/domain.rs:728-746 | the guest path check accepts exactly the published pattern, its negative lookahead included, within its length |

## Left out

- Tar headers beyond metadata, gzip and zstd, SHA-256, JSON and TOML: a layer is a list of entries with a decoded length and a hash.
- Emission.RoundTrip: takes the archive to hold names, link texts and attribute records as they are written. The tar library's own writer may refuse some (a name with a zero byte) or normalise them (a link text with doubled slashes); it is not part of this model.
- Selecting a manifest from nested indexes (`manifests`, `archive_files`, `blob` in crates/oci-image/src/lib.rs) is not modelled.
- The rest of the route planner's file: `blockedMap`, `clearBetween`, `pulled`, and all drawing. Costs are exact reals, not floating point.
- Text of the ruleset, its IPv6 chains and the postrouting chain; rules are syntax trees with a first-match meaning.
- Activation.Host.Activate: takes the input files as fixed from the plan to the end; a receipt for files that changed is refused by `Certify`.
- FreezeControl.Guest.Answer: which request a line of text is, and the text of the handshake, are abstracted to what the host asked; a failed write to the freezer is taken to change nothing.
- InstanceEnv.RoundTrip: how the writer turns the backoff factor into text and the reader turns it back are left to the languages' number formatting: the text is given and reading it is a parameter. What the guest adds to a tenant's environment is not modelled.
- FileFrames.ListingRoundTrip: timestamps stay numbers of seconds, and repairing unreadable text is a parameter that leaves text alone.
- LogFrames.RestartRoundTrip: the clipping of an over-long reason is a parameter, and the reason is one that clipping leaves alone.
- Validators: text is its bytes, so a class that admits every non-ASCII character admits every non-ASCII byte.
- The rest of the host's configuration: only the app count, the two listener ports and the ZeroFS flag are named, all other settings are one opaque value.
- Restoring slot assignments from disk, sqlite repositories, sockets and the supervision of microVMs are I/O around the model.
