# The Resiliency Wreath, modelled and proved

Members of a wreath publish signed manifests together with content-addressed blobs. Agents that do
not trust each other pull these bundles, verify them, keep them on disk, relay them byte for byte and
probe one another. This project models that system in Dafny, from the bytes a signature covers up to
runs of many agents, and proves what it promises.

`dafny verify dfyconfig.toml` checks everything.

## How the project is laid out

| part | modules | main results |
|---|---|---|
| Bytes and numbers | `Basics`, `Decimal`, `Utf8` | decimal and UTF-8 round trips |
| Canonical JSON | `Json`, `JsonText`, `Utf16`, `KeyOrder`, `Jcs`, `Canonical`, `Grammar` | a reference parser that reads exactly the texts of the grammar of RFC 8259, round trip, injectivity, idempotence, independence from every way of writing, the UTF-16 order theorem, one sorted order of keys |
| Signed manifests | `Manifests`, `Signing` | which bytes verify, exactly; sign, encode and verify returns the manifest; the signed bytes determine it |
| The store | `Disk`, `Recovery`, `Store`, `History` | crash safety of every step of `Put`, cache and disk agree, durable monotonicity over any life |
| Replication | `Replication`, `Registries`, `Fetch` | the highest validly signed version wins; the loops compute exactly that |
| The wreath as a machine | `Protocol`, `Convergence`, `Relaying`, `Wiring` | authenticity in every reachable state, completeness in every state reached without a tear, agreement, convergence from any reachable state in as many rounds as hops, byte-stable relaying through store, disk and crashes |
| Probing | `Freshness`, `Probe` | sweep soundness, the grace window closes once |
| Publishing, serving, partitions | `Bundles`, `Serve`, `Partition` | the manifest as commit point, served bodies match the listed hash, the partition relation |

Code that changes state is modelled by classes and loops (`Jcs.Buffer`, `Disk.Members`, `Store.Store`,
`Fetch.Fetcher`, `Registries.Watcher`, `Probe.Prober`, `Serve.Handler`, `Bundles.BundleDir`,
`Partition.PartitionTable`). Each method is proved against a function or predicate on values, and the
theorems are about those.

## What is taken as given

* Ed25519, SHA-256, base64 and RFC 3339 are functions in the record `Manifests.Primitives`. Nothing is
  assumed of them globally. `Lawful` says that honest use works: what was signed verifies, decoding
  undoes encoding, hashes look like hashes. Unforgeability is a hypothesis on what the sources of one
  synchronization may answer (`Protocol.Feasible`): bytes that verify under the member's key carry a
  payload that is in the set of messages its owner signed. Freedom from collisions is only ever asked
  of the contents at hand.
* Strings are sequences of Unicode scalar values. Received bytes are decoded as Go does it, with U+FFFD
  for a malformed byte.
* A disk operation may succeed, fail, or be the last before a crash. When it does not succeed, whatever
  it was working on is left in an arbitrary state; a removal leaves some part of what was there; a
  rename is all or nothing. Writes reach the disk in program order. Operations that do not succeed are
  counted, so that contracts can say when an error is excused.
* Map iteration order is arbitrary: keys, blobs, directory entries and metadata are taken in any order.

## Where the code and its documentation part

* `CanonicalizeJSON` is meant to reject trailing data, but the check it uses does not see a closing
  bracket. `Grammar.CanonicalExactly` says exactly which bytes are accepted, and
  `Canonical.TrailingBracketIsAccepted` gives an input.
* Anti-rollback compares with the version held, not with the highest version seen.
  `History.ServedBelowSeen` gives the exact condition under which a stored bundle is as new as
  anything seen, and `History.OlderThanSeenIsStored` builds, for any mark, the state in which it is not.
* A reader of a bundle directory is promised every blob the manifest names. The publisher can tell
  beforehand whether that survives a stop of the writes: it does exactly if writes are atomic or no new
  blob has a name that is being served (`Bundles.StopsAreServable`; `Bundles.TornBlob` gives what a
  torn write may leave).
* The grace window is only open if the highest version has an anchor. If the fetcher notes a version
  in the middle of a sweep there is none yet (`Freshness.NoGraceWithoutAnchor`), and
  `Freshness.StaleExactly` says when a holder is called stale.
* Traffic within a group is meant to flow. It does exactly when no node is listed in two groups
  (`Partition.SameGroupTalks`; `Partition.OverlapCutsOff` gives the groups).
* A put that reports an error is meant to have changed nothing. Over a directory that was skipped when
  the store was opened this holds, wherever the put stops before the swap, exactly if the current file
  there does not name the very version being written (`Store.ErrorKeepsExactly`). Otherwise the new bundle
  can be in force although an error was reported, and the table does not know of it: a directory of which
  only the current file is left, and a swap that fails, are enough (`Store.ErrorInstalls`).
* A stop of a further put leaves such a bundle whole, wherever it comes, exactly if that put is of another
  version (`Store.StrayIsKeptExactly`). A put of the same version can leave the manifest without its
  blobs, which recovery then takes for held, so that every put of a manifest of that version is refused
  (`Store.StrayCanTear`). `History.LostCanTear` is the whole life that leads there from a directory of
  which only the current file is left. An agent torn at the newest version stays so whatever it is
  offered (`Convergence.TornStaysTorn`). For members that loaded, none of this can happen
  (`Store.PreparationIsKept`, `Store.Store.Put`, `History.CrashSafety`).

## Model

| member | source | states |
|---|---|---|
| `Utf16.LessUTF16` | internal/wire/jcs.go:125-134 | the loop decides the lexicographic order of the two UTF-16 encodings, a proper prefix first |
| `Utf16.LessIsRankLess` | internal/wire/jcs.go:121-134 | comparing UTF-16 code units is comparing code points once the supplementary planes are moved between U+D7FF and U+E000 |
| `Utf16.LessIsStrictTotalOrder` | internal/wire/jcs.go:121-134 | the key order is irreflexive, transitive, total and asymmetric on all strings |
| `KeyOrder.SortedIsAscending` | internal/wire/jcs.go:97-102 | a set of names has exactly one sorted enumeration |
| `KeyOrder.SortIsAscending` | internal/wire/jcs.go:97-114 | whatever order the map was walked in, sorting the names gives the same sequence |
| `Decimal.ParseFormatInt` | internal/wire/jcs.go:76-83 | parsing what was formatted returns every 64-bit signed integer |
| `Decimal.FormatIntIsShortest` | internal/wire/jcs.go:83-83 | no numeral of the same value is shorter than the one printed |
| `Utf8.DecodeEncode` | internal/wire/jcs.go:142-162 | decoding the bytes written for a string, rune by rune, returns the string |
| `Utf8.DecodeRuneExactly` | internal/wire/jcs.go:44-50 | the front of any bytes is read as a character if and only if it is that character's encoding, and otherwise one byte is replaced |
| `JsonText.ParseRender` | internal/wire/jcs.go:44-50 | a parser reads back from a text rendered in one style, that is with fixed escapes, space by depth and space after colons, and with any rest behind it, exactly the value it denotes and leaves exactly the rest |
| `Jcs.AppendString` | internal/wire/jcs.go:140-167 | the buffer grows by the quoted string with the canonical escapes and nothing else changes in it |
| `Jcs.CollectKeys` | internal/wire/jcs.go:98-101 | every name once, in an order nobody chose |
| `Jcs.AppendCanonical` | internal/wire/jcs.go:61-119 | for every map order: the error is the first unsupported number in output order, and without one the buffer grows by the canonical text of the value |
| `Jcs.AppendArray` | internal/wire/jcs.go:86-96 | the loop over the elements appends the canonical text of the array or stops at its first error |
| `Jcs.AppendObject` | internal/wire/jcs.go:97-114 | collecting the keys in any order, sorting and printing them appends the canonical text of the object or stops at its first error |
| `Jcs.CanonicalizeJSON` | internal/wire/jcs.go:44-59 | the loops and the buffer compute the canonical bytes of the first value of the document, or the error that comes first |
| `Canonical.CanonicalIsGood` | internal/wire/jcs.go:136-167 | every canonical escape is read back as the character it stands for |
| `Canonical.FailsIffUnsupported` | internal/wire/jcs.go:72-83 | canonicalization fails if and only if some number at some depth is not digits after an optional minus sign with a value of at most 2^53 - 1 in absolute value |
| `Canonical.NumberVerdict` | internal/wire/jcs.go:72-83 | of every number as JSON has it, told from its text: which of the three errors it gets, or that it is accepted |
| `Canonical.IntegersAccepted` | internal/wire/jcs.go:72-83 | an integer has canonical bytes, its own numeral, if and only if it lies between -(2^53 - 1) and 2^53 - 1 |
| `Canonical.NormalNumberIsValue` | internal/wire/jcs.go:76-83 | two accepted numbers are printed alike if and only if they have the same value, and no spelling of it is shorter |
| `Canonical.TextIs` | internal/wire/jcs.go:61-119 | the canonical text case by case: the literals, decimal numbers, elements with commas and no space between them, and members in key order as quoted name, colon and value |
| `Canonical.OrderedDenotesNormal` | internal/wire/jcs.go:61-119 | sorting and reprinting numbers does not change the value but for the spelling of numbers |
| `Canonical.OrderedIsInKeyOrder` | internal/wire/jcs.go:97-114 | every object printed, at every depth, has its members in strictly ascending key order |
| `Canonical.EscapeIsShortest` | internal/wire/jcs.go:136-167 | no way of writing a character inside a string literal is shorter than the one chosen |
| `Canonical.EscapeIsTheOnly` | internal/wire/jcs.go:136-167 | of the ways of writing a character that are as short as the canonical one, it is the only one without upper-case digits |
| `Canonical.RoundTrip` | internal/wire/jcs.go:61-119 | parsing the canonical text followed by any rest returns exactly the value and that rest |
| `Canonical.NormalIsStable` | internal/wire/jcs.go:72-83 | normalizing numbers twice is normalizing once, and does not change what is supported |
| `Canonical.BytesDetermineValue` | internal/wire/doc.go:14-21 | two values have the same canonical bytes if and only if they are equal up to the spelling of numbers |
| `Canonical.Idempotent` | internal/wire/jcs.go:44-59 | canonical bytes are their own canonical form |
| `Canonical.CanonicalOfDocument` | internal/wire/jcs.go:44-59 | the canonical bytes of a value rendered in one style are those of the value; trailing text is an error exactly when it starts, after space, with something other than a closing bracket |
| `Canonical.SucceedsIffReads` | internal/wire/jcs.go:44-59 | any bytes have a canonical form if and only if their first value is supported and behind it, after space, there is nothing but possibly a closing bracket and what follows that |
| `Canonical.LayoutIsIrrelevant` | internal/wire/doc.go:14-21 | for any two byte sequences with a first value each, the canonical bytes exist and are the same if and only if the values are supported and equal up to the spelling of numbers |
| `Canonical.TrailingBracketIsAccepted` | internal/wire/jcs.go:51-53 | an input with trailing data that is not rejected |
| `Grammar.NumbersExactly` | internal/wire/jcs.go:44-50 | the numbers the parser reads are those of the grammar: sign, integer part without leading zeros, fraction, exponent |
| `Grammar.ReadIsPiece` | internal/wire/jcs.go:44-50 | what the parser reads as one character of a string is a plain character, a short escape, a unit, a surrogate pair, or a lone surrogate, which stands for U+FFFD |
| `Grammar.PieceIsRead` | internal/wire/jcs.go:44-50 | and every such piece is read as its character, whatever stands behind the closing quote |
| `Grammar.ValueIsText` | internal/wire/jcs.go:44-50 | whatever the parser reads as a value is a text of that value by the grammar of RFC 8259 |
| `Grammar.TextIsRead` | internal/wire/jcs.go:44-50 | every text of a value, in any layout and with any escapes, is read as that value, and the rest is left |
| `Grammar.DocumentsExactly` | internal/wire/manifest.go:165-203 | the documents accepted are exactly those of the grammar, space around one value, with the value they stand for |
| `Grammar.OneValue` | internal/wire/doc.go:14-21 | a document stands for one value only |
| `Grammar.CanonicalExactly` | internal/wire/jcs.go:44-59 | any bytes have given canonical bytes if and only if they open with a text, by the grammar, of a supported value of which those are the canonical text, and no trailing data is seen |
| `Grammar.WritingIsIrrelevant` | internal/wire/doc.go:14-21 | however two documents are written, their canonical bytes are the same if and only if their values are equal up to the spelling of numbers |
| `Manifests.SegmentsAre` | internal/wire/manifest.go:73-77 | the split at slashes gives every stretch between slashes, in order, where it stands |
| `Manifests.ValidBundlePath` | internal/wire/manifest.go:58-79 | both loops decide legality, read off the characters: 1 to 512 bytes, no control character or backslash, and nothing between two slashes, or between a slash and an end, is empty, a dot or two dots |
| `Manifests.ValidateFiles` | internal/wire/manifest.go:98-118 | no report means legal entries with distinct paths and the total returned; a report is about a file or a pair of files that is really there |
| `Manifests.ValidateMetadata` | internal/wire/manifest.go:119-126 | no report if and only if every entry and the number of entries are within bounds |
| `Manifests.Validate` | internal/wire/manifest.go:82-128 | accepts exactly the structurally valid manifests, and says a true reason otherwise |
| `Manifests.ValidMeans` | internal/wire/manifest.go:44-128 | structural validity spelled out with its characters and its limits |
| `Manifests.JustifiedMeansInvalid` | internal/wire/manifest.go:82-128 | no reason that can be reported is true of a valid manifest |
| `Signing.GoStylesAreGood` | internal/wire/manifest.go:165-174 | the compact and the indented encoding, with their extra escapes, are styles a parser undoes |
| `Signing.ManifestTreeDenotes` | internal/wire/manifest.go:29-42 | the encoded struct denotes one JSON value, whatever the order of its metadata |
| `Signing.DecodeManifestJson` | internal/wire/manifest.go:210-217 | decoding the JSON value of a valid manifest returns the manifest |
| `Signing.DecodesExactly` | internal/wire/manifest.go:210-217 | a manifest is decoded from an object if and only if each field is what the member of its name says, a missing or null member being the zero value; members of other names do not matter |
| `Signing.StructPathIsCanonical` | internal/wire/manifest.go:132-142 | marshal, parse and print gives the canonical bytes of the manifest's value, for every map order |
| `Signing.SignsExactly` | internal/wire/manifest.go:130-143 | exactly the valid manifests are signed, and the signature is over the canonical bytes of the manifest's value |
| `Signing.EnvelopeParses` | internal/wire/manifest.go:165-203 | the generic parse of the pretty-printed envelope finds the manifest's value and the signature |
| `Signing.SignEncodeVerify` | internal/wire/manifest.go:130-218 | signing, encoding and verifying returns the manifest whenever the envelope fits the limit, and is refused as too large otherwise |
| `Signing.EncodedIsStored` | internal/store/store.go:144-155 | the store's structural parse of an encoded envelope returns the manifest |
| `Signing.DecodeOfNormal` | internal/wire/manifest.go:199-217 | the struct decoder does not see how numbers were spelled, so it agrees with what the signature covers |
| `Signing.VerifiesExactly` | internal/wire/manifest.go:176-218 | any bytes verify as a manifest if and only if they are within the limit, are an object whose signature is 64 bytes that the key accepts for the canonical bytes of its manifest member as received, that member is supported, and the valid manifest is what its members say |
| `Signing.RejectedExactly` | internal/wire/manifest.go:184-218 | of a document with payload and signature: which check fails it, each exactly in its case |
| `Signing.RefusedUnread` | internal/wire/manifest.go:184-194 | too large a document, one that is null or has no payload, and one that is no envelope are each refused for that |
| `Signing.EveryMemberIsSigned` | internal/wire/manifest.go:176-182 | objects that differ in any member, known or not, have different signed bytes |
| `Signing.UnknownMembersArePassedOver` | internal/wire/manifest.go:176-182 | a member that is no field of the manifest does not change what is decoded |
| `Signing.VerifiedIsStored` | internal/wire/manifest.go:184-218 | verified bytes decode to the same valid manifest without the signature check, and the key accepts a signature over their payload |
| `Signing.PayloadDeterminesManifest` | internal/wire/doc.go:14-21 | two verified documents with the same signed bytes carry the same manifest, whatever their layout and keys |
| `Signing.PayloadIsManifest` | internal/wire/doc.go:14-21 | if the signed bytes are those of a valid manifest, verification returns that manifest |
| `Disk.Members.RemoveAll` | internal/store/store.go:187-189 | done, the entry is gone; otherwise some part of it is left; nothing else changes |
| `Disk.Members.WriteFile` | internal/store/store.go:210-212 | done, the file has the data; otherwise anything may be under its name; nothing else changes |
| `Disk.Members.Rename` | internal/store/store.go:205-215 | all or nothing, also in a crash |
| `Recovery.ReadVersionLine` | internal/store/store.go:112-142 | a version directory's name survives the pointer file and parses to its version |
| `Recovery.LoadIgnores` | internal/store/store.go:94-135 | loading sees no change to entries that the current file does not name |
| `Recovery.TrimSpaceIs` | internal/store/store.go:112-112 | white space is taken off both ends of what a pointer file holds and nothing else |
| `Recovery.LoadsExactly` | internal/store/store.go:94-135 | a bundle is found if and only if the current file names a version directory whose manifest is of that version and member; without a current file there is at most a mark; everything else does not load |
| `Recovery.LoadCommitted` | internal/store/store.go:94-135 | once the current file names a complete version directory, loading finds exactly that bundle |
| `Recovery.ShrunkStaysIntact` | internal/store/store.go:218-224 | an interrupted removal leaves no blob that differs from its name |
| `Recovery.BuiltStaysIntact` | internal/store/store.go:184-207 | putting a complete directory in place keeps every blob on disk equal to its hash |
| `Store.PreparationIsKept` | internal/store/store.go:184-207 | for a member that loaded, until the pointer is swapped recovery finds the old state, whatever is left of the new version |
| `Store.CorruptStays` | internal/store/store.go:184-207 | while a version is prepared, a directory that did not load still does not, unless its current file names that very version: then it may already load as exactly the new bundle |
| `Store.ErrorKeepsExactly` | internal/store/store.go:184-215 | every state in which a put can stop before the swap leaves a directory that did not load as it was, if and only if the current file there does not name the version being written |
| `Store.ErrorInstalls` | internal/store/store.go:184-215 | a concrete directory, of which only the current file is left, over which a put reports a disk error although its bundle is in force and the table does not know of it |
| `Store.SwapInstalls` | internal/store/store.go:208-215 | once it is swapped, recovery finds exactly the new bundle |
| `Store.SwapStopped` | internal/store/store.go:208-215 | a swap that fails or crashes leaves recovery the old state, or after a crash possibly the new bundle |
| `Store.StrayStops` | internal/store/store.go:184-207 | what a put that stops before the swap can make of a bundle the table does not know of: one of another version stays, one of the same version is removed, reduced to part of its blobs, or replaced by exactly the new bundle |
| `Store.StrayIsKeptExactly` | internal/store/store.go:184-207 | every stop of a put leaves a bundle the table does not know of whole, if and only if the put is of another version |
| `Store.StrayCanTear` | internal/store/store.go:169-207 | over any such bundle of the version being put, a stop of the removal after which recovery finds the manifest without a blob, and every put of any manifest of that version is then refused as already held |
| `Store.ReopenedIsValid` | internal/store/store.go:62-135 | what is loaded agrees with the disk; what is skipped is no promise |
| `Store.HeldIsKnown` | internal/store/store.go:43-52 | for a member that loaded, the version, bytes and manifest in memory are those recovery would find; for a directory that does not load both have none |
| `Store.Store.Open` | internal/store/store.go:59-90 | the bundles it answers for are exactly those that the members' directories hold, with the version and the larger of version and mark; every directory that does not load is skipped, and the table agrees with the disk |
| `Store.Store.FillTemp` | internal/store/store.go:186-200 | touches the temporary name only and, done, holds every blob and the manifest there |
| `Store.Store.WriteVersionDir` | internal/store/store.go:184-207 | touches the version's two names only, done it is complete, under its final name there is never anything but the new directory or part of the old, and no blob on disk ever differs from its hash |
| `Store.Store.SwapPointer` | internal/store/store.go:208-215 | the pointer is swapped, or on failure not, or in a crash one of the two |
| `Store.Store.Prune` | internal/store/store.go:217-224 | only superseded version directories change, however far it gets, and without mishaps exactly they are gone |
| `Store.Store.PersistSeen` | internal/store/store.go:258-272 | only the mark changes, and it is the old or the new number wherever it stops |
| `Store.Store.Install` | internal/store/store.go:184-224 | recovery sees the old state until it sees the new bundle, at every point where the disk side can stop |
| `Store.Store.Settle` | internal/store/store.go:226-240 | the table entry becomes the new bundle's and the mark the larger of the two |
| `Store.Store.Commit` | internal/store/store.go:184-240 | success, error and crash each leave exactly the old or the new bundle; for a member that loaded an error leaves memory and recovery as they were; errors come only from a disk operation that did not succeed |
| `Store.Store.Put` | internal/store/store.go:157-240 | wrong member, lower version, same version and missing blob are each refused exactly in their case and without any effect; otherwise as Commit; a success answers for the new bundle from then on; memory and disk agree after every return; without mishaps the files of the new version, no other, and the raised mark are on disk |
| `Store.Store.NoteSeen` | internal/store/store.go:242-256 | the mark becomes the larger of the two in memory, on disk the old or the new one; the bundle is untouched |
| `Store.Store.VersionIsSeen` | internal/store/store.go:131-133 | the version held never exceeds the highest version seen |
| `Store.Store.OthersStay` | internal/store/store.go:162-240 | an operation on one member leaves every other member's agreement with the disk |
| `History.PutKeeps` | internal/store/store.go:162-240 | a put keeps the store sound and lowers neither the version nor the mark, and with the version the bundle stays |
| `History.NoteKeeps` | internal/store/store.go:242-256 | a sighting keeps the store sound and lowers neither the version nor the mark, and with the version the bundle stays |
| `History.ReopenKeeps` | internal/store/store.go:62-135 | stopping anywhere and opening again keeps the store sound and lowers neither the version nor the mark, and with the version the bundle stays |
| `History.DurableMonotonicity` | internal/store/store.go:208-272 | over any sequence of puts, sightings, crashes and reopenings, every answer of Version or SeenVersion bounds all later ones from below, seen is at least version, no held bundle is incomplete, and while the version stays so do the envelope and the blobs |
| `History.CrashSafety` | internal/store/store.go:184-224 | a put cut short anywhere and a reopening give exactly the old bundle, version and mark or exactly the new ones, complete in both cases |
| `History.ServedBelowSeen` | internal/store/store.go:169-177 | what is served after a put is the newest version seen if and only if the put was at least as new as the mark |
| `History.OlderThanSeenIsStored` | internal/store/store.go:169-177 | for every mark and every older bundle, a state in which that bundle is stored |
| `History.LostCanTear` | internal/store/store.go:62-207 | the life from a directory of which only the current file is left to a torn bundle: the store opens, a put fails, a second one is cut short, the store opens again and holds the manifest without its blobs |
| `Registries.FindMember` | internal/wire/registry.go:104-111 | the scan returns the first member with the id, if there is one |
| `Registries.LookupFindsTheOnly` | internal/wire/registry.go:79-111 | in a valid registry the member found for an id is the only one |
| `Registries.MemberKeyIsOwn` | internal/wire/registry.go:113-121 | in a registry with distinct ids a member's key is what its own public key decodes to, if that is 32 bytes |
| `Registries.UnknownHasNoKey` | internal/wire/registry.go:104-121 | an id is unknown, and without a key, if and only if no member has it |
| `Registries.Validate` | internal/wire/registry.go:63-101 | accepts exactly the registries with a bounded number of valid members under distinct ids |
| `Registries.Watcher.Reload` | internal/registry/registry.go:76-106 | an error changes nothing and is returned for its reason; the version never falls; the registry is replaced exactly by one that verified, is not older, and comes from a file that looks changed |
| `Registries.ReloadsAreMonotone` | internal/registry/registry.go:76-106 | over any series of reloads the version never falls, and the registry in force is the first one or one that was verified |
| `Registries.RotatedKeysStayOut` | internal/registry/registry.go:76-106 | a key that only older registries list never comes back into force |
| `Replication.BestIsFirstHighest` | internal/fetch/fetch.go:157-185 | the winner is the first source with the highest of all valid offers, and beats what is held |
| `Replication.MarkIsHighest` | internal/fetch/fetch.go:164-185 | the mark ends at the highest of the old mark and all valid offers |
| `Replication.OthersAreTheRest` | internal/fetch/fetch.go:234-242 | every source but the preferred one is in the fallback order |
| `Replication.FirstBlobFinds` | internal/fetch/fetch.go:210-232 | a blob is had if and only if some source answers it with the listed hash and size |
| `Replication.BlobTaken` | internal/fetch/fetch.go:210-232 | a blob is taken from the preferred source if its body is right, otherwise from the first source whose body is, and from none if there is none |
| `Replication.GatherIsComplete` | internal/fetch/fetch.go:195-202 | gathered blobs match their hashes and none the manifest names is missing |
| `Replication.GatherSucceeds` | internal/fetch/fetch.go:195-232 | if one source answers every blob rightly, gathering succeeds whatever the others do |
| `Replication.SelectedIsSound` | internal/fetch/fetch.go:164-203 | a selected bundle is verified, for this member, newer than what is held, complete, and in the bytes some source sent |
| `Replication.HighestWins` | internal/fetch/fetch.go:154-208 | nothing older than what is held or than any valid offer is ever taken, nor below the mark after it; without a winner nothing valid was newer |
| `Fetch.SourcesFor` | internal/fetch/fetch.go:112-136 | the origin first, then exactly the agents of the other members that run one |
| `Fetch.PeersAre` | internal/fetch/fetch.go:118-134 | each peer source is a member that runs an agent other than the fetcher's own, once, in the order of the registry |
| `Fetch.NoPeerIsMissed` | internal/fetch/fetch.go:118-134 | and every such member is among them |
| `Fetch.PeerIsSource` | internal/fetch/fetch.go:112-136 | every other member that runs an agent is asked |
| `Fetch.OtherIndices` | internal/fetch/fetch.go:234-242 | the loop lists the remaining sources in order |
| `Fetch.GetBlob` | internal/fetch/fetch.go:214-232 | the loop returns the preferred source's body if it has the listed hash and size, otherwise the first right body of the others, and nothing if there is none |
| `Fetch.GatherBlobs` | internal/fetch/fetch.go:195-202 | the loop gathers the blobs of all files or stops at the first that cannot be had |
| `Fetch.Fetcher.Hear` | internal/fetch/fetch.go:164-181 | hearing one source yields its valid offer if there is one, raises the mark to it, and leaves what is held |
| `Fetch.Fetcher.Poll` | internal/fetch/fetch.go:154-185 | hearing every source yields the winner, counts the sources without a valid offer, raises the mark, and leaves what is held |
| `Fetch.Fetcher.Note` | internal/fetch/fetch.go:181-181 | noting a version leaves the held bundle and every other member |
| `Fetch.Fetcher.Keep` | internal/fetch/fetch.go:203-207 | the verified bundle is stored, or what is held is what a stopped put can leave |
| `Fetch.Fetcher.Adopt` | internal/fetch/fetch.go:186-208 | the winner is stored with all its blobs; a missing blob leaves what is held; a failure or interruption leaves what a stopped put can leave, and over a directory that did not load the new bundle only if the current file there named its version |
| `Fetch.Fetcher.SyncFrom` | internal/fetch/fetch.go:154-208 | over the real store and from every state it can leave a member in, it leads to such a state again; an update leaves exactly the selected bundle and a table that knows of it; a failed put leaves the held bundle of a member that loaded, an interruption the old or the selected one; over a bundle the table does not know of they may also lose or tear it; every other outcome leaves what was held and is returned for its reason |
| `Fetch.EffectIsSynced` | internal/fetch/fetch.go:154-208 | without a failing disk the whole effect is that of the replication function |
| `Fetch.HighestIsHeld` | internal/fetch/fetch.go:138-208 | without an error the held version is the highest of the old one and all valid offers and comes from the first source that offers it; the mark bounds every offer; with an error the bundle of a member that loaded stays |
| `Fetch.Fetcher.Target` | internal/fetch/fetch.go:140-151 | no registry, an unknown member and a bad key are each returned exactly in their case; otherwise the member as listed and what its own public key decodes to |
| `Fetch.Fetcher.SyncMember` | internal/fetch/fetch.go:138-208 | each early error changes nothing and is returned exactly in its case; for a listed member it has the effect of SyncFrom over the registry's sources and under that member's own decoded key, and a failure of the store only if a disk operation did not succeed |
| `Protocol.StepKeepsGenuine` | internal/fetch/fetch.go:140-208 | no step of signing, listing keys, synchronizing, crashing, noting, wiping, losing or tearing leaves a held bundle without a signature under a listed key or with a blob that does not match its name |
| `Protocol.RegularKeepsComplete` | internal/fetch/fetch.go:140-208 | no step but a tear makes a held bundle incomplete |
| `Protocol.Authenticity` | internal/fetch/fetch.go:164-203 | in every reachable state every held bundle carries a payload that the owner of a key listed for the member signed, and every blob held matches its hash |
| `Protocol.Completeness` | internal/fetch/fetch.go:195-203 | in every state reachable without a tear every held bundle has every blob its manifest names |
| `Protocol.Agreement` | internal/fetch/fetch.go:195-206 | without equivocation two agents at one version of a member hold the same payload and manifest, and the same content for every file both have; without a tear that is every file |
| `Relaying.Hop` | internal/serve/serve.go:103-122 | after a synchronization that updated, a request for the manifest over the same store is answered with the winning source's bytes |
| `Relaying.AnswersWhatIsHeld` | internal/store/store.go:274-283 | a running relay answers the envelope that recovery would find on its disk, a stopped one nothing |
| `Relaying.AnswerFromReplica` | internal/serve/serve.go:112-135 | the handler of a running agent answers requests for the manifest and for a blob as the convergence theorem takes an honest holder to answer |
| `Relaying.RelayIsVerbatim` | internal/serve/serve.go:103-122 | a relay that took an envelope answers it byte for byte after any puts refused, sightings, crashes and reopenings that left the version |
| `Relaying.RelaysAreVerbatim` | internal/serve/serve.go:103-122 | along any chain of relays, each with its own keys and crashes, every one answers the envelope the first one took |
| `Convergence.CurrentStays` | internal/store/store.go:169-177 | an agent that holds the newest version keeps it and keeps its bundle as it is, whatever it is offered, so that all its answers are those of one state |
| `Convergence.NeighborCatchesUp` | internal/fetch/fetch.go:164-232 | an agent that reaches an honest holder of the newest version holds it after one synchronization, even if the winning envelope came from a source that withholds or corrupts the blobs |
| `Convergence.TurnCatchesUp` | internal/fetch/fetch.go:88-103 | wherever in the round its turn comes, it ends the round with the newest version |
| `Convergence.Convergence` | internal/fetch/fetch.go:138-232 | after d rounds everyone within d honest hops of a holder of the newest version holds it complete, whatever dishonest sources and honest holders that are behind answer in between |
| `Convergence.ReachableIsTame` | internal/fetch/fetch.go:164-203 | in a reachable state nobody is ahead of the newest version, whatever older keys the member has had, and an agent is behind or current if and only if it is not torn at the newest version |
| `Convergence.ConvergenceFromAnyRun` | internal/fetch/fetch.go:138-232 | the same from any state that any run of the protocol can reach, with any holders beside the synchronizing agents, among agents that are not torn at the newest version |
| `Convergence.RegularIsUntorn` | internal/fetch/fetch.go:195-203 | in a run without a tear no agent is torn |
| `Convergence.TornStaysTorn` | internal/store/store.go:169-177 | an agent that holds the newest version incomplete keeps it as it is through any turns, whatever it is offered |
| `Convergence.TurnIsSync` | internal/fetch/fetch.go:138-208 | a turn of the convergence theorem is a step of the protocol machine |
| `Wiring.WireIsSensible` | internal/wire/manifest.go:184-218 | all that the protocol assumes of verification is true of the wire format |
| `Wiring.EffectIsStep` | internal/fetch/fetch.go:138-208 | what the fetcher does to a member is a regular step of the protocol machine, interrupted or not, also over a directory that did not load; over a bundle the table does not know of it is two steps at most, of which one may be a tear |
| `Wiring.EffectIsTurn` | internal/fetch/fetch.go:138-208 | what the fetcher does to a member on a disk that does not fail is a turn of the convergence theorem |
| `Wiring.PayloadOfPublished` | internal/wire/doc.go:14-21 | what verifies under a key whose owner signs only published manifests is one of them, and its signed bytes are that manifest's |
| `Wiring.HeldIsPublished` | internal/fetch/fetch.go:164-203 | in every reachable state, whatever an agent holds for a member was published by that member and every blob it has matches its hash; without a tear every blob is there |
| `Wiring.OnePerVersionAgrees` | internal/wire/manifest.go:25-28 | a member that publishes one manifest per version does not equivocate, whatever keys it has used |
| `Wiring.PublishedIsStable` | internal/wire/manifest.go:25-28 | that the newest manifest is the newest published is all convergence needs to know of the existing signatures |
| `Freshness.HighestIsUnique` | internal/probe/probe.go:207-212 | whatever order the anchors are walked in, the loop ends at the one highest version |
| `Freshness.ObservedFits` | internal/probe/probe.go:196-246 | recording an observation gives a fitting verdict and keeps every earlier fitting verdict fitting, also when it reveals a newer version |
| `Freshness.SweepSoundness` | internal/probe/probe.go:96-125 | after a sweep every verdict it gave is fresh exactly when healthy, and no healthy holder is behind the highest version outside its grace window |
| `Freshness.AnchorsAreFixed` | internal/probe/probe.go:179-194 | over any run of sweeps anchors never change and the highest version never falls |
| `Freshness.VerdictByClock` | internal/probe/probe.go:213-224 | in a sweep that learns nothing newer the verdict on a lagging holder depends on the anchor and the clock alone |
| `Freshness.GraceWindow` | internal/probe/probe.go:213-224 | while the highest version stays, a holder that keeps answering at a lower one is healthy to the end of the window, stale after it, and never healthy again |
| `Freshness.StaleExactly` | internal/probe/probe.go:213-224 | told from the state before: a holder will be called stale if and only if it lags behind the highest version known and that version's window is not open |
| `Freshness.CellAfter` | internal/probe/probe.go:196-246 | at the end of a sweep a holder's cell has the version it was observed with and its status, but for lagging |
| `Freshness.NoGraceWithoutAnchor` | internal/probe/probe.go:213-224 | a version noted by the fetcher in mid-sweep makes a laggard stale at once |
| `Probe.SightingsArePlausible` | internal/probe/probe.go:127-177 | only healthy observations carry a version, and they always do |
| `Probe.SightingsAreDistinct` | internal/probe/probe.go:108-125 | a sweep asks every member that runs an agent exactly once |
| `Probe.VerdictsFit` | internal/probe/probe.go:96-125 | after a sweep every holder that runs an agent has a fitting verdict |
| `Probe.VerdictsSay` | internal/probe/probe.go:96-177 | after a sweep every holder's cell says what it answered: missing for a 404, unreachable for no answer or another status, invalid without a key or for a body that is too large, does not verify or is for another member, and otherwise the version of the verified manifest |
| `Probe.Prober.NoteVersion` | internal/probe/probe.go:179-194 | an anchor is set on first sight and never moved; no other member is touched |
| `Probe.Prober.Record` | internal/probe/probe.go:196-246 | the loop over the anchors and the update of the cell record exactly the verdict against the highest version |
| `Probe.Prober.Observe` | internal/probe/probe.go:127-177 | the status is told from the answer by cases, for another holder and for the agent itself, the version is that of the verified manifest or the one held, and a valid version reaches the store |
| `Probe.Prober.ProbeHolder` | internal/probe/probe.go:108-124 | one holder is recorded once for every member, from what each had before |
| `Probe.Prober.NoteAll` | internal/probe/probe.go:103-107 | every member starts with an anchor for what the store has seen |
| `Probe.Prober.Sweep` | internal/probe/probe.go:96-125 | the nested loops have exactly the effect of a sweep on each member, and every cell says what its holder answered under the member's own key; without a registry none; it is cut short only by a failing disk |
| `Serve.FindFile` | internal/serve/serve.go:192-199 | the scan returns the first entry with the path, if there is one |
| `Serve.PathsServed` | internal/serve/serve.go:149-161 | every file is found at its path, with or without a leading slash, and the index page at the root |
| `Serve.IndexServed` | internal/serve/serve.go:149-161 | an index page is found at its directory, and at the directory's name unless a file has that name |
| `Serve.OnlyPathsServed` | internal/serve/serve.go:149-161 | a path leads to nothing but the file of that path or an index page below it |
| `Serve.Handler.OpenBlob` | internal/serve/serve.go:174-178 | a file that can be opened under a blob's name has that hash, also in the middle of a put |
| `Serve.Handler.ListedIsThere` | internal/store/store.go:305-320 | while nothing is being stored, the file of every blob the member's current manifest names is on disk, whatever state other members are in |
| `Serve.Handler.ServeBundleFile` | internal/serve/serve.go:141-190 | a body sent has the hash listed for the path in the manifest held when the request came, whatever is stored meanwhile; not found exactly when nothing is held or listed; if nothing is stored meanwhile never an error, and every file is served at its path |
| `Serve.Handler.ServeManifest` | internal/serve/serve.go:112-122 | the envelope on disk byte for byte, whenever the member's directory holds a bundle the table knows of |
| `Serve.Handler.ServeBlob` | internal/serve/serve.go:123-135 | a body sent has the hash asked for and the manifest named it; if nothing is stored meanwhile, exactly the blobs of the held manifest are served, as they are on disk |
| `Serve.PutStaysClean` | internal/store/store.go:162-240 | wherever a put stands, every blob on disk matches its hash and the held bundle is complete |
| `Bundles.HiddenByDot` | internal/bundle/bundle.go:46-52 | an entry is passed over if and only if a name on its path begins with a dot, and the walk does not come to it if and only if a directory's name does |
| `Bundles.FilesAre` | internal/bundle/bundle.go:42-79 | the manifest lists exactly the regular files that are not hidden, once and in the order of the walk, with path, hash and length |
| `Bundles.FilesGrow` | internal/bundle/bundle.go:42-80 | what the walk has found stays in the list and in the total |
| `Bundles.Inspect` | internal/bundle/bundle.go:42-70 | an entry is taken exactly if it is a shown regular file within bounds, and stops the walk exactly if the walk fails there, or it is shown and its path is illegal, it cannot be read, or it is too large, each with its own error |
| `Bundles.Collect` | internal/bundle/bundle.go:42-80 | the walk lists exactly the published files in order with their hashes, and every blob is there under its hash; it gives up only on a site that it cannot walk or that has no bundle within bounds |
| `Bundles.BuildableMeans` | internal/bundle/bundle.go:42-91 | which entries stop the walk, by their kind and the dots in their path |
| `Bundles.Build` | internal/bundle/bundle.go:30-91 | succeeds if and only if the site can be walked and the manifest of its published files is valid, and then returns it with its blobs |
| `Bundles.PublishedVerifies` | internal/bundle/bundle.go:133-160 | the envelope made for a built bundle verifies against its blobs if it fits the limit |
| `Bundles.BundleDir.WriteBlobs` | internal/bundle/bundle.go:95-107 | all blobs are added, or it stops in a state that a stop can lead to; then the old bundle can still be served, given atomic writes or no new blob under a served name |
| `Bundles.BundleDir.WriteDir` | internal/bundle/bundle.go:93-113 | at every point where it can stop, the manifest that is there names only blobs that are there and match; the manifest is the commit point |
| `Bundles.FindMismatch` | internal/bundle/bundle.go:146-158 | the loop finds the first file whose blob is missing or differs, if there is one |
| `Bundles.BundleDir.VerifyDir` | internal/bundle/bundle.go:133-160 | success if and only if signature, hashes and sizes all match; each error is returned for its reason |
| `Bundles.BundleDir.Publish` | internal/bundle/bundle.go:30-160 | build, sign, write: a valid site is published unless a write does not succeed, and what is then in the directory verifies as the built manifest |
| `Bundles.BundleDir.PublishAndVerify` | internal/bundle/bundle.go:30-160 | publishing a site that can be built, on a disk that does not fail, and verifying the directory returns exactly the manifest of its files, or too large beyond the limit |
| `Bundles.TornIsServable` | internal/bundle/bundle.go:100-107 | a torn blob that the served manifest does not name does no harm |
| `Bundles.TornWrite` | internal/bundle/bundle.go:100-107 | a write that can be torn leaves the directory servable whatever is left of it, if and only if the served manifest does not name the blob |
| `Bundles.TornBlob` | internal/bundle/bundle.go:100-107 | for every served blob, something a torn write may leave that can no longer be served |
| `Bundles.StopsAreServable` | internal/bundle/bundle.go:93-107 | every state in which writing the blobs can stop leaves the old bundle servable, if and only if writes are atomic or no new blob has a served name |
| `Partition.PartitionTable.Block` | internal/sim/net.go:42-51 | exactly the two directions of the pair are added |
| `Partition.PartitionTable.SetGroups` | internal/sim/net.go:53-69 | the four nested loops block exactly the pairs that are split over two groups, in both directions, and forget every earlier partition |
| `Partition.PartitionTable.Heal` | internal/sim/net.go:71-76 | nobody is blocked |
| `Partition.PartitionTable.Allowed` | internal/sim/net.go:78-87 | traffic is refused exactly to a registered host whose node the latest partition splits from the sender |
| `Partition.SplitIsSplitBefore` | internal/sim/net.go:60-68 | looking at later groups only misses no pair |
| `Partition.DisjointGroupsSplit` | internal/sim/net.go:53-69 | for disjoint groups two nodes are split if and only if both are listed and no group has both |
| `Partition.SameGroupTalks` | internal/sim/net.go:53-69 | traffic within every group flows if and only if no node is listed in two groups |
| `Partition.OverlapCutsOff` | internal/sim/net.go:53-69 | two groups that share a node cut it off from its own group and from itself |

## Left out

- HTTP clients and servers, TLS, headers, MIME types, tickers, logging, cancellation, command-line flags, key files, the demo and the dashboard: plumbing. The fact kept is that one goroutine does all synchronizations, so puts are serial.
- The scenarios of the simulator: each is a single run of the protocol machine, of which the general statements are proved.
- Payloads with repeated or case-variant member names, and the nesting limit of the JSON decoder: behaviour of the Go library. The model reads field names exactly, and of repeated names the last counts.
- Strings with invalid UTF-8 made by the publisher: a string is a sequence of scalar values here.
- `path.Clean` in the path check: the segment check alone decides the same paths.
- Reporting order of invalid metadata entries: any entry out of bounds may be reported.
- The JSON form of the registry and its signature: the same envelope as for manifests; the watcher is given what loading the file yields. The check of base URLs is a parameter.
- `SignedManifest.Verify` for values in memory, key encoding, URL paths, `Held`, the health report and its rendering, the vhost lookup, the notify endpoint.
- The library's sort, modelled by an insertion sort: only that it returns a sorted enumeration is used.
- fsync and reordering of writes: the program issues none, and the model writes in program order.
- Convergence.Convergence: takes synchronizations whose writes to the local disk succeed. It also asks that the newest manifest lists one size per hash; a manifest that does not could only be completed by a hash collision.
- Convergence.ReachableIsTame: asks that other keys the member has had signed older versions only. A version signed under a retired key and held by someone is not offered again under the new one.
- History.DurableMonotonicity: is for lives without corruption, wiping or a failed write of the mark; NoteSeen keeps a higher mark in memory than on disk after such a failure.
- Serve.Handler.ServeBundleFile: asks that the directory of the member served is one that crash-only histories leave, since the code does not check hashes when it serves. It does not follow the body while it is sent, nor range requests. A request that meets a crash of the agent counts as a server error.
- Probe.Prober.Sweep: lets nothing else touch the store during the sweep; what happens otherwise is stated by Freshness.StaleExactly and Freshness.NoGraceWithoutAnchor.
- Bundles.BundleDir.WriteDir: leaves out the temporary manifest file, which no reader opens.
- Bundles.Collect: takes the walk as a sequence of entries, each with what the walk and the reading of it report; how the file system produces them is not part of this model.
