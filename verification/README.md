# Verified model of the phone plugin's desktop core

The project models the parts of the age phone plugin whose correctness depends on crashes,
orderings and exact byte formats, and proves what they promise.

* **Pairing lifecycle** (`Paths`, `Disk`, `Lifecycle`, `LifecycleSafety`, `LifecycleLock`,
  `LifecycleOpen`, `LifecycleRuns`, `LifecycleCommit`, `LifecycleEffects`, `LifecycleRoundTrip`,
  `Store`). A pairing is a set of files. Setup, resume, setup cleanup, desktop cleanup and orphan
  cleanup are programs of one-file steps over a map from paths to contents. Any number of processes
  compete for the lifecycle lock; each may die between any two steps. `Store` holds the imperative
  operations, killed after an arbitrary number of file operations, and proves them equal to the
  step machine; `LifecycleEffects` and `LifecycleRoundTrip` say what they leave on the disk.
* **Serial publication** (`Release`, `ReleaseMeans`, `ReleaseHistory`, `Gates`, `Visibility`). An
  operation is its list of durable effects; a crash keeps a prefix. The registry may answer anything.
* **Strict codecs** (`Cbor`, `Codec`, `Cursor`, `Layouts`, `Texts`, `Metadata`, `IndependentCbor`,
  `Bech32`, `Bech32Field`, `IdentityText`). Every record is read by a tolerant decoder and accepted
  only if it encodes back to the same bytes (RFC 8949, sections 3 and 4.2.1; RFC 3629; BIP 173,
  section "Bech32").
* **Unwrap selection and exchange** (`Unwrap`, `UnwrapMeans`, `UnwrapLoops`).
* **Smaller protocols**: the replay guard's crash-safe commit (`Replay`), the ADB reverse rule with
  its guardian (`Adb`), the one-shot pairing session (`PairingSession`) and Wi-Fi discovery
  (`Wifi`).

`Records` holds the entities that several modules share.

Loops and objects of the program are methods and classes, each proved against a specification
function; the lemmas below are about those functions. Cryptography is a parameter: a record of
arbitrary functions over which every statement is universally quantified. The macOS variant is the
one modelled.

Assumptions that the statements name explicitly: a run of the lifecycle starts from a disk with the
invariant `Good` (an empty root has it); a new setup draws a desktop identifier that no locator
uses; a release run retrieves evidence of every package that an earlier run may have sent, if only
the intent archived before the upload, which `Gates.ScanCovers` derives from what the scan
collects; a byte string is shorter than 2^64.

One finding. A commit killed after the public stub is written can only be resumed with the same
recipient type; before that, either type completes (`LifecycleCommit.OtherTypeAfterCrash` is exact
about the step). One possible clash that cannot happen: a replay file named `desktop-cleanup` would
make its own lock the lifecycle lock, but every command has created that lock file before a setup
claims its paths, so no record ever names it (`LifecycleLock.ReplayLocksNeverClash`).

## Model

| member | source | states |
|---|---|---|
| `Paths.HexInjective` | crates/desktop/src/pairing.rs:692-700 | equal hexadecimal texts come from equal byte strings, so a typed fingerprint names one fingerprint |
| `Paths.HexAt` | crates/desktop/src/pairing.rs:692-700 | every byte is two digits of "0123456789abcdef", the high one first |
| `Paths.LocatorNameParts` | crates/desktop/src/locator.rs:404-428 | a locator's name is the identity, a dash, the desktop and `.cbor`; the legacy name is the identity and `.cbor` |
| `Paths.LocatorPathInjective` | crates/desktop/src/locator.rs:404-414 | the two-part locator file name determines both identifiers |
| `Paths.ReplayLockIsLifecycleLock` | crates/desktop/src/cleanup_journal.rs:310-316 | a replay lock is the lifecycle lock if and only if the replay file is `desktop-cleanup` |
| `Disk.OpenedIsCanonical` | crates/desktop/src/locator.rs:207-230 | a locator found under either name is readable, canonical and has the stub's three identifiers |
| `LifecycleSafety.SetupNames` | crates/desktop/src/setup.rs:303-383 | the three files of a valid setup journal are distinct and carry no name a journal, a locator or a replay sidecar can have |
| `LifecycleSafety.KeepCommitLocator` | crates/desktop/src/setup.rs:683-702 | creating or finding the locator keeps the invariant, and the locator then names the journal's own files |
| `LifecycleSafety.EveryStateIsGood` | crates/desktop/src/setup.rs:631-735 | every state of every interleaving, with deaths anywhere, keeps the invariant over disk and running program |
| `LifecycleSafety.OpenedPairingIsComplete` | crates/desktop/src/locator.rs:207-230 | in every reachable state a locator that opens in that state has its own keys and replay state on disk and no journal targets its pairing |
| `LifecycleSafety.NeverTwoJournals` | crates/desktop/src/main.rs:858-898 | the setup and cleanup journals never exist together in a reachable state |
| `LifecycleSafety.EmptyRootIsGood` | crates/desktop/src/main.rs:858-870 | runs may start from an empty root |
| `LifecycleLock.AcceptedSetupIsClear` | crates/desktop/src/setup.rs:546-581 | a setup accepted under the lifecycle lock never names the replay file whose lock is the lifecycle lock |
| `LifecycleLock.EveryStateIsClear` | crates/platform-storage/src/macos.rs:377-393 | the lifecycle lock file, once created, stays, and while it is held every journal and locator has a replay lock of its own |
| `LifecycleLock.ReplayLocksNeverClash` | crates/desktop/src/main.rs:858-870 | in every state reachable from an empty root no setup journal, cleanup journal or locator names the replay file `desktop-cleanup` |
| `LifecycleOpen.UndisturbedOpen` | crates/desktop/src/locator.rs:207-230 | the separate reads of an opening agree with opening in one state if nobody changes the disk |
| `LifecycleOpen.OpensIff` | crates/desktop/src/locator.rs:207-230 | a pairing opens if and only if neither journal is unreadable or records its three identifiers and the first existing one of its two files is a locator in order; a pending cleanup, a pending setup and a missing locator each have their exact condition |
| `LifecycleOpen.JournalBegins` | crates/desktop/src/locator.rs:434-439 | a journal comes to target a pairing only by the start of its cleanup or by its own setup recording the response |
| `LifecycleOpen.InterleavedOpenIsComplete` | crates/desktop/src/locator.rs:207-230 | with any events between the reads, what opens has its keys and replay state at the read that found it, unless a cleanup of that pairing started after the first read or its own setup recorded it after the second |
| `LifecycleSafety.KeepCommitEnd` | crates/desktop/src/setup.rs:733-735 | removing the setup journal publishes a locator only after its keys and replay state are in place |
| `LifecycleSafety.KeepCleanupEnd` | crates/desktop/src/desktop_cleanup.rs:611-627 | removing the cleanup journal leaves no locator that lost its files |
| `LifecycleSafety.ScanSeparates` | crates/desktop/src/locator.rs:167-205 | after the exclusivity scan no other locator shares a file with the pairing being deleted |
| `LifecycleSafety.ConsumedStep` | crates/desktop/src/setup.rs:668-681 | no transition drops a consumed response or changes the scope of a replay file that stays |
| `LifecycleSafety.ConsumedNeverShrinks` | crates/desktop/src/setup.rs:668-681 | over a whole run the consumed set of a replay file that stays only grows |
| `LifecycleRuns.CleanupConverges` | crates/desktop/src/desktop_cleanup.rs:487-521 | after any killed attempts the same command is accepted again with the journal in place, and one long enough attempt leaves the initial disk without exactly the keys, the replay state with its marker and lock, the locator, a known stub and the journal |
| `LifecycleRuns.StartConverges` | crates/desktop/src/desktop_cleanup.rs:259-407 | a paired or orphan cleanup killed before its journal can be started again, killed later it can be resumed, unkilled it removes exactly the pairing's five private files and a known stub |
| `LifecycleRuns.SetupCleanupConverges` | crates/desktop/src/setup.rs:796-862 | repeated and killed setup cleanups end in the initial disk without exactly the setup's three files, both sidecars, its own locator and its journal |
| `LifecycleCommit.KilledCommitResumes` | crates/desktop/src/setup.rs:631-735 | after a crash at any step, resuming with the same type ends in the files of one uninterrupted commit |
| `LifecycleCommit.CommitConverges` | crates/desktop/src/setup.rs:631-735 | the same for any sequence of killed attempts: the resume command stays accepted until the commit completes |
| `LifecycleCommit.StubDecides` | crates/desktop/src/setup.rs:705-733 | the stub step succeeds if and only if the stub is absent or was written for the same recipient type |
| `LifecycleCommit.OtherTypeAfterCrash` | crates/desktop/src/setup.rs:705-733 | resuming with the other type completes if and only if the crash came before the stub; afterwards it is refused and nothing changes |
| `LifecycleEffects.CleanupOrder` | crates/desktop/src/desktop_cleanup.rs:611-627 | a cleanup killed after any number of deletions has deleted replay state, marker, keys, locator, lock and stub in this order, and nothing else |
| `LifecycleEffects.SetupCleanupOrder` | crates/desktop/src/setup.rs:796-862 | a setup cleanup killed after any number of deletions has deleted keys, replay state, marker, own locator, stub and lock in this order |
| `LifecycleEffects.CommitCompletesIff` | crates/desktop/src/setup.rs:631-735 | a commit completes if and only if its keys are in place and every file it would write is absent or already what it would write; it leaves the locator with all six fields from the journal, the stub of this type and an empty replay file of this scope, and removes only the journal |
| `LifecycleEffects.CommittedPairingOpens` | crates/desktop/src/setup.rs:683-702 | after a completed commit the pairing opens with the transport chosen at setup and its own keys |
| `LifecycleEffects.SetupNeedsConfirmation` | crates/desktop/src/main.rs:1027-1085 | a pending setup is resumed or removed only with the text of its fingerprint, or of its setup code before there is one |
| `LifecycleEffects.RemovalNeedsConfirmation` | crates/desktop/src/desktop_cleanup.rs:80-195 | a pairing is removed only with the text of its own fingerprint, by its own stub path or locator, and with an unchanged stub |
| `LifecycleEffects.RemovalsScan` | crates/desktop/src/locator.rs:167-205 | every accepted removal, also a resumed one, found all other locators readable and naming other files |
| `LifecycleEffects.StartedCleanupMeans` | crates/desktop/src/desktop_cleanup.rs:259-407 | a started cleanup records the files of exactly its locator, whose readable keys are this pairing's, and without readable state only paths chosen by the program |
| `LifecycleEffects.ChosenNameIff` | crates/desktop/src/setup.rs:303-383 | a visible name with an extension may be chosen if and only if its characters are allowed and its extension is none of `cbor`, `lock`, `pending` |
| `LifecycleRoundTrip.SetupProgress` | crates/desktop/src/main.rs:858-990 | a setup killed after any number of file operations leaves the initial disk and exactly its own files so far, each with its content; not killed it leaves the complete pairing |
| `LifecycleRoundTrip.KilledSetupIsUndone` | crates/desktop/src/setup.rs:796-862 | a setup killed anywhere can be given up with the text shown to the user, and that restores the initial disk |
| `LifecycleRoundTrip.SetupThenCleanup` | crates/desktop/src/desktop_cleanup.rs:259-407 | a completed setup can be removed with its stub and fingerprint, and that restores the initial disk |
| `LifecycleRoundTrip.OrphanThenCleanup` | crates/desktop/src/desktop_cleanup.rs:340-407 | the same for a pairing whose stub file was deleted, by its locator |
| `LifecycleRoundTrip.FirstSetupIsFresh` | crates/desktop/src/main.rs:858-900 | on a root that was never used the managed setup is accepted, so the statements above are about something |
| `Store.PrivateRoot.CommitConfirmed` | crates/desktop/src/setup.rs:631-735 | the commit, killed after any number of file operations, leaves the disk and outcome of the step machine |
| `Store.PrivateRoot.RunSetup` | crates/desktop/src/main.rs:858-990 | the staged setup from key creation to commit, killed anywhere, is the step machine's |
| `Store.CleanupOperations.Remove` | crates/desktop/src/desktop_cleanup.rs:586-601 | a deletion happens only while the replay lock file is still there or was deleted by this run |
| `Store.CleanupOperations.ExecuteCleanup` | crates/desktop/src/desktop_cleanup.rs:611-627 | the ordered deletions, killed anywhere, are the step machine's |
| `Store.CleanupOperations.CleanupOwned` | crates/desktop/src/setup.rs:796-862 | the setup's ordered deletions, killed anywhere, are the step machine's |
| `Release.Session.CheckOrder` | scripts/release/crates_release.py:82-85 | the scan answers whether every earlier package is verified |
| `Release.Session.PriorEvidence` | scripts/release/crates_release.py:92-93 | the loop collects exactly the earlier attempts of the package, in order |
| `Release.Session.PreparePackage` | scripts/release/crates_release.py:87-111 | the durable effects of preparing are those of the specification, in every branch |
| `Release.Session.UploadPackage` | scripts/release/crates_release.py:113-139 | the durable effects of uploading are those of the specification: intent, one publication, evidence |
| `ReleaseMeans.PrepareIff` | scripts/release/crates_release.py:87-111 | preparing arms if and only if the version is absent and no earlier run attempted it, and adopts an existing version if and only if some earlier run attempted it, every attempt had exactly this archive and the registry showed it twice |
| `ReleaseMeans.PrepareSaves` | scripts/release/crates_release.py:87-111 | no intermediate save of preparing says more, concerns another package or follows a publication |
| `ReleaseMeans.UploadIff` | scripts/release/crates_release.py:113-139 | uploading publishes if and only if the package is armed with an unchanged archive and an absent version, and its saved end follows from the publish command and what is seen afterwards |
| `ReleaseMeans.StartedMeans` | scripts/release/crates_release.py:67-76 | a run passes its gates if and only if the candidate did and all evidence of attempts is of this candidate, and it keeps exactly that evidence |
| `ReleaseHistory.UploadDiscipline` | scripts/release/crates_release.py:113-139 | every crash prefix of an upload publishes at most the armed package once and then has it saved as attempted |
| `ReleaseHistory.OnceThroughout` | scripts/release/crates_release.py:87-139 | publications of earlier and current runs, the saved marks and the evidence stay consistent over every history |
| `ReleaseHistory.PublishedAtMostOnce` | scripts/release/crates_release.py:87-139 | over any history of killed runs and any registry, each package version is published at most once, even when only the intent of a killed upload was archived |
| `ReleaseHistory.EffectsPermitted` | scripts/release/crates_release.py:87-139 | a saved state differs from the old one only in its package, in order, and marks it verified only after a matching observation |
| `ReleaseHistory.PublishJustified` | scripts/release/crates_release.py:113-126 | a publication directly follows its saved intent, with all earlier packages observed visible |
| `ReleaseHistory.SerialThroughout` | scripts/release/crates_release.py:82-139 | in every history the verified packages are a prefix of the order, each observed with the recorded checksum and inventory, and every publication is justified |
| `Gates.Pages` | scripts/release/gates.py:54-61 | a listing is returned whole if it has fewer than ten thousand entries, and refused exactly otherwise |
| `Gates.Recovery` | scripts/release/gates.py:95-120 | evidence is returned if and only if the run is genuine and complete and no evidence is expired, altered or missing, and then all of it |
| `Gates.PriorPublications` | scripts/release/gates.py:123-141 | either every matching run was recovered and all its evidence is returned, or the release stops |
| `Gates.CollectedAre` | scripts/release/gates.py:123-141 | the scan collects exactly the evidence of the other runs of this publication and of the named one |
| `Gates.ScanCovers` | scripts/release/gates.py:123-141 | if every run that may have sent a package archived at least its intent, the returned evidence shows an attempt of each such package |
| `Visibility.TwelveSleepsAtMost` | scripts/release/crates_release.py:229-243 | a clock that honours the sleeps allows no thirteenth one |
| `Visibility.TwelveSleepsReached` | scripts/release/crates_release.py:229-243 | twelve sleeps and thirteen lookups are reached when only the sleeps take time |
| `Visibility.Wait` | scripts/release/crates_release.py:229-243 | the loop with its doubling delay takes the specified course and terminates |
| `Visibility.CourseEnds` | scripts/release/crates_release.py:229-243 | from every turn on, the course ends as specified within twelve sleeps |
| `Visibility.WaitEnds` | scripts/release/crates_release.py:229-243 | the wait ends at the first turn that is not to be repeated or at the deadline, after at most twelve sleeps, and only a verified version counts as visible |
| `Visibility.WaitIff` | scripts/release/crates_release.py:229-243 | a version is visible if and only if the last reply resolved the recorded one, the wait timed out if and only if that reply was still not there, and every earlier reply was not there with time left |
| `Visibility.DelaysAre` | scripts/release/crates_release.py:229-243 | the sleeps are 5, 10, 20, 40 and then 60 seconds |
| `Cbor.NumberOfBigEndian` | scripts/check-public-stub-vector.py:12-18 | reading a big-endian number gives what was written |
| `Cbor.ArgumentOfHead` | crates/desktop/src/setup.rs:203-206 | the tolerant head reader undoes the shortest head for every number below 2^64 |
| `Cbor.ReadUndoesWrite` | crates/desktop/src/pairing.rs:72-130 | every reader undoes the writer of its item, whatever follows |
| `Cbor.ItemDiffers` | crates/desktop/src/locator.rs:334-344 | lists that differ in a leading count or number never give the same bytes |
| `Cbor.ReaderIsTolerant` | crates/desktop/src/locator.rs:334-337 | the reader alone also accepts a longer head for the same number, so strictness comes from encoding again |
| `Codec.StubRoundTrip` | crates/desktop/src/pairing.rs:72-154 | decoding an encoded valid stub gives the stub |
| `Codec.StubAcceptedIff` | crates/desktop/src/pairing.rs:102-154 | bytes decode to a stub if and only if the stub is valid, with all keys distinct, and the bytes are its encoding |
| `Codec.LocatorAcceptedIff` | crates/desktop/src/locator.rs:289-396 | bytes decode to a locator if and only if it is valid and they encode it in version 3, or in version 2 with transport auto |
| `Codec.LocatorVersionsDiffer` | crates/desktop/src/locator.rs:334-344 | no bytes are a locator of both versions |
| `Codec.CleanupAcceptedIff` | crates/desktop/src/cleanup_journal.rs:105-260 | bytes decode to a cleanup journal if and only if it is valid and they encode it in version 2 or, paired, in version 1 |
| `Codec.CleanupVersionsDiffer` | crates/desktop/src/cleanup_journal.rs:155-175 | no bytes are a cleanup journal of both versions |
| `Codec.SetupAcceptedIff` | crates/desktop/src/setup.rs:165-301 | bytes decode to a setup journal if and only if it is valid and they encode it in the version its fields call for, or in version 1 with transport auto |
| `Codec.SetupVersionsDiffer` | crates/desktop/src/setup.rs:203-214 | journals of different versions never have the same bytes |
| `Codec.TransportText` | crates/desktop/src/transport_policy.rs:25-49 | every transport's text is UTF-8 and parses back to it |
| `Layouts.StubLayout` | crates/desktop/src/pairing.rs:72-100 | a stub is these bytes: eleven fields, version 2, suite 1, each field with its head at its place |
| `Layouts.LocatorLayout` | crates/desktop/src/locator.rs:289-321 | a locator of version 3 is these bytes, the transport by its name last |
| `Layouts.LegacyLocatorLayout` | crates/desktop/src/locator.rs:376-402 | a locator of version 2 is the same without the transport |
| `Layouts.CleanupLayout` | crates/desktop/src/cleanup_journal.rs:105-153 | a cleanup journal of version 2 is these bytes for either target |
| `Layouts.LegacyCleanupLayout` | crates/desktop/src/cleanup_journal.rs:229-250 | a cleanup journal of version 1 is these bytes |
| `Layouts.SetupLayout` | crates/desktop/src/setup.rs:165-201 | a setup journal of version 3 or 2 is these bytes, stage by number and flag last |
| `Layouts.LegacySetupLayout` | crates/desktop/src/setup.rs:274-301 | a setup journal of version 1 is these bytes |
| `Layouts.TransportIsNamed` | crates/desktop/src/transport_policy.rs:25-49 | the transports are stored as `auto`, `adb`, `ble`, `wifi` and `qr` |
| `Texts.Utf8Iff` | crates/desktop/src/pairing.rs:102-130 | a byte string is read as a text if and only if it encodes some scalar values |
| `Texts.NamedBy` | crates/desktop/src/cleanup_journal.rs:252-260 | a path has a file name unless its last component, trailing `/` and `/.` aside, is `..` or missing |
| `Texts.StubAcceptedExactly` | crates/desktop/src/pairing.rs:102-154 | bytes are accepted as a stub if and only if they encode it, its fields have their sizes and its four keys parse and are four different ones |
| `Texts.UnsupportedIff` | crates/desktop/src/pairing.rs:102-115 | a stub of another version or suite is unsupported rather than malformed |
| `Texts.ReferencesAcceptedExactly` | crates/desktop/src/macos_state.rs:186-225 | key references are accepted if and only if marker, lengths and fields are at their places and bounds, the keys and references differ and the signature verifies |
| `Cursor.EncodeStub` | crates/desktop/src/pairing.rs:72-100 | the buffer-growing encoder writes the specified bytes |
| `Cursor.DecodeStub` | crates/desktop/src/pairing.rs:102-154 | the cursor decoder answers as the specification on every input |
| `Cursor.EncodeLocator` | crates/desktop/src/locator.rs:289-321 | the buffer-growing encoder writes the specified bytes or refuses the path |
| `Cursor.DecodeLocator` | crates/desktop/src/locator.rs:334-374 | the cursor decoder answers as the specification on every input |
| `Cursor.EncodeCleanup` | crates/desktop/src/cleanup_journal.rs:105-153 | the buffer-growing encoder writes the specified bytes or refuses a path |
| `Cursor.DecodeCleanup` | crates/desktop/src/cleanup_journal.rs:155-227 | the cursor decoder answers as the specification on every input |
| `Cursor.EncodeSetup` | crates/desktop/src/setup.rs:165-201 | the buffer-growing encoder writes the specified bytes or refuses a path |
| `Cursor.DecodeSetup` | crates/desktop/src/setup.rs:203-272 | the cursor decoder answers as the specification on every input |
| `Metadata.ParseIff` | crates/desktop/src/macos_state.rs:186-225 | bytes parse to key references if and only if the references are valid and the bytes are their layout with a verifying signature |
| `Metadata.Encode` | crates/desktop/src/macos_state.rs:118-144 | encoding succeeds if and only if the references are valid and the signature verifies, and the result parses to what was written |
| `IndependentCbor.HeadersAgree` | scripts/check-public-stub-vector.py:12-18 | the independently written head is the product's shortest head, and fails exactly from 2^64 on |
| `IndependentCbor.DecodeUndoesWriteIff` | scripts/g3/ios_restart_replay.py:110-140 | the bounded reader gives a written value back if and only if its depth, array sizes and texts are within the bounds |
| `IndependentCbor.StubEncodersAgree` | scripts/check-public-stub-vector.py:51-68 | for every stub the independent writer and the product's encoder write the same bytes, and the bounded reader returns the fields |
| `IndependentCbor.Item` | scripts/g3/ios_restart_replay.py:112-137 | the recursive reader over a position terminates on every input with the specified answer |
| `IndependentCbor.DecodeAll` | scripts/g3/ios_restart_replay.py:110-140 | only an input consumed completely is accepted |
| `IndependentCbor.BoundsAreExact` | scripts/g3/ios_restart_replay.py:110-137 | four levels of arrays and eleven items in an array are read, and no more |
| `Bech32.UngroupIff` | scripts/check-public-stub-vector.py:32-34 | words regroup to a payload if and only if they are its zero-padded words |
| `Bech32.StepLinear` | scripts/check-public-stub-vector.py:37-42 | one checksum step is linear over exclusive or, in register and value at once |
| `Bech32.FoldLinear` | scripts/check-public-stub-vector.py:36-42 | starting registers add up over any sequence of values |
| `Bech32.ChecksumVerifies` | scripts/check-public-stub-vector.py:35-44 | the register over any values followed by their six checksum words is one |
| `Bech32.SingleErrorDetected` | scripts/check-public-stub-vector.py:36-42 | a single wrong word, at any length, changes the register |
| `Bech32Field.StepDivides` | scripts/check-public-stub-vector.py:36-42 | one checksum step is multiplication by x and division by the generator polynomial of the standard over the field of 32 elements |
| `Bech32Field.ShortestText` | scripts/check-public-stub-vector.py:30-45 | the encoding of no data under the prefix `a` is the standard's `a12uel5l` |
| `Bech32Field.RegroupKeepsNumber` | scripts/check-public-stub-vector.py:32-34 | the words are the bytes' big-endian number in base 32, filled up with zero bits |
| `Bech32Field.CharactersAre` | crates/desktop/src/pairing.rs:200-210 | the alphabet is the standard's and the prefix `age-plugin-phone-` |
| `IdentityText.DecodeUndoesEncode` | scripts/check-public-stub-vector.py:30-45 | every encoded text passes the checksum and gives back prefix and payload |
| `IdentityText.Polymod` | scripts/check-public-stub-vector.py:36-42 | the two nested loops compute the specified register |
| `IdentityText.EncodeLoop` | scripts/check-public-stub-vector.py:30-45 | the loops over bits, words and generators write the specified text |
| `IdentityText.IdentityTextIff` | crates/desktop/src/pairing.rs:516-536 | a text of any characters gives a stub if and only if, split and trimmed, its one effective line is that valid stub's identity |
| `IdentityText.LinesUndoJoined` | crates/desktop/src/pairing.rs:516-520 | splitting gives back the lines a text was made of, without their carriage returns |
| `IdentityText.UnterminatedLine` | crates/desktop/src/pairing.rs:516-520 | a last line without a line feed is a line too |
| `IdentityText.EffectiveLine` | crates/desktop/src/pairing.rs:516-520 | blank lines and comments are left out and every other line is kept, trimmed |
| `IdentityText.TrimOf` | crates/desktop/src/pairing.rs:516-520 | trimming takes away exactly the blanks around a text |
| `IdentityText.IdentityIsAscii` | crates/desktop/src/pairing.rs:200-210 | an identity is printable, in capitals and begins with the plugin's prefix |
| `IdentityText.CommentedIdentity` | crates/desktop/src/pairing.rs:516-520 | after two comments an identity is the one effective line, whatever line ends and blanks surround it |
| `IdentityText.IdentityFileRoundTrip` | crates/desktop/src/pairing.rs:217-223 | the whole written file is read back as its stub whatever recipient its comment names |
| `Unwrap.RunIsCutFold` | crates/desktop/src/age_identity.rs:325-530 | the answer is each file's own result, cut just after the first file that ended the run |
| `Unwrap.ExchangeDiscipline` | crates/desktop/src/age_identity.rs:325-530 | at most one exchange a file, none for a malformed or ambiguous file, none after the run ended, and always for the selected pair |
| `Unwrap.UnusableIff` | crates/desktop/src/age_identity.rs:339-396 | the collected errors are empty if and only if no stanza is malformed and no tag stanza names two keys |
| `Unwrap.TagCommits` | crates/desktop/src/age_identity.rs:369-427 | a file commits to its first matching tag stanza and that stanza's first identity, even if that pairing then fails to open |
| `Unwrap.PrivateSelectionIsFirst` | crates/desktop/src/age_identity.rs:548-635 | the first opened identity and stanza not known to differ decide: chosen if they match, an error if the match fails |
| `Unwrap.AnonymousNeedsSole` | crates/desktop/src/age_identity.rs:558-575 | an anonymous stanza is chosen only with a sole identity and a sole candidate |
| `Unwrap.MissIffNothingDecides` | crates/desktop/src/age_identity.rs:628-635 | a file is an ordinary miss if and only if every identity opens and differs from every stanza |
| `UnwrapMeans.ExchangeDecides` | crates/desktop/src/age_identity.rs:482-530 | a cancellation is the file's one error and nothing is exchanged or answered after it, a broken channel ends the run without an answer for the file, every other failure is the file's own error and lets the next file begin, and an accepted response gives the file its key |
| `UnwrapMeans.KeyIff` | crates/desktop/src/age_identity.rs:510-530 | a file has a key if and only if its own exchange was answered with a response received as that key |
| `UnwrapMeans.RunExchangesIff` | crates/desktop/src/age_identity.rs:325-484 | a pair is exchanged if and only if no earlier file ended the run, the file is usable, the pair is its selection and everything up to the request succeeded |
| `UnwrapMeans.UnusableAnswers` | crates/desktop/src/age_identity.rs:339-396 | malformed stanzas and ambiguous tags are a file's whole answer, and only foreign tags give none |
| `UnwrapMeans.UnselectedAnswers` | crates/desktop/src/age_identity.rs:397-427 | a missing root and a refused selection are a file's whole answer, and a miss gives none |
| `UnwrapMeans.UnpreparedAnswers` | crates/desktop/src/age_identity.rs:427-482 | what fails first between selection and exchange is the file's one error, except that a failing clock ends the run |
| `UnwrapMeans.MalformedAre` | crates/desktop/src/age_identity.rs:339-368 | exactly the plugin's own malformed stanzas are reported, each by its index |
| `UnwrapMeans.ConflictsCounted` | crates/desktop/src/age_identity.rs:369-392 | a tag stanza has one conflict for every identity it names with another key than the first |
| `UnwrapMeans.NoTagSelects` | crates/desktop/src/age_identity.rs:397-427 | without a tag match the private stanzas alone are selected from |
| `UnwrapMeans.AnonymousRefused` | crates/desktop/src/age_identity.rs:558-575 | an anonymous stanza that is not alone is refused with one error for every stanza |
| `UnwrapMeans.UnopenedRefused` | crates/desktop/src/age_identity.rs:589-635 | when nothing decides, exactly the identities that did not open are reported with what failed first |
| `UnwrapLoops.CollectCandidates` | crates/desktop/src/age_identity.rs:339-368 | the loop splits the relevant stanzas into errors and candidates in order |
| `UnwrapLoops.FindPublicMatch` | crates/desktop/src/age_identity.rs:369-392 | the nested loops find the first public match and one error for every conflicting key |
| `UnwrapLoops.SelectPrivateLoop` | crates/desktop/src/age_identity.rs:589-635 | the labelled loops and both element removals select the specified pair |
| `UnwrapLoops.UnwrapFiles` | crates/desktop/src/age_identity.rs:325-530 | the loop over files, leaving early, gives the specified report |
| `Replay.NextKeeps` | crates/core/src/protocol/replay_macos.rs:84-115 | a commit that stops after any file operation keeps every accepted response remembered until it expires |
| `Replay.AcceptedAtMostOnce` | crates/core/src/protocol/replay_macos.rs:142-162 | over all opens, responses, failed commits and deaths a response is accepted again only after its own expiry |
| `Replay.ConsumeIff` | crates/core/src/protocol/replay.rs:199-240 | a response is accepted if and only if it is alive for at most five minutes, the clock did not go back, no living remembered response equals it and there is room |
| `Replay.OpeningIff` | crates/core/src/protocol/replay_macos.rs:27-80 | creating and opening succeed exactly without a holder and a marker, without or with a file, within the capacity, and take the state as it is |
| `Replay.MarkerBlocks` | crates/core/src/protocol/replay_macos.rs:165-182 | while the marker is there no sequence of opens, creations and responses changes anything |
| `Replay.FailedCommitStays` | crates/core/src/protocol/replay_macos.rs:84-115 | after a failed commit this process accepts nothing more, and later processes are kept out for ever if and only if it failed after its first and before its last file operation |
| `Adb.SessionIsSafe` | crates/desktop/src/adb.rs:240-341 | at every point of every session the disarm byte follows a successful removal, a rule still present is covered by the guardian, and one removal succeeds at most |
| `Adb.AnswerMeansRemoved` | crates/desktop/src/adb.rs:374-398 | a response is returned at most once, and only with the rule removed |
| `Adb.AnswersIff` | crates/desktop/src/adb.rs:374-398 | a response is handed on if and only if the very first call is an exchange with the device unchanged, the rule removed and the guardian let go |
| `Adb.CallRemoves` | crates/desktop/src/adb.rs:328-338 | the first exchange, every cancellation and the drop try to remove a rule that is still there, and let the guardian go only after a success |
| `Adb.ConnectKeeps` | crates/desktop/src/adb.rs:240-322 | whichever step of connecting fails, the rule is gone after a successful removal or a guardian is left that will remove it |
| `Adb.FailureIff` | crates/desktop/src/adb.rs:240-322 | each error of connecting names the step that failed after all earlier ones succeeded |
| `Adb.Connect` | crates/desktop/src/adb.rs:240-322 | every failing step has its own error, and each one after the rule was asked for cleans up as specified |
| `Adb.AdbReverseSession.DoExchange` | crates/desktop/src/adb.rs:375-391 | the exchange closes the session, removes the rule and answers as specified |
| `Adb.RemoveAfterParentExit` | crates/desktop/src/adb.rs:589-608 | attempts go on until the first success or until the retry time is over |
| `Adb.CleanupGuard` | crates/desktop/src/adb.rs:566-587 | the guardian leaves the rule alone if and only if it reads the disarm byte, and otherwise retries until a removal succeeds or the retry time is over |
| `PairingSession.ClosedIsAbsorbing` | crates/desktop/src/pairing.rs:659-668 | a closed session stays closed under every call |
| `PairingSession.ConfirmationMeans` | crates/desktop/src/pairing.rs:591-653 | a successful confirmation follows one verified response, both within five minutes, with the text of exactly that fingerprint, and returns the pending stub |
| `PairingSession.ConfirmedAtMostOnce` | crates/desktop/src/pairing.rs:622-642 | after a successful confirmation every other call fails |
| `PairingSession.RightTextConfirms` | crates/desktop/src/pairing.rs:591-653 | after a displayed response, the right text in time is confirmed with the stub of the offer's and the response's fields, and a wrong or late one fails as such |
| `PairingSession.FirstCall` | crates/desktop/src/pairing.rs:591-620 | a first response in time that verifies is displayed with its fingerprint, and every other first call fails |
| `PairingSession.DesktopPairingSession.ReceiveResponse` | crates/desktop/src/pairing.rs:591-620 | the method changes state and answers as one specified call |
| `PairingSession.DesktopPairingSession.ConfirmFingerprint` | crates/desktop/src/pairing.rs:622-642 | the method takes the state, closes the session and answers as one specified call |
| `Wifi.PrivateRouteIff` | crates/desktop/src/wifi.rs:511-517 | the accepted addresses are the three private blocks and the link-local block |
| `Wifi.DirectedBroadcastIff` | crates/desktop/src/wifi.rs:352-363 | a broadcast is given if and only if the route is private, the mask is a prefix of 1 to 30 bits and the result is the network's greatest address, other than the address and 255.255.255.255 |
| `Wifi.EncodeDiscovery` | crates/desktop/src/wifi.rs:385-395 | filling the array at fixed places gives the specified message |
| `Wifi.ResponseBindsQuery` | crates/desktop/src/wifi.rs:397-426 | a response is valid for one query only, and an echoed query never is |
| `Wifi.ValidResponseIff` | crates/desktop/src/wifi.rs:397-426 | a response is valid if and only if marker, version, kind, purpose, nonce and identifiers are at their places and an unwrap response ends with a signature of them that verifies |
| `Wifi.Discover` | crates/desktop/src/wifi.rs:235-289 | the loop, with its candidate set and send timer, gives the specified run |
| `Wifi.DiscoveryDecides` | crates/desktop/src/wifi.rs:235-289 | on a working socket the one endpoint of all packets accepted before the deadline is found; none or a second distinct one are errors |
| `Wifi.QueriesAreBounded` | crates/desktop/src/wifi.rs:247-259 | at most ceil(timeout / 200) query rounds are sent |
| `Wifi.FirstRoundIsSent` | crates/desktop/src/wifi.rs:247-259 | the first turn before the deadline sends a query round |
| `Wifi.RoundsKeepUp` | crates/desktop/src/wifi.rs:247-259 | a turn that goes on has sent a round if and only if the last one was due, and the next is due 200 ms after it |
| `Wifi.EndpointsAre` | crates/desktop/src/wifi.rs:260-289 | the endpoints are the private IPv4 sources of the packets with a valid response |
| `Wifi.BrokenSocketFails` | crates/desktop/src/wifi.rs:247-289 | a socket that breaks before the deadline is an input error |

## Left out

- Cryptography, hardware keys and recipient parsing: parameters of the statements; nothing is assumed about them beyond signature length.
- File permissions, symbolic links, fsync, replacement temporaries and the 4096-entry bound of the directory scan; file creation, replacement and removal are atomic.
- Paths other than absolute and normalized ones; on disk a path is its directory and its name, and file contents are the decoded records whose byte formats `Codec` and `Metadata` cover.
- The Windows variant: path canonicalization on resume and TPM key removal.
- A public stub cut short: it is created first and then written (crates/platform-storage/src/macos.rs:454), and the model writes it in one step.
- The error messages and most error kinds: refusals of the lifecycle are one outcome, and a codec distinguishes only a malformed record from an unsupported stub version.
- Error handling of a failed setup: macOS retains its state without a rollback (crates/desktop/src/main.rs:1122-1137), so a failure is a death at that step.
- Explicit `pair` without a setup journal (crates/desktop/src/main.rs:422-563): only the journaled setup is modelled.
- Time in the lifecycle's replay files: there the consumed set only grows; `Replay` models expiry, clock rollback and capacity.
- Reading a frame of known size from the harness's socket and its flat checks of a decoded request (scripts/g3/ios_restart_replay.py:88-107 and 143-156).
- The replay state's own byte format and its phone-side request entries.
- Adb: a runner without a guardian, device selection and listing, and the waiting for the guardian's exit beyond its outcome.
- An identity file that is not UTF-8: a text is its sequence of characters.
- `IndependentCbor.Item`: models a decoded text as its UTF-8 bytes.
- Unwrap: when the channel fails the program returns that failure alone; the report still lists the answers of the earlier files.
- Gates: the listing is assumed not to change between two of its pages; the CI and candidate gates are flat checks.
- Visibility: network transfers of archives; a version is its checksum, the digest of the served archive and its inventory.
- Sockets, child processes, the camera, QR rendering and command line parsing: they only supply the answers and bytes that the modelled operations take as parameters.
- Transport framing, the mobile user interface and the acceptance scripts other than the two independent readers: they keep no state that the modelled records, orders or deletions depend on.
