# Verified models of the workstation helpers

A Dafny model of the algorithms and protocols in this repository's helper programs, with
proofs of what they promise. `dafny verify dfyconfig.toml` checks the whole project.

| module | program | what is modelled |
|---|---|---|
| `SnapshotStream`, `ReaderOrder` | `secure-files-rs` | the deterministic stream of length-prefixed records of a source tree |
| `AtomicWrite` | `secure-files-rs` | replacing a file by a temporary and a rename, with a fault or a crash at every step |
| `TrustedPath` | `secure-files-rs` | opening a path without following links, with the one `current -> generation-N` exception |
| `PrivacyScan`, `PushCoverage` | `git-privacy-hook.py` | the chunked scan of `git cat-file --batch`, and which objects a push shows to it |
| `WallpaperPolicy`, `NullPaths` | `wallpaper-policy.py` | layered settings: merge, validation, planning and edits; reading NUL-separated names |
| `Palette` | `prepare-palette.py` | repairing colours to a contrast target |
| `RegistryUpsert` | `libreoffice-apply-settings.py` | upserting settings in a registry tree in place |
| `HealthDelivery` | `health.py` | delivering warnings and recoveries once |
| `BackupRunner` | `runner.py` | stopping writers, backing up, restarting them, and the receipts |
| `PairingProtocol` | `disable-bluetooth-pairing.py` | subscribe, then snapshot, then write, against an arbitrary bus |
| `LeaseSelection` | `dev_vm_host.py` | parsing a DHCP lease file and choosing the one newest lease |
| `EvidenceReceipts`, `EvidenceCapture`, `EvidenceCompare`, `EvidenceCoverage` | `workstation_evidence.py` | recording checks, validating their receipts, comparing and counting them |
| `TomlString` | `write-jujutsu-identity.py` | printing a TOML basic string |

Programs that change things step by step are methods, most of them on classes, proved
against a function of the old state; the theorems are lemmas about that function. Code
outside the repository is a parameter or an arbitrary choice of the environment: which
system calls fail and after how many bytes, how much a read returns, what a command does
to the units, in which order messages arrive, what the store and the active system answer
at each look.

## Assumptions

- A digest is modelled by what it is the digest of, or by a function that no two of the
  values at hand share a result of. Floating-point numbers are real numbers. Times are integers.
- `git rev-list --objects` prints at least what is reachable from its tips and not from its
  exclusions; every ref that the destination takes from a push is one the hook permitted, and
  pushed ids are Git's, the null id, 40 or 64 zeros, being the deletion of a ref.
- The linear value of a colour byte is a parameter: a table that ascends from 0 to 1.
  Contrast ratio and relative luminance are those of WCAG 2.1.
- A name at one place holds one entry while a tree is being walked, but for changes that a
  later `fstat` shows; files whose length does not fit 64 bits do not occur.
- Successful starts leave their unit active and stop no other unit (`WritersRunAgain` only).
- For `AcceptedExactly`: store outputs resolve to themselves, an active link resolves to a
  store output, samples are well formed, and the clock does not go backwards; the platform,
  the source, the configuration and the digests that are recorded are well formed, and a
  refusal by foreign code is not a blank text. That the active link does not change between
  two looks is not assumed: it is the exact condition.
- A parser returns texts of XML characters only (`Legible`, for `NextRunQuietExactly`).

## Where the code does less than it seems to

- `atomic_write` tears a target that does not exist yet and has the name of the next
  temporary (`.local-control.<pid>.<n>`): `AtomicUnderAllFaults`, `TornInEmptyDirectory`.
- `libreoffice-apply-settings.py` writes the profile again on every run for a setting whose
  value is empty, which is read back as no text, or holds a carriage return, which is read
  back as a newline. A character that XML does not allow makes a profile that the next run
  cannot read: `NextRunQuietExactly`, `NeverQuiet`. Writing the profile also changes
  carriage returns in values that no setting is about: `FileKeepsUnmanagedExactly`,
  `FileChangesUnmanaged`.
- Two settings that want different values for one property never settle:
  `SecondPassQuietExactly`, `ConflictNeverSettles`.
- When another notification command is configured after a recovery, that recovery is
  announced again without a warning: `RecoveryFollowsWarningExactly`, `MovedRelapses`. The
  desktop has a delivery directory of its own, where the channel never changes.
- A signal between two starts of a backup's clean-up loop leaves the remaining writers
  stopped: `AllRestartedExactly`, `InterruptLeavesStopped`.
- The Bluetooth client goes on listening to the BlueZ process that it resolved at first. An
  adapter that appears only after BlueZ was restarted is waited for until the deadline:
  `NoAdapterIsMissed`, `MissedAfterRestart`.
- A wallpaper command about a subcategory of a category that is switched off changes no
  plan: `SubcategoryOfSwitchedOff`, and `ChangesExactly` for all commands.
- A coverage report shows the date of the first among equally late receipts of one status,
  so this one field can depend on their order: `DateFixedExactly`, `DateDependsOnOrder`.
- A check recorded with an empty target or check name cannot be kept, even if it passed, and
  neither can a passed check whose active system changed between the look that is recorded
  and the look that is compared: `AcceptedExactly`, `NamelessIsRefused`, `SwitchedIsRefused`.
- The refusal for a baseline median that is not positive is never reached on validated
  receipts; `Compare` therefore has no such case.

## Model

| member | source | states |
|---|---|---|
| `SnapshotStream.SnapshotFaithful` | homes/macbook-pro-m4/local/local-control/secure-files-rs/src/lib.rs:870-962 | Two owned trees that can be snapshotted have equal streams exactly when they have the same names, permission bits of the raw mode and contents, `.git` directories left out |
| `SnapshotStream.PermissionsOfMode` | homes/macbook-pro-m4/local/local-control/secure-files-rs/src/lib.rs:90-99 | The recorded number is the raw mode without the bits of the file's type, for every type and all twelve bits |
| `SnapshotStream.FixedNames` | homes/macbook-pro-m4/local/local-control/secure-files-rs/src/lib.rs:883-932 | The directory left out is `.git`, the root is `.`, and `/` joins names |
| `SnapshotStream.EveryFileIsRecorded` | homes/macbook-pro-m4/local/local-control/secure-files-rs/src/lib.rs:920-954 | The stream starts with the root's record, called `.`, and has the bits and contents of every file below that is not in a `.git` directory, under its path |
| `SnapshotStream.DecodeEncode` | homes/macbook-pro-m4/local/local-control/secure-files-rs/src/lib.rs:886-904 | A record is self-delimiting: an independent reader returns it and exactly the bytes after it |
| `SnapshotStream.EncodeAllInjective` | homes/macbook-pro-m4/local/local-control/secure-files-rs/src/lib.rs:886-904 | No two lists of records print the same bytes |
| `SnapshotStream.TreeInjective` | homes/macbook-pro-m4/local/local-control/secure-files-rs/src/lib.rs:920-954 | The flat list of records with their paths determines the tree and what follows it |
| `SnapshotStream.SnapshotSucceedsExactly` | homes/macbook-pro-m4/local/local-control/secure-files-rs/src/lib.rs:873-962 | The walk ends without an error exactly when everything in it opens, is owned, is a plain file or directory and stays unchanged |
| `Bytes.LessExactly` | homes/macbook-pro-m4/local/local-control/secure-files-rs/src/lib.rs:913 | The order of names is decided by the first byte in which two differ, a prefix coming first |
| `ReaderOrder.ReaderOrderIrrelevant` | homes/macbook-pro-m4/local/local-control/secure-files-rs/src/lib.rs:906-962 | The orders in which the directories of a tree are read, at every level, change neither the stream nor the error, nor the names, bits and contents that the fingerprint is about |
| `ReaderOrder.PermutedIsReordered` | homes/macbook-pro-m4/local/local-control/secure-files-rs/src/lib.rs:382-393 | Any permutation of a directory's entries, with the trees below reordered in turn, is covered by this |
| `SnapshotStream.WriteSnapshotRecord` | homes/macbook-pro-m4/local/local-control/secure-files-rs/src/lib.rs:886-904 | The six writes append exactly one encoded record to the output |
| `SnapshotStream.SnapshotDirectory` | homes/macbook-pro-m4/local/local-control/secure-files-rs/src/lib.rs:906-962 | The recursive loop appends exactly the records of the specified walk and returns its error; what was written before an error stays written |
| `SnapshotStream.SnapshotTree` | homes/macbook-pro-m4/local/local-control/secure-files-rs/src/lib.rs:873-884 | The entry point checks the root and leaves the specified stream |
| `AtomicWrite.ReplaceIsAtomic` | homes/macbook-pro-m4/local/local-control/secure-files-rs/src/lib.rs:477-526 | Whichever step fails, at every state in between the target is the complete old or the complete new file and no other entry differs; success changes the target alone, failure before the rename leaves nothing behind unless the removal itself failed |
| `AtomicWrite.AtomicExactly` | homes/macbook-pro-m4/local/local-control/secure-files-rs/src/lib.rs:477-526 | The replacement is atomic exactly when the target is not the temporary it allocates, or there is nothing to write and no mode to correct |
| `AtomicWrite.AtomicUnderAllFaults` | homes/macbook-pro-m4/local/local-control/secure-files-rs/src/lib.rs:477-526 | The replacement is atomic whatever fails exactly when the target is not a missing file with the name of the next temporary, which the caller can check beforehand |
| `AtomicWrite.TornInEmptyDirectory` | homes/macbook-pro-m4/local/local-control/secure-files-rs/src/lib.rs:493-511 | One byte written to the first temporary name of an empty directory is seen half done |
| `AtomicWrite.SelfNamedTargetIsNotAtomic` | homes/macbook-pro-m4/local/local-control/secure-files-rs/src/lib.rs:493-511 | A target named like the first free temporary can be seen incomplete, with the exact exception |
| `AtomicWrite.CrashesNeverTear` | homes/macbook-pro-m4/local/local-control/secure-files-rs/src/lib.rs:477-506 | Over any sequence of calls on a target that exists or has not the form of a temporary, each failing or crashing anywhere, the target stays what it was or what one call was to write, and every other entry survives unchanged |
| `AtomicWrite.SucceedsExactly` | homes/macbook-pro-m4/local/local-control/secure-files-rs/src/lib.rs:477-526 | A call succeeds exactly when the target is missing or an owned regular file of the mode, one of the thousand names can be created, and no step fails |
| `AtomicWrite.UnsafeExactly` | homes/macbook-pro-m4/local/local-control/secure-files-rs/src/lib.rs:483-498 | Checking refuses it as unsafe exactly for its folder, or for a target that is no link and no owned regular file of the mode, and then nothing was changed |
| `AtomicWrite.NoNameExactly` | homes/macbook-pro-m4/local/local-control/secure-files-rs/src/lib.rs:508-526 | It runs out of names exactly when all thousand are in use and nothing was wrong before |
| `AtomicWrite.CandidateIs` | homes/macbook-pro-m4/local/local-control/secure-files-rs/src/lib.rs:511 | A temporary is `.local-control.`, the process in decimal digits, a dot and the attempt in decimal digits |
| `AtomicWrite.AllocateFirstFree` | homes/macbook-pro-m4/local/local-control/secure-files-rs/src/lib.rs:508-526 | The temporary is the first free one of the thousand names, never one in use; refusal means all were taken or an attempt failed otherwise |
| `AtomicWrite.Folder.AtomicWrite` | homes/macbook-pro-m4/local/local-control/secure-files-rs/src/lib.rs:477-506 | The step-by-step program leaves the directory, the error and the whole history of intermediate directories that the specification lists |
| `AtomicWrite.Folder.OpenTemporaryFile` | homes/macbook-pro-m4/local/local-control/secure-files-rs/src/lib.rs:508-526 | The allocation loop creates the specified file and otherwise changes nothing |
| `TrustedPath.OpenFollowsNoLink` | homes/macbook-pro-m4/local/local-control/secure-files-rs/src/lib.rs:160-162 | Without the exception an open succeeds exactly with the node that plain lookup through real directories finds |
| `TrustedPath.OpenFollowsOneGeneration` | homes/macbook-pro-m4/local/local-control/secure-files-rs/src/lib.rs:173-235 | With the exception it succeeds exactly with the node that plain lookup finds for the path, or for the path with one non-final `current` replaced by the owned private generation directory it links to |
| `TrustedPath.OpenFromRoot` | homes/macbook-pro-m4/local/local-control/secure-files-rs/src/lib.rs:101-190 | A path written from `/` is looked up from the root, wherever the process stands, with or without the exception |
| `TrustedPath.OpenFromCurrent` | homes/macbook-pro-m4/local/local-control/secure-files-rs/src/lib.rs:101-190 | A path written without `/` in front is looked up from the current directory; an empty one opens nothing |
| `TrustedPath.CurDirIgnored` | homes/macbook-pro-m4/local/local-control/secure-files-rs/src/lib.rs:110-127 | A `.` anywhere changes no open, result and error alike |
| `TrustedPath.OpenItself` | homes/macbook-pro-m4/local/local-control/secure-files-rs/src/lib.rs:181-188 | `.` and `/` open the current directory and the root |
| `TrustedPath.ParentRefused` | homes/macbook-pro-m4/local/local-control/secure-files-rs/src/lib.rs:110-127 | A path with `..` anywhere, and an empty one, are invalid |
| `TrustedPath.OpenFailsExactly` | homes/macbook-pro-m4/local/local-control/secure-files-rs/src/lib.rs:101-235 | What an open without the exception reports when it fails, for every path: that the path is invalid, or what stops plain lookup at the first name that does |
| `TrustedPath.UnsafeExactly` | homes/macbook-pro-m4/local/local-control/secure-files-rs/src/lib.rs:203-227 | With the exception, an open is refused as unsafe exactly when plain lookup comes to a `current` on the way that is not a directory, and it is no link, someone else's, of another target, or leads to a directory that is not owned and private |
| `TrustedPath.GenerationNames` | homes/macbook-pro-m4/local/local-control/secure-files-rs/src/lib.rs:164-171 | The accepted link targets are exactly `generation-` and a positive decimal number without leading zero |
| `TrustedPath.OpenTrusted` | homes/macbook-pro-m4/local/local-control/secure-files-rs/src/lib.rs:173-235 | The loop over components, with its two reassigned variables, computes the specified open |
| `TrustedPath.OpenGenerationFile` | homes/macbook-pro-m4/local/local-control/secure-files-rs/src/lib.rs:239-272 | Returns a node exactly when it is an owned regular file of the expected mode reached with at most one generation link |
| `PrivacyScan.Seam` | modules/home/dev/scripts/git-privacy-hook.py:155-156 | With the part before unblocked, the whole is blocked exactly when the carried tail and the chunk together are |
| `PrivacyScan.SplitIrrelevant` | modules/home/dev/scripts/git-privacy-hook.py:148-157 | For every splitting into reads the chunked scan refuses exactly when the lower-cased whole contains a pattern |
| `PrivacyScan.OverlapPositive` | modules/home/dev/scripts/git-privacy-hook.py:57-70 | A valid policy has an overlap of at least five, and every pattern is nonempty and fits the overlap |
| `PrivacyScan.BlockedExactly` | modules/home/dev/scripts/git-privacy-hook.py:59-85 | Over bytes: what is refused is exactly what holds a policy address in any letter case, its `@` as such, after a backslash, or as `%40`, `&#64;` or `&#x40;` |
| `PrivacyScan.PlainAddressBlocked` | modules/home/dev/scripts/git-privacy-hook.py:59-85 | A policy address as it is, in any letter case and between any bytes, is refused |
| `PrivacyScan.ProtocolTexts` | modules/home/dev/scripts/git-privacy-hook.py:139-159 | The words of Git's replies, the blanks between them, and ids as 40 or 64 lower-case hexadecimal digits |
| `PrivacyScan.HeaderParses` | modules/home/dev/scripts/git-privacy-hook.py:144-148 | The first line of a reply is the header, and splits into three words exactly for an object that exists |
| `PrivacyScan.ReadHeader` | modules/home/dev/scripts/git-privacy-hook.py:142-148 | Reading the header leaves the stream exactly at the content |
| `PrivacyScan.Guard.Inspect` | modules/home/dev/scripts/git-privacy-hook.py:73-85 | Refuses exactly the bytes whose lower-cased form contains a pattern |
| `PrivacyScan.Guard.ScanObject` | modules/home/dev/scripts/git-privacy-hook.py:148-159 | Whatever sizes the reads return, the verdict is that of the whole object, and on success the stream stands just behind its newline |
| `PrivacyScan.Guard.Object` | modules/home/dev/scripts/git-privacy-hook.py:140-159 | One object passes exactly when it exists and may be published, and then the reply is consumed to its end |
| `PrivacyScan.Guard.Objects` | modules/home/dev/scripts/git-privacy-hook.py:123-169 | The list passes exactly when every object in it does and Git exits cleanly |
| `PushCoverage.PublishedIsInspected` | modules/home/dev/scripts/git-privacy-hook.py:194-229 | Over every history of pushes, deletions and foreign updates, each object reachable from the destination was there at the start, is reachable from what an update by someone else newly pointed a ref at, or was listed to the inspector and passed it |
| `PushCoverage.TipIsInspected` | modules/home/dev/scripts/git-privacy-hook.py:196-229 | When the hook passes, every pushed id that is not all zeros was itself inspected, and so was everything listed |
| `PushCoverage.DeletionsPass` | modules/home/dev/scripts/git-privacy-hook.py:196-229 | A push whose ids are all null, 40 or 64 zeros, passes exactly when its names do |
| `PushCoverage.ExcludedExactly` | modules/home/dev/scripts/git-privacy-hook.py:204-224 | What is left out of the listing is exactly what a destination branch or tag points at and is a commit or an annotated tag here |
| `PushCoverage.HistoryKeeps` | modules/home/dev/scripts/git-privacy-hook.py:194-229 | The invariant behind it holds in every reached state |
| `PushCoverage.BeforePush` | modules/home/dev/scripts/git-privacy-hook.py:194-229 | The hook passes exactly when every pushed name and every listed object does; a push of deletions alone needs no object |
| `PushCoverage.CheckNames` | modules/home/dev/scripts/git-privacy-hook.py:196-203 | The loop over the hook's input checks every name pair and collects the nonzero tips in order |
| `WallpaperPolicy.MergePlansByLayers` | modules/home/desktop/scripts/wallpaper-policy.py:41-54 | Planning on the merged settings is planning by looking each key up in the overrides first and the defaults second |
| `WallpaperPolicy.AllowedDecides` | modules/home/desktop/scripts/wallpaper-policy.py:102-119 | The decision about one route depends on five keys only, by a decision table given apart |
| `WallpaperPolicy.MergeLayersChoices` | modules/home/desktop/scripts/wallpaper-policy.py:41-54 | For valid settings each of those five keys of the merge is the override if present, else the default |
| `WallpaperPolicy.ValidExactly` | modules/home/desktop/scripts/wallpaper-policy.py:57-99 | Settings are valid exactly when whatever stands at any path of keys has the shape that a table of paths gives for it |
| `WallpaperPolicy.MergeKeepsValid` | modules/home/desktop/scripts/wallpaper-policy.py:41-99 | The merge of valid settings is valid |
| `WallpaperPolicy.MergeIdempotent` | modules/home/desktop/scripts/wallpaper-policy.py:41-54 | Merging the same overrides again changes nothing |
| `WallpaperPolicy.MergeAssociative` | modules/home/desktop/scripts/wallpaper-policy.py:41-54 | The merge is associative on validated settings |
| `WallpaperPolicy.MergeAssociativeExactly` | modules/home/desktop/scripts/wallpaper-policy.py:41-54 | Any three objects merge alike in either order of steps exactly when, wherever the outer two hold objects and the middle one something else, the last covers the first, at every depth |
| `WallpaperPolicy.CoversExactly` | modules/home/desktop/scripts/wallpaper-policy.py:41-54 | A merge is its overrides exactly when these have all the keys of the base, and so at every depth where both hold objects |
| `WallpaperPolicy.MergeNotAssociativeInGeneral` | modules/home/desktop/scripts/wallpaper-policy.py:50-53 | Three objects on which the two orders differ |
| `WallpaperPolicy.MergeSettings` | modules/home/desktop/scripts/wallpaper-policy.py:41-54 | The loop over the overrides, taken in any order, computes the merge |
| `WallpaperPolicy.ChangeKeepsValid` | modules/home/desktop/scripts/wallpaper-policy.py:232-268 | Every accepted command keeps valid overrides valid |
| `WallpaperPolicy.ChangeSetsOneChoice` | modules/home/desktop/scripts/wallpaper-policy.py:232-268 | A command sets the one key it names and leaves the other four keys of every decision |
| `WallpaperPolicy.ChangeIsScoped` | modules/home/desktop/scripts/wallpaper-policy.py:232-268 | A command alters no decision outside the scope it names |
| `WallpaperPolicy.ChangesExactly` | modules/home/desktop/scripts/wallpaper-policy.py:102-119 | A command changes the decision about a route exactly when the route is in its scope, nothing else stands in the route's way, its key is not outranked by a nearer one, and that key reads differently after it |
| `WallpaperPolicy.CommandDecides` | modules/home/desktop/scripts/wallpaper-policy.py:232-268 | Which routes in its scope each command leaves planned: on and off as said, `inherit` as the next switch above and the other keys say, `default` as without the override |
| `WallpaperPolicy.KnownExactly` | modules/home/desktop/scripts/wallpaper-policy.py:240-261 | The commands accepted are those about a connection, a category or a subcategory of its category in the catalog |
| `WallpaperPolicy.PersonalDecides` | modules/home/desktop/scripts/wallpaper-policy.py:245-268 | The `personal` command decides about personal pictures as its setting says, and no other command does |
| `WallpaperPolicy.SubcategoryOfSwitchedOff` | modules/home/desktop/scripts/wallpaper-policy.py:113-114 | Under a category that is switched off, a command about a subcategory changes no decision |
| `WallpaperPolicy.DefaultUndoes` | modules/home/desktop/scripts/wallpaper-policy.py:265-268 | Setting a key that was absent and then returning it to its default restores every decision |
| `WallpaperPolicy.SessionPlans` | modules/home/desktop/scripts/wallpaper-policy.py:335-352 | After any session of commands every decision is the one given by the last accepted setting of each key |
| `WallpaperPolicy.Preferences.Execute` | modules/home/desktop/scripts/wallpaper-policy.py:341-349 | The stored overrides change exactly by the command, and only from valid to valid |
| `NullPaths.ReadNames` | modules/home/desktop/scripts/wallpaper-policy.py:319-332 | For every cutting of the input into chunks the names yielded are the nonempty pieces of the whole input |
| `NullPaths.SplitJoin` | modules/home/desktop/scripts/wallpaper-policy.py:328 | Splitting at NUL is the inverse of joining pieces without NUL |
| `NullPaths.NamesRoundTrip` | modules/home/desktop/scripts/wallpaper-policy.py:319-332 | Names written with terminators, the last perhaps without, are read back as they were |
| `NullPaths.CarryOn` | modules/home/desktop/scripts/wallpaper-policy.py:327-330 | After each chunk every finished name is out and only the unfinished one is kept |
| `Palette.NeverFailsExactly` | modules/shared/stylix/targets/noctalia/prepare-palette.py:77-93 | For any two surfaces, preparing succeeds with every palette on them exactly when both have a luminance of at most 13/76, which is above 0.171 |
| `Palette.PreparesExactly` | modules/shared/stylix/targets/noctalia/prepare-palette.py:77-93 | Each palette whose surfaces are at most 13/76 is prepared, each with a surface between 13/76 and 3/16 is not; below 3/16 this decides it |
| `Palette.PreparedHasContrast` | modules/shared/stylix/targets/noctalia/prepare-palette.py:77-93 | After a successful run every text on a surface, every fill on a surface and every text on its fill has a contrast ratio of at least 4.75, and the surfaces are unchanged |
| `Palette.PreparedIsReadable` | modules/shared/stylix/targets/noctalia/prepare-palette.py:77-93 | The same for any notion of readability, with the hover colours following the tertiary ones |
| `Palette.PreparedTwice` | modules/shared/stylix/targets/noctalia/prepare-palette.py:77-93 | Preparing a prepared palette changes nothing |
| `Palette.ReadableIsLeast` | modules/shared/stylix/targets/noctalia/prepare-palette.py:55-74 | The colour found is the blend of the least step that passes; an error means that none of the 256 does |
| `Palette.PreparedBlends` | modules/shared/stylix/targets/noctalia/prepare-palette.py:77-93 | Every colour is the first readable blend of the old one: the text towards white, its variant and the fills towards the new text, each role's text towards black on the new fill |
| `Palette.LuminanceExactly` | modules/shared/stylix/targets/noctalia/prepare-palette.py:24-41 | Red, green and blue weigh 2126, 7152 and 722 ten-thousandths, and a grey has the linear value of its byte |
| `Palette.ContrastExactly` | modules/shared/stylix/targets/noctalia/prepare-palette.py:44-52 | The ratio adds a twentieth to both luminances, is the same both ways round, and is 21 for white on black |
| `Palette.BlendIsNearest` | modules/shared/stylix/targets/noctalia/prepare-palette.py:67-70 | The rounding of a blend never meets a tie, so it is the one nearest byte |
| `Palette.WritableExactly` | modules/shared/stylix/targets/noctalia/prepare-palette.py:44-52 | White is readable on a background of luminance up to 13/76, black from 3/16 on, and any colour only where one of them is |
| `Palette.NothingPasses` | modules/shared/stylix/targets/noctalia/prepare-palette.py:44-52 | Between the two limits no colour at all is readable on a background |
| `Palette.PassingIsLight` | modules/shared/stylix/targets/noctalia/prepare-palette.py:86-89 | Whatever is readable on a dark background is light enough for black text |
| `Palette.LegibleIsContrast` | modules/shared/stylix/targets/noctalia/prepare-palette.py:44-71 | The comparison without division is the contrast ratio of WCAG 2.1 against 4.75 |
| `Palette.FindReadable` | modules/shared/stylix/targets/noctalia/prepare-palette.py:55-74 | The search loop computes the least passing blend |
| `Palette.Scheme.Prepare` | modules/shared/stylix/targets/noctalia/prepare-palette.py:77-93 | The assignments in place give the specified palette, or fail when it does not exist |
| `RegistryUpsert.ApplySettles` | modules/home/libreoffice-apply-settings.py:79-120 | After a setting is applied exactly one property of its path and name exists, with its value |
| `RegistryUpsert.ApplyUpserts` | modules/home/libreoffice-apply-settings.py:94-108 | The first of several properties stays the same element with its attributes and other parts; a missing one is made in an item with its path, `oor:path`, with its name, `oor:name`, and the operation `oor:op`, `fuse` |
| `RegistryUpsert.UnchangedExactly` | modules/home/libreoffice-apply-settings.py:79-120 | A setting leaves the tree as it is exactly when it was settled already |
| `RegistryUpsert.ApplyKeepsResidue` | modules/home/libreoffice-apply-settings.py:79-120 | Everything but the setting's own properties keeps its contents and order, and an item vanishes only when it held nothing else |
| `RegistryUpsert.ResidueExactly` | modules/home/libreoffice-apply-settings.py:109-118 | What is kept of a node: nothing exactly when it is an item of the path with children that all match, otherwise the node without those |
| `RegistryUpsert.ApplyKeepsOthers` | modules/home/libreoffice-apply-settings.py:79-120 | The properties of every other path and name are untouched |
| `RegistryUpsert.ListKeepsUnmanaged` | modules/home/libreoffice-apply-settings.py:154-158 | A whole pass leaves everything that no setting is about with its contents and in its order, and no item vanishes that holds anything else |
| `RegistryUpsert.ListKeepsOthers` | modules/home/libreoffice-apply-settings.py:154-158 | The properties of a path and name that no setting has stay the very same ones through a pass |
| `RegistryUpsert.ListKeepsFirst` | modules/home/libreoffice-apply-settings.py:110-119 | The first property of every path and name stays the same element through a pass, so only duplicates ever go |
| `RegistryUpsert.ListSettles` | modules/home/libreoffice-apply-settings.py:154-158 | After a pass over a consistent list every setting is settled |
| `RegistryUpsert.NoChangeExactly` | modules/home/libreoffice-apply-settings.py:154-158 | A pass reports no change exactly when every setting was settled before it |
| `RegistryUpsert.FlagIsChange` | modules/home/libreoffice-apply-settings.py:154-158 | For a consistent list the reported flag is true exactly when the tree changed |
| `RegistryUpsert.SecondPassQuietExactly` | modules/home/libreoffice-apply-settings.py:154-158 | A second pass reports no change exactly when no two settings want different values for one property |
| `RegistryUpsert.ConflictNeverSettles` | modules/home/libreoffice-apply-settings.py:154-158 | Two values for one property in a fresh profile: the second pass reports a change |
| `RegistryUpsert.NextRunQuietExactly` | modules/home/libreoffice-apply-settings.py:102-158 | The next run can read the profile and has nothing to write exactly when this run had nothing to write, or no two settings conflict and each has texts of XML characters and a value that is neither empty nor holds a carriage return |
| `RegistryUpsert.LegalExactly` | modules/home/libreoffice-apply-settings.py:43 | A text can be parsed again exactly when it holds none of the characters that XML 1.0, section 2.2, leaves out |
| `RegistryUpsert.LineEndRead` | modules/home/libreoffice-apply-settings.py:43 | A parser reads a carriage return, with the newline after it if there is one, as one newline (XML 1.0, section 2.11) |
| `RegistryUpsert.NeverQuiet` | modules/home/libreoffice-apply-settings.py:106-108 | An empty value, a carriage return, alone or before a newline, and a control character: in a fresh profile the run after is not quiet |
| `RegistryUpsert.ReloadKeepsExactly` | modules/home/libreoffice-apply-settings.py:123-140 | The written file gives the whole tree back exactly when no value in it, managed or not, is empty or holds a carriage return |
| `RegistryUpsert.FileKeepsUnmanagedExactly` | modules/home/libreoffice-apply-settings.py:123-158 | What no setting is about is the same for the next run exactly when this run had nothing to write, or no value in it is empty or holds a carriage return |
| `RegistryUpsert.FileChangesUnmanaged` | modules/home/libreoffice-apply-settings.py:123-158 | A profile with a carriage return in another property, and one setting to write: the next run finds that property changed |
| `RegistryUpsert.SetAndRemoveIsSweep` | modules/home/libreoffice-apply-settings.py:94-120 | Setting the first match and removing the duplicates one by one is one sweep over the tree |
| `RegistryUpsert.Registry.FindMatches` | modules/home/libreoffice-apply-settings.py:86-92 | Collects the matching elements in document order |
| `RegistryUpsert.Registry.RemoveDuplicate` | modules/home/libreoffice-apply-settings.py:110-119 | Takes one element out of the first item that holds it, and the item when that empties it |
| `RegistryUpsert.Registry.ApplySetting` | modules/home/libreoffice-apply-settings.py:79-120 | The edit in place gives the specified tree and returns true exactly when it changed |
| `RegistryUpsert.Registry.ApplySettings` | modules/home/libreoffice-apply-settings.py:154-158 | The loop over the settings gives the specified tree and flag |
| `HealthDelivery.RunsStayConsistent` | hosts/nixos/desktop/local/storage/health.py:181-269 | Over every run, with calls killed at any step, nothing is acknowledged without its successful command and no state of a channel is acknowledged twice in a row |
| `HealthDelivery.RecoveryFollowsWarning` | hosts/nixos/desktop/local/storage/health.py:211-231 | On one channel an acknowledged recovery always follows an acknowledged warning |
| `HealthDelivery.RecoveryFollowsWarningExactly` | hosts/nixos/desktop/local/storage/health.py:202-231 | On any channels, over every run from an empty directory, every acknowledged recovery follows an acknowledged warning exactly when no call delivers a healthy state while the receipt is that of a recovery on another channel |
| `HealthDelivery.ChannelChangeRepeatsRecovery` | hosts/nixos/desktop/local/storage/health.py:202-231 | One call breaks the rule exactly when it is such a call, and then it is acknowledged |
| `HealthDelivery.MovedRelapses` | hosts/nixos/desktop/local/storage/health.py:202-231 | A warning and its recovery by one command, then the same healthy state with another command configured: the rule is broken |
| `HealthDelivery.WarningIsKnown` | hosts/nixos/desktop/local/storage/health.py:215-269 | After a finished call that was no test, the current warning is acknowledged or pending |
| `HealthDelivery.TestsLeaveRecords` | hosts/nixos/desktop/local/storage/health.py:224-269 | A test changes neither the receipt nor the pending record |
| `HealthDelivery.SameMessagesStaySilent` | hosts/nixos/desktop/local/storage/health.py:202-227 | Reordered or repeated messages trigger no new delivery |
| `HealthDelivery.ChangesAreAcknowledged` | hosts/nixos/desktop/local/storage/health.py:215-269 | When commands succeed exactly the changes of state are acknowledged, in order |
| `HealthDelivery.FreshChangesAreAcknowledged` | hosts/nixos/desktop/local/storage/health.py:228-231 | From an empty directory a healthy first state is no change |
| `HealthDelivery.Delivery.Deliver` | hosts/nixos/desktop/local/storage/health.py:181-269 | The program on its three files goes through the specified stages one by one, and ends in the last with the specified exit code |
| `HealthDelivery.ExitExactly` | hosts/nixos/desktop/local/storage/health.py:225-269 | A finished call returns zero exactly when it had nothing to send and was no test, or its command succeeded |
| `HealthDelivery.StoppedAtStage` | hosts/nixos/desktop/local/storage/health.py:215-269 | A call that is killed leaves one of these stages |
| `BackupRunner.BackupRestartsAll` | modules/nixos/services/application-recovery/runner.py:79-124 | A rejected or interrupted preflight runs nothing; otherwise, wherever the work fails or is interrupted, the initially active units get one start each, in reverse order, up to a signal between two starts, and the backup succeeds exactly when all commands did and no signal arrived |
| `BackupRunner.AllRestartedExactly` | modules/nixos/services/application-recovery/runner.py:117-124 | After the preflight every initially active unit gets its start exactly when no signal arrives before the last start outside the running commands |
| `BackupRunner.WorkIsOrdered` | modules/nixos/services/application-recovery/runner.py:113-116 | Stops come first and in order, the export only after all of them succeeded, the backup right after an export that succeeded |
| `BackupRunner.DrillIsOrdered` | modules/nixos/services/application-recovery/runner.py:157-158 | A drill recovers, then restores, then checks, each only after the one before succeeded |
| `BackupRunner.SignalsFail` | modules/nixos/services/application-recovery/runner.py:79-124 | A signal in any gap, those after a last command included, fails the backup; later ones leave it as it is without any |
| `BackupRunner.InterruptLeavesStopped` | modules/nixos/services/application-recovery/runner.py:118-122 | Two running writers and a signal between their two starts: the second stays stopped |
| `BackupRunner.SnapshotExactly` | modules/nixos/services/application-recovery/runner.py:91-108 | The preflight rejects exactly when some unit is neither active nor inactive, and otherwise collects exactly the active ones |
| `BackupRunner.WritersRunAgain` | modules/nixos/services/application-recovery/runner.py:112-124 | If all starts are attempted and succeed every initially active unit is active again, even when stopping one stopped others |
| `BackupRunner.SuccessIsEarned` | modules/nixos/services/application-recovery/runner.py:127-162 | The success receipt changes exactly when every phase and every restart succeeded, undisturbed, and it could be written; the invocation then succeeds unless a signal still arrives; other attempts are recorded as failures |
| `BackupRunner.SuccessReceiptIsLastSuccess` | modules/nixos/services/application-recovery/runner.py:56-76 | Over every sequence of invocations the success receipt is that of the last one in which everything succeeded |
| `BackupRunner.Runner.TakeSnapshot` | modules/nixos/services/application-recovery/runner.py:91-108 | The loop over the units computes the preflight |
| `BackupRunner.Runner.BackUp` | modules/nixos/services/application-recovery/runner.py:79-124 | Stops, work and the clean-up loop leave the specified commands and states, signals included |
| `BackupRunner.Runner.WriteReceipts` | modules/nixos/services/application-recovery/runner.py:56-76 | Replaces the attempt receipt, and the success receipt only after a success |
| `BackupRunner.Runner.Execute` | modules/nixos/services/application-recovery/runner.py:127-162 | A whole invocation on world and receipts is the specified one |
| `PairingProtocol.BehaviourInvariant` | modules/nixos/hardware/scripts/disable-bluetooth-pairing.py:52-112 | The invariant of the subscribe-then-snapshot protocol holds in every state of every interleaving |
| `PairingProtocol.NoAdapterIsMissed` | modules/nixos/hardware/scripts/disable-bluetooth-pairing.py:55-94 | As long as nothing failed, a requested adapter that is there is ready or its notice is still to come exactly when BlueZ was not restarted, or the client had heard of the adapter by then |
| `PairingProtocol.NothingNewAfterRestart` | modules/nixos/hardware/scripts/disable-bluetooth-pairing.py:52-64 | Once BlueZ was restarted, what the client hears of requested adapters does not change any more |
| `PairingProtocol.MissedAfterRestart` | modules/nixos/hardware/scripts/disable-bluetooth-pairing.py:52-64 | A run in which an adapter appears after a restart and is never written, though nothing fails or is left to do |
| `PairingProtocol.WritesAreTimely` | modules/nixos/hardware/scripts/disable-bluetooth-pairing.py:96-108 | Each write goes to a requested adapter that appeared before, for the first time |
| `PairingProtocol.WritesComeFromTasks` | modules/nixos/hardware/scripts/disable-bluetooth-pairing.py:96-112 | Only an adapter's own task ever writes to it |
| `PairingProtocol.QuietMeansDone` | modules/nixos/hardware/scripts/disable-bluetooth-pairing.py:52-112 | When nothing is in flight or runnable and nothing failed, only requested adapters that appeared have been written, once each; without a restart all that are there, and without removals exactly those that appeared; after a restart exactly those heard of by then |
| `PairingProtocol.Client.Receive` | modules/nixos/hardware/scripts/disable-bluetooth-pairing.py:55-94 | The handler and the awaiting code take each message as the protocol step does |
| `PairingProtocol.Client.Apply` | modules/nixos/hardware/scripts/disable-bluetooth-pairing.py:96-108 | A task whose event is set sends its one write as the protocol step does |
| `LeaseSelection.StripLeaseComment` | homes/macbook-pro-m4/local/dev_vm_host.py:244-264 | The loop over quote and escape state computes the specified comment stripping, and fails exactly on an open quote |
| `LeaseSelection.StripExactly` | homes/macbook-pro-m4/local/dev_vm_host.py:258-264 | What is left of a line is what stands before its comment, without the blanks around it |
| `LeaseSelection.CommentsCut` | homes/macbook-pro-m4/local/dev_vm_host.py:244-264 | Any line of bare characters and quoted texts, escapes included, is kept up to a `#` outside quotes, and refused for a quote left open |
| `LeaseSelection.EveryLine` | homes/macbook-pro-m4/local/dev_vm_host.py:244-264 | Every line is of this form |
| `WhiteSpace.SpaceExactly` | homes/macbook-pro-m4/local/dev_vm_host.py:264 | The blanks that stripping drops, character by character |
| `LeaseSelection.TrimmedExactly` | homes/macbook-pro-m4/local/dev_vm_host.py:264 | Stripping keeps exactly the texts that neither start nor end with a blank |
| `LeaseSelection.CommentIgnored` | homes/macbook-pro-m4/local/dev_vm_host.py:244-264 | A `#` comment after closed quotes leaves the stripped line as it was |
| `LeaseSelection.CommentsNeverMatter` | homes/macbook-pro-m4/local/dev_vm_host.py:311-350 | Adding such comments to any lines changes nothing that is parsed |
| `LeaseSelection.ParsesExactly` | homes/macbook-pro-m4/local/dev_vm_host.py:284-350 | Parsing returns a list of leases exactly when the file, but for comments and blank lines, is a sequence of complete records and outside statements that hold these leases in order |
| `LeaseSelection.BuildsExactly` | homes/macbook-pro-m4/local/dev_vm_host.py:284-308 | A record gives a lease exactly when it has one statement of each kind and they declare this lease, ending after it starts |
| `LeaseSelection.ParseLeaseLines` | homes/macbook-pro-m4/local/dev_vm_host.py:311-350 | The loop over the lines computes the specified parse |
| `LeaseSelection.SelectedExactly` | homes/macbook-pro-m4/local/dev_vm_host.py:353-412 | An address is returned exactly when its last declaration is eligible and starts strictly later than every other address's eligible last declaration |
| `LeaseSelection.OnlyLastDeclarationsMatter` | homes/macbook-pro-m4/local/dev_vm_host.py:360-362 | Superseded records and the order of addresses do not matter |
| `LeaseSelection.CurrentIsLast` | homes/macbook-pro-m4/local/dev_vm_host.py:362 | The dictionary holds exactly the last declaration of each address |
| `LeaseSelection.EligibleExactly` | homes/macbook-pro-m4/local/dev_vm_host.py:353-369 | Eligible are the adapter's leases that run now, on the 254 hosts of the network |
| `LeaseSelection.NetworkExactly` | homes/macbook-pro-m4/local/dev_vm_host.py:385-394 | Only a network of 256 addresses that starts at a multiple of 256 is taken |
| `EvidenceCapture.AcceptedExactly` | scripts/workstation_evidence.py:534-583 | The validators accept the record of every check, passed or not, exactly when its target and check are named and, if it passed, the active system was the same when recorded as when compared |
| `EvidenceCapture.NamelessIsRefused` | scripts/workstation_evidence.py:655-666 | An evaluation for a target without a name passes, and its record is refused |
| `EvidenceCapture.SwitchedIsRefused` | scripts/workstation_evidence.py:550-553 | A runtime check whose active system is switched between being recorded and compared passes, and its record is refused |
| `EvidenceCapture.PassesExactly` | scripts/workstation_evidence.py:534-583 | A check passes exactly when its candidate is accepted, every run succeeds with valid measurements, a built output is realised, configuration and source are unchanged, and the looks at the active system support the phase |
| `EvidenceCapture.CandidateExactly` | scripts/workstation_evidence.py:352-419 | Which check has no candidate, a built output or a prior build, and which one it is |
| `EvidenceCapture.CandidateRefusals` | scripts/workstation_evidence.py:352-419 | The reason of each refusal of a candidate |
| `EvidenceCapture.RecheckRefusals` | scripts/workstation_evidence.py:557-577 | The reason of each refusal after the runs, the first that applies |
| `EvidenceCapture.PassNamesItsBuild` | scripts/workstation_evidence.py:401-419 | A passed system check shares source, target, platform and output with an accepted passed build receipt, and the source is unchanged at the end |
| `EvidenceCapture.PassedBuildIsRealised` | scripts/workstation_evidence.py:557-561 | A passed record has as many samples as asked for, all successful; a passed build that names an output names the evaluated one, found realised |
| `EvidenceCapture.NamedReceiptIsTheBuild` | scripts/workstation_evidence.py:401-419 | Over every history of checks, if no two kept receipts share a digest, the kept receipt with the digest that a passed system check names is the build it checked |
| `EvidenceCapture.ArchiveIsBacked` | scripts/workstation_evidence.py:401-419 | Over every history of checks each passed system check has its passed build in the archive |
| `EvidenceCapture.ArchiveExactly` | scripts/workstation_evidence.py:653-668 | Over every history of checks the archive holds exactly the records that validated when they were kept |
| `EvidenceCapture.TrialsStopAtFailure` | scripts/workstation_evidence.py:422-445 | All runs but the last went well, and a short series has a reason or ends with a failed run |
| `EvidenceCapture.TrialsExactly` | scripts/workstation_evidence.py:422-445 | The samples kept are those of the runs in order up to the first that fails, and a command that does not start is the reason |
| `EvidenceCapture.Recorder.RunTrials` | scripts/workstation_evidence.py:422-445 | The loop leaves the specified measurements and reason in the record |
| `EvidenceCapture.Recorder.ExecuteCapture` | scripts/workstation_evidence.py:534-583 | The step-by-step update gives the specified record and outcome |
| `EvidenceCapture.Recorder.Run` | scripts/workstation_evidence.py:653-668 | Refusals and breakdowns become unsuccessful receipts, and a receipt is kept exactly when it validates |
| `EvidenceCompare.Compare` | scripts/workstation_evidence.py:1031-1108 | Two receipts are compared exactly when they are comparable, and the verdict is that for both metrics 100 candidate medians are at most 100 + budget baseline medians; medians lie in the reported ranges, and ranges overlap exactly when some value is in both |
| `EvidenceCompare.VerdictOfMultisets` | scripts/workstation_evidence.py:1078-1088 | The verdict depends only on the multisets of samples |
| `EvidenceReceipts.AcceptedPassExactly` | scripts/workstation_evidence.py:897-978 | Phase by phase, which receipts of a pass are acceptable: samples, output, build and the looks at the active system |
| `EvidenceReceipts.AcceptedOtherwiseExactly` | scripts/workstation_evidence.py:949-978 | Which other receipts are: the reason says something, and a skipped check has no samples |
| `EvidenceReceipts.AcceptedIsIdentified` | scripts/workstation_evidence.py:842-894 | Every acceptable receipt names target, check and platform, is dated in order and in the past, and has fingerprints of command, environment, configuration and sources |
| `EvidenceReceipts.ValidSourceExactly` | scripts/workstation_evidence.py:734-758 | A source is valid exactly when it and every submodule at any depth is identified |
| `EvidenceReceipts.StorePathExactly` | scripts/workstation_evidence.py:718-731 | A store path is `/nix/store/`, 32 digits of Nix's base 32, a dash and a name of the letters allowed |
| `EvidenceReceipts.TextsExactly` | scripts/workstation_evidence.py:708-715 | Digests, revisions and output attributes, letter by letter |
| `EvidenceReceipts.PlatformExactly` | scripts/workstation_evidence.py:875-876 | A platform is a machine name and `-linux` or `-darwin` |
| `EvidenceCompare.ComparableExactly` | scripts/workstation_evidence.py:1031-1073 | Only two acceptable passes are compared that differ in nothing but date, source, samples and what they observed, in a known configuration and a warm or cold cache, with three samples or more each |
| `EvidenceCompare.MedianExactly` | scripts/workstation_evidence.py:1081 | The median by ranks: the middle value of an odd number, the mean of the middle two of an even one |
| `EvidenceCompare.PairedSamplesPass` | scripts/workstation_evidence.py:1078-1088 | If samples can be paired so that each candidate is within budget of its partner, the comparison passes |
| `EvidenceCompare.Rank` | scripts/workstation_evidence.py:1081 | A value in sorted place j is at most t exactly when more than j samples are |
| `EvidenceCompare.ChangeWithin` | scripts/workstation_evidence.py:1084-1087 | The percentage within budget is the same test without division |
| `EvidenceCompare.ChangeOfBase` | scripts/workstation_evidence.py:1084 | The change is the difference of the medians as a percentage of the baseline's |
| `EvidenceCompare.ValuesExactly` | scripts/workstation_evidence.py:1078-1080 | One metric is the elapsed time, the other the peak memory |
| `EvidenceCoverage.Coverage` | scripts/workstation_evidence.py:1111-1158 | A report is given exactly for a valid manifest and valid receipts, and passes exactly when for every required check some receipt matches and all that finished last passed |
| `EvidenceCoverage.RowExactly` | scripts/workstation_evidence.py:1135-1149 | A row has the worst status among the matching receipts that finished last, and is missing only without any |
| `EvidenceCoverage.WorstExactly` | scripts/workstation_evidence.py:1135-1142 | Invalid is worse than failed, failed than skipped, skipped than passed |
| `EvidenceCoverage.CountsExactly` | scripts/workstation_evidence.py:1126-1134 | A receipt counts for a check exactly when the check's four fields and the whole source are the receipt's |
| `EvidenceCoverage.ManifestExactly` | scripts/workstation_evidence.py:981-1016 | A manifest is valid exactly when it requires something, its checks are named, on known platforms, and no two differ in being required only |
| `EvidenceCoverage.MaxBy` | scripts/workstation_evidence.py:1135-1142 | The maximum over finish time and severity, the first among equals |
| `EvidenceCoverage.RowOfPermutation` | scripts/workstation_evidence.py:1126-1149 | The order of the receipts changes neither status nor finish time of a row |
| `EvidenceCoverage.DateFixedExactly` | scripts/workstation_evidence.py:1135-1147 | The date shown is the same for every order of the receipts exactly when all that finished last with the worst status carry one date |
| `EvidenceCoverage.DateDependsOnOrder` | scripts/workstation_evidence.py:1147 | Two acceptable receipts that finished together, whose order decides the date shown |
| `EvidenceCoverage.LateFailureUncovers` | scripts/workstation_evidence.py:1135-1158 | A matching receipt that did not pass and finished no earlier than the rest makes the row of its check not passed, with its own finish time |
| `EvidenceCoverage.LateFailureFailsReport` | scripts/workstation_evidence.py:1150-1158 | For a required check it makes the report incomplete |
| `EvidenceCoverage.LatePassCovers` | scripts/workstation_evidence.py:1135-1158 | A pass that finished later than everything else covers its check, whatever came before |
| `EvidenceCoverage.OtherChecksUntouched` | scripts/workstation_evidence.py:1126-1134 | A receipt changes no row but that of its own check and source |
| `TomlString.TomlRoundTrip` | modules/home/dev/scripts/write-jujutsu-identity.py:14-15 | Reading the printed string as a basic string of TOML v1.0.0, section "String", gives the original back, for every string of Unicode scalar values |
| `TomlString.PrintIsPrintable` | modules/home/dev/scripts/write-jujutsu-identity.py:14-15 | Nothing printed is a control character or DEL |
| `TomlString.JsonEscapeExactly` | modules/home/dev/scripts/write-jujutsu-identity.py:14-15 | Exactly seven characters have a short escape, and exactly the other control characters a long one |
| `TomlString.JsonControlExactly` | modules/home/dev/scripts/write-jujutsu-identity.py:14-15 | The long escape of a control character is `\u00` and its two hexadecimal digits |
| `TomlString.PassesCommute` | modules/home/dev/scripts/write-jujutsu-identity.py:15 | Rewriting DEL after escaping is rewriting it character by character, so no earlier escape is touched |
| `TomlString.JsonAloneReadsExactly` | modules/home/dev/scripts/write-jujutsu-identity.py:15 | Without the rewriting the round trip holds exactly for strings without DEL |

## Left out

- Process groups, and interrupts but for the backup runner's: a signal or a time limit that ends a command counts as its failure, one between two commands of a backup is modelled, and one around the lock, the scratch directory and the receipts counts as the failure of that step.
- Changes to a directory by others during an open or a replacement; the snapshot models them as a failed comparison of `fstat` results.
- Write errors of the snapshot's output, and memory for one file's contents: the stream written before them is what the records say.
- `create_file`, `repair_file_mode`, the `exec` wrappers and the command dispatch of `secure-files-rs`: branches that one reading settles.
- `before_commit` and `private_content` of the privacy hook: Git plumbing and a network question, whose answer is the parameter `allowContent`. Lower-casing addresses is modelled for ASCII letters.
- `_assignments` and `_eligible` of the wallpaper policy: regular expressions over metadata, then set membership. A crash while the settings file is written is left out too.
- Hexadecimal colour text, and floating-point rounding of luminances: colours are triples of bytes, luminances real numbers.
- XML parsing and printing, but for what they do to the text of a value and to characters that XML does not allow; the elements inside a value, the text between elements and the root element are not modelled.
- Python's identity of XML elements is modelled by a number on each property; attributes and children of other nodes are opaque.
- `collect`, `probe_messages`, `save` and `read` of the health check: they only gather the messages that delivery is given.
- The property values that the Bluetooth client reads, its deadline and its disconnection; a refused request is a failure.
- The regular expressions and date arithmetic of a lease's statements, and MAC address spelling: parameters of the parser that may refuse any text. Virtual machine configuration files are not modelled.
- Fingerprinting a source tree with Git, measuring a command, placing a build on its host: their results are what the environment answers. The second configuration and source observations that a refused record carries along are not fields of the model.
- Malformed JSON: receipts and manifests are typed; a receipt that cannot be read is an answer of the environment. Measurements are finite by type.
- Strings with lone surrogates, which the TOML printer would not be able to write to its file.
- `sorted`, `dict` and `max` of Python are modelled by functions with their documented order and ties.
