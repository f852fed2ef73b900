# MoonFort verification

MoonFort runs untrusted work in a sandbox and lets a reviewer promote what came out of it. This
project models the parts whose correctness is not visible from any one function, and proves what
they are for. Everything outside the process (the kernel, the machine provider, the clock, the
order in which directories are read, a concurrent writer) is nondeterministic: it is a value that
a lemma quantifies over, or a script that a method is handed.

Code that works step by step is modelled step by step. Each class below has the fields that the
source updates, and each of its methods is proved equal to a specification function; the lemmas
are about those functions.

## Components

| file | what it models |
|---|---|
| `Promotion.dfy`, `PromotionStatus.dfy`, `PromotionCall.dfy` | promotion of a reviewed file: a compare-and-swap made of a temporary file, an atomic rename, an inspection and a conditional swap back, against a writer that acts between any two steps |
| `AenLifecycle.dfy`, `AenOwed.dfy`, `AenBackend.dfy`, `AenCleanup.dfy` | the AgentENV controller over a provider that may act on a request and lose the answer; runs of any length; cleanup receipts and handles |
| `Sha256.dfy`, `Sha256Constants.dfy`, `Sha256Bits.dfy` | SHA-256 as FIPS 180-4 defines it, the origin of its constants, its functions bit by bit, the streaming implementation, and hashing of a descriptor |
| `Ustar.dfy` | the ustar header and archive writer, and an independent reader |
| `Workspace.dfy`, `Manifest.dfy`, `SnapshotWalk.dfy`, `SnapshotOwed.dfy`, `SnapshotWalkers.dfy` | the provisioner's walk and the guest attester's walk of a workspace, the layer and the canonical manifest |
| `Utf8.dfy` | UTF-8 as section 4 of RFC 3629 defines it, and the validator of names |
| `Base64.dfy` | the guest's base 64 encoder (section 4 of RFC 4648) and the host's check |
| `Protobuf.dfy`, `EnvdMessages.dfy`, `WatcherEvents.dfy`, `ConnectStream.dfy`, `ConnectMeaning.dfy` | the protobuf wire forms in 32-bit arithmetic, the messages, the incremental Connect decoder, and what a stream tells its reader |
| `Supervisor.dfy`, `SupervisorOwed.dfy` | the local supervisor's poll, kill, reap and drain loop and its classification, and which limits and results a run owes |
| `Descendants.dfy`, `DiskAccounting.dfy`, `DiskOwed.dfy` | descendant counting by bounded parent chasing; two disk accountings |
| `SqlText.dfy`, `SqlFilter.dfy`, `SqlQuery.dfy`, `SqlReader.dfy`, `SqlOwed.dfy`, `SqlCells.dfy` | typed filters compiled to SQL, positional parameters, quoting, an independent reader of the query text, what is refused, typed cells |
| `Summary.dfy`, `SummaryOwed.dfy` | grouped summaries and paged member review |
| `KnownAnswers.dfy` | texts and byte strings written out, the examples of RFC 4648 and RFC 3629 among them |
| `Words.dfy`, `Bytes.dfy`, `Decimals.dfy`, `Sorting.dfy`, `Joining.dfy`, `Wrappers.dfy` | machine words, byte strings, decimal notation, sorting by an order, joining with a separator, optional values |

## Where the code falls short of its own description

Each of these is proved: by the exact condition under which it happens, and by an input that shows it.

* Promotion closes the output file before the exchange. A writer that removes it and is given the
  same inode for a file of its own has that file swapped out and unlinked, and the call reports that
  the destination is as the writer left it. `UnlinksForeignIff` says exactly when something is
  unlinked that is neither the call's own nor reviewed, `RefusalIsTruthfulIff` exactly when a definite
  refusal misreports, and `RecycledIdentityMisreports` is a run in which both happen.
* A failed kind-1 copy leaves the temporary file behind (`TemporaryRemainsIff`,
  `FailedCopyLeavesTemporary`).
* A fork whose answer is lost leaves a child that a later verified cleanup does not cover. Every fork
  that reaches the provider can do so, from every state that may fork (`LostForkSurvivesCleanup`,
  `LostForkRun`); when no fork reaches the provider, verified cleanup means that no machine is left
  (`VerifiedMeansGone`).
* The refused state is called sticky at aen_backend/backend.mbt:689. It is so exactly when a create
  was lost together with its answer (`RefusedIsStickyIff`); otherwise a later discard makes the
  controller startable again, as `RefusedIsNotSticky` shows.
* `tar_octal` never writes the first place of a field, so sizes from 8^10 bytes on are truncated and
  the archive reads back wrong (`OctalSurvivesIff`, `ArchiveReadsBackIff`, `LongMemberMisreads`);
  2^30 bytes are recorded as none (`SizeLost`).
* `tar_name` refuses paths that the format could hold, when their only usable slash leaves a last
  part of exactly one hundred bytes (`RefusedThoughRepresentable`, `RefusedPath`).
* `read_bytes` and `skip_field` check a 32-bit sum that may wrap; where it does, the check passes and
  the program stops (`ReadBytesAbortsIff`, `SkipFixedAbortsIff`). A response of six bytes with a length
  of 2^31 - 1 in it is enough for the one, alone (`LongLengthStops`) or in a frame of a stream
  (`LongLengthCrashes`). For the other a message must have nearly 2^31 bytes (`SkipFixedStops`), far
  beyond the limits that the backend configures for frames and responses.
* A process id arrives as a signed number: as it was sent exactly when it is below 2^31
  (`PidDeliveredIff`). `write_varint` writes a negative number as a single byte, which never reads
  back as that number (`VarintRoundTripIff`), so a signal for such a process does not name it
  (`SignalNamesPidIff`). A response of ten bytes makes the id -256 (`NegativePidRead`), and a signal
  for it names process 0 (`NegativePidLost`).
* An exit code arrives as it was sent exactly when it fits 31 bits, because of an arithmetic shift
  (`ExitCodeDeliveredIff`). A response of ten bytes with the code 2^30 delivers its negative
  (`ExitCodeLost`).
* The Connect decoder refuses an empty chunk once the end frame was decoded, so whether a stream is
  accepted depends, in exactly that case, on how it is cut (`StreamDecodes`, `EmptyChunkRaises`). This
  concerns the decoder's own contract: the loop of `exec` in aen_backend/exec.mbt stops feeding it at
  the end event.
* The watcher's path bound counts UTF-16 units although its message says bytes
  (aen_backend/filesystem_codec.mbt:83). No path within 4096 bytes is refused (`UnitsAtMostBytes`),
  longer ones are accepted exactly when their units are within 4096 (`LongPathAcceptedIff`), and 4096
  times U+00E9 is such a path (`LongPathAccepted`).

## Model

| member | source | states |
|---|---|---|
| Promotion.StatusIsTruthful | sandbox/secure_fs.c:869-1063 | for every interleaving in which the writer is never given the inode number of the output for a file of its own: OK means the displaced entry was the reviewed one (or absent) and the reviewed bytes were put at the leaf, and INVALID, SOURCE, DESTINATION and UNSUPPORTED mean the leaf is what the writer alone would have left |
| Promotion.SuccessIsTruthful | sandbox/secure_fs.c:869-1063 | for every interleaving, with no assumption on identities: OK means the displaced entry was the reviewed one (or absent) and the reviewed bytes were put at the leaf |
| Promotion.OnlyOwnOrReviewedUnlinked | sandbox/secure_fs.c:1009-1057 | under the same assumption, and if the leaf does not have that inode number either, nothing is ever unlinked but the call's own output or, for kind 1, the displaced entry that matched the review |
| Promotion.UnlinksForeignIff | sandbox/secure_fs.c:985-1057 | for every interleaving, with no assumption on identities: exactly when something is unlinked that is neither the call's own nor reviewed |
| Promotion.TemporaryRemainsIff | sandbox/secure_fs.c:1032-1057 | which returns other than IO leave the temporary name: exactly a kind-1 SOURCE failure, or a refused exchange whose leftover could not be looked at |
| Promotion.FailedCopyLeavesTemporary | sandbox/secure_fs.c:914-950 | a kind-1 request whose source cannot be read leaves the temporary name behind |
| PromotionStatus.SucceedsIff | sandbox/secure_fs.c:786-1063 | OK exactly when the request is in order, the copy is the reviewed one, every step works, and the leaf is as the request says, absent or the reviewed file, both at the five looks before the copy and at the rename |
| PromotionStatus.RefusesIff | sandbox/secure_fs.c:786-1063 | INVALID, SOURCE, UNSUPPORTED and DESTINATION, each exactly for its causes; every other return is IO |
| PromotionStatus.NothingVanishes | sandbox/secure_fs.c:970-1057 | what was at the leaf when the rename happened, and the output unless the writer replaced it, is at one of the two names or was unlinked, whatever the call returns |
| PromotionStatus.AdmissionOwed | sandbox/secure_fs.c:815-868 | which refusal a malformed request, a root, a parent or the source owes |
| PromotionStatus.PrestateOwed | sandbox/secure_fs.c:869-889 | a kind-0 request goes on exactly for an absent leaf, a kind-1 request exactly if the five looks show one regular file of the reviewed size and bytes |
| PromotionStatus.FingerprintIff | sandbox/secure_fs.c:879-886 | content matches a fingerprint exactly if that is the hexadecimal text of its digest |
| PromotionStatus.CopyOwed | sandbox/secure_fs.c:914-950 | a copy fails for its source only if the reads fail or deliver too much, and succeeds if they do not and the writes suffice |
| PromotionStatus.WriteAllIff | sandbox/secure_fs.c:934-945 | a buffer is written exactly if the writes take enough before one of them fails |
| PromotionStatus.NewFileInstalled | sandbox/secure_fs.c:786-1063 | a kind-0 call that succeeds |
| PromotionStatus.ReviewedFileReplaced | sandbox/secure_fs.c:786-1063 | a kind-1 call that succeeds, and removes what it displaced |
| Promotion.RefusalIsTruthfulIff | sandbox/secure_fs.c:1009-1031 | with no assumption on identities, a definite refusal misreports exactly when an undone exchange removed a file that the writer had put there under a recycled identity and nothing was written since |
| Promotion.RecycledIdentityMisreports | sandbox/secure_fs.c:970-1036 | that misreport happens, for every choice of distinct contents, and unlinks the writer's file |
| Promotion.CopyIsExact | sandbox/secure_fs.c:920-947 | a copy that reports success wrote exactly the bytes that the reads delivered, however reads and writes are split or interrupted |
| Promotion.WriteAllWrites | sandbox/secure_fs.c:934-945 | partial writes and interruptions never lose, repeat or reorder bytes |
| PromotionCall.DestinationDirectory.PromoteRegular | sandbox/secure_fs.c:786-1063 | the call, step by step on the directory, has the status and leaves the names that the specification says |
| PromotionCall.DestinationDirectory.InspectDestination | sandbox/secure_fs.c:709-736 | the five looks at a name that an inspection takes, with the writer acting before each |
| PromotionCall.DestinationDirectory.CreateTemporary | sandbox/secure_fs.c:890-913 | up to 128 names are tried, stopping at the first outcome that is not a taken name |
| PromotionCall.DestinationDirectory.CopySource | sandbox/secure_fs.c:914-950 | the copy loop writes to the temporary file and feeds the hash exactly what the specification of the copy says |
| PromotionCall.DestinationDirectory.InstallOrRemove | sandbox/secure_fs.c:972-984 | kind 0: a rename that does not replace, and removal of the temporary name otherwise |
| PromotionCall.DestinationDirectory.ReplaceOrRestore | sandbox/secure_fs.c:985-1057 | kind 1: exchange, inspection of what was displaced, and the conditional swap back |
| AenLifecycle.StepKeepsInv | aen_backend/backend.mbt:590-1038 | every operation, and every act of the provider, keeps every live machine accounted for, and a claim of verified cleanup is true |
| AenLifecycle.DiscardKeeps | aen_backend/backend.mbt:757-789 | a discard keeps the accounts, and when it reports success nothing the controller answers for exists or will |
| AenLifecycle.EveryRunKeepsInv | aen_backend/backend.mbt:590-1038 | the accounts stay right in every run, whatever callers and provider do |
| AenLifecycle.VerifiedMeansGone | aen_backend/backend.mbt:757-789 | after any run a verified cleanup, or a state that may start, means that nothing the controller answers for is left; and no machine at all, if no fork was issued to the provider |
| AenLifecycle.LostCreateNeverVerified | aen_backend/backend.mbt:778-783 | a create whose answer was lost is never reported as cleaned up, whatever follows |
| AenLifecycle.LostForkSurvivesCleanup | aen_backend/backend.mbt:950-1025 | from every state that may fork, a fork that the provider carries out, at once or later, and whose incomplete answer does not name a child leaves that child alive or still to come after a discard that answers verified |
| AenLifecycle.LostForkRun | aen_backend/backend.mbt:950-1025 | a start, a fork whose answer is lost and a verified discard leave a live child |
| AenLifecycle.RefusedIsNotSticky | aen_backend/backend.mbt:687-703 | after a refusal with nothing left to delete, a public discard and a start have a machine running |
| AenLifecycle.RefusedIsStickyIff | aen_backend/backend.mbt:687-703 | from a refused state no sequence of operations makes a start possible exactly when a create was lost together with its answer |
| AenOwed.RefusedIff | aen_backend/backend.mbt:590-1038 | an operation ends in the refused state exactly when the state did not allow it or something in it failed |
| AenOwed.SuccessOwed | aen_backend/backend.mbt:590-1038 | what every operation answers and leaves behind when it succeeds: start runs the machine, stop deletes it and verifies, pause and resume change the state alone, a snapshot and a completed command change nothing, a fork hands its children over |
| AenOwed.FailureOwed | aen_backend/backend.mbt:280-328 | a failed operation deletes everything known if the provider answers, and only then claims verified cleanup; start and exec return the claim, the others raise |
| AenOwed.DiscardVerifiedIff | aen_backend/backend.mbt:757-789 | a discard verifies exactly when every deletion is answered and no create is in flight |
| AenOwed.SessionServes | aen_backend/backend.mbt:590-1038 | however many commands, snapshots, pauses, resumes and forks succeed, the machine is still there and known |
| AenOwed.SessionStops | aen_backend/backend.mbt:590-733 | a session from a start to an answered stop ends verified, with nothing left |
| AenBackend.Backend.DiscardChecked | aen_backend/backend.mbt:757-789 | the loop over children and sandbox forgets exactly what was verifiably deleted |
| AenBackend.Backend.Start | aen_backend/backend.mbt:590-703 | start does the specified step and keeps the accounts |
| AenBackend.Backend.Stop | aen_backend/backend.mbt:706-733 | stop does the specified step and keeps the accounts |
| AenBackend.Backend.Pause | aen_backend/backend.mbt:799-830 | pause does the specified step and keeps the accounts |
| AenBackend.Backend.ResumeSandbox | aen_backend/backend.mbt:836-891 | resume does the specified step and keeps the accounts |
| AenBackend.Backend.TakeSnapshot | aen_backend/backend.mbt:903-947 | snapshot does the specified step and keeps the accounts |
| AenBackend.Backend.ForkSandbox | aen_backend/backend.mbt:950-1038 | fork does the specified step and keeps the accounts |
| AenBackend.Backend.Exec | aen_backend/exec.mbt:118-332 | the terminal paths of exec do the specified step and keep the accounts |
| AenExecution.ReceiptIsTruthful | aen_backend/config.mbt:104-260 | with the provider acting by itself after every request and before every cleanup, every receipt after a lease claims verified cleanup exactly when deletion and release were verified, deletion verified means no machine is left, and the handle lists exactly the unresolved machines and lease |
| AenExecution.ExecutedSystem | aen_backend/config.mbt:104-260 | the accounts stay right through a whole execution, whatever the provider does after every request and before every cleanup, and a controller with nothing to delete has nothing left |
| AenExecution.ExecutionCleansUp | aen_backend/config.mbt:104-260 | a create and deletions that are answered, and a lease that is released, end every execution with verified cleanup and nothing retained |
| AenExecution.ResultIff | aen_backend/config.mbt:104-260 | a run counts as exited exactly if the command was launched and completed, its changes were exported, the machine was verifiably deleted and the lease released; as killed exactly if a limit ended it and all was cleaned up |
| CleanupHandle.HandleReadsBack | aen_backend/config.mbt:31-49 | a retention handle splits back into exactly the machines and the lease it was made from |
| CleanupHandle.OpaqueIsSeparable | aen_backend/backend.mbt:201-222 | a rendered identifier contains neither separator of a handle |
| CleanupHandle.SplitJoin | aen_backend/backend.mbt:256-268 | splitting undoes joining for parts without the separator |
| KnownAnswers.HandleText | aen_backend/config.mbt:31-49 | the text of a handle, written out |
| Sha256Standard.PadZerosIsSmallest | aen_guest/runtime.c:76-86 | the padding is the smallest that section 5.1.1 of FIPS 180-4 allows |
| Sha256Standard.HashBlocksSplit | aen_guest/runtime.c:64-74 | hashing whole blocks and then the rest is hashing the whole |
| Sha256Constants.RoundConstants | aen_guest/runtime.c:17-53 | the 64 words are the first 32 bits of the fractional parts of the cube roots of the first 64 primes |
| Sha256Constants.InitialValues | aen_guest/runtime.c:55-62 | the initial values are those of the square roots of the first eight primes |
| Sha256Bits.SigmaBits | aen_guest/runtime.c:17-53 | the rotations and shifts of the schedule and the rounds, bit by bit |
| Sha256Bits.ChoiceBits | aen_guest/runtime.c:17-53 | choice and majority, bit by bit |
| Sha256Stream.Sha256.Transform | aen_guest/runtime.c:17-53 | the schedule array and the register rotations compute the compression function of section 6.2.2 |
| Sha256Stream.ExtendedWord | aen_guest/runtime.c:34-38 | the sum in the program's order is the standard's message schedule word |
| Sha256Stream.Sha256.Update | aen_guest/runtime.c:64-74 | the buffered state after an update depends only on the concatenation of everything fed, and used stays below 64 |
| Sha256Stream.Sha256.PadWithZeros | aen_guest/runtime.c:77-84 | the in-place padding is exactly that of section 5.1.1, in one block more or two |
| Sha256Stream.Sha256.Finish | aen_guest/runtime.c:76-91 | the result is the digest of everything fed, at any length; the length field is the number of bits modulo 2^64 |
| Sha256Standard.LengthFieldWraps | aen_guest/runtime.c:76-84 | the eight bytes of the length are those of the number of bits modulo 2^64 |
| HashDescriptor.HashFd | aen_guest/runtime.c:112-126 | the hexadecimal digest of what the reads deliver, or nothing on a failed read or another size |
| HashDescriptor.FingerprintIgnoresReadSplit | aen_guest/runtime.c:112-126 | the digest does not depend on how reads split the file |
| HashDescriptor.HexInjective | aen_guest/runtime.c:93-99 | hexadecimal texts are equal only for equal digests |
| KnownAnswers.HexText | aen_guest/runtime.c:93-99 | two lowercase digits for each byte, the high one first |
| Ustar.OctalReadsBack | aen_provisioner_service/secure_snapshot.c:382-390 | a field reads back as the value modulo the digits it has room for |
| Ustar.OctalSurvivesIff | aen_provisioner_service/secure_snapshot.c:382-390 | a value survives its field exactly when it is below 8^(length - 2) |
| KnownAnswers.OctalText | aen_provisioner_service/secure_snapshot.c:382-390 | the field of mode 0444 written out |
| KnownAnswers.DigitsText | aen_provisioner_service/secure_snapshot.c:431-449 | decimal numbers written out |
| Ustar.SizeLost | aen_provisioner_service/secure_snapshot.c:382-390 | a size of 2^30 bytes reads back as 0 |
| Ustar.DivideIff | aen_provisioner_service/secure_snapshot.c:392-402 | exactly which paths the two name fields take |
| Ustar.DivideJoins | aen_provisioner_service/secure_snapshot.c:392-402 | prefix and name put together again are the path |
| Ustar.RefusedThoughRepresentable | aen_provisioner_service/secure_snapshot.c:392-402 | exactly which paths the format could hold and the writer refuses |
| Ustar.RefusedPath | aen_provisioner_service/secure_snapshot.c:392-402 | one letter, a slash and a hundred letters are such a path |
| Ustar.ChecksumReadsBack | aen_provisioner_service/secure_snapshot.c:423-427 | the checksum always fits its six digits and reads back |
| Ustar.HeaderReadsBack | aen_provisioner_service/secure_snapshot.c:404-429 | a reader that checks checksum, magic and type recovers path and kind, and the size modulo 8^10 |
| Ustar.HeaderModes | aen_provisioner_service/secure_snapshot.c:404-429 | the mode reads back as 0555 or 0444, and owner, group and time as 0 |
| Ustar.ArchiveReadsBackIff | aen_provisioner_service/secure_snapshot.c:451-502 | the members followed by 1024 zero bytes read back exactly, in order, if and only if every file is below 8^10 bytes |
| Ustar.LongMemberMisreads | aen_provisioner_service/secure_snapshot.c:382-390 | a longer file reads back shorter, if at all |
| Ustar.ArchiveIsAligned | aen_provisioner_service/secure_snapshot.c:492-496 | everything written is a multiple of 512 bytes |
| UstarWriter.TarOctal | aen_provisioner_service/secure_snapshot.c:382-390 | the in-place loop leaves the octal field in its place and nothing else changed |
| UstarWriter.TarName | aen_provisioner_service/secure_snapshot.c:392-402 | the slash search fills the two name fields as specified, or refuses |
| UstarWriter.TarHeader | aen_provisioner_service/secure_snapshot.c:404-429 | the header filled in place is the specified one, or the path is refused |
| WorkspaceTree.SortedIsCanonical | aen_provisioner_service/secure_snapshot.c:333-337 | sorting forgets the order in which distinct names arrived |
| WorkspaceTree.SortedNamesAscend | aen_provisioner_service/secure_snapshot.c:333-337 | sorted names ascend |
| Bytes.PrecedesIff | aen_provisioner_service/secure_snapshot.c:333-337 | one name is before another if it is a proper prefix or has the smaller byte at the first difference |
| WorkspaceTree.ItemsIgnoreOrder | aen_guest/guest_attester.c:68-83 | what a walk meets does not depend on the order of any directory |
| Manifest.LinesDetermine | aen_provisioner_service/secure_snapshot.c:431-449 | equal manifests list equal records |
| Manifest.LineDetermines | aen_provisioner_service/secure_snapshot.c:438-445 | a line determines kind, path, size and digest, and where the next one starts |
| Manifest.FileLine | aen_provisioner_service/secure_snapshot.c:431-449 | the line of a file: F, path, size and digest between tabs, and a line feed |
| Manifest.DirectoryLine | aen_provisioner_service/secure_snapshot.c:431-449 | the line of a directory: D, path, 0 and a dash |
| Manifest.FileDigestIsDigest | aen_provisioner_service/secure_snapshot.c:154-161 | equal digest texts in two lines are equal digests |
| Manifest.RecordsDetermineShape | aen_provisioner_service/secure_snapshot.c:504-558 | directories with the same records agree in every path, kind, size and digest |
| SnapshotWalk.SnapshotSucceedsIff | aen_provisioner_service/secure_snapshot.c:451-558 | the walk succeeds exactly when every entry is acceptable and the totals are within limits; the running subtraction never underflows |
| SnapshotWalk.LayerRecoversTreeIff | aen_provisioner_service/secure_snapshot.c:719-723 | the layer of a successful walk parses back to the walked paths, kinds and contents if and only if every file is below 8^10 bytes |
| SnapshotOwed.LayerHolds | aen_provisioner_service/secure_snapshot.c:451-558 | the layer reads back as exactly the files and directories of the tree, at every depth, with their contents, for files below 2^30 bytes |
| SnapshotOwed.StopOwed | aen_provisioner_service/secure_snapshot.c:451-558 | which refusal an item owes: a name, a bound, or a link or special file |
| SnapshotOwed.NameAcceptedIff | aen_provisioner_service/secure_snapshot.c:345-380 | which names are accepted: 1 to 255 bytes of UTF-8 without NUL, TAB, LF, CR and backslash |
| SnapshotOwed.NamesPlainIff | aen_guest/guest_attester.c:76 | which names the attester accepts |
| SnapshotWalk.SnapshotWrites | aen_provisioner_service/secure_snapshot.c:504-558 | a successful walk appended exactly the members to the layer and their lines to the manifest |
| SnapshotWalk.LineFits | aen_guest/guest_attester.c:87-91 | every line the provisioner can write fits the attester's buffer |
| SnapshotWalk.AcceptedIsPlain | aen_guest/guest_attester.c:76 | every name the provisioner accepts passes the attester's check |
| SnapshotWalk.AttesterAgrees | aen_guest/guest_attester.c:103-129 | item by item the attester recomputes the provisioner's manifest, bytes and entries |
| SnapshotWalk.ManifestIsCanonical | aen_guest/guest_attester.c:103-129 | in any directory orders both walks of a tree give the same manifest; the attester stops exactly when there are more than 1000000 entries |
| SnapshotWalk.ManifestDeterminesTree | aen_provisioner_service/secure_snapshot.c:431-558 | two successful snapshots have equal manifests exactly when the trees agree in every path, kind, size and digest |
| ProvisionerWalker.SnapshotContext.WalkDirectory | aen_provisioner_service/secure_snapshot.c:504-558 | the recursive walk over counters and files does what visiting the listed items in order does, with the same refusals |
| ProvisionerWalker.SnapshotContext.CopyRegular | aen_provisioner_service/secure_snapshot.c:451-502 | header, content in whatever pieces, padding and line, or the refusal owed |
| ProvisionerWalker.ListNames | aen_provisioner_service/secure_snapshot.c:345-380 | the names sorted, and whether all of them are acceptable |
| AttesterWalker.Inventory.WalkTree | aen_guest/guest_attester.c:103-129 | the attester's recursive walk does what attesting the listed items in order does |
| AttesterWalker.NamesAt | aen_guest/guest_attester.c:68-83 | the names sorted, and whether none has a line feed, tab or backslash |
| Utf8.AcceptedIffPermittedText | aen_provisioner_service/secure_snapshot.c:199-225 | the validator's language is exactly the encodings of scalar values without NUL, LF, CR, TAB and backslash |
| Utf8.ValidUtf8 | aen_provisioner_service/secure_snapshot.c:199-225 | the loop accepts exactly that language and never reads past the end |
| Utf8.DecodedIsEncoding | aen_provisioner_service/secure_snapshot.c:208-222 | what decodes is the encoding of what it decodes to: no overlong or surrogate forms |
| Utf8.DecodeEncoded | aen_provisioner_service/secure_snapshot.c:208-222 | decoding undoes encoding, whatever follows |
| KnownAnswers.Utf8Examples | aen_provisioner_service/secure_snapshot.c:208-222 | one character of each length, after section 7 of RFC 3629 |
| Base64.DecodeEncode | aen_guest/guest_attester.c:258-270 | every byte string comes back from its encoding |
| KnownAnswers.Base64Vectors | aen_guest/guest_attester.c:258-270 | test vectors of section 10 of RFC 4648, of one to three bytes |
| KnownAnswers.Base64LongVector | aen_guest/guest_attester.c:258-270 | and of six bytes |
| Base64.EncodeDecode | aen_guest/guest_attester.c:258-270 | nothing but an encoder's output decodes strictly, padding included |
| Base64.ReencodeCheckIsStrict | aen_backend/export.mbt:112-117 | comparing with the re-encoding accepts exactly the encoder's outputs, for any decoder that undoes encoding |
| Base64.WriteBase64 | aen_guest/guest_attester.c:258-270 | the loop writes the encoding and fills its buffer exactly |
| Protobuf.ReadsWritten | aen_backend/connect_codec.mbt:2-11 | every varint below 2^32 is consumed exactly and read as a signed 32-bit number |
| Protobuf.VarintConsumed | aen_backend/connect_codec.mbt:86-103 | every varint of up to 64 bits is consumed exactly, and its value is what or-ing the bytes at shifts modulo 32 makes of it |
| Protobuf.LargeVarintRead | aen_backend/connect_codec.mbt:86-103 | six bytes that stand for 2^35 are read as 8 |
| Protobuf.VarintRoundTripIff | aen_backend/connect_codec.mbt:2-11 | a 32-bit number reads back exactly when it is not negative |
| Protobuf.ReadBytesAbortsIff | aen_backend/connect_codec.mbt:106-116 | the bound check admits an impossible slice exactly when the 32-bit sum wraps |
| Protobuf.SkipFixedAbortsIff | aen_backend/connect_codec.mbt:119-141 | skipping a fixed field passes its check and stops the program exactly when the 32-bit sum wraps |
| Protobuf.MessageStep | aen_backend/connect_codec.mbt:119-141 | the key of any field of the format reads back, from number 2^28 on as a negative one, and reading or skipping its body, of up to 64 bits, lands exactly behind it |
| Protobuf.KeyIsSum | aen_backend/connect_codec.mbt:14-16 | the shifted and or-ed key is the number of its field and wire type |
| ProtobufLoops.Buffer.WriteVarint | aen_backend/connect_codec.mbt:2-11 | the loop appends the bytes of any 32-bit number; a negative one is written as one byte |
| ProtobufLoops.Buffer.WriteLengthDelimited | aen_backend/connect_codec.mbt:19-27 | key, length and bytes are appended |
| ProtobufLoops.ReadVarintLoop | aen_backend/connect_codec.mbt:86-103 | the loop reads as specified, including the shift count of 64 and more |
| EnvdMessages.SeekFinds | aen_backend/connect_codec.mbt:208-243 | scanning a message finds its first wanted field past every other, of any number and value |
| EnvdMessages.OutputDelivered | aen_backend/connect_codec.mbt:144-243 | output reaches the caller past unknown fields of any number and value at all three levels of nesting |
| EnvdMessages.StartDelivered | aen_backend/connect_codec.mbt:162-177 | so does the process id of a start event, as the 32-bit reader sees it |
| EnvdMessages.PidDeliveredIff | aen_backend/connect_codec.mbt:162-177 | a process id below 2^32 arrives as it was sent exactly when it is below 2^31 |
| EnvdMessages.NegativePidRead | aen_backend/connect_codec.mbt:162-177 | ten bytes of a response from which -256 is read |
| EnvdMessages.ExitDelivered | aen_backend/connect_codec.mbt:180-204 | so do the code and the status of an exit event, or their refusal |
| EnvdMessages.ExitCodeDeliveredIff | aen_backend/connect_codec.mbt:180-204 | an exit event is refused exactly for a status that is not UTF-8; otherwise its last code arrives as it was sent exactly when it is at least -2^30 and below 2^30 |
| EnvdMessages.ExitDecoded | aen_backend/connect_codec.mbt:180-204 | the exit event carries the last code and the last status written, or the message is refused for a status that is not UTF-8 |
| EnvdMessages.LongLengthStops | aen_backend/connect_codec.mbt:106-116 | a response of six bytes stops the program |
| EnvdMessages.SkipFixedStops | aen_backend/connect_codec.mbt:119-141 | a response of 2^31 - 1 bytes stops the program at a fixed field |
| EnvdMessages.ExitCodeLost | aen_backend/connect_codec.mbt:191 | ten bytes of a response with the exit code 2^30 deliver -2^30 |
| EnvdMessages.SignalNamesPidIff | aen_backend/connect_codec.mbt:61-70 | the selector of a signal request names the process exactly when its id is not negative |
| EnvdMessages.NegativePidLost | aen_backend/connect_codec.mbt:61-70 | a signal for the process id that was read as -256 names process 0 |
| EnvdMessages.StartRequestDetermines | aen_backend/connect_codec.mbt:41-58 | a start request determines the texts of its command, arguments and directory |
| EnvdMessages.StartRequestReads | aen_backend/connect_codec.mbt:41-58 | a reader of the protocol finds command, every argument in order, directory and the absence of standard input under their numbers |
| WatcherEvents.WatchDelivers | aen_backend/filesystem_codec.mbt:64-94 | all paths are returned in order past unknown fields exactly when each is in bounds and there are at most 4096, and the response is refused otherwise |
| WatcherEvents.UnitsAtMostBytes | aen_backend/filesystem_codec.mbt:64-94 | a text never has more UTF-16 units than UTF-8 bytes |
| WatcherEvents.LongPathAcceptedIff | aen_backend/filesystem_codec.mbt:64-94 | every path within 4096 bytes is accepted, and a longer one exactly when its units are within 4096 |
| WatcherEvents.LongPathAccepted | aen_backend/filesystem_codec.mbt:64-94 | a path of 8192 bytes is accepted |
| WatcherEvents.DecodeWatcherEvents | aen_backend/filesystem_codec.mbt:64-94 | the loop decodes as specified, strictly advancing |
| WatcherEvents.WatcherPathDetermines | aen_backend/filesystem_codec.mbt:2-8 | a watch request determines the text of its path |
| WatcherEvents.WatcherPathReads | aen_backend/filesystem_codec.mbt:2-8 | a reader of the protocol finds the path and the recursive flag under their numbers |
| ConnectStream.FeedIsOneShot | aen_backend/connect_codec.mbt:268-313 | if no feed raises, events, pending bytes and end flag are those of decoding the whole stream at once |
| ConnectStream.StreamDecodes | aen_backend/connect_codec.mbt:268-313 | however a stream of envelopes is cut, feeding it yields the payloads' events in order with nothing pending, and raises exactly when an empty chunk comes after the one that completes the end frame |
| ConnectMeaning.StreamTells | aen_backend/connect_codec.mbt:144-313 | however it is cut, a stream tells its reader exactly what its frames were made of: output, start and exit events by their fields, and the end by its payload |
| ConnectMeaning.LastTold | aen_backend/connect_codec.mbt:299-305 | a closed stream ends without an error exactly for an empty payload or an empty object, and otherwise with the payload |
| ConnectMeaning.BadFrameRefused | aen_backend/connect_codec.mbt:284-310 | the first frame that is too long, has an unknown flag or does not decode refuses the stream for that reason, however it is cut |
| ConnectMeaning.OneOutput | aen_backend/connect_codec.mbt:144-160 | field 2 of a data event is the error output, 1 and 3 are the output |
| ConnectStream.EmptyChunkRaises | aen_backend/connect_codec.mbt:268-313 | one end frame is accepted in one chunk and refused when an empty chunk follows |
| ConnectStream.LongLengthCrashes | aen_backend/connect_codec.mbt:268-313 | one frame of eleven bytes stops the program, under any limit of six bytes or more |
| ConnectStream.TailIsUndecoded | aen_backend/connect_codec.mbt:275-291 | what stays pending is the undecoded end of the stream and shorter than one maximal frame |
| ConnectStream.ScanFailsEarly | aen_backend/connect_codec.mbt:284-310 | a stream that fails keeps failing the same way however much more arrives |
| ConnectStream.EnvelopeReadsBack | aen_backend/connect_codec.mbt:73-83 | an envelope's header reads back its flag and the length of its payload |
| KnownAnswers.EnvelopeHeader | aen_backend/connect_codec.mbt:73-83 | the bytes of a header, flag first and the length most significant byte first |
| ConnectStream.ConnectDecoder.Feed | aen_backend/connect_codec.mbt:268-313 | one call decodes every frame that the chunk completes, or raises as specified |
| SupervisorSpec.FileIsOutputPrefix | internal/local_supervisor/supervisor.c:1156-1189 | after any run the file holds exactly the first bytes of the output up to the limit, given successful writes, and excess is reported exactly when there was any |
| SupervisorSpec.ExitedIsTruthful | internal/local_supervisor/supervisor.c:1225-1275 | a result of exited means the file is the whole output within the limit, the group was killed, every reading of the clock was below the wall-clock limit, and the scan after reaping was within the disk limits |
| SupervisorSpec.DrainIsBounded | internal/local_supervisor/supervisor.c:1191-1203 | once the child is reaped the loop ends with the first pass at or past the 250 ms drain deadline |
| SupervisorSpec.RunKeeps | internal/local_supervisor/supervisor.c:1050-1204 | the loop's invariant holds after every run of observations |
| SupervisorOwed.LimitsEnforced | internal/local_supervisor/supervisor.c:1050-1120 | each limit is reported exactly when a check that was due, the scan after reaping or the clock showed it exceeded, and the group is killed from then on |
| SupervisorOwed.CutOffIff | internal/local_supervisor/supervisor.c:1191-1203 | output is given up, and cleanup called unverified, exactly when the child is reaped, the output has not ended, and 250 ms have passed since the group was killed or the clock fails |
| SupervisorOwed.ResultOwed | internal/local_supervisor/supervisor.c:1225-1294 | the result of every run, in order of precedence, in terms of what was observed |
| SupervisorOwed.ExitedWasWithin | internal/local_supervisor/supervisor.c:1050-1120 | a run reported as exited was within every limit at every check that was due, and in time |
| SupervisorOwed.ProcessesAreLimited | internal/local_supervisor/supervisor.c:1060-1078 | a run over the process limit is reported so |
| LocalSupervisor.Supervisor.Watch | internal/local_supervisor/supervisor.c:1050-1275 | the loop over its flags and counters is the specified run, and reports its classification |
| LocalSupervisor.Supervisor.DrainPipe | internal/local_supervisor/supervisor.c:1156-1189 | the inner read loop stores and counts as specified |
| Descendants.GroupProcessCount | internal/local_supervisor/supervisor.c:554-572 | the count is that of entries from which the leader can be reached at all, for cyclic tables and for a leader missing from the table |
| DiskOwed.CountIsSize | internal/local_supervisor/supervisor.c:554-572 | the count is the size of the set of entries from which the leader can be reached |
| Descendants.NoLongerThanTable | internal/local_supervisor/supervisor.c:558-571 | a path that exists at all exists within as many steps as there are processes |
| DiskScans.ScanDiskUsage | internal/local_supervisor/supervisor.c:317-378 | zero exactly when everything fits, each other result true of the tree, and no subtraction underflows |
| DiskScans.DirectoryBytesAt | aen_guest/guest_supervisor.c:58-67 | the exact total, or the maximum plus one, or a failure, each exactly when owed |
| DiskScans.BothDecide | aen_guest/guest_supervisor.c:58-67 | both accountings decide the same on the same tree and limits |
| DiskOwed.WithinIff | internal/local_supervisor/supervisor.c:317-378 | within the limits means: of all entries at every depth none is special, and their sizes and their number fit |
| DiskUsage.DecisionIgnoresOrder | internal/local_supervisor/supervisor.c:332-375 | reading directories in another order, at any depth, changes neither decision |
| SqlText.QuotedReadsBack | tools/sqlite_review.py:59-61 | a quoted identifier reads back as its name, whatever characters it has |
| SqlText.ScanQuoted | tools/sqlite_review.py:59-61 | a question mark in a quoted identifier is not a parameter |
| SqlValues.InstrMeaning | tools/sqlite_review.py:196-199 | an instr of 1 means prefix, and a positive one substring |
| SqlFilter.FilterMeaning | tools/sqlite_review.py:175-215 | the compiled predicate is TRUE under three-valued logic, for values of every storage class, exactly when the typed filter holds of the stored value |
| SqlFilter.PredHolds | tools/sqlite_review.py:175-215 | the engine counts exactly the parameters a predicate has |
| SqlFilter.PredOwn | tools/sqlite_review.py:254-281 | a predicate's truth depends only on its own parameters, wherever they stand in the statement |
| SqlQuery.ParametersMatchMarks | tools/sqlite_review.py:254-281 | the query has as many parameter marks as values, each condition's marks are bound to the values meant for it, and the last two to the limit and the offset |
| SqlQuery.RowSelectedIff | tools/sqlite_review.py:254-281 | a row is selected exactly when its referencing columns match the key under their affinity and collation, some parent row has the anchor's values and is linked to it, and every typed filter holds of its stored value |
| SqlQuery.CompiledText | tools/sqlite_review.py:191-213 | the text the compiler writes is the text of the predicate whose meaning is proved |
| SqlQuery.FilterPredicates | tools/sqlite_review.py:175-215 | the loop yields texts and parameters in step, or refuses exactly the unacceptable filters |
| SqlQuery.SelectedRowsQuery | tools/sqlite_review.py:254-278 | the assembled query and parameter list, or a refusal exactly for a malformed anchor, an unacceptable filter, or a NUL in any name that is quoted |
| SqlOwed.FormedIff | tools/sqlite_review.py:254-308 | what is refused, exactly: an anchor of another length or with a NULL, an unacceptable filter, or a NUL in a name that is quoted |
| SqlOwed.AcceptableIff | tools/sqlite_review.py:175-215 | which filters are taken: numbers of one class in order, texts to search for, anything to equal |
| SqlReader.QueryReadsBack | tools/sqlite_review.py:254-278 | an independent reader recovers from the text of every query its columns, its table, the conjunction of the predicates whose meaning is proved, and the order asked for followed by every locator column ascending |
| SqlReader.PredReads | tools/sqlite_review.py:254-308 | the text of every condition reads back as the predicate, with qualifiers, unary plus and collation |
| SqlQuery.IncomingSound | tools/sqlite_review.py:302-308 | the anchored existence condition has exactly the anchor's parameters |
| SqlQuery.IncomingMeans | tools/sqlite_review.py:260-269 | the existence condition is true of a row exactly when some parent row has exactly the anchor's values, each unchanged by its column's affinity, and matches the row pair by pair |
| SqlQuery.GuardedIsEquality | tools/sqlite_review.py:302-308 | under the typeof guard an anchor's IS is equality, unless the column's affinity would change the value |
| SqlCells.IntegerReadIff | tools/sqlite_review.py:82-86 | a text is read as an integer exactly when it is that signed 64-bit integer's own text |
| SqlCells.ParameterUndoesCell | tools/sqlite_review.py:64-96 | a stored value comes back from its cell |
| SqlCells.ParameterIsCanonical | tools/sqlite_review.py:74-96 | except for reals only the canonical cell of a value is accepted for it |
| SummarySpec.MeasureIsExact | tools/sqlite_summary.py:73-88 | a measure holds the storage counts, the exact sum and the first locator attaining each extremum |
| SummaryOwed.MeasureOwed | tools/sqlite_summary.py:73-88 | the same without the model's own notions: counts by storage class, the sum of integers and reals, and the first least and first greatest of them |
| SummaryOwed.ScannableIff | tools/sqlite_summary.py:47-61 | a scan is refused exactly beyond 10000 rows or 16777216 bytes |
| SummaryOwed.OutputIs | tools/sqlite_summary.py:117-122 | the output bound measures exactly what is written |
| SummarySpec.CountsAddUp | tools/sqlite_summary.py:100-123 | the numbers of rows under the different keys add up to the selected rows |
| SummarySpec.SummaryCountsAddUp | tools/sqlite_summary.py:100-123 | the row counts that a summary reports add up to the selected rows |
| SummarySpec.PagesVisitTheGroup | tools/sqlite_summary.py:158-173 | following the next offset from 0 visits exactly the group's locators once each, in order, and stops |
| SummarySpec.KeyByPosition | tools/sqlite_summary.py:101-105 | the key found by position in either projection is the row's own |
| SummaryReview.Measure.Add | tools/sqlite_summary.py:79-88 | one cell is counted, summed and compared as specified |
| SummaryReview.MeasureColumn | tools/sqlite_summary.py:73-88 | a measure fed a column has its exact sum and first extrema |
| SummaryReview.Scan | tools/sqlite_summary.py:47-61 | everything or nothing: refused exactly beyond 10000 rows or 16 MiB |
| SummaryReview.Groups | tools/sqlite_summary.py:100-115 | the summary and the row count, or a refusal exactly beyond 10000 rows, 16 MiB of projection or 16 MiB of output |
| SummarySpec.SummaryIsRanked | tools/sqlite_summary.py:100-123 | a summary has one group for each key and nothing else, by falling row count and then by token |
| SummaryReview.GroupRows | tools/sqlite_summary.py:158-173 | one page of exactly the group's rows, the total, and the next offset |

## Left out

- Sha256Stream.Sha256.Finish: the standard defines no digest from 2^61 bytes on; there the digest meant is the one with the length taken modulo 2^64.
- Promotion.StatusIsTruthful: assumes that the writer's files never carry the output's identity; without it, Promotion.SuccessIsTruthful and Promotion.RefusalIsTruthfulIff say what is left.
- Promotion.OnlyOwnOrReviewedUnlinked: makes the same assumption; Promotion.UnlinksForeignIff does without.
- PromotionCall.DestinationDirectory.InspectDestination: the writer replaces names; it does not change the content of a file while that is inspected, and what the inspection's reads deliver is one value.
- SnapshotWalk.SnapshotSucceedsIff: the deadline, files that change while they are read, and storage failures are left out.
- ProvisionerWalker.SnapshotContext.WalkDirectory: the tree is static while it is walked; the checks that notice a change, the clock and storage failures are left out, and so are the two running hashes, whose input is what is written.
- ProvisionerWalker.SnapshotContext.CopyRegular: likewise, reading a file neither fails nor finds it changed.
- ProvisionerWalker.ListNames: the library sort is a function, shown equal for every arrival order; the entries `.` and `..` are not part of a listing, and reading a directory does not fail.
- AttesterWalker.NamesAt: likewise.
- AttesterWalker.Inventory.WalkTree: workspace mode only; the emitted JSON inventory and races are left out, and the hash is kept as the bytes hashed.
- EnvdMessages.OutputDelivered: the decoders of nested messages are functions over one field search instead of a loop each.
- EnvdMessages.StartRequestDetermines: strings are well-formed Unicode; a lone surrogate is not modelled.
- WatcherEvents.WatcherPathDetermines: likewise.
- AenExecution.ReceiptIsTruthful: identifiers in a handle may be in any total order that the sort uses; what a receipt says besides cleanup, and cancellation, are left out; the deletions of one cleanup follow one another at once.
- AenExecution.ExecutedSystem: likewise.
- AenBackend.Backend.ForkSandbox: children that the answer names exist when it arrives; others may be made later.
- EnvdMessages.SeekFinds: varints in their shortest form; the deprecated groups are refused by the code.
- AenBackend.Backend.Exec: the terminal paths only; the stream, the manifests and the guest inventory are the outcome it is given. Cancellation is left out.
- LocalSupervisor.Supervisor.Watch: setup records are read as counts with a stage; receiving signals, sleeping and the elapsed time are left out.
- Descendants.GroupProcessCount: starts from the table; reading /proc, the sort and the binary search are taken as a lookup by pid.
- SqlQuery.RowSelectedIff: a column's affinity and collation, and which texts stand for numbers, are given by the database and its engine.
- SqlQuery.IncomingMeans: likewise.
- SqlQuery.SelectedRowsQuery: the shape of JSON items, and checking names against the database's own listing, are left out.
- SqlCells.ParameterUndoesCell: the text and the reading of reals are the library's.
- SummaryReview.Groups: serialized sizes and tokens are functions it is given; decimal approximations are left out, the library sort is a function, and group measures are updated as values.
- HTTP transport, sockets, request validation and JSON bodies: the provider is an oracle.
- Kernel controls, mounts, cgroups, rlimits, seccomp and their probes: foreign calls without content to prove.
- The grant store, retention records and the promotion claim protocol: not part of this model.
- ZIP reading, argument parsing, CSV and XML reports, the workbench, histograms, crosstabs and comparisons: library use, or unions and partitions that would add only easy members.
