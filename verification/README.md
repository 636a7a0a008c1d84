# zarf-api: a verified model

This project models the parts of zarf-api that keep data safe (resumable chunked uploads, the on-disk
package store, background jobs) and the text and tree transformations of its page and of the `addschema`
tool, and proves properties of them with Dafny 4.11. `dafny verify dfyconfig.toml` checks everything.

## How the model is built

**Uploads.** `UploadServer` is a transition system for one upload session. Every request handler is split at its
file operations: a put is admitted, opens a temp file, receives any part of its body, renames, takes the mutex
and reads the record, writes the record; a completion reads the record, copies chunk files one by one, imports;
a removal takes no lock and unlinks one name at a time; any handler may fail and the process may restart between
any two steps. `UploadRuns` states what every interleaving guarantees, and the two races that limit it.
`UploadProtocol` adds the browser: any number of attempts, each cut anywhere or resumed from any record the
session ever had, overlapping with each other. `UploadContent` shows that a resume is right exactly when the
same content is picked again. `UploadClient` is one undisturbed run of the page's upload function against the
store object; `SessionCap` is the check-then-create of new sessions.

**Packages.** `PackageNames` has the three name classes of the flat directory. `PackageTable` is the inventory
callers see, a table from id to bytes and metadata; `PackageDir` is the directory and its file operations.
`PackageSteps` unfolds an import or a delete into its stages, `PackageCrash` takes whole histories of them, each
cut off by a crash after any number of file operations; `PackageHealing` says which ids that leaves out of step.
`PackageStore.Store` is the store object itself, whose methods reassign the directory and the session map as the
source's methods change the disk.

**Jobs.** `Jobs.Job` and `Jobs.Manager` are the source's objects with ghost histories. `JobRunners` interleaves
any number of runner goroutines, waiters and creations; `JobHandlers` shows that the calls on the objects are
its steps; `DeployRunner` is the body of one runner.

**Transformations.** `SchemaForm`, `FormSubmission`, `Documents` and `Unflatten` are the generated values form
and the nested document rebuilt from it; `Unflatten.Unflatten` works on heap objects through a moving reference,
as the page does. `Documents.Host` is what surrounds the page's own objects: the names every object inherits
(`constructor`, `toString`, `__proto__` and so on), and what a write that runs into them does. `ChecksumLines`,
`AddSchema`, `PackageIntegrity` and `Archives` are the checksum-preserving archive rewrite and the reading of a
root file. `Versions` and `Grouping` order and group packages for display.

**Taken as given.** Single file operations, among them rename and writing a small JSON file, are atomic, and
JSON round-trips. The hash, zarf's loader with its `FileName()`, the archive reader, the YAML library and the
locale order are arbitrary functions passed in; where a result needs more of them it says so (`AddSchema.Sound`:
a digest contains no space or newline, and a marshalled manifest parses back; `PackageStore.PacksBack`:
unpacking undoes packing; `Versions.LocaleOrder`: a total preorder on strings, in which different strings may
collate as equal; `Documents.Sound`: inherited names are never lost, and at first are the built-in ones). Upload
ids, job ids and temp names are fresh when they are handed out. One character stands for one byte.

**Where the code falls short.** Some promises hold only under a condition, which is stated over what callers
send and proved exact: recorded chunk sizes can be trusted iff everything sent to an index has one length
(`SizesExactIffOneLength`); a session whose record was unlinked can return iff its directory is still there and
some put is inside its critical section (`ReturnsIffPutLocked`), although the comment above `AbortUpload`
promises deletion; MaxUploadSessions is a cap iff create requests never overlap (`CapHoldsIffSerial`); a resume
is right iff the same content is picked again (`FaithfulIffSameContent`); a form's document is right iff its
paths are pairwise apart and none runs through an inherited name (`FormWorksIffApartAndClean`); a package keeps
its integrity iff file and checksum line are added together (`IntegrityKeptIff`); and version order is
consistent iff it is uncrossed and unmasked (`PreorderIffUncrossed`).

## Model

| member | source | states |
|---|---|---|
| UploadServer.StepKeepsInv | internal/store/store.go:346-450 | Every step of every handler, in any order, keeps: the mutex has one holder, temp files hold a prefix of their body, chunk files are whole, every record holds exactly acknowledged indexes and loses none, and until a removal starts the session is readable with a file for every recorded index |
| UploadRuns.AcknowledgedStaysRecorded | internal/store/store.go:373-384 | Once a put was acknowledged, its index is in the session record for as long as there is one, whatever else runs |
| UploadRuns.ChunkFilesAreWhole | internal/store/store.go:354-371 | In every reachable state a chunk file is the whole body of some put at its index, never a part |
| UploadRuns.RecordedChunksExist | internal/store/store.go:368-384 | Until somebody removes the session it is readable and every recorded index has its chunk file |
| UploadRuns.RemovedStaysRemoved | internal/store/store.go:388-393 | Once the session directory is gone no step brings it back |
| UploadRuns.ReturnsIffPutLocked | internal/store/store.go:373-393 | After session.json was unlinked the session can become readable again iff the directory still exists and a put is between its locked read and write |
| UploadRuns.RemovedSessionCanReturn | internal/store/store.go:373-393 | A run in which a removal ends and the session is readable again, with a recorded chunk that has no file |
| UploadRuns.OrphanStaysForever | internal/store/store.go:388-393 | A session directory without a record, without a put inside its critical section and without a handler removing or importing it, is never removed by any later run, as every abort and completion reads the record first |
| UploadRuns.CutAbortOrphans | internal/store/store.go:388-393 | A crash in the middle of an abort leaves such a directory, which the session cap keeps counting |
| UploadRuns.SizesExactIffOneLength | internal/store/store.go:359-380 | Over all runs, the recorded size of an index is always the size of its file iff everything ever sent to that index has one length; with two lengths it can stay wrong even when all puts are done |
| UploadRuns.RecordedSizeExact | internal/store/store.go:359-380 | In one run, the recorded size is right iff the put that recorded last sent as many bytes as the put that renamed last (used by the result above) |
| UploadRuns.OverlapRecordsWrongSize | internal/store/store.go:368-384 | For any index and any two bodies there is a run of two overlapping puts that ends, at rest, with the size of the first recorded beside the file of the second |
| UploadRuns.OrderlyRecordIsInventory | internal/store/store.go:344-385 | When puts of one index do not overlap, the record between puts is exactly the chunk files with their sizes, after any number of re-sends of any size |
| UploadRuns.BytesConserved | internal/store/store.go:344-385 | When puts of one index do not overlap, the chunk files of a gap-free session concatenate to as many bytes as its record adds up to |
| UploadRuns.ImportedIsWhatWasRecorded | internal/store/store.go:398-444 | An interleaved completion that read the record between puts, and during whose copying nothing was renamed, imports exactly as many bytes as the record it read adds up to, whatever else ran |
| UploadProtocol.NeverMissingChunk | internal/server/ui/app.js:281-318 | For any chunk size, file size and picked files, and any attempts cut anywhere, overlapping and resumed from any earlier record, no completion is refused for a missing chunk |
| UploadProtocol.StoresExactlyTheFile | internal/server/ui/app.js:281-318 | When every attempt picks the same content, every successful completion stores exactly that content |
| UploadProtocol.StoredFromPicks | internal/server/ui/app.js:286-318 | What a completion stores consists, chunk by chunk, of planned slices of picked files |
| UploadProtocol.ProgressExact | internal/server/ui/app.js:283-314 | The progress counter never exceeds the file size and equals it once all chunks are sent, also after a resume |
| UploadContent.FaithfulIffSameContent | internal/server/ui/app.js:286-291 | Among files of the remembered size, uploads always store the file their attempt picked iff all picks are the same bytes |
| UploadContent.ResumeStoresFirstPick | internal/server/ui/app.js:281-318 | For any two files of the same size there is a run in which the attempt that picked the second stores the first |
| ChunkPlan.SliceLength | internal/server/ui/app.js:281-282 | Each planned slice has length chunkSize(i) and ends where the next begins |
| ChunkPlan.SlicesPrefix | internal/server/ui/app.js:308-309 | The first k slices are consecutive: together they are the first k chunk sizes of the file |
| ChunkPlan.SlicesCoverFile | internal/server/ui/app.js:281-314 | The planned slices concatenate to the file, the empty file's single empty chunk included |
| ChunkPlan.ResumeIndex | internal/server/ui/app.js:286-291 | A resume starts at the first planned chunk whose recorded size is not the planned one |
| ChunkPlan.SkipReceived | internal/server/ui/app.js:283-291 | The resume loop finds that chunk and starts the counter at exactly the bytes before it |
| UploadClient.SendChunks | internal/server/ui/app.js:307-314 | The sending loop leaves every planned chunk in the session and the counter at the file size |
| UploadClient.UploadSingle | internal/server/ui/app.js:286-318 | New or resumed: a new upload deletes all other sessions and opens its own, a resume keeps the others; only the cap can refuse it before the completion, and then the result is exactly the verdict of importing the whole file in one piece with the session's name hint and digest; a refused import keeps the session, success stores the file under the returned id and removes the session |
| UploadClient.OpenSession | internal/server/ui/app.js:286-304 | A resume starts at the first chunk not received and touches no session; a new upload ends with its own empty session as the only one, unless the cap leaves no room for any |
| UploadClient.ResumeUpload | internal/server/ui/app.js:363-408 | Coming back to an interrupted upload: nothing changes if the session is gone or name or size differ; else the upload goes on from the fetched record, and the result is exactly the verdict of importing the whole file in one piece |
| UploadClient.PassingIffAccepted | internal/store/store.go:238-304 | The whole file's verdict is a package iff that package is approved for the file (digest, name and, with validation, what zarf loads) and its id is unused |
| SessionCap.CapBound | internal/server/handlers/uploads.go:20-29 | In every interleaving with aborts and completes, sessions plus passed requests stay within MaxUploadSessions - 1 + c when at most c requests are between count and create |
| SessionCap.BoundReached | internal/server/handlers/uploads.go:20-29 | For every cap and c that bound is reached |
| SessionCap.CapHoldsIffSerial | internal/server/handlers/uploads.go:20-29 | The cap holds over all runs iff create requests never overlap |
| SessionCap.UploadCreate | internal/server/handlers/uploads.go:14-35 | Alone, the handler refuses iff the cap is reached, changes nothing then, and otherwise creates an empty session and stays within the cap |
| PackageNames.NameClassesDisjoint | internal/store/store.go:79 | No name is a valid id and a sidecar name, a valid id and a temp name, or a temp name and a sidecar name |
| PackageNames.ValidIdIff | internal/store/store.go:79 | The valid ids are the good stems followed by .tar or .tar.zst, and no others |
| PackageNames.TempNameIff | internal/store/store.go:217 | Temp names are .incoming-, any random part, and .tar.zst |
| PackageNames.MetaNameInjective | internal/store/store.go:198-200 | The sidecar name is the id followed by .meta.json, and two ids never share one |
| PackageSteps.ImportRefines | internal/store/store.go:214-304 | A complete import is one step of the abstract table, keeps sidecars in step with tarballs and leaves no temp file |
| PackageSteps.DeleteRefines | internal/store/store.go:180-196 | A complete delete removes exactly its id from the table, and succeeds iff the id was there |
| PackageSteps.ImportCutSettled | internal/store/store.go:271-302 | A cut import leaves tarball and sidecar out of step iff it stopped between rename and sidecar write |
| PackageSteps.DeleteCutSettled | internal/store/store.go:188-194 | A cut delete leaves them out of step iff it stopped between its two removals |
| PackageCrash.WholeRunsRefineTable | internal/store/store.go:180-304 | Any history of uncut imports and deletes plays the same history on the abstract table, and every sidecar has the size and digest of its tarball |
| PackageCrash.ReachableFilesAreWholeAndChecked | internal/store/store.go:180-304 | After any history with crashes anywhere, whatever is reachable under a valid id is a completely received upload that was approved under that id: digest as demanded, and loaded by zarf under that name or, without validation, named so by its hint |
| PackageCrash.NeverOverwritten | internal/store/store.go:267-271 | No import, cut or whole, and no delete of another id changes or removes a stored tarball |
| PackageCrash.TempsInvisible | internal/store/store.go:92-122 | Leftover temp files change no answer of List, Get and Path |
| PackageHealing.OutOfStepIff | internal/store/store.go:180-304 | After any history with crashes anywhere, tarball and sidecar of an id are out of step iff the last event that touched the id was cut in its gap and what was beside the gap does not fit |
| PackageHealing.TouchedIff | internal/store/store.go:180-304 | After an event that touches an id, whatever its files were before, the id is in step iff the event was not cut in its gap or what was beside the gap fits |
| PackageHealing.OnlyDeleteHealsTarball | internal/store/store.go:180-196 | While an id has its tarball no import changes its files, and an uncut delete of it brings it back in step |
| PackageHealing.OnlyImportHealsSidecar | internal/store/store.go:267-302 | While an id has no tarball no delete changes its files, and an uncut accepted import brings it back in step |
| PackageTable.AcceptIff | internal/store/store.go:238-304 | The checks accept a package iff it is approved for the data and its id unused, and refuse with an error iff that error's own reason holds, in terms of the digest, what zarf loads, the name and the names in use |
| PackageTable.EqualFoldIsSameDigits | internal/store/store.go:240 | Two hexadecimal digests pass as equal iff they have the same digits, in either case |
| PackageStore.Store.FinalizeImport | internal/store/store.go:238-304 | Acceptance means the package is approved for the file, moves the temp file to its id and writes the matching sidecar; a refusal has the reason its error names and leaves the directory alone |
| PackageStore.Store.ImportReader | internal/store/store.go:214-233 | The file operations of an import, and on a settled directory one step of the table with the table's verdict |
| PackageStore.Store.Delete | internal/store/store.go:180-196 | Succeeds iff the id is valid and present, and removes exactly that entry from the table |
| PackageStore.Store.Get | internal/store/store.go:113-122 | The sidecar of a valid id if there is one, else not found; on a settled directory, the table's metadata |
| PackageStore.Store.Path | internal/store/store.go:168-177 | Names the tarball of the id iff the id is valid and the tarball there; on a settled directory, found iff the id is in the table |
| PackageStore.Store.List | internal/store/store.go:92-110 | Each readable sidecar once, strictly sorted by id whatever the directory order; on a settled directory exactly the table's packages |
| PackageStore.Store.ReadPackageRootFile | internal/store/store.go:128-165 | A bad name first, then an unknown package, then what reading the unpacked archive gives |
| PackageStore.StoredServesRootFile | internal/store/store.go:142-165 | The same for any stored package, however it got there |
| PackageStore.ImportedServesRootFile | internal/store/store.go:128-304 | A successful import of a packed list of entries, compressed under an id ending in .tar.zst or plain under one ending in .tar, makes the reader give the first file packed at the root as "name" or "./name", and not-found iff there is none |
| PackageStore.NewIdIsUploadId | internal/store/store.go:530-536 | Eight random bytes in hexadecimal are an upload id |
| PackageStore.Store.PutChunk | internal/store/store.go:346-385 | Stores body and size under the index, the last write winning; a refused or broken request changes nothing |
| PackageStore.Store.AbortUpload | internal/store/store.go:388-393 | Succeeds iff the session exists and removes exactly it |
| PackageStore.Store.CompleteUpload | internal/store/store.go:397-450 | No chunks, the least missing index, or the verdict of importing the concatenation; any refusal leaves sessions and packages unchanged, success stores the concatenation with the recorded total as size and removes exactly this session |
| PackageStore.FirstMissing | internal/store/store.go:405-414 | The contiguity loop passes only on {0..n-1}, and otherwise reports the least natural number not recorded |
| PackageStore.ReceivedBytes | internal/store/store.go:57-63 | The sum of the recorded sizes, independent of the map's iteration order |
| PackageStore.PutChunkIsThePutRun | internal/store/store.go:346-385 | A put of the interleaved model that runs without interruption has the effect of the store object's put |
| Jobs.AppendKeepsLast | internal/jobs/jobs.go:185-192 | Appending to the last max entries and trimming gives the last max entries of the longer history |
| Jobs.Job.Append | internal/jobs/jobs.go:185-192 | The buffer stays the tail of everything ever logged |
| Jobs.Job.Logs | internal/jobs/jobs.go:173-183 | The last min(tail, captured) entries of the whole history, or all captured ones for tail <= 0 |
| Jobs.Job.Start | internal/jobs/jobs.go:137-143 | The job is running; done stays in step with the status if it was not closed |
| Jobs.Job.Succeed | internal/jobs/jobs.go:146-154 | With done still open: succeeded with this result, and done closed |
| Jobs.Job.Fail | internal/jobs/jobs.go:157-165 | With done still open: failed with this error, and done closed |
| Jobs.Manager.Evict | internal/jobs/jobs.go:104-111 | Exactly min(excess over maxJobs, longest finished prefix) jobs leave, from the old end, all of them final: eviction stops at the cap or at a live job |
| Jobs.Manager.Create | internal/jobs/jobs.go:87-113 | The history grows by the new pending job and the retained part stays a suffix of it, shortened by exactly that many final jobs |
| Jobs.Manager.Get | internal/jobs/jobs.go:116-121 | Finds a job iff it was created and not dropped |
| Jobs.Manager.List | internal/jobs/jobs.go:124-134 | All retained jobs, oldest first |
| JobRunners.AtMostOneRunning | internal/server/handlers/deployments.go:51-102 | In every reachable state of every interleaving at most one job is running |
| JobRunners.ClosedOnceIffTerminal | internal/jobs/jobs.go:146-165 | A job's done channel was closed at most once, and once iff its status is final |
| JobRunners.RunsMoveForward | internal/jobs/jobs.go:137-165 | Over any run statuses only move pending, running, final, and the start of the retained history never moves back |
| JobRunners.WaiterToldTheOutcome | internal/server/handlers/jobs.go:30-45 | A released waiter was answered 200 iff its job succeeded and 500 iff it failed, also judged by any later state |
| JobRunners.LiveJobRetained | internal/jobs/jobs.go:103-111 | A job that is not final is still retained |
| JobHandlers.CreateJob | internal/server/handlers/deployments.go:46-47 | Creating a job through the manager object and spawning its runner is exactly one create step of the interleaved system, evictions included |
| JobHandlers.NewManager | internal/jobs/jobs.go:72-84 | A new manager is the start of the interleaved system |
| JobHandlers.QuietStepsRepresented | internal/server/handlers/deployments.go:55-97 | Taking and releasing the mutex, the calls into zarf, the cleanup and the waiters leave the job objects as the next state has them |
| JobHandlers.StartJob | internal/server/handlers/deployments.go:55-58 | The start call on the job object is the start step |
| JobHandlers.SucceedJob | internal/server/handlers/deployments.go:101 | The succeed call is the finishing step after a call that went well and its cleanup |
| JobHandlers.FailJob | internal/server/handlers/deployments.go:61-65 | The fail call is the finishing step after a call that failed |
| JobHandlers.DoneIsOpen | internal/jobs/jobs.go:146-165 | Wherever a runner can finish its job, that job is running and its done channel is still open, so closing it never panics |
| JobRunners.NoDeadlock | internal/server/handlers/deployments.go:161-177 | While some runner has not exited, some runner step is possible |
| JobRunners.RunnersTerminate | internal/server/handlers/deployments.go:46-102 | Runs of runner steps are bounded, and where none is possible all jobs are final and the mutex is free |
| DeployRunner.Summarize | internal/server/handlers/deployments.go:67-88 | One pair per component in order, its name first and its status second, and every connect string with the value of the last chart, of the last component, that has it |
| DeployRunner.RunDeploy | internal/server/handlers/deployments.go:51-102 | The job succeeds iff the deploy did; cleanup happens only then, deletes exactly this package, and its failure is reported but does not fail the job |
| DeployRunner.RunRemove | internal/server/handlers/deployments.go:161-177 | The job ends succeeded or failed as the removal did |
| Documents.InsertLeaves | internal/server/ui/app.js:518-523 | A round that sets its value replaces what was at or below its path and changes no other leaf |
| Documents.AstrayLeaves | internal/server/ui/app.js:521-522 | A round whose write goes elsewhere leaves every value at its path; only a list it walked into may have changed |
| Documents.OnlyCleanArrives | internal/server/ui/app.js:516-525 | Whatever is built and whatever went astray before, a value only ever arrives at a path with no inherited name before its last key and no final `__proto__` |
| Documents.BuildPrefixFree | internal/server/ui/app.js:516-525 | From clean paths none of which extends another, the document has exactly the given leaves and nothing goes astray |
| Documents.BuildExactIffApartAndClean | internal/server/ui/app.js:516-525 | For distinct paths the document has exactly the given leaves iff no path extends another and every path is clean |
| Documents.SameLeavesSameDoc | internal/server/ui/app.js:516-525 | Documents without empty objects are determined by their leaves |
| Documents.RebuildIsIdentity | internal/server/ui/app.js:516-525 | Flattening a document without empty objects and rebuilding it, in any order, gives it back iff its paths are clean |
| Documents.AnyOrderIffApartAndClean | internal/server/ui/app.js:516-525 | For distinct paths every order of the entries builds exactly them, and the same document, iff no path extends another and all are clean |
| Unflatten.Unflatten | internal/server/ui/app.js:516-525 | The in-place loops over heap objects throw iff the specification has no document; else they end with a tree of unaliased objects, all made by the call, that shows exactly the specified document, apart from the listed writes that went astray |
| Unflatten.SetPath | internal/server/ui/app.js:519-523 | One round through the moving reference is one round of the specification: an exception, the value set, or a write that went elsewhere |
| Unflatten.ShownIsUnique | internal/server/ui/app.js:516-525 | A heap of objects shows at most one document |
| SchemaForm.FieldsAreKeyPaths | internal/server/ui/app.js:423-437 | The string recursion emits the joined key lists of the schema's leaf properties, in order |
| SchemaForm.FieldsLead | internal/server/ui/app.js:423-437 | The fields of a form are exactly the dot-joined key lists that lead to a leaf property of the schema |
| SchemaForm.FieldsDistinctAndPrefixFree | internal/server/ui/app.js:423-481 | With non-empty dot-free keys the emitted paths are pairwise different and, split again, none extends another |
| FormSubmission.SubmittedDocumentExact | internal/server/ui/app.js:489-525 | With good keys and clean fields, any subset of a form's fields, entered in any order, gives a document with exactly those values at those paths |
| FormSubmission.SubmissionOrderIrrelevant | internal/server/ui/app.js:489-525 | With good keys and clean fields the order of the collected entries does not change the document |
| FormSubmission.FormWorksIffApartAndClean | internal/server/ui/app.js:423-525 | For any schema, any browser and any enumeration order: however the form is filled in, the document sent has exactly the entered values at the fields' paths iff the emitted paths are pairwise different, none, split at its dots, extends another, and each is clean |
| FormSubmission.GoodFormWorksIffCleanKeys | internal/server/ui/app.js:423-525 | With non-empty, dot-free, distinct keys a form works iff no object with fields below it has a name every object inherits and no field is named `__proto__` |
| FormSubmission.ConstructorFormFails | internal/server/ui/app.js:521-522 | An object named `constructor` with one field has good keys, and its value never arrives |
| FormSubmission.SubmittedExactIffApartAndClean | internal/server/ui/app.js:489-525 | For any schema: every flat object over its fields builds exactly its leaves iff any two different fields split to paths of which neither extends the other, and every field is clean |
| FormSubmission.CollectValues | internal/server/ui/app.js:489-511 | The collecting loop keeps one entry per path with the last value, in the order of first assignment, and none for `__proto__`; enumeration may reorder them (integer-like names come first), which the results about forms allow for |
| FormSubmission.CollectedIsLastFilled | internal/server/ui/app.js:489-511 | The collected object has one entry per path, with the value of the last input filled in for it, and none for `__proto__` |
| FormSubmission.BadKeysCollide | internal/server/ui/app.js:427-428 | Two schemas, one with a dotted key and one with an empty key above another level, in each of which two fields share one path, so that the form does not work |
| ChecksumLines.RewriteParsesBack | tools/addschema/main.go:64-73 | Split at its newlines the rewritten text is the sorted old lines plus the new one and a final empty piece; read as digests and names it says what the old text and the new line say |
| ChecksumLines.RewriteCanonical | tools/addschema/main.go:64-73 | Two texts with the same multiset of non-blank lines are rewritten to the same text |
| Sorting.StrLeIff | tools/addschema/main.go:72 | The order of the lines: a prefix comes first, else the smaller character where two lines first differ |
| ChecksumLines.RewriteText | tools/addschema/main.go:64-73 | The blank-dropping loop, append, sort and join produce that text |
| AddSchema.NewTextSays | tools/addschema/main.go:57-73 | Read as a loader reads it (the digest up to the first space, the name after it), the new checksums.txt says what the old one said and that config.schema.json has the schema's digest |
| AddSchema.Run | tools/addschema/main.go:57-122 | Succeeds iff every zarf.yaml parses and has metadata and every zarf.yaml and checksums.txt entry is a file, and then writes the schema followed by every entry, in order, with those two rewritten |
| PackageIntegrity.InjectedManifest | tools/addschema/main.go:75-91 | zarf.yaml as a loader of the output sees it carries the digest of the new checksum text and is otherwise unchanged if it was spelled plainly; else it is as before |
| PackageIntegrity.IntegrityKeptIff | tools/addschema/main.go:57-122 | Names are compared without a leading "./"; when the lines of checksums.txt, read as digest and name, are exactly those of the files a loader sees (the last entry of a name wins, only files are listed) and zarf.yaml carries its digest, the output has the same property iff it gained the file and its line together and the tool found both special entries by their plain names or neither (or two digests agree by chance) |
| PackageIntegrity.IntegrityKeptIffNew | tools/addschema/main.go:57-122 | Where both special entries are spelled plainly, iff the package had no entry named config.schema.json |
| PackageIntegrity.IntactRunsIff | tools/addschema/main.go:75-119 | On an intact package the tool runs through iff every shadowed zarf.yaml parses, has metadata and is a file, and every shadowed checksums.txt is a file |
| PackageIntegrity.IntactDistinctRuns | tools/addschema/main.go:75-119 | On such a package without repeated names the tool always runs through |
| PackageIntegrity.ListingIsLoaded | tools/addschema/main.go:57-73 | The listing that integrity speaks of has a digest and name once if a loader sees a file of that digest under that name, other than the two special ones, and not at all otherwise |
| AddSchema.ReadBack | internal/store/store.go:151-164 | Reading config.schema.json from the output gives the injected bytes, and every root file but the two rewritten ones reads as before |
| AddSchema.EndpointServesInjected | internal/server/handlers/packages.go:84-104 | The schema endpoint serves the injected schema iff the package has no values.schema.json, and the native one otherwise |
| Archives.FindRoot | internal/store/store.go:152-164 | The first regular root entry of the name, or none iff there is no such entry |
| Archives.ReadRootIff | internal/store/store.go:151-164 | The reader gives the first file packed at the root as "name" or "./name", not-found iff there is none, and the archive's error iff it breaks before one is found |
| Archives.ConfigSchemaVerdict | internal/server/handlers/packages.go:84-104 | The endpoint answers with the native schema if there is one; without one, with the injected schema from an archive that reads to its end; else with the reason |
| Text.SplitAppend | internal/server/ui/app.js:59-60 | Splitting at a separator and then each side is splitting the whole |
| Versions.TokensAppend | internal/server/ui/app.js:59-60 | Each of the three separators splits off whole what is before and after it |
| Versions.OneToken | internal/server/ui/app.js:59-60 | A piece without separators is one token: digits a number of that value, anything else itself |
| Versions.PaddedNumberToken | internal/server/ui/app.js:59-60 | Leading zeros make no difference |
| Versions.NumberedTokens | internal/server/ui/app.js:59-60 | The tokens of n1.n2…nk are those numbers |
| Versions.FirstDifferenceDecides | internal/server/ui/app.js:61-66 | The first differing position decides: two numbers by their difference, anything else by locale order of how it is written |
| Versions.NumberedCompare | internal/server/ui/app.js:58-68 | Dotted numeric versions compare by their first differing number, under any locale |
| Versions.TenAfterTwo | internal/server/ui/app.js:58-68 | 1.2.0 compares to 1.10.0 as -8 |
| Versions.TrailingZero | internal/server/ui/app.js:61-63 | A trailing zero, however it is separated, makes no difference |
| Versions.CmpEqualIff | internal/server/ui/app.js:58-68 | Two versions compare equal iff their tokens agree after zero padding or first differ in two tokens that collate as equal; swapping them swaps the sign |
| Versions.NumericEqualIffAgree | internal/server/ui/app.js:58-68 | Versions made of numbers compare equal iff their tokens agree after zero padding, under any locale |
| Versions.StrictEqualIffAgree | internal/server/ui/app.js:58-68 | Where different strings never collate as equal, any two version strings compare equal iff their tokens agree after zero padding |
| Versions.PreorderIffUncrossed | internal/server/ui/app.js:58-68 | On any set of versions, under any locale that preorders strings, the comparison is a total preorder iff no text token lies between two numbers taken the wrong way round where three versions part, and no token that collates like another one masks a later difference |
| Versions.NumericPreorder | internal/server/ui/app.js:58-68 | On versions made of numbers the comparison is a total preorder under any locale |
| Versions.MixedVersionsCycle | internal/server/ui/app.js:58-68 | 10, 1a and 2 form a cycle wherever "10" sorts before "1a" and "1a" before "2" |
| Versions.TiedVersionsCycle | internal/server/ui/app.js:64-65 | Where "a" and "b" collate as equal, b ties with a.2 and with a.1, which differ |
| Grouping.GroupByName | internal/server/ui/app.js:125-133 | One group per name that occurs, names never repeated, each with the packages of its name sorted by version; groups in the locale's order of their names where it orders names at all |
| Grouping.EveryPackageInOneGroup | internal/server/ui/app.js:125-133 | Each package is in exactly the group of its name, as often as it was given |
| Grouping.GroupsNewestFirst | internal/server/ui/app.js:131 | A group whose versions are neither crossed nor masked runs from the newest to the oldest |
| Grouping.NumericGroupsNewestFirst | internal/server/ui/app.js:131 | A group of numeric versions runs from the newest to the oldest under any locale |

## Left out

- File-system errors other than the ones a caller can cause, and partial writes of JSON files. A failing handler is modelled as stopping at any step.
- Concurrent imports of one file name: the existence check and the rename are two operations, so the no-overwrite results speak of imports taken one at a time.
- UploadServer models one session; handlers of other sessions only delay its mutex and are not shown. Session records carry the chunk map only; name hint, digest and creation time are in `PackageStore`.
- UploadServer.Next folds the locked read into taking the mutex, and unlocking into the write: nothing else that takes the mutex can run between them.
- PackageStore.Store serves one call at a time; what concurrent calls on one session do is in `UploadServer`. The settled clauses of its methods assume a directory no crash has split; what a crash leaves is in `PackageCrash`.
- JobHandlers.CreateJob: the calls on the objects are steps one at a time; the objects have no mutex of their own in the model.
- JobRunners.RunnersTerminate: assumes that zarf's deploy and remove calls return.
- Jobs.Job.Start: unconditional, as in the source; that it is never called on a finished job is a result about the runners.
- Jobs.Job: the timestamps of creation, start and finish, and the attributes of a log entry, are not modelled.
- Jobs.Manager.Create: reads job statuses without the job's own lock in the source; the data race itself is not modelled.
- UploadClient.UploadSingle: runs undisturbed; the deletions of a new upload cannot fail here, as the page ignores their failures, and interleaving is in `UploadProtocol`.
- SessionCap.CapBound: counts sessions as atomic creations and removals.
- DeployRunner.RunDeploy: log records and the in-flight state between its steps are left to `Jobs.Job.Append` and `JobRunners`.
- Documents.Insert: what a write outside the document does there (to a shared built-in object, or through a value) is an arbitrary function of the stray writes so far; the page is taken to start with its built-in objects as the browser provides them.
- FormSubmission.CollectValues: how the page types and trims the entered values, and which inputs are required, is not modelled; any input may be empty or hold any value.
- PackageIntegrity.Integrity: a loader that refuses a file and a directory of one name, or that normalises names further than a leading "./", is not modelled.
- AddSchema.Run: an entry is a file or not; the rarer archive types that are no plain file but carry data, and archive headers other than name and type (modes, times, sizes) and the compression are not modelled; zarf.yaml is a record with one field of interest and the rest untouched.
- Versions.PreorderIffUncrossed: numbers are exact; the page's numbers lose precision above 2^53 and are then shown in exponent form.
- Archives.ReadRoot: a failing read inside the matching entry is not distinguished from its content.
- teeHandler and its slog groups and attributes, the handlers' HTTP routing, JSON responses and status codes other than the waiter's, the page's DOM code, configuration, and the thin calls into zarf.
- ListUploads and its order by creation time.
