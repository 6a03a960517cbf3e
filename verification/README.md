# ComeOn! upload core, modelled in Dafny

ComeOn! is a desktop tool that reads a batch of image files, extracts their EXIF metadata, renders a
description for each picture from a template, and uploads the pictures to a MediaWiki site. This
project models three parts of its core:

- **The orchestrator** (`CoreImpl`), in `core.dfy`. It holds:
  - the ordered picture list;
  - the selection of pictures still to upload;
  - one upload task per selected picture;
  - the registry of in-flight task handles;
  - the teardown after a batch: one logout attempt and one batch-done event;
  - the switch of the active wiki.
- **The ingestion batch** (`Pictures`), in `ingestion.dfy`. One reader per file. A file whose
  metadata cannot be read is skipped. The thumbnail defaults to an empty array. The metadata map
  is keyed by directory name and then by the sanitised tag name. The latch is counted down once per
  file.
- **The MediaWiki session** (`MediaWikiImpl`), in `mediawiki.dfy`. It is a state machine over the
  remote API's logged-in flag. `upload` logs in at most once and retries at most once, and
  `logout` does nothing when logged out.

Shared entities (`Picture`, `State`, `User`, `Wiki`, `Template`, `File`) are in `model.dfy`. Generic
list facts are in `lists.dfy`, and `Option`/`Outcome` are in `wrappers.dfy`.

The environment is abstracted as follows:

- **Objects that change in place are classes.** These are the orchestrator, the batch, the session
  and each picture. A picture's `state` and `rendering` are the fields that change.
- **The event bus** is the append-only `events` log.
- **The remote API** is an oracle. Each `upload` gets an `UploadOracle`: the login reply, whether
  the file opens, and whether the API upload succeeds. The calls actually made are recorded in the
  session's `calls` log.
- **The EXIF reader** is the function `extract`. It gives each file either its raw metadata or a
  read error.
- **The worker pool** runs the submitted tasks in submission order. Each task is either cancelled
  before it starts or runs to completion (`TaskFate`). `Future.cancel` is the oracle `cancel`, and
  an interrupt of the wait loop is `interrupt`.

## Model

| member | source | states |
|---|---|---|
| Core.CoreImpl.constructor | src/main/java/comeon/core/CoreImpl.java:74-79 | construction needs an active wiki; it starts with no pictures, no tasks and no events, and with a fresh logged-out session to that wiki |
| Core.ShouldUpload | src/main/java/comeon/core/CoreImpl.java:104-106 | a picture is eligible exactly when it is pending or its upload failed, that is when it is not uploaded successfully |
| Core.ToUpload | src/main/java/comeon/core/CoreImpl.java:113-121 | the selection is never longer than the list |
| Core.ToUploadMembers | src/main/java/comeon/core/CoreImpl.java:104-106 | every selected picture is in the list and eligible, and every eligible picture of the list is selected (both directions of "eligible exactly when not uploaded successfully") |
| Core.ToUploadAppend | src/main/java/comeon/core/CoreImpl.java:113-121 | selection distributes over concatenation, so it keeps the list order |
| Core.ToUploadDistinct | src/main/java/comeon/core/CoreImpl.java:113-121 | a duplicate-free picture list gives a duplicate-free selection |
| Core.ToUploadCount | src/main/java/comeon/core/CoreImpl.java:109-111 | the number of pictures to upload is the list size minus the number already uploaded |
| Core.NothingToUpload | src/main/java/comeon/core/CoreImpl.java:113-121 | when every picture is uploaded successfully, nothing is selected |
| Core.EverythingToUpload | src/main/java/comeon/core/CoreImpl.java:113-121 | when no picture is uploaded yet, the selection is the whole list in order |
| Core.SecondRunSubmitsNothing | src/main/java/comeon/core/CoreImpl.java:167-175 | after a batch in which every selected picture succeeded, and the pictures left out were already uploaded, the next selection is empty, so the next run submits no task |
| Core.CoreImpl.FilterPicturesToBeUploaded | src/main/java/comeon/core/CoreImpl.java:113-121 | the loop returns the order-preserving subsequence of eligible pictures; each result is in the list; a picture is in the result exactly when it is eligible |
| Core.CoreImpl.CountPicturesToBeUploaded | src/main/java/comeon/core/CoreImpl.java:109-111 | the count is the length of the selection and equals the list size minus the uploaded pictures |
| Core.CoreImpl.AddPictures | src/main/java/comeon/core/CoreImpl.java:83-91 | the batch's new pictures are appended after the existing ones, which stay in place; the new pictures are the batch's expected pictures, all new objects; one pictures-added event carrying them is posted; the list stays duplicate-free |
| Core.CoreImpl.RemovePicture | src/main/java/comeon/core/CoreImpl.java:94-97 | the list becomes the old list without the first occurrence of the picture; exactly the other pictures remain; one removed event is posted |
| Lists.RemoveFirst | src/main/java/comeon/core/CoreImpl.java:95 | removing an absent element changes nothing; removing a present one shortens the list by one |
| Lists.RemoveFirstSplices | src/main/java/comeon/core/CoreImpl.java:95 | the result is the list with the entry at the first occurrence cut out, so the others keep their relative order |
| Lists.RemoveFirstDistinct | src/main/java/comeon/core/CoreImpl.java:95 | in a duplicate-free list, removal keeps the list duplicate-free and removes exactly that element |
| Lists.RemoveFirstIsKeep | src/main/java/comeon/core/CoreImpl.java:95 | in a duplicate-free list, removing the first occurrence is the same as filtering out every equal element |
| Core.UploadTask.Equals | src/main/java/comeon/core/CoreImpl.java:151-162 | nothing equals null, and a task equals itself |
| Core.TaskEqualsEquivalence | src/main/java/comeon/core/CoreImpl.java:151-162 | task equality is reflexive, symmetric and transitive on tasks, and two tasks are equal exactly when they upload the same picture |
| Core.UploadTask.Call | src/main/java/comeon/core/CoreImpl.java:133-148 | a start event is posted, then the session's upload runs; success sets `UploadedSuccessfully` and posts one done event; any session failure sets `FailedUpload` and posts one failed event carrying that failure; a logout failure never arises |
| Core.StateAfter | src/main/java/comeon/core/CoreImpl.java:139-144 | a cancelled task leaves the state unchanged; a task that ran ends `UploadedSuccessfully` exactly when it passed and `FailedUpload` exactly when it failed |
| Core.TaskEventsOrder | src/main/java/comeon/core/CoreImpl.java:137-145 | a cancelled task posts nothing; a task that ran posts its start event first, then a done event on success or a failed event carrying the failure |
| Core.TaskEventsOwn | src/main/java/comeon/core/CoreImpl.java:137-145 | one task posts one start event if it ran and none if cancelled, one done event exactly on success, one failed event exactly on failure, never both, and no batch-done event |
| Core.TaskEventsOther | src/main/java/comeon/core/CoreImpl.java:137-145 | a task posts no transfer event about any other picture |
| Core.CoreImpl.RunTask | src/main/java/comeon/core/CoreImpl.java:133-148 | a cancelled task does nothing; a task that runs has exactly the effect of one session upload on the flag and the call log, and sets the state and posts the events of its outcome; it never logs out |
| Core.CoreImpl.RunSelected | src/main/java/comeon/core/CoreImpl.java:171-175 | the task of the `i`-th selected picture is cancelled or run as its fate says; only that picture's state changes, to what its outcome gives; its events are appended; its calls are appended and contain no logout; result, calls and flag extend the batch specification `BatchSpec` of the first `i` tasks by exactly task `i` |
| Core.CoreImpl.RunNext | src/main/java/comeon/core/CoreImpl.java:171-175 | given the states, events, calls and flag of the first `i` tasks as `BatchSpec` gives them, running task `i` gives those of the first `i + 1` |
| Core.CoreImpl.RunTasks | src/main/java/comeon/core/CoreImpl.java:171-175 | every selected picture's task is cancelled or run, exactly as its fate says; each picture ends in the state its own outcome gives; the events are the tasks' events in submission order; no task logs out; the results, the calls and the final flag are those of `BatchSpec`, the tasks run one after another against the one session |
| Core.BatchSpec | src/main/java/comeon/core/CoreImpl.java:171-175 | the batch specification: the first `k` tasks, in submission order, each a cancellation or one session upload starting from the flag the earlier tasks left; one result per task |
| Core.BatchSpecShape | src/main/java/comeon/core/CoreImpl.java:137-145 | in a batch, a task has no result exactly when it was cancelled, no task fails with a logout failure, and no task's calls include a logout |
| Core.AllAcceptedAllPass | src/main/java/comeon/core/CoreImpl.java:137-140 | when every task runs and the wiki accepts the login, the file opens and the upload succeeds, every task of the batch passes, whether or not the session started logged in |
| Core.TaskLogStep | src/main/java/comeon/core/CoreImpl.java:171-175 | one more task appends exactly that task's events to the batch's events |
| Core.TaskLogEvents | src/main/java/comeon/core/CoreImpl.java:133-175 | in a batch's events, each picture has one start event if its task ran (none if cancelled), one done event exactly when it succeeded and one failed event exactly when it failed; no batch-done event is among them |
| Core.TaskLogCount | src/main/java/comeon/core/CoreImpl.java:133-175 | a transfer event about a picture occurs in the batch's events as often as in that picture's own task events |
| Core.TaskLogOthers | src/main/java/comeon/core/CoreImpl.java:133-175 | an event about none of the batch's pictures (such as the batch-done event) does not occur among the task events |
| Core.OnlyAbout | src/main/java/comeon/core/CoreImpl.java:137-145 | in a duplicate-free selection, a transfer event a task posts about its own picture is about no other selected picture |
| Core.CoreImpl.SubmitTasks | src/main/java/comeon/core/CoreImpl.java:170-176 | one new handle is created per selected picture, in order; all of them are appended to the registry, which stays duplicate-free |
| Core.Handles | src/main/java/comeon/core/CoreImpl.java:170-175 | the batch's `count` handles carry consecutive serials, in submission order |
| Core.HandlesDrop | src/main/java/comeon/core/CoreImpl.java:178-191 | the handles left registered after an interrupt at handle `k - 1` are the run of consecutive handles that starts `k` later |
| Core.CoreImpl.AwaitTasks | src/main/java/comeon/core/CoreImpl.java:177-191 | each awaited handle is removed from the registry however its wait ends; without an interrupt the registry returns to what it was before the batch; an interrupt while waiting for handle `k` removes handles up to and including `k` and leaves the later ones |
| Core.CoreImpl.FinishBatch | src/main/java/comeon/core/CoreImpl.java:192-200 | exactly one logout attempt is made, its failure is dropped, and exactly one batch-done event is posted last |
| Core.CoreImpl.DispatchBatch | src/main/java/comeon/core/CoreImpl.java:169-176 | the batch is announced, one consecutive handle per picture is submitted and registered, and the tasks' results, calls and flag are those of `BatchSpec`, with the states and events they give |
| Core.CoreImpl.EndBatch | src/main/java/comeon/core/CoreImpl.java:177-200 | the awaited handles leave the registry as `AwaitTasks` says, then exactly one logout attempt from the flag the tasks left, and one batch-done event |
| Core.CoreImpl.RunBatch | src/main/java/comeon/core/CoreImpl.java:169-200 | the batch announces the selection, submits and registers one handle per picture, runs or cancels each task with the results, calls and flag of `BatchSpec`, waits, logs out once from the flag the tasks left and posts one batch-done event; pictures outside the selection keep their states |
| Core.RunLogOneUploadDone | src/main/java/comeon/core/CoreImpl.java:169-200 | the event log after a run, with every task's events before the teardown, holds exactly one batch-done event, appended after the tasks' events |
| Core.CoreImpl.UploadPictures | src/main/java/comeon/core/CoreImpl.java:166-201 | the selection is the eligible pictures at the start; one task per selected picture and none for uploaded ones; each selected picture ends in the state its task gives, and the task results, calls and flag are those of `BatchSpec` on the fates; the other pictures were and stay uploaded; the events are the announcement, the tasks' events and one batch-done event; the registry gets back every handle except those after an interrupt; the teardown makes one logout attempt from the flag `BatchSpec` leaves |
| Core.CoreImpl.Abort | src/main/java/comeon/core/CoreImpl.java:204-210 | the registry becomes the old registry filtered to the handles whose cancellation failed, in order; an empty registry stays empty |
| Lists.KeepStep | src/main/java/comeon/core/CoreImpl.java:205-209 | one step of the abort loop: handling the next handle either keeps it or removes exactly it |
| Lists.KeepDistinct | src/main/java/comeon/core/CoreImpl.java:205-209 | filtering a duplicate-free registry keeps it duplicate-free |
| Core.CoreImpl.HandleActiveWikiChange | src/main/java/comeon/core/CoreImpl.java:213-225 | the old session is logged out only if it was logged in, and a failed logout is dropped; the session is replaced by a fresh logged-out session to the new wiki; every picture is re-rendered for the new user and keeps its state; the list, the registry and the events are unchanged |
| Ingestion.Sanitize | src/main/java/comeon/core/Pictures.java:118-126 | a sanitised name contains only word characters `[A-Za-z0-9_]` and is no longer than the original |
| Ingestion.SanitizeKeepsWordChars | src/main/java/comeon/core/Pictures.java:118-126 | every word character survives as often as it occurs, and every other character is removed |
| Ingestion.SanitizeAppend | src/main/java/comeon/core/Pictures.java:118-126 | sanitising works character by character, so the kept characters stay in their original order |
| Ingestion.SanitizeWordString | src/main/java/comeon/core/Pictures.java:118-126 | a name made only of word characters is unchanged |
| Ingestion.SanitizeIdempotent | src/main/java/comeon/core/Pictures.java:118-126 | sanitising twice is the same as sanitising once |
| Ingestion.Assoc | src/main/java/comeon/core/Pictures.java:125-129 | every key that is put is in the map |
| Ingestion.AssocFrom | src/main/java/comeon/core/Pictures.java:125-129 | every map entry comes from one of the pairs that were put |
| Ingestion.AssocLastWins | src/main/java/comeon/core/Pictures.java:125-129 | the last pair put with a given key decides that key's value |
| Ingestion.MetadataOf | src/main/java/comeon/core/Pictures.java:98-102 | every directory of the file has an entry in the metadata map, under the directory's name |
| Ingestion.MetadataShape | src/main/java/comeon/core/Pictures.java:98-130 | each directory name maps to its tag map; each sanitised tag name maps to its description; a later directory or tag with the same key overwrites an earlier one |
| Ingestion.MetadataKeysAreWords | src/main/java/comeon/core/Pictures.java:118-126 | every key of every directory's map is made of word characters only |
| IngestionBatch.Copy | src/main/java/comeon/core/Pictures.java:114-130 | the directory's entry becomes the map of its sanitised tag names to descriptions; every other directory's entry is unchanged |
| IngestionBatch.Pictures.ReadMetadata | src/main/java/comeon/core/Pictures.java:98-102 | the loop over the directories builds exactly the file's metadata map |
| Ingestion.ThumbnailOf | src/main/java/comeon/core/Pictures.java:92-97 | the thumbnail is the EXIF thumbnail bytes when present, otherwise an empty array |
| IngestionBatch.Yield | src/main/java/comeon/core/Pictures.java:87-112 | a file yields at most one picture, and none exactly when reading its metadata fails |
| IngestionBatch.YieldPicture | src/main/java/comeon/core/Pictures.java:88-105 | a readable file's picture is pending, is named by the file's absolute path, carries the batch's default template and the file's thumbnail and metadata, and is rendered for the user |
| IngestionBatch.Pictures.constructor | src/main/java/comeon/core/Pictures.java:48-54 | the latch starts at the number of files and the picture list is empty |
| IngestionBatch.Pictures.ReadPicture | src/main/java/comeon/core/Pictures.java:87-112 | one reader appends its file's yield (one new picture, or nothing on a read error) and counts the latch down by exactly one on either path |
| IngestionBatch.Pictures.ReadFiles | src/main/java/comeon/core/Pictures.java:56-68 | after one reader per file the latch is zero; the values of the pictures appended are `Expected`, the files' yields taken file after file; they are all new objects, and the list stays duplicate-free |
| IngestionBatch.Expected | src/main/java/comeon/core/Pictures.java:56-68 | every picture of a batch is pending and carries the batch's default template |
| IngestionBatch.ValuesStep | src/main/java/comeon/core/Pictures.java:57-59 | the pictures of the first `i` files followed by the yield of file `i` are the pictures of the first `i + 1` files |
| IngestionBatch.ValuesAppend | src/main/java/comeon/core/Pictures.java:105 | the values of concatenated picture lists are the concatenated values |
| IngestionBatch.ValuesAt | src/main/java/comeon/core/Pictures.java:105 | entry `k` of the values of a picture list is the value of the `k`-th picture appended |
| IngestionBatch.ReadBatch | src/main/java/comeon/core/Pictures.java:48-72 | a new batch read to completion returns the expected pictures, one per readable file, each a new object, with no duplicates |
| IngestionBatch.Failures | src/main/java/comeon/core/Pictures.java:106-110 | the number of unreadable files is at most the number of files |
| IngestionBatch.FailuresAppend | src/main/java/comeon/core/Pictures.java:106-110 | failures of concatenated file lists add up, so a failing file does not affect the others |
| IngestionBatch.ExpectedSize | src/main/java/comeon/core/Pictures.java:53-111 | the number of pictures is the number of files minus the number of failures; with no files there are no pictures |
| MediaWiki.MediaWikiImpl.constructor | src/main/java/comeon/mediawiki/MediaWikiImpl.java:35-39 | a new session is to the given wiki, is logged out and has made no calls |
| MediaWiki.LoginSpec | src/main/java/comeon/mediawiki/MediaWikiImpl.java:47-57 | one login call; success exactly when the API accepts, and then the session is logged in; `NotLoggedIn` exactly when the API refuses; `FailedLogin` exactly on an I/O error |
| MediaWiki.MediaWikiImpl.Login | src/main/java/comeon/mediawiki/MediaWikiImpl.java:47-57 | the method's result, flag and call log are those of `LoginSpec` |
| MediaWiki.MediaWikiImpl.IsLoggedIn | src/main/java/comeon/mediawiki/MediaWikiImpl.java:60-62 | the result is exactly the API's logged-in flag |
| MediaWiki.TransferSpec | src/main/java/comeon/mediawiki/MediaWikiImpl.java:73-80 | once logged in, the session stays logged in; the file is sent in one API call exactly when it opens; the transfer passes exactly when the file opens and the API accepts it; an unopenable file is an I/O error |
| MediaWiki.UploadSpec | src/main/java/comeon/mediawiki/MediaWikiImpl.java:71-85 | an upload never logs out and never fails with a logout failure |
| MediaWiki.UploadShape | src/main/java/comeon/mediawiki/MediaWikiImpl.java:73-84 | no login when logged in; the only possible call logs are none, one upload, one login, or one login then one upload; the file is sent exactly when it opens and the session is or gets logged in; `FailedUpload` exactly when the API refuses a sent file; an unopenable file escapes as an I/O error; success leaves the session logged in |
| MediaWiki.UploadCallBounds | src/main/java/comeon/mediawiki/MediaWikiImpl.java:51-84 | at most one login and at most one API upload per call, none of the logins when already logged in, and no upload before a login |
| MediaWiki.MediaWikiImpl.Upload | src/main/java/comeon/mediawiki/MediaWikiImpl.java:71-85 | the recursive method's result, flag and call log are those of `UploadSpec`; the recursion is at most one level deep |
| MediaWiki.LogoutSpec | src/main/java/comeon/mediawiki/MediaWikiImpl.java:93-101 | nothing happens when logged out; otherwise exactly one logout call; success logs out; an I/O error becomes `FailedLogout` |
| MediaWiki.MediaWikiImpl.Logout | src/main/java/comeon/mediawiki/MediaWikiImpl.java:93-101 | the method's result, flag and call log are those of `LogoutSpec` |
| Model.Picture.RenderTemplate | src/main/java/comeon/core/Pictures.java:104 | the picture is rendered for the given user, and its state is not touched |

## Left out

- Concurrency. The pool runs tasks one after another, in submission order, between the submission
  loop and the wait loop. Interleavings between tasks that share the session, and a task still
  running while `abort` is called, are not modelled.
- Core.CoreImpl.UploadPictures: an interrupt while waiting for handle `k` ends the wait while the
  tasks after `k` may still be queued or running. In the source they can then finish after the
  logout and the batch-done event, post their transfer events after it, and log the session in
  again through `upload`. The model runs every task before the wait, so its claims that the
  batch-done event comes after every transfer event and that the logout attempt follows every task
  call hold only for that schedule.
- Core.RunLogOneUploadDone: the batch-done event is last only under the schedule above; after an
  interrupted wait, later tasks may post events after it.
- IngestionBatch.Pictures.ReadFiles: the readers append to a synchronised list in the order they
  finish, not in file order. The model reads the files one after another, so the file order of
  `Expected` is one possible order of the source's list, not the only one.
- IngestionBatch.Pictures.ReadFiles: `latch.await()` can be interrupted. `readFiles` then returns
  before every file has been read, while readers go on appending. The model does not interrupt the
  wait.
- `addPictures` builds its batch through `PicturesBatchFactory.makePicturesBatch`, which also takes
  an external metadata source. That factory is not part of this model; the model builds a
  `Pictures` batch directly.
- Core.CoreImpl.AddPictures: the pictures are rendered for the user of the active wiki. The model
  takes the active wiki to be the wiki of the orchestrator's session, which the constructor and
  `HandleActiveWikiChange` keep in step.
- `Thread.interrupted()` only clears the thread's flag, so the model does not record it. An
  interrupt while waiting for a handle ends the wait loop after that handle's removal. That is the
  inner `finally` of the wait loop.
- `ExecutionException` and other runtime exceptions thrown by a task are not modelled. The model's
  tasks catch every session failure, as `UploadTask.call` does.
- `ExternalMetadataSource.loadMetadata` and the preprocessors (`preProcess`, `Processors`) are not
  part of this model.
- The rendered description text is not modelled: `Picture.java` is not part of this model. A
  picture records the user its template was last rendered for.
- `Picture.equals` is taken as object identity, which affects `pictures.remove` and task equality.
  `Picture.java` is not part of this model.
- EXIF parsing, the tag descriptor and the bean classes are oracles. The `DynaProperty` list built
  in `copy` has no effect on the stored map, so it is left out.
- A missing thumbnail directory makes the reader throw a `NullPointerException`, which is not
  modelled; the reader is assumed to find the thumbnail directory. In the source that exception
  escapes the two `catch` clauses, so the latch is never counted down for that file and
  `readFiles` waits forever.
- The `MWApi` HTTP calls are abstracted to the logged-in flag, an oracle per call, and a log of
  the calls made. A failed logout is assumed to leave the API's flag set.
- Logging and the Guice injection wiring are left out.
- Core.CoreImpl.UploadPictures: the consequence of an all-success batch, that a second run submits
  nothing, is not a postcondition. It follows from `AllAcceptedAllPass`, the `BatchSpec` clause and
  the lemma `SecondRunSubmitsNothing`.
