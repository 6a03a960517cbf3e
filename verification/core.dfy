/**
 * The upload orchestrator: the picture list, the selection of pictures still to upload, one upload
 * task per selected picture, the registry of in-flight task handles, the teardown after a batch,
 * and the switch of the active wiki.
 *
 * The worker pool runs each submitted task to completion or cancels it (`TaskFate`), in submission
 * order; the event bus is the append-only `events` log.
 */
module Core {
  import opened Wrappers
  import opened Model
  import opened MediaWiki
  import IngestionBatch
  import Ingestion
  import Lists

  /** The events the orchestrator posts on the bus. */
  datatype Event =
    | PicturesAdded(added: seq<Picture>)
    | PictureRemoved(picture: Picture)
    | UploadStarting(selected: seq<Picture>)
    | TransferStarting(picture: Picture)
    | TransferDone(picture: Picture)
    | TransferFailed(picture: Picture, error: Failure)
    | UploadDone

  /** A future handed back by the pool; futures are distinct objects, told apart here by a serial number. */
  datatype Handle = Handle(serial: nat)

  /** What becomes of one submitted upload task: cancelled before it ran, or run against the session. */
  datatype TaskFate = Cancelled | Runs(oracle: UploadOracle)

  // ---------------------------------------------------------------------------
  // Selecting the pictures to upload
  // ---------------------------------------------------------------------------

  /** `shouldUpload`: every picture not yet uploaded successfully is eligible. */
  predicate ShouldUpload(p: Picture)
    reads p
    ensures ShouldUpload(p) <==> p.state == Pending || p.state == State.FailedUpload
  {
    p.state != UploadedSuccessfully
  }

  /** The eligible pictures, in list order. */
  function ToUpload(ps: seq<Picture>): (r: seq<Picture>)
    reads ps
    ensures |r| <= |ps|
  {
    if ps == [] then [] else (if ShouldUpload(ps[0]) then [ps[0]] else []) + ToUpload(ps[1..])
  }

  /** Exactly the eligible pictures are selected. */
  lemma {:induction false} ToUploadMembers(ps: seq<Picture>)
    ensures forall i :: 0 <= i < |ToUpload(ps)| ==> ToUpload(ps)[i] in ps && ShouldUpload(ToUpload(ps)[i])
    ensures forall i :: 0 <= i < |ps| && ShouldUpload(ps[i]) ==> ps[i] in ToUpload(ps)
  {
    if ps != [] {
      ToUploadMembers(ps[1..]);
      var head := if ShouldUpload(ps[0]) then [ps[0]] else [];
      assert ToUpload(ps) == head + ToUpload(ps[1..]);
      forall i | 0 <= i < |ToUpload(ps)| ensures ToUpload(ps)[i] in ps && ShouldUpload(ToUpload(ps)[i]) {
        if i >= |head| {
          assert ToUpload(ps)[i] == ToUpload(ps[1..])[i - |head|];
        }
      }
      forall i | 0 <= i < |ps| && ShouldUpload(ps[i]) ensures ps[i] in ToUpload(ps) {
        if i > 0 {
          assert ps[i] == ps[1..][i - 1];
        }
      }
    }
  }

  /** Selection works element by element, so it keeps the list order. */
  lemma {:induction false} ToUploadAppend(a: seq<Picture>, b: seq<Picture>)
    ensures ToUpload(a + b) == ToUpload(a) + ToUpload(b)
  {
    if a == [] {
      assert a + b == b;
    } else {
      assert (a + b)[1..] == a[1..] + b;
      ToUploadAppend(a[1..], b);
    }
  }

  /** Number of pictures already uploaded successfully. */
  function UploadedCount(ps: seq<Picture>): (n: nat)
    reads ps
  {
    if ps == [] then 0 else (if ShouldUpload(ps[0]) then 0 else 1) + UploadedCount(ps[1..])
  }

  /** The count of pictures to upload is the list size minus the pictures already uploaded. */
  lemma {:induction false} ToUploadCount(ps: seq<Picture>)
    ensures |ToUpload(ps)| == |ps| - UploadedCount(ps)
  {
    if ps != [] {
      ToUploadCount(ps[1..]);
    }
  }

  /** When every picture is uploaded there is nothing left to select. */
  lemma {:induction false} NothingToUpload(ps: seq<Picture>)
    requires forall i :: 0 <= i < |ps| ==> ps[i].state == UploadedSuccessfully
    ensures ToUpload(ps) == []
  {
    if ps != [] {
      NothingToUpload(ps[1..]);
    }
  }

  /**
   * After a batch in which every selected picture was uploaded, where the pictures left out of it
   * were uploaded already, a second selection finds nothing to upload.
   */
  lemma SecondRunSubmitsNothing(ps: seq<Picture>, selected: seq<Picture>)
    requires forall i :: 0 <= i < |ps| && ps[i] !in selected ==> ps[i].state == UploadedSuccessfully
    requires forall j :: 0 <= j < |selected| ==> selected[j].state == UploadedSuccessfully
    ensures ToUpload(ps) == []
  {
    forall i | 0 <= i < |ps| ensures ps[i].state == UploadedSuccessfully {
      if ps[i] in selected {
        var j :| 0 <= j < |selected| && selected[j] == ps[i];
      }
    }
    NothingToUpload(ps);
  }

  /** When no picture is uploaded yet, every picture is selected. */
  lemma {:induction false} EverythingToUpload(ps: seq<Picture>)
    requires forall i :: 0 <= i < |ps| ==> ps[i].state != UploadedSuccessfully
    ensures ToUpload(ps) == ps
  {
    if ps != [] {
      EverythingToUpload(ps[1..]);
      assert [ps[0]] + ps[1..] == ps;
    }
  }

  /** A list without duplicates selects a list without duplicates. */
  lemma {:induction false} ToUploadDistinct(ps: seq<Picture>)
    requires Lists.Distinct(ps)
    ensures Lists.Distinct(ToUpload(ps))
  {
    if ps != [] {
      var rest := ps[1..];
      assert Lists.Distinct(rest) by {
        forall i, j | 0 <= i < j < |rest| ensures rest[i] != rest[j] {
          assert rest[i] == ps[i + 1] && rest[j] == ps[j + 1];
        }
      }
      ToUploadDistinct(rest);
      ToUploadMembers(rest);
      assert ps[0] !in rest by {
        forall k | 0 <= k < |rest| ensures rest[k] != ps[0] {
          assert rest[k] == ps[k + 1];
        }
      }
    }
  }

  // ---------------------------------------------------------------------------
  // The events of the upload tasks
  // ---------------------------------------------------------------------------

  /** The state a picture ends in after its task: unchanged when cancelled, else by the upload's outcome. */
  function StateAfter(before: State, result: Option<Outcome<Failure>>): (s: State)
    ensures result.None? ==> s == before
    ensures result.Some? ==> (s == UploadedSuccessfully <==> result.value.Pass?)
    ensures result.Some? ==> (s == State.FailedUpload <==> result.value.Fail?)
  {
    match result
    case None => before
    case Some(Pass) => UploadedSuccessfully
    case Some(Fail(_)) => State.FailedUpload
  }

  /** The events one task posts: none when cancelled, otherwise a start and then exactly one of done or failed. */
  function TaskEvents(p: Picture, result: Option<Outcome<Failure>>): seq<Event>
  {
    match result
    case None => []
    case Some(Pass) => [TransferStarting(p), TransferDone(p)]
    case Some(Fail(e)) => [TransferStarting(p), TransferFailed(p, e)]
  }

  /** A task that ran posts its start event first and then the one event its outcome gives. */
  lemma TaskEventsOrder(p: Picture, result: Option<Outcome<Failure>>)
    ensures result.None? <==> TaskEvents(p, result) == []
    ensures result.Some? ==> |TaskEvents(p, result)| == 2 && TaskEvents(p, result)[0] == TransferStarting(p)
    ensures result == Some(Pass) ==> TaskEvents(p, result)[1] == TransferDone(p)
    ensures result.Some? && result.value.Fail? ==> TaskEvents(p, result)[1] == TransferFailed(p, result.value.error)
  {
  }

  /** The events of the first `|results|` tasks of a batch, in submission order. */
  function TaskLog(ps: seq<Picture>, results: seq<Option<Outcome<Failure>>>): seq<Event>
    requires |results| <= |ps|
  {
    if results == [] then []
    else
      var n := |results| - 1;
      TaskLog(ps, results[..n]) + TaskEvents(ps[n], results[n])
  }

  /** Extending a batch's task log by one more task appends that task's events. */
  lemma TaskLogStep(ps: seq<Picture>, results: seq<Option<Outcome<Failure>>>, r: Option<Outcome<Failure>>)
    requires |results| < |ps|
    ensures TaskLog(ps, results + [r]) == TaskLog(ps, results) + TaskEvents(ps[|results|], r)
  {
    assert (results + [r])[..|results|] == results;
  }

  /**
   * In a batch's task events, picture `ps[i]` has one start event if its task ran and none if it was
   * cancelled, one done event exactly when its upload succeeded, one failed event carrying `e`
   * exactly when it failed with `e`, and no batch-done event appears.
   */
  lemma TaskLogEvents(ps: seq<Picture>, results: seq<Option<Outcome<Failure>>>, i: nat, e: Failure)
    requires |results| <= |ps| && Lists.Distinct(ps) && i < |results|
    ensures Count(TaskLog(ps, results), TransferStarting(ps[i])) == if results[i].Some? then 1 else 0
    ensures Count(TaskLog(ps, results), TransferDone(ps[i])) == if results[i] == Some(Pass) then 1 else 0
    ensures Count(TaskLog(ps, results), TransferFailed(ps[i], e)) == if results[i] == Some(Fail(e)) then 1 else 0
    ensures UploadDone !in TaskLog(ps, results)
  {
    OnlyAbout(ps, i, TransferStarting(ps[i]));
    TaskLogCount(ps, results, i, TransferStarting(ps[i]));
    OnlyAbout(ps, i, TransferDone(ps[i]));
    TaskLogCount(ps, results, i, TransferDone(ps[i]));
    OnlyAbout(ps, i, TransferFailed(ps[i], e));
    TaskLogCount(ps, results, i, TransferFailed(ps[i], e));
    TaskEventsOwn(ps[i], results[i], e);
    TaskLogOthers(ps, results, UploadDone);
    CountZero(TaskLog(ps, results), UploadDone);
  }

  /** A transfer event about `ps[i]` occurs in the batch's task events as often as in that task's own. */
  lemma {:induction false} TaskLogCount(ps: seq<Picture>, results: seq<Option<Outcome<Failure>>>, i: nat, x: Event)
    requires i < |results| <= |ps| && forall j :: 0 <= j < |results| && j != i ==> !About(x, ps[j])
    ensures Count(TaskLog(ps, results), x) == Count(TaskEvents(ps[i], results[i]), x)
  {
    var n := |results| - 1;
    var head := TaskLog(ps, results[..n]);
    var tail := TaskEvents(ps[n], results[n]);
    assert TaskLog(ps, results) == head + tail;
    CountAppend(head, tail, x);
    if i < n {
      TaskLogCount(ps, results[..n], i, x);
      assert results[..n][i] == results[i];
      TaskEventsOther(ps[n], results[n], x);
    } else {
      TaskLogOthers(ps, results[..n], x);
    }
  }

  /** In a list without repetitions, a transfer event about `ps[i]` is about no other entry. */
  lemma OnlyAbout(ps: seq<Picture>, i: nat, x: Event)
    requires Lists.Distinct(ps) && i < |ps| && About(x, ps[i])
    ensures forall j :: 0 <= j < |ps| && j != i ==> !About(x, ps[j])
  {
    forall j | 0 <= j < |ps| && j != i
      ensures !About(x, ps[j])
    {
      if j < i {
        assert ps[j] != ps[i];
      } else {
        assert ps[i] != ps[j];
      }
    }
  }

  /** An event about none of the batch's pictures does not occur in its task events. */
  lemma {:induction false} TaskLogOthers(ps: seq<Picture>, results: seq<Option<Outcome<Failure>>>, x: Event)
    requires |results| <= |ps| && forall j :: 0 <= j < |results| ==> !About(x, ps[j])
    ensures Count(TaskLog(ps, results), x) == 0
  {
    if results != [] {
      var n := |results| - 1;
      var head := TaskLog(ps, results[..n]);
      var tail := TaskEvents(ps[n], results[n]);
      assert TaskLog(ps, results) == head + tail;
      CountAppend(head, tail, x);
      TaskLogOthers(ps, results[..n], x);
      TaskEventsOther(ps[n], results[n], x);
    }
  }

  /** Number of occurrences of `x` in an event log. */
  function Count(log: seq<Event>, x: Event): nat
  {
    if log == [] then 0
    else Count(log[..|log| - 1], x) + if log[|log| - 1] == x then 1 else 0
  }

  /** Occurrences in a concatenated log add up. */
  lemma {:induction false} CountAppend(a: seq<Event>, b: seq<Event>, x: Event)
    ensures Count(a + b, x) == Count(a, x) + Count(b, x)
  {
    if b != [] {
      var n := |b| - 1;
      assert (a + b)[..|a + b| - 1] == a + b[..n];
      CountAppend(a, b[..n], x);
    } else {
      assert a + b == a;
    }
  }

  /** Occurrences in a two-event log. */
  lemma CountPair(log: seq<Event>)
    requires |log| == 2
    ensures forall x :: Count(log, x) == (if log[0] == x then 1 else 0) + (if log[1] == x then 1 else 0)
  {
    forall x ensures Count(log, x) == (if log[0] == x then 1 else 0) + (if log[1] == x then 1 else 0) {
      assert log[..1] == [log[0]] && log[..1][..0] == [];
      assert Count(log[..1], x) == if log[0] == x then 1 else 0;
    }
  }

  /** One task's own events: a start and one outcome when it ran, nothing when cancelled. */
  lemma TaskEventsOwn(p: Picture, result: Option<Outcome<Failure>>, e: Failure)
    ensures Count(TaskEvents(p, result), TransferStarting(p)) == if result.Some? then 1 else 0
    ensures Count(TaskEvents(p, result), TransferDone(p)) == if result == Some(Pass) then 1 else 0
    ensures Count(TaskEvents(p, result), TransferFailed(p, e)) == if result == Some(Fail(e)) then 1 else 0
    ensures UploadDone !in TaskEvents(p, result)
  {
    if result.Some? {
      CountPair(TaskEvents(p, result));
    }
  }

  /** Whether `x` is a transfer event about picture `p`. */
  predicate About(x: Event, p: Picture)
  {
    (x.TransferStarting? || x.TransferDone? || x.TransferFailed?) && x.picture == p
  }

  /** One task's events are all about its own picture. */
  lemma TaskEventsOther(p: Picture, result: Option<Outcome<Failure>>, x: Event)
    requires !About(x, p)
    ensures Count(TaskEvents(p, result), x) == 0
  {
    if result.Some? {
      CountPair(TaskEvents(p, result));
    }
  }

  /** A run's log holds exactly one batch-done event, its last. */
  lemma RunLogOneUploadDone(selected: seq<Picture>, results: seq<Option<Outcome<Failure>>>, before: seq<Event>)
    requires |selected| == |results| && UploadDone !in before
    ensures var log := before + [UploadStarting(selected)] + TaskLog(selected, results) + [UploadDone];
      Count(log, UploadDone) == 1 && log[|log| - 1] == UploadDone
  {
    var tasks := TaskLog(selected, results);
    TaskLogOthers(selected, results, UploadDone);
    CountAbsent(before, UploadDone);
    CountAppend(before, [UploadStarting(selected)], UploadDone);
    CountAppend(before + [UploadStarting(selected)], tasks, UploadDone);
    CountAppend(before + [UploadStarting(selected)] + tasks, [UploadDone], UploadDone);
    assert [UploadStarting(selected)][..0] == [] && [UploadDone][..0] == [];
  }

  /** An event that does not occur has count zero. */
  lemma {:induction false} CountAbsent(log: seq<Event>, x: Event)
    requires x !in log
    ensures Count(log, x) == 0
  {
    if log != [] {
      assert x !in log[..|log| - 1];
      CountAbsent(log[..|log| - 1], x);
    }
  }

  /** An event counted zero times does not occur. */
  lemma {:induction false} CountZero(log: seq<Event>, x: Event)
    requires Count(log, x) == 0
    ensures x !in log
  {
    if log != [] {
      var n := |log| - 1;
      CountZero(log[..n], x);
      assert log == log[..n] + [log[n]];
    }
  }

  /** Handles with consecutive serials starting at `from`. */
  function Handles(from: nat, n: nat): (hs: seq<Handle>)
    ensures |hs| == n
  {
    seq(n, i requires 0 <= i < n => Handle(from + i))
  }

  /** Dropping the first `k` of a run of consecutive handles leaves the run starting `k` later. */
  lemma HandlesDrop(from: nat, n: nat, k: nat)
    requires k <= n
    ensures Handles(from, n)[k..] == Handles(from + k, n - k)
  {
  }

  /** A handle survives `abort` when its cancellation fails. */
  function Survives(cancel: Handle -> bool): Handle -> bool
  {
    h => !cancel(h)
  }

  /** What the first tasks of a batch do to the shared session: their results, their API calls, the flag they leave. */
  datatype BatchStep = BatchStep(results: seq<Option<Outcome<Failure>>>, calls: seq<ApiCall>, loggedIn: bool)

  /**
   * One more task after the earlier ones: a cancelled task has no result and makes no call; a task
   * that runs does one session upload starting from the flag the earlier tasks left.
   */
  function TaskStep(prev: BatchStep, user: User, file: File, f: TaskFate): BatchStep
  {
    match f
    case Cancelled => BatchStep(prev.results + [None], prev.calls, prev.loggedIn)
    case Runs(o) =>
      var s := UploadSpec(prev.loggedIn, user, file, o);
      BatchStep(prev.results + [Some(s.result)], prev.calls + s.calls, s.loggedIn)
  }

  /** The first `k` tasks of a batch over `ps`, run in submission order against one session. */
  function BatchSpec(ps: seq<Picture>, k: nat, loggedIn: bool, user: User, fate: nat -> TaskFate): (b: BatchStep)
    requires k <= |ps|
    ensures |b.results| == k
    decreases k, 1
  {
    if k == 0 then BatchStep([], [], loggedIn) else BatchNext(ps, k, loggedIn, user, fate)
  }

  /** The batch up to task `k`: task `k - 1` run after the first `k - 1`. */
  function BatchNext(ps: seq<Picture>, k: nat, loggedIn: bool, user: User, fate: nat -> TaskFate): (b: BatchStep)
    requires 0 < k <= |ps|
    ensures |b.results| == k
    decreases k, 0
  {
    TaskStep(BatchSpec(ps, k - 1, loggedIn, user, fate), user, ps[k - 1].file, fate(k - 1))
  }

  /** Unfolds one step of a batch. */
  lemma BatchSpecNext(ps: seq<Picture>, k: nat, loggedIn: bool, user: User, fate: nat -> TaskFate)
    requires k < |ps|
    ensures BatchSpec(ps, k + 1, loggedIn, user, fate)
            == TaskStep(BatchSpec(ps, k, loggedIn, user, fate), user, ps[k].file, fate(k))
  {
  }

  /**
   * In a batch, a task has no result exactly when it was cancelled, no task ends with a logout
   * failure, and no task logs out.
   */
  lemma {:induction false} BatchSpecShape(ps: seq<Picture>, k: nat, loggedIn: bool, user: User, fate: nat -> TaskFate)
    requires k <= |ps|
    ensures var b := BatchSpec(ps, k, loggedIn, user, fate);
      && (forall i :: 0 <= i < k ==> (b.results[i].None? <==> fate(i).Cancelled?))
      && (forall i :: 0 <= i < k ==> b.results[i] != Some(Fail(FailedLogout)))
      && ApiLogout !in b.calls
  {
    if k > 0 {
      BatchSpecShape(ps, k - 1, loggedIn, user, fate);
      var prev := BatchSpec(ps, k - 1, loggedIn, user, fate);
      BatchSpecNext(ps, k - 1, loggedIn, user, fate);
      var b := BatchSpec(ps, k, loggedIn, user, fate);
      assert forall i :: 0 <= i < k - 1 ==> b.results[i] == prev.results[i];
    }
  }

  /**
   * When every task runs and the wiki accepts the login, the file opens and the upload succeeds,
   * every task of the batch passes, whether or not the session started logged in.
   */
  lemma {:induction false} AllAcceptedAllPass(ps: seq<Picture>, k: nat, loggedIn: bool, user: User, fate: nat -> TaskFate)
    requires k <= |ps|
    requires forall i :: 0 <= i < k ==>
               fate(i).Runs? && fate(i).oracle.login == LoginAnswered(true) && fate(i).oracle.fileOpens
               && fate(i).oracle.apiUploadOk
    ensures forall i :: 0 <= i < k ==> BatchSpec(ps, k, loggedIn, user, fate).results[i] == Some(Pass)
  {
    if k > 0 {
      AllAcceptedAllPass(ps, k - 1, loggedIn, user, fate);
      var prev := BatchSpec(ps, k - 1, loggedIn, user, fate);
      BatchSpecNext(ps, k - 1, loggedIn, user, fate);
      var b := BatchSpec(ps, k, loggedIn, user, fate);
      assert forall i :: 0 <= i < k - 1 ==> b.results[i] == prev.results[i];
    }
  }

  /** The upload of one picture, run by the pool. */
  class UploadTask {
    const picture: Picture

    constructor (picture: Picture)
      ensures this.picture == picture
    {
      this.picture := picture;
    }

    /**
     * `equals`: null is never equal, another task is equal when it uploads the same picture,
     * and any other object is compared by identity.
     */
    predicate Equals(obj: object?)
      ensures Equals(obj) ==> obj != null
      ensures obj == this ==> Equals(obj)
    {
      if obj == null then false
      else if obj is UploadTask then (obj as UploadTask).picture == picture
      else obj == this
    }

    /**
     * `call`: posts a start event, uploads through the orchestrator's session, and then either marks
     * the picture uploaded and posts a done event, or marks it failed and posts a failed event.
     * No session failure escapes the task.
     */
    method Call(core: CoreImpl, o: UploadOracle) returns (ghost result: Outcome<Failure>)
      modifies picture`state, core`events, core.session`loggedIn, core.session`calls
      ensures var s := UploadSpec(old(core.session.loggedIn), core.session.wiki.user, picture.file, o);
        result == s.result && core.session.loggedIn == s.loggedIn
        && core.session.calls == old(core.session.calls) + s.calls
      ensures result != Fail(FailedLogout)
      ensures picture.state == StateAfter(old(picture.state), Some(result))
      ensures core.events == old(core.events) + TaskEvents(picture, Some(result))
    {
      var session := core.session;
      core.events := core.events + [TransferStarting(picture)];
      var r := session.Upload(picture, o);
      if r.Pass? {
        picture.state := UploadedSuccessfully;
        core.events := core.events + [TransferDone(picture)];
      } else {
        picture.state := State.FailedUpload;
        core.events := core.events + [TransferFailed(picture, r.error)];
      }
      result := r;
    }
  }

  /** Task equality is an equivalence on tasks, and two tasks for one picture are equal. */
  lemma TaskEqualsEquivalence(a: UploadTask, b: UploadTask, c: UploadTask)
    ensures a.Equals(a)
    ensures a.Equals(b) <==> a.picture == b.picture
    ensures a.Equals(b) ==> b.Equals(a)
    ensures a.Equals(b) && b.Equals(c) ==> a.Equals(c)
  {
  }

  /** The orchestrator: the picture list, the in-flight registry, the active session and the event log. */
  class CoreImpl {
    var pictures: seq<Picture>
    /** Handles of submitted upload tasks not yet waited for or cancelled. */
    var currentTasks: seq<Handle>
    /** The session to the active wiki. */
    var session: MediaWikiImpl
    /** Everything posted on the event bus, in order. */
    var events: seq<Event>
    /** Number of upload tasks ever submitted; the next handle's serial. */
    var submitted: nat

    ghost predicate Valid()
      reads this`pictures, this`currentTasks, this`submitted
    {
      && Lists.Distinct(pictures)
      && Lists.Distinct(currentTasks)
      && forall i :: 0 <= i < |currentTasks| ==> currentTasks[i].serial < submitted
    }

    /** Builds the session to the active wiki; there must be one. */
    constructor (activeWiki: Option<Wiki>)
      requires activeWiki.Some?
      ensures Valid() && pictures == [] && currentTasks == [] && events == [] && submitted == 0
      ensures fresh(session) && session.wiki == activeWiki.value && !session.loggedIn && session.calls == []
    {
      pictures := [];
      currentTasks := [];
      events := [];
      submitted := 0;
      session := new MediaWikiImpl(activeWiki.value);
    }

    /**
     * `addPictures`: reads the files as one batch, rendered for the user of the active wiki (the
     * wiki of the session), and appends its pictures after the existing ones.
     */
    method AddPictures(files: seq<File>, defaultTemplate: Template, extract: File -> Ingestion.ReadResult)
      returns (ghost added: seq<Picture>)
      requires Valid()
      modifies this`pictures, this`events
      ensures Valid()
      ensures pictures == old(pictures) + added
      ensures |added| == |IngestionBatch.Expected(files, extract, defaultTemplate, session.wiki.user)|
      ensures forall k :: 0 <= k < |added| ==>
                fresh(added[k]) && IngestionBatch.ValueOf(added[k]) == IngestionBatch.Expected(files, extract, defaultTemplate, session.wiki.user)[k]
      ensures events == old(events) + [PicturesAdded(added)]
    {
      var newPictures := IngestionBatch.ReadBatch(files, defaultTemplate, session.wiki.user, extract);
      added := newPictures;
      // The new pictures were allocated by the batch, so none of them is already in the list.
      forall i, k | 0 <= i < |pictures| && 0 <= k < |newPictures| ensures pictures[i] != newPictures[k] {
        assert fresh(newPictures[k]);
      }
      Lists.DistinctAppend(pictures, newPictures);
      pictures := pictures + newPictures;
      events := events + [PicturesAdded(newPictures)];
    }

    /** `removePicture`: drops the first occurrence of the picture from the list. */
    method RemovePicture(picture: Picture)
      requires Valid()
      modifies this`pictures, this`events
      ensures Valid()
      ensures pictures == Lists.RemoveFirst(old(pictures), picture)
      ensures forall p :: p in pictures <==> p in old(pictures) && p != picture
      ensures events == old(events) + [PictureRemoved(picture)]
    {
      Lists.RemoveFirstDistinct(pictures, picture);
      pictures := Lists.RemoveFirst(pictures, picture);
      events := events + [PictureRemoved(picture)];
    }

    /** `filterPicturesToBeUploaded`: the pictures not yet uploaded successfully, in list order. */
    method FilterPicturesToBeUploaded() returns (selected: seq<Picture>)
      ensures selected == ToUpload(pictures)
      ensures forall i :: 0 <= i < |selected| ==> selected[i] in pictures
      ensures forall i :: 0 <= i < |pictures| ==> (pictures[i] in selected <==> ShouldUpload(pictures[i]))
    {
      selected := [];
      for i := 0 to |pictures|
        invariant selected == ToUpload(pictures[..i])
      {
        ToUploadAppend(pictures[..i], [pictures[i]]);
        assert pictures[..i + 1] == pictures[..i] + [pictures[i]];
        if ShouldUpload(pictures[i]) {
          selected := selected + [pictures[i]];
        }
      }
      assert pictures[..|pictures|] == pictures;
      ToUploadMembers(pictures);
      forall i | 0 <= i < |pictures| && pictures[i] in selected ensures ShouldUpload(pictures[i]) {
        var j :| 0 <= j < |selected| && selected[j] == pictures[i];
      }
    }

    /** `countPicturesToBeUploaded`: the list size minus the pictures already uploaded. */
    method CountPicturesToBeUploaded() returns (n: nat)
      ensures n == |ToUpload(pictures)| && n == |pictures| - UploadedCount(pictures)
    {
      var selected := FilterPicturesToBeUploaded();
      n := |selected|;
      ToUploadCount(pictures);
    }

    /**
     * One submitted task as the pool handles it: cancelled before it starts (no result, nothing
     * happens), or run to completion against the session.
     */
    method RunTask(p: Picture, f: TaskFate) returns (ghost result: Option<Outcome<Failure>>, ghost added: seq<ApiCall>)
      modifies p`state, this`events, session`loggedIn, session`calls
      ensures result.None? <==> f.Cancelled?
      ensures p.state == StateAfter(old(p.state), result)
      ensures events == old(events) + TaskEvents(p, result)
      ensures session.calls == old(session.calls) + added && ApiLogout !in added
      ensures f.Cancelled? ==> session.loggedIn == old(session.loggedIn) && added == []
      ensures f.Runs? ==>
        var s := UploadSpec(old(session.loggedIn), session.wiki.user, p.file, f.oracle);
        result == Some(s.result) && added == s.calls && session.loggedIn == s.loggedIn
    {
      var task := new UploadTask(p);
      match f {
        case Cancelled =>
          result, added := None, [];
        case Runs(o) =>
          ghost var before := session.calls;
          var r := task.Call(this, o);
          result, added := Some(r), session.calls[|before|..];
      }
    }

    /**
     * Runs the task of `selected[i]` after the first `i` tasks of the batch; the other selected
     * pictures keep their states.
     */
    method RunSelected(selected: seq<Picture>, i: nat, fate: nat -> TaskFate, ghost start: bool)
      returns (ghost result: Option<Outcome<Failure>>, ghost added: seq<ApiCall>)
      requires Lists.Distinct(selected) && i < |selected|
      modifies selected`state, this`events, session`loggedIn, session`calls
      ensures result.None? <==> fate(i).Cancelled?
      ensures forall j :: 0 <= j < |selected| ==>
                selected[j].state == if j == i then StateAfter(old(selected[j].state), result) else old(selected[j].state)
      ensures events == old(events) + TaskEvents(selected[i], result)
      ensures session.calls == old(session.calls) + added && ApiLogout !in added
      ensures var prev := BatchSpec(selected, i, start, session.wiki.user, fate);
        prev.loggedIn == old(session.loggedIn) ==>
        BatchSpec(selected, i + 1, start, session.wiki.user, fate)
        == BatchStep(prev.results + [result], prev.calls + added, session.loggedIn)
    {
      result, added := RunTask(selected[i], fate(i));
      BatchSpecNext(selected, i, start, session.wiki.user, fate);
      forall j | 0 <= j < |selected| && j != i
        ensures selected[j].state == old(selected[j].state)
      {
        assert selected[j] != selected[i];
      }
    }

    /** The submission loop of `uploadPictures`: one fresh handle per selected picture, registered in order. */
    method SubmitTasks(count: nat) returns (tasks: seq<Handle>)
      requires Valid()
      modifies this`submitted, this`currentTasks
      ensures Valid()
      ensures tasks == Handles(old(submitted), count) && submitted == old(submitted) + count
      ensures currentTasks == old(currentTasks) + tasks
    {
      tasks := [];
      for i := 0 to count
        invariant tasks == Handles(old(submitted), i) && submitted == old(submitted) + i
        invariant currentTasks == old(currentTasks) + tasks && Valid()
      {
        var handle := Handle(submitted);
        assert handle !in currentTasks by {
          forall k | 0 <= k < |currentTasks| ensures currentTasks[k] != handle {
            assert currentTasks[k].serial < submitted;
          }
        }
        Lists.AppendAssoc(old(currentTasks), tasks, [handle]);
        tasks := tasks + [handle];
        currentTasks := currentTasks + [handle];
        submitted := submitted + 1;
        assert Lists.Distinct(currentTasks) by {
          Lists.DistinctAppend(currentTasks[..|currentTasks| - 1], [handle]);
          assert currentTasks[..|currentTasks| - 1] + [handle] == currentTasks;
        }
      }
    }

    /**
     * The pool working through the submitted tasks in submission order: each one is cancelled
     * before it starts or runs to completion against the shared session.
     */
    /**
     * One turn of the pool: given the effect of the first `i` tasks, runs task `i` and gives the
     * effect of the first `i + 1`.
     */
    method RunNext(selected: seq<Picture>, i: nat, fate: nat -> TaskFate, ghost start: bool, ghost before: seq<State>,
                   ghost log: seq<Event>, ghost calls: seq<ApiCall>, ghost spec: BatchStep)
      returns (ghost next: BatchStep)
      requires Lists.Distinct(selected) && i < |selected| && |before| == |selected|
      requires spec == BatchSpec(selected, i, start, session.wiki.user, fate) && session.loggedIn == spec.loggedIn
      requires forall j :: 0 <= j < |selected| ==>
                 selected[j].state == if j < i then StateAfter(before[j], spec.results[j]) else before[j]
      requires events == log + TaskLog(selected, spec.results)
      requires session.calls == calls + spec.calls
      modifies selected`state, this`events, session`loggedIn, session`calls
      ensures next == BatchSpec(selected, i + 1, start, session.wiki.user, fate) && session.loggedIn == next.loggedIn
      ensures forall j :: 0 <= j < |selected| ==>
                selected[j].state == if j < i + 1 then StateAfter(before[j], next.results[j]) else before[j]
      ensures events == log + TaskLog(selected, next.results)
      ensures session.calls == calls + next.calls
    {
      var result, added := RunSelected(selected, i, fate, start);
      TaskLogStep(selected, spec.results, result);
      Lists.AppendAssoc(log, TaskLog(selected, spec.results), TaskEvents(selected[i], result));
      Lists.AppendAssoc(calls, spec.calls, added);
      next := BatchStep(spec.results + [result], spec.calls + added, session.loggedIn);
    }

    method RunTasks(selected: seq<Picture>, fate: nat -> TaskFate)
      returns (ghost results: seq<Option<Outcome<Failure>>>, ghost taskCalls: seq<ApiCall>)
      requires Lists.Distinct(selected)
      modifies this`events, session`loggedIn, session`calls, selected`state
      ensures |results| == |selected|
      ensures forall i :: 0 <= i < |selected| ==>
                && (results[i].None? <==> fate(i).Cancelled?)
                && selected[i].state == StateAfter(old(selected[i].state), results[i])
      ensures events == old(events) + TaskLog(selected, results)
      ensures session.calls == old(session.calls) + taskCalls && ApiLogout !in taskCalls
      ensures var b := BatchSpec(selected, |selected|, old(session.loggedIn), session.wiki.user, fate);
        results == b.results && taskCalls == b.calls && session.loggedIn == b.loggedIn
    {
      ghost var user := session.wiki.user;
      ghost var before := seq(|selected|, j requires 0 <= j < |selected| reads selected => selected[j].state);
      ghost var spec := BatchStep([], [], session.loggedIn);
      for i := 0 to |selected|
        invariant spec == BatchSpec(selected, i, old(session.loggedIn), user, fate) && session.loggedIn == spec.loggedIn
        invariant forall j :: 0 <= j < |selected| ==>
                    selected[j].state == if j < i then StateAfter(before[j], spec.results[j]) else before[j]
        invariant events == old(events) + TaskLog(selected, spec.results)
        invariant session.calls == old(session.calls) + spec.calls
      {
        spec := RunNext(selected, i, fate, old(session.loggedIn), before, old(events), old(session.calls), spec);
      }
      results, taskCalls := spec.results, spec.calls;
      BatchSpecShape(selected, |selected|, old(session.loggedIn), user, fate);
    }

    /**
     * The wait loop of `uploadPictures`: waits for each submitted handle in order and removes it
     * from the registry however the wait ends; an interrupt during the wait for the handle at
     * `interrupt` stops the loop after that handle's removal.
     */
    method AwaitTasks(ghost registered: seq<Handle>, tasks: seq<Handle>, interrupt: Option<nat>)
      requires Valid() && currentTasks == registered + tasks
      modifies this`currentTasks
      ensures Valid()
      ensures currentTasks == registered +
                if interrupt.Some? && interrupt.value < |tasks| then tasks[interrupt.value + 1..] else []
    {
      Lists.DistinctApart(registered, tasks);
      ghost var all := currentTasks;
      var k := 0;
      var interrupted := false;
      while k < |tasks| && !interrupted
        invariant 0 <= k <= |tasks|
        invariant currentTasks == registered + tasks[k..]
        invariant interrupted ==> k > 0 && interrupt == Some(k - 1)
        invariant !interrupted ==> !(interrupt.Some? && interrupt.value < k)
      {
        if interrupt == Some(k) {
          interrupted := true;
        }
        var task := tasks[k];
        ghost var rest := tasks[k + 1..];
        assert currentTasks == registered + [task] + rest by {
          assert tasks[k..] == [task] + rest;
        }
        Lists.RemoveFirstAfter(registered, task, rest);
        currentTasks := Lists.RemoveFirst(currentTasks, task);
        k := k + 1;
      }
      Lists.DistinctDrop(registered, tasks, k);
      forall i | 0 <= i < |currentTasks| ensures currentTasks[i].serial < submitted {
        if i < |registered| {
          assert currentTasks[i] == all[i];
        } else {
          assert currentTasks[i] == all[i + k];
        }
      }
    }

    /** The teardown of `uploadPictures`: one logout attempt whose failure is dropped, then the batch-done event. */
    method FinishBatch(logoutOk: bool) returns (ghost wasLoggedIn: bool)
      modifies this`events, session`loggedIn, session`calls
      ensures wasLoggedIn == old(session.loggedIn)
      ensures var t := LogoutSpec(wasLoggedIn, logoutOk);
        session.calls == old(session.calls) + t.calls && session.loggedIn == t.loggedIn
      ensures events == old(events) + [UploadDone]
    {
      wasLoggedIn := session.loggedIn;
      var loggedOut := session.Logout(logoutOk);  // a failed logout is logged and dropped
      events := events + [UploadDone];
    }

    /**
     * The first half of `uploadPictures` once the pictures are chosen: announce the batch, submit
     * one task per picture, and let the pool run the tasks.
     */
    method DispatchBatch(chosen: seq<Picture>, fate: nat -> TaskFate)
      returns (handles: seq<Handle>, ghost results: seq<Option<Outcome<Failure>>>, ghost taskCalls: seq<ApiCall>)
      requires Valid() && Lists.Distinct(chosen)
      modifies this`events, this`submitted, this`currentTasks, session`loggedIn, session`calls, chosen`state
      ensures Valid()
      ensures |results| == |chosen|
      ensures forall i :: 0 <= i < |chosen| ==>
                && (results[i].None? <==> fate(i).Cancelled?)
                && chosen[i].state == StateAfter(old(chosen[i].state), results[i])
      ensures events == old(events) + [UploadStarting(chosen)] + TaskLog(chosen, results)
      ensures handles == Handles(old(submitted), |chosen|) && submitted == old(submitted) + |chosen|
      ensures currentTasks == old(currentTasks) + handles
      ensures session.calls == old(session.calls) + taskCalls && ApiLogout !in taskCalls
      ensures var b := BatchSpec(chosen, |chosen|, old(session.loggedIn), session.wiki.user, fate);
        results == b.results && taskCalls == b.calls && session.loggedIn == b.loggedIn
    {
      events := events + [UploadStarting(chosen)];
      handles := SubmitTasks(|chosen|);
      assert session.calls == old(session.calls) && session.loggedIn == old(session.loggedIn);
      ghost var queued, count := currentTasks, submitted;
      results, taskCalls := RunTasks(chosen, fate);
      assert currentTasks == queued && submitted == count;
    }

    /**
     * The second half of `uploadPictures`: wait for the submitted handles, then one logout
     * attempt and the batch-done event.
     */
    method EndBatch(ghost registered: seq<Handle>, tasks: seq<Handle>, interrupt: Option<nat>, logoutOk: bool)
      returns (ghost wasLoggedIn: bool)
      requires Valid() && currentTasks == registered + tasks
      modifies this`currentTasks, this`events, session`loggedIn, session`calls
      ensures Valid()
      ensures currentTasks == registered +
                if interrupt.Some? && interrupt.value < |tasks| then tasks[interrupt.value + 1..] else []
      ensures wasLoggedIn == old(session.loggedIn)
      ensures var t := LogoutSpec(wasLoggedIn, logoutOk);
        session.calls == old(session.calls) + t.calls && session.loggedIn == t.loggedIn
      ensures events == old(events) + [UploadDone]
    {
      AwaitTasks(registered, tasks, interrupt);
      wasLoggedIn := FinishBatch(logoutOk);
    }

    /**
     * The body of `uploadPictures` once the pictures are chosen: announce the batch, submit, let
     * the pool run the tasks, wait for them, and tear down.
     */
    method RunBatch(chosen: seq<Picture>, fate: nat -> TaskFate, interrupt: Option<nat>, logoutOk: bool)
      returns (ghost handles: seq<Handle>, ghost results: seq<Option<Outcome<Failure>>>,
               ghost taskCalls: seq<ApiCall>, ghost loggedInAtTeardown: bool)
      requires Valid() && Lists.Distinct(chosen)
      modifies this`events, this`submitted, this`currentTasks, session`loggedIn, session`calls, chosen`state
      ensures Valid()
      ensures |results| == |chosen|
      ensures forall i :: 0 <= i < |chosen| ==>
                && (results[i].None? <==> fate(i).Cancelled?)
                && chosen[i].state == StateAfter(old(chosen[i].state), results[i])
      ensures events == old(events) + [UploadStarting(chosen)] + TaskLog(chosen, results) + [UploadDone]
      ensures handles == Handles(old(submitted), |chosen|) && submitted == old(submitted) + |chosen|
      ensures forall p: Picture :: old(allocated(p)) && p !in chosen ==> p.state == old(p.state)
      ensures currentTasks == old(currentTasks) +
                if interrupt.Some? && interrupt.value < |handles| then handles[interrupt.value + 1..] else []
      ensures ApiLogout !in taskCalls
      ensures var b := BatchSpec(chosen, |chosen|, old(session.loggedIn), session.wiki.user, fate);
        results == b.results && taskCalls == b.calls && loggedInAtTeardown == b.loggedIn
      ensures var t := LogoutSpec(loggedInAtTeardown, logoutOk);
        session.calls == old(session.calls) + taskCalls + t.calls && session.loggedIn == t.loggedIn
    {
      var tasks;
      tasks, results, taskCalls := DispatchBatch(chosen, fate);
      handles := tasks;
      loggedInAtTeardown := EndBatch(old(currentTasks), tasks, interrupt, logoutOk);
    }

    /**
     * `uploadPictures`: selects the pictures not yet uploaded, submits one task per picture, lets
     * the pool run them, waits for them, then always attempts one logout and posts one batch-done
     * event.
     */
    method UploadPictures(fate: nat -> TaskFate, interrupt: Option<nat>, logoutOk: bool)
      returns (ghost selected: seq<Picture>, ghost handles: seq<Handle>, ghost results: seq<Option<Outcome<Failure>>>,
               ghost taskCalls: seq<ApiCall>, ghost loggedInAtTeardown: bool)
      requires Valid()
      modifies this`events, this`submitted, this`currentTasks, session`loggedIn, session`calls, pictures`state
      ensures Valid()
      ensures selected == old(ToUpload(pictures)) && |results| == |selected|
      ensures forall i :: 0 <= i < |selected| ==> selected[i] in pictures
      ensures forall i :: 0 <= i < |selected| ==>
                && (results[i].None? <==> fate(i).Cancelled?)
                && selected[i].state == StateAfter(old(selected[i].state), results[i])
      ensures forall i :: 0 <= i < |pictures| && pictures[i] !in selected ==>
                old(pictures[i].state) == UploadedSuccessfully && pictures[i].state == UploadedSuccessfully
      ensures events == old(events) + [UploadStarting(selected)] + TaskLog(selected, results) + [UploadDone]
      ensures handles == Handles(old(submitted), |selected|) && submitted == old(submitted) + |selected|
      ensures currentTasks == old(currentTasks) +
                if interrupt.Some? && interrupt.value < |handles| then handles[interrupt.value + 1..] else []
      ensures ApiLogout !in taskCalls
      ensures var b := BatchSpec(selected, |selected|, old(session.loggedIn), session.wiki.user, fate);
        results == b.results && taskCalls == b.calls && loggedInAtTeardown == b.loggedIn
      ensures var t := LogoutSpec(loggedInAtTeardown, logoutOk);
        session.calls == old(session.calls) + taskCalls + t.calls && session.loggedIn == t.loggedIn
    {
      var chosen := FilterPicturesToBeUploaded();
      ToUploadDistinct(pictures);
      selected := chosen;
      assert forall i :: 0 <= i < |pictures| && pictures[i] !in chosen ==> pictures[i].state == UploadedSuccessfully;
      handles, results, taskCalls, loggedInAtTeardown := RunBatch(chosen, fate, interrupt, logoutOk);
      forall i | 0 <= i < |pictures| && pictures[i] !in selected
        ensures old(pictures[i].state) == UploadedSuccessfully && pictures[i].state == UploadedSuccessfully
      {
        assert old(allocated(pictures[i]));
      }
    }

    /** `abort`: cancels every registered task; a handle whose cancellation succeeds leaves the registry. */
    method Abort(cancel: Handle -> bool)
      requires Valid()
      modifies this`currentTasks
      ensures Valid()
      ensures currentTasks == Lists.Keep(old(currentTasks), Survives(cancel))
    {
      var snapshot := currentTasks;
      for i := 0 to |snapshot|
        invariant currentTasks == Lists.Keep(snapshot[..i], Survives(cancel)) + snapshot[i..]
      {
        var task := snapshot[i];
        Lists.KeepStep(snapshot, i, Survives(cancel));
        if cancel(task) {
          currentTasks := Lists.RemoveFirst(currentTasks, task);
        }
      }
      assert snapshot[..|snapshot|] == snapshot;
      Lists.KeepDistinct(snapshot, Survives(cancel));
      var bound := submitted;
      Lists.KeepPreserves(snapshot, Survives(cancel), (h: Handle) => h.serial < bound);
    }

    /**
     * `handleActiveWikiChangeEvent`: logs out of the current session if it is logged in (a failed
     * logout is dropped), switches to a new session for the new wiki, and re-renders every picture
     * for the new wiki's user without touching upload states.
     */
    method HandleActiveWikiChange(newWiki: Wiki, logoutOk: bool)
      requires Valid()
      modifies this, session, pictures
      ensures Valid()
      ensures var t := LogoutSpec(old(session.loggedIn), logoutOk);
        old(session).calls == old(session.calls) + t.calls && old(session).loggedIn == t.loggedIn
      ensures fresh(session) && session.wiki == newWiki && !session.loggedIn && session.calls == []
      ensures pictures == old(pictures) && events == old(events)
      ensures currentTasks == old(currentTasks) && submitted == old(submitted)
      ensures forall i :: 0 <= i < |pictures| ==>
                pictures[i].rendering == RenderedFor(newWiki.user) && pictures[i].state == old(pictures[i].state)
    {
      if session.IsLoggedIn() {
        var loggedOut := session.Logout(logoutOk);  // a failed logout is logged and dropped
      }
      session := new MediaWikiImpl(newWiki);
      var ps := pictures;
      for i := 0 to |ps|
        modifies ps
        invariant forall j :: 0 <= j < i ==> ps[j].rendering == RenderedFor(newWiki.user)
        invariant forall j :: 0 <= j < |ps| ==> ps[j].state == old(ps[j].state)
      {
        ps[i].RenderTemplate(newWiki.user);
      }
    }
  }
}
