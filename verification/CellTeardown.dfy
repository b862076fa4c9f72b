/** Deleting a cell that is no longer in the spec: a fixed order of deletions that
    removes the NovaCell, the record of what there is to delete, last. */
module CellTeardown {

  datatype Obj =
    | CellSecret | ConfigSecret | ScriptSecret | TransportURL
    | AccountSecret | Account | Database | NovaCellCR

  /** How one API call turns out.  `Vanished`: somebody else deleted the object first. */
  datatype Reply = Succeeds | FailsBefore | FailsAfter | Vanished

  datatype Error = NoError | NotFound | Other

  /** `linked` are the objects that carry the operator's finalizer: deleting them
      only marks them.  `script` decides how the calls to come turn out; when it is
      used up they succeed. */
  datatype World = World(objects: set<Obj>, linked: set<Obj>, script: seq<Reply>) {
    function Next(): Reply { if script == [] then Succeeds else script[0] }
    function Rest(): seq<Reply> { if script == [] then [] else script[1..] }
  }

  datatype Step = Delete(o: Obj) | Unlink(o: Obj)

  /** The API server's side of one call. */
  function Exec(w: World, step: Step): (World, Error) {
    var w' := w.(script := w.Rest());
    match step
    case Delete(o) =>
      var removed := if o in w.linked then w.objects else w.objects - {o};
      match w.Next() {
        case Succeeds => (w'.(objects := removed), if o in w.objects then NoError else NotFound)
        case FailsBefore => (w', Other)
        case FailsAfter => (w'.(objects := removed), Other)
        case Vanished => (w'.(objects := w.objects - {o}, linked := w.linked - {o}), NotFound)
      }
    case Unlink(o) =>
      match w.Next() {
        case FailsBefore => (w', Other)
        case FailsAfter => (w'.(linked := w.linked - {o}), Other)
        case _ => (w'.(linked := w.linked - {o}), NoError)
      }
  }

  /** Run the steps until one fails; that an object is not there is no failure. */
  function RunSteps(w: World, steps: seq<Step>): (World, bool)
    decreases |steps|
  {
    if steps == [] then (w, true)
    else
      var (w', err) := Exec(w, steps[0]);
      if err.Other? then (w', false) else RunSteps(w', steps[1..])
  }

  /** Reading an object. */
  function Read(w: World, o: Obj): (World, Error) {
    (w.(script := w.Rest()),
     if w.Next() in {FailsBefore, FailsAfter} then Other else if o in w.objects then NoError else NotFound)
  }

  datatype Job = JobFailed | JobRunning | JobFinished

  datatype Status = InProgress | Failed | Complete

  /** Whom the NovaCell and its account belong to. */
  datatype Owned = Owned(cell: bool, account: bool)

  const CLEANUP := [Delete(CellSecret), Delete(ConfigSecret), Delete(ScriptSecret), Delete(TransportURL),
                    Unlink(Database), Unlink(Account)]

  function AccountSteps(w: World, owned: Owned): (World, bool) {
    var (w', err) := Read(w, Account);
    if err.Other? then (w', false)
    else if err.NotFound? || !owned.account then (w', true)
    else RunSteps(w', [Delete(AccountSecret), Delete(Account)])
  }

  /** Everything up to, and not including, the deletion of the record. */
  function CleanUp(w: World, owned: Owned): (World, bool) {
    var (w1, ok1) := RunSteps(w, CLEANUP);
    if !ok1 then (w1, false) else
    var (w2, ok2) := AccountSteps(w1, owned);
    if !ok2 then (w2, false) else RunSteps(w2, [Delete(Database)])
  }

  /** The deletion of the record reports what it should not and the reverse: only
      "not found" counts as a failure. */
  function DropRecord(w: World): (World, Status, bool) {
    var (w', err) := Exec(w, Delete(NovaCellCR));
    if err.NotFound? then (w', Failed, true) else (w', Complete, false)
  }

  /** One attempt: new world, status, and whether an error is returned. */
  function Teardown(w: World, owned: Owned, prepared: bool, job: Job): (World, Status, bool) {
    var (w0, err) := Read(w, NovaCellCR);
    if err.NotFound? then (w0, Complete, false)
    else if err.Other? then (w0, Failed, true)
    else if !owned.cell then (w0, Complete, false)
    else if !prepared || job.JobFailed? then (w0, Failed, true)
    else if job.JobRunning? then (w0, InProgress, false)
    else
      var (w1, ok) := CleanUp(w0, owned);
      if !ok then (w1, Failed, true) else DropRecord(w1)
  }

  // ---- the code -------------------------------------------------------------

  class Cluster {
    var world: World

    constructor (world: World)
      ensures this.world == world
    {
      this.world := world;
    }

    method Get(o: Obj) returns (err: Error)
      modifies this
      ensures (world, err) == Read(old(world), o)
    {
      var (w, e) := Read(world, o);
      world, err := w, e;
    }

    method Do(step: Step) returns (err: Error)
      modifies this
      ensures (world, err) == Exec(old(world), step)
    {
      var (w, e) := Exec(world, step);
      world, err := w, e;
    }

    method EnsureAccountDeletedIfOwned(owned: Owned) returns (ok: bool)
      modifies this
      ensures (world, ok) == AccountSteps(old(world), owned)
    {
      var err := Get(Account);
      if err.Other? { return false; }
      if err.NotFound? { return true; }
      if !owned.account { return true; }
      ghost var w := world;
      ghost var steps := [Delete(AccountSecret), Delete(Account)];
      assert steps[1..] == [Delete(Account)] && steps[1..][1..] == [];
      err := Do(Delete(AccountSecret));
      if err.Other? { return false; }
      assert RunSteps(w, steps) == RunSteps(world, steps[1..]);
      err := Do(Delete(Account));
      return !err.Other?;
    }

    /** The deletions of the cleanup one after another. */
    method RunCleanup() returns (ok: bool)
      modifies this
      ensures (world, ok) == RunSteps(old(world), CLEANUP)
    {
      var err := Do(Delete(CellSecret));
      if err.Other? { return false; }
      assert RunSteps(old(world), CLEANUP) == RunSteps(world, CLEANUP[1..]);
      err := Do(Delete(ConfigSecret));
      if err.Other? { return false; }
      assert RunSteps(old(world), CLEANUP) == RunSteps(world, CLEANUP[2..]);
      err := Do(Delete(ScriptSecret));
      if err.Other? { return false; }
      assert RunSteps(old(world), CLEANUP) == RunSteps(world, CLEANUP[3..]);
      err := Do(Delete(TransportURL));
      if err.Other? { return false; }
      assert RunSteps(old(world), CLEANUP) == RunSteps(world, CLEANUP[4..]);
      err := Do(Unlink(Database));
      if err.Other? { return false; }
      assert RunSteps(old(world), CLEANUP) == RunSteps(world, CLEANUP[5..]);
      err := Do(Unlink(Account));
      if err.Other? { return false; }
      return true;
    }

    method EnsureCellDeleted(owned: Owned, prepared: bool, job: Job) returns (status: Status, failed: bool)
      modifies this
      ensures (world, status, failed) == Teardown(old(world), owned, prepared, job)
    {
      var err := Get(NovaCellCR);
      if err.NotFound? { return Complete, false; }
      if err.Other? { return Failed, true; }
      if !owned.cell { return Complete, false; }
      if !prepared || job.JobFailed? { return Failed, true; }
      if job.JobRunning? { return InProgress, false; }
      var ok := RunCleanup();
      if !ok { return Failed, true; }
      ok := EnsureAccountDeletedIfOwned(owned);
      if !ok { return Failed, true; }
      ghost var w := world;
      assert [Delete(Database)][1..] == [];
      err := Do(Delete(Database));
      if err.Other? { return Failed, true; }
      assert RunSteps(w, [Delete(Database)]) == (world, true);
      err := Do(Delete(NovaCellCR));
      if !err.NoError? && err.NotFound? { return Failed, true; }
      return Complete, false;
    }
  }

  // ---- what holds of it -----------------------------------------------------

  /** What the cell leaves behind, apart from its record. */
  function Mine(owned: Owned): set<Obj> {
    {CellSecret, ConfigSecret, ScriptSecret, TransportURL, Database} +
    if owned.account then {AccountSecret, Account} else {}
  }

  /** The record outlives what it records, and the account outlives its secret, whose
      name only the account tells. */
  predicate Recorded(w: World, owned: Owned)
  {
    && (NovaCellCR !in w.objects ==> w.objects !! Mine(owned))
    && (owned.account && Account !in w.objects ==> AccountSecret !in w.objects)
    && w.linked <= {Database, Account}
  }

  predicate Shrinks(w: World, w': World)
  {
    w'.objects <= w.objects && w'.linked <= w.linked
  }

  /** What a run of steps does: nothing but its deletions, all of them if it ends. */
  lemma {:induction false} RunStepsDo(w: World, steps: seq<Step>)
    ensures var (w', ok) := RunSteps(w, steps);
            && Shrinks(w, w')
            && (forall o :: o in w.objects - w'.objects ==> Delete(o) in steps)
            && (ok ==> forall o :: Unlink(o) in steps ==> o !in w'.linked)
            && (ok ==> forall o :: Delete(o) in steps && o !in w.linked ==> o !in w'.objects)
    decreases |steps|
  {
    if steps != [] {
      var (w1, err) := Exec(w, steps[0]);
      RunStepsDo(w1, steps[1..]);
      assert steps == [steps[0]] + steps[1..];
    }
  }

  lemma AccountStepsDo(w: World, owned: Owned)
    requires w.linked == {} && Recorded(w, owned) && NovaCellCR in w.objects
    ensures var (w', ok) := AccountSteps(w, owned);
            && Shrinks(w, w') && Recorded(w', owned)
            && w.objects - w'.objects <= {Account, AccountSecret}
            && (ok && owned.account ==> w'.objects !! {Account, AccountSecret})
  {
    var (w1, err) := Read(w, Account);
    if !err.Other? && !err.NotFound? && owned.account {
      var steps := [Delete(AccountSecret), Delete(Account)];
      RunStepsDo(w1, steps);
      var (w2, err2) := Exec(w1, steps[0]);
      assert steps[1..] == [Delete(Account)];
      RunStepsDo(w2, steps[1..]);
      assert Delete(AccountSecret) in steps && Delete(Account) in steps;
    }
  }

  lemma RecordedSurvives(w: World, w': World, owned: Owned)
    requires Recorded(w, owned) && Shrinks(w, w') && NovaCellCR in w'.objects
    requires w.objects - w'.objects !! {Account, AccountSecret}
    ensures Recorded(w', owned)
  {
  }

  lemma PartDoes(w: World, steps: seq<Step>, owned: Owned, deleted: set<Obj>, unlinked: set<Obj>)
    requires Recorded(w, owned) && NovaCellCR in w.objects
    requires forall o :: Delete(o) in steps <==> o in deleted
    requires forall o :: Unlink(o) in steps <==> o in unlinked
    requires deleted !! {Account, AccountSecret, NovaCellCR} + w.linked
    ensures var (w', ok) := RunSteps(w, steps);
            && Shrinks(w, w') && Recorded(w', owned) && NovaCellCR in w'.objects
            && (ok ==> w'.linked !! unlinked && w'.objects !! deleted)
  {
    var (w', ok) := RunSteps(w, steps);
    RunStepsDo(w, steps);
    RecordedSurvives(w, w', owned);
  }

  lemma FirstPart(w: World, owned: Owned)
    requires Recorded(w, owned) && NovaCellCR in w.objects
    ensures var (w', ok) := RunSteps(w, CLEANUP);
            && Shrinks(w, w') && Recorded(w', owned) && NovaCellCR in w'.objects
            && (ok ==> w'.linked == {} && w'.objects !! {CellSecret, ConfigSecret, ScriptSecret, TransportURL})
  {
    assert Unlink(Database) in CLEANUP && Unlink(Account) in CLEANUP;
    PartDoes(w, CLEANUP, owned, {CellSecret, ConfigSecret, ScriptSecret, TransportURL}, {Database, Account});
  }

  lemma LastPart(w: World, owned: Owned)
    requires Recorded(w, owned) && NovaCellCR in w.objects && w.linked == {}
    ensures var (w', ok) := RunSteps(w, [Delete(Database)]);
            && Shrinks(w, w') && Recorded(w', owned) && NovaCellCR in w'.objects
            && (ok ==> Database !in w'.objects)
  {
  }

  lemma AfterFirstPart(w: World, owned: Owned)
    requires Recorded(w, owned) && NovaCellCR in w.objects
    requires w.linked == {} && w.objects !! {CellSecret, ConfigSecret, ScriptSecret, TransportURL}
    ensures var (w1, ok1) := AccountSteps(w, owned);
            var (w2, ok2) := if ok1 then RunSteps(w1, [Delete(Database)]) else (w1, false);
            && Shrinks(w, w2) && Recorded(w2, owned) && NovaCellCR in w2.objects
            && (ok2 ==> w2.objects !! Mine(owned))
  {
    AccountStepsDo(w, owned);
    var (w1, ok1) := AccountSteps(w, owned);
    if ok1 { LastPart(w1, owned); }
  }

  lemma CleanUpDoes(w: World, owned: Owned)
    requires Recorded(w, owned) && NovaCellCR in w.objects
    ensures var (w', ok) := CleanUp(w, owned);
            && Shrinks(w, w') && Recorded(w', owned)
            && NovaCellCR in w'.objects
            && (ok ==> w'.objects !! Mine(owned))
  {
    FirstPart(w, owned);
    var (w1, ok1) := RunSteps(w, CLEANUP);
    if ok1 { AfterFirstPart(w1, owned); }
  }

  /** Each attempt, whatever fails in it, only removes and keeps the record to the end. */
  lemma AttemptKeepsRecord(w: World, owned: Owned, prepared: bool, job: Job)
    requires Recorded(w, owned)
    ensures var (w', status, failed) := Teardown(w, owned, prepared, job);
            Shrinks(w, w') && Recorded(w', owned) && (failed <==> status.Failed?)
  {
    var (w0, err) := Read(w, NovaCellCR);
    if err.NoError? && owned.cell && prepared && job.JobFinished? {
      CleanUpDoes(w0, owned);
      var (w1, ok) := CleanUp(w0, owned);
      if ok { DropRecordKeeps(w1, owned); }
    }
  }

  lemma DropRecordKeeps(w: World, owned: Owned)
    requires Recorded(w, owned) && w.objects !! Mine(owned)
    ensures var (w', status, failed) := DropRecord(w);
            Shrinks(w, w') && Recorded(w', owned) && (failed <==> status.Failed?)
  {
  }

  // ---- the answer, by the replies of the server ------------------------------

  /** The reply to the `i`-th call from now on. */
  function ReplyTo(w: World, i: nat): Reply {
    if i < |w.script| then w.script[i] else Succeeds
  }

  predicate Refused(reply: Reply) { reply in {FailsBefore, FailsAfter} }

  /** The next `n` calls lead from `w` to `w'`, and get through iff none is refused. */
  ghost predicate Through(w: World, w': World, ok: bool, n: nat) {
    && (ok <==> forall i: nat :: i < n ==> !Refused(ReplyTo(w, i)))
    && (ok ==> forall i: nat :: ReplyTo(w', i) == ReplyTo(w, n + i))
  }

  lemma ThroughJoin(w: World, w1: World, w2: World, ok: bool, m: nat, n: nat)
    requires Through(w, w1, true, m) && Through(w1, w2, ok, n)
    ensures Through(w, w2, ok, m + n)
  {
    forall i: nat | m <= i ensures ReplyTo(w, i) == ReplyTo(w1, i - m) { assert ReplyTo(w1, i - m) == ReplyTo(w, m + (i - m)); }
    if !ok {
      var i: nat :| i < n && Refused(ReplyTo(w1, i));
      assert Refused(ReplyTo(w, m + i));
    }
  }

  lemma ThroughStops(w: World, w': World, m: nat, n: nat)
    requires Through(w, w', false, m) && m <= n
    ensures Through(w, w', false, n)
  {
  }

  /** A run of steps gets through iff none of its calls is refused, whatever is or is
      not there to be deleted. */
  lemma {:induction false} RunStepsReplies(w: World, steps: seq<Step>)
    ensures var (w', ok) := RunSteps(w, steps); Through(w, w', ok, |steps|)
    decreases |steps|
  {
    if steps != [] {
      var (w1, err) := Exec(w, steps[0]);
      assert Refused(ReplyTo(w, 0)) <==> err.Other?;
      if !err.Other? {
        RunStepsReplies(w1, steps[1..]);
        var (w', ok) := RunSteps(w1, steps[1..]);
        assert Through(w, w1, true, 1);
        ThroughJoin(w, w1, w', ok, 1, |steps| - 1);
      }
    }
  }

  lemma ReadReplies(w: World, o: Obj)
    ensures var (w', err) := Read(w, o);
            Through(w, w', !err.Other?, 1) && (!err.Other? ==> (err.NoError? <==> o in w.objects)) && w'.objects == w.objects
  {
    assert Refused(ReplyTo(w, 0)) <==> Read(w, o).1.Other?;
  }

  lemma AccountReplies(w: World, owned: Owned)
    ensures var (w', ok) := AccountSteps(w, owned);
            Through(w, w', ok, if Account in w.objects && owned.account then 3 else 1)
  {
    var steps := [Delete(AccountSecret), Delete(Account)];
    ReadReplies(w, Account);
    var (w1, err) := Read(w, Account);
    RunStepsReplies(w1, steps);
    if err.Other? {
      ThroughStops(w, w1, 1, 3);
    } else if Account in w.objects && owned.account {
      ThroughJoin(w, w1, RunSteps(w1, steps).0, RunSteps(w1, steps).1, 1, 2);
    }
  }

  /** How many calls the cleanup takes. */
  function Calls(w: World, owned: Owned): nat {
    if Account in w.objects && owned.account then 10 else 8
  }

  /** The cleanup from the account on. */
  function CleanUpRest(w: World, owned: Owned): (World, bool) {
    var (w', ok) := AccountSteps(w, owned);
    if !ok then (w', false) else RunSteps(w', [Delete(Database)])
  }

  lemma RestReplies(w: World, owned: Owned)
    ensures var (w', ok) := CleanUpRest(w, owned);
            Through(w, w', ok, if Account in w.objects && owned.account then 4 else 2)
  {
    var n := if Account in w.objects && owned.account then 3 else 1;
    AccountReplies(w, owned);
    var (w1, ok1) := AccountSteps(w, owned);
    if ok1 {
      RunStepsReplies(w1, [Delete(Database)]);
      var (w2, ok2) := RunSteps(w1, [Delete(Database)]);
      ThroughJoin(w, w1, w2, ok2, n, 1);
    } else {
      ThroughStops(w, w1, n, n + 1);
    }
  }

  /** Steps that do not delete an object leave it. */
  lemma {:induction false} RunStepsSpare(w: World, steps: seq<Step>, o: Obj)
    requires Delete(o) !in steps
    ensures o in RunSteps(w, steps).0.objects <==> o in w.objects
    decreases |steps|
  {
    if steps != [] {
      assert steps[0] != Delete(o) && Delete(o) !in steps[1..];
      RunStepsSpare(Exec(w, steps[0]).0, steps[1..], o);
    }
  }

  lemma CleanUpKeepsRecord(w: World, owned: Owned)
    ensures NovaCellCR in CleanUp(w, owned).0.objects <==> NovaCellCR in w.objects
  {
    RunStepsSpare(w, CLEANUP, NovaCellCR);
    var (w1, ok1) := RunSteps(w, CLEANUP);
    RunStepsSpare(Read(w1, Account).0, [Delete(AccountSecret), Delete(Account)], NovaCellCR);
    RunStepsSpare(AccountSteps(w1, owned).0, [Delete(Database)], NovaCellCR);
  }

  lemma CleanUpReplies(w: World, owned: Owned)
    ensures var (w', ok) := CleanUp(w, owned); Through(w, w', ok, Calls(w, owned))
  {
    RunStepsSpare(w, CLEANUP, Account);
    RunStepsReplies(w, CLEANUP);
    var (w1, ok1) := RunSteps(w, CLEANUP);
    if ok1 {
      var (w2, ok2) := CleanUpRest(w1, owned);
      RestReplies(w1, owned);
      ThroughJoin(w, w1, w2, ok2, 6, Calls(w, owned) - 6);
    } else {
      ThroughStops(w, w1, 6, Calls(w, owned));
    }
  }

  /** What each attempt answers.  It is in progress iff the cell is there, ours, and its
      job prepared and running.  It has failed iff the first read or a call of the cleanup
      was refused, the job or its preparation failed, or the record went missing under
      it. */
  lemma StatusExactly(w: World, owned: Owned, prepared: bool, job: Job)
    ensures var (w', status, failed) := Teardown(w, owned, prepared, job);
            var n := if Account in w.objects && owned.account then 10 else 8;
            var there := !Refused(ReplyTo(w, 0)) && NovaCellCR in w.objects && owned.cell;
            && (failed <==> status.Failed?)
            && (status.InProgress? <==> there && prepared && job.JobRunning?)
            && (status.Failed? <==>
                 || ReplyTo(w, 0) in {FailsBefore, FailsAfter}
                 || (there && (!prepared || job.JobFailed?))
                 || (there && prepared && job.JobFinished? &&
                      ((exists i: nat :: 1 <= i <= n && ReplyTo(w, i) in {FailsBefore, FailsAfter}) ||
                       ReplyTo(w, n + 1).Vanished?)))
  {
    ReadReplies(w, NovaCellCR);
    var (w0, err) := Read(w, NovaCellCR);
    if err.NoError? && owned.cell && prepared && job.JobFinished? {
      var n := Calls(w, owned);
      CleanUpReplies(w0, owned);
      CleanUpKeepsRecord(w0, owned);
      var (w1, ok) := CleanUp(w0, owned);
      ThroughJoin(w, w0, w1, ok, 1, n);
      assert ok ==> ReplyTo(w1, 0) == ReplyTo(w, n + 1 + 0);
    }
  }

  /** The order in which the objects go. */
  function Rank(o: Obj): nat {
    match o
    case CellSecret => 0
    case ConfigSecret => 1
    case ScriptSecret => 2
    case TransportURL => 3
    case AccountSecret => 4
    case Account => 5
    case Database => 6
    case NovaCellCR => 7
  }

  lemma {:induction false} RunStepsInOrder(w: World, steps: seq<Step>, i: nat, j: nat)
    requires i < j < |steps| && steps[i].Delete? && steps[j].Delete? && steps[i].o !in w.linked
    requires forall k :: 0 <= k < j ==> steps[k] != steps[j]
    requires steps[j].o in w.objects - RunSteps(w, steps).0.objects
    ensures steps[i].o !in RunSteps(w, steps).0.objects
    decreases |steps|
  {
    var w1 := Exec(w, steps[0]).0;
    RunStepsDo(w1, steps[1..]);
    if 0 < i {
      assert steps[j].o in w1.objects;
      assert forall k :: 0 <= k < j - 1 ==> steps[1..][k] != steps[1..][j - 1];
      RunStepsInOrder(w1, steps[1..], i - 1, j - 1);
    }
  }

  lemma FirstFourInOrder(w: World, owned: Owned, early: Obj, late: Obj)
    requires Recorded(w, owned) && Rank(early) < Rank(late) <= 3
    requires late in w.objects - RunSteps(w, CLEANUP).0.objects
    ensures early !in RunSteps(w, CLEANUP).0.objects
  {
    assert CLEANUP[Rank(early)] == Delete(early) && CLEANUP[Rank(late)] == Delete(late);
    RunStepsInOrder(w, CLEANUP, Rank(early), Rank(late));
  }

  /** From the account on. */
  lemma RestInOrder(w: World, owned: Owned, early: Obj, late: Obj)
    requires Recorded(w, owned) && NovaCellCR in w.objects && w.linked == {}
    requires w.objects !! {CellSecret, ConfigSecret, ScriptSecret, TransportURL}
    requires early in Mine(owned) && Rank(early) < Rank(late)
    ensures var (w1, ok1) := AccountSteps(w, owned);
            && (late in w.objects - w1.objects ==> early !in w1.objects)
            && (ok1 && late in w.objects - RunSteps(w1, [Delete(Database)]).0.objects ==>
                 early !in RunSteps(w1, [Delete(Database)]).0.objects)
  {
    AccountStepsDo(w, owned);
    var (w1, ok1) := AccountSteps(w, owned);
    if late.Account? && late in w.objects - w1.objects {
      if early.AccountSecret? { RunStepsInOrder(Read(w, Account).0, [Delete(AccountSecret), Delete(Account)], 0, 1); }
    }
    if ok1 { RunStepsDo(w1, [Delete(Database)]); }
  }

  lemma CleanUpInOrder(w: World, owned: Owned, early: Obj, late: Obj)
    requires Recorded(w, owned) && NovaCellCR in w.objects
    requires early in Mine(owned) && Rank(early) < Rank(late)
    requires late in w.objects - CleanUp(w, owned).0.objects
    ensures early !in CleanUp(w, owned).0.objects
  {
    FirstPart(w, owned);
    RunStepsDo(w, CLEANUP);
    var (w1, ok1) := RunSteps(w, CLEANUP);
    if late !in w1.objects { FirstFourInOrder(w, owned, early, late); }
    if ok1 {
      RestInOrder(w1, owned, early, late);
      AfterFirstPart(w1, owned);
    }
  }

  /** Whatever fails, one attempt deletes in order: when it has removed an object, all of
      ours that come before it are gone. */
  lemma DeletesInOrder(w: World, owned: Owned, prepared: bool, job: Job, early: Obj, late: Obj)
    requires Recorded(w, owned) && early in Mine(owned) && Rank(early) < Rank(late)
    requires late in w.objects - Teardown(w, owned, prepared, job).0.objects
    ensures early !in Teardown(w, owned, prepared, job).0.objects
  {
    var (w0, err) := Read(w, NovaCellCR);
    CleanUpDoes(w0, owned);
    if late !in CleanUp(w0, owned).0.objects { CleanUpInOrder(w0, owned, early, late); }
  }

  /** What is not ours stays, and nothing goes before the job has finished. */
  lemma OthersAreLeftAlone(w: World, owned: Owned, prepared: bool, job: Job)
    requires Recorded(w, owned)
    ensures var (w', status, failed) := Teardown(w, owned, prepared, job);
            && (!owned.cell || !prepared || !job.JobFinished? ==> w'.objects == w.objects && w'.linked == w.linked)
            && (!owned.account ==> w.objects - w'.objects !! {Account, AccountSecret})
            && (!owned.cell ==> (status.Complete? <==> !Read(w, NovaCellCR).1.Other?))
  {
    var (w0, err) := Read(w, NovaCellCR);
    if err.NoError? && owned.cell && prepared && job.JobFinished? && !owned.account {
      CleanUpSpares(w0, owned);
    }
  }

  lemma CleanUpSpares(w: World, owned: Owned)
    requires Recorded(w, owned) && !owned.account
    ensures w.objects - CleanUp(w, owned).0.objects !! {Account, AccountSecret}
  {
    var (w1, ok1) := RunSteps(w, CLEANUP);
    RunStepsDo(w, CLEANUP);
    assert Delete(Account) !in CLEANUP && Delete(AccountSecret) !in CLEANUP;
    var (w2, ok2) := AccountSteps(w1, owned);
    RunStepsDo(w2, [Delete(Database)]);
  }

  datatype Attempt = Attempt(prepared: bool, job: Job, script: seq<Reply>)

  /** The world after attempts each of which meets its own failures. */
  function AfterAttempts(w: World, owned: Owned, attempts: seq<Attempt>): World
    decreases |attempts|
  {
    if attempts == [] then w
    else
      var a := attempts[0];
      AfterAttempts(Teardown(w.(script := a.script), owned, a.prepared, a.job).0, owned, attempts[1..])
  }

  /** Over every run of attempts with any call failing at any step: once the record is
      gone everything recorded is gone too, and what remains never grows. */
  lemma {:induction false} RecordGoesLast(w: World, owned: Owned, attempts: seq<Attempt>)
    requires Recorded(w, owned)
    ensures var t := AfterAttempts(w, owned, attempts);
            && Recorded(t, owned) && Shrinks(w, t)
            && (NovaCellCR !in t.objects ==> t.objects !! Mine(owned))
    decreases |attempts|
  {
    if attempts != [] {
      var a := attempts[0];
      AttemptKeepsRecord(w.(script := a.script), owned, a.prepared, a.job);
      RecordGoesLast(Teardown(w.(script := a.script), owned, a.prepared, a.job).0, owned, attempts[1..]);
    }
  }

  lemma {:induction false} QuietRun(w: World, steps: seq<Step>)
    requires w.script == []
    ensures RunSteps(w, steps).1 && RunSteps(w, steps).0.script == []
    decreases |steps|
  {
    if steps != [] { QuietRun(Exec(w, steps[0]).0, steps[1..]); }
  }

  /** After any history, one attempt in which no call fails and the job has finished
      removes everything. */
  lemma QuietAttemptEmpties(w: World, owned: Owned, attempts: seq<Attempt>)
    requires Recorded(w, owned) && owned.cell
    ensures var t := AfterAttempts(w, owned, attempts).(script := []);
            var (u, status, failed) := Teardown(t, owned, true, JobFinished);
            status.Complete? && !failed && u.objects !! Mine(owned) + {NovaCellCR}
  {
    RecordGoesLast(w, owned, attempts);
    var t := AfterAttempts(w, owned, attempts).(script := []);
    var (t0, err) := Read(t, NovaCellCR);
    if err.NoError? {
      CleanUpDoes(t0, owned);
      QuietRun(t0, CLEANUP);
      var t1 := RunSteps(t0, CLEANUP).0;
      QuietRun(Read(t1, Account).0, [Delete(AccountSecret), Delete(Account)]);
      QuietRun(AccountSteps(t1, owned).0, [Delete(Database)]);
    }
  }

  /** "Complete" for a cell of ours always means that everything but the record is gone. */
  lemma CompleteMeansCleanedUp(w: World, owned: Owned, prepared: bool, job: Job)
    requires Recorded(w, owned) && owned.cell
    requires Teardown(w, owned, prepared, job).1.Complete?
    ensures Teardown(w, owned, prepared, job).0.objects !! Mine(owned)
  {
    var (w0, err) := Read(w, NovaCellCR);
    if err.NoError? { CleanUpDoes(w0, owned); }
  }

  /** The last call of an attempt that got that far is refused by the server. */
  predicate RecordDeletionRefused(w: World, owned: Owned)
  {
    CleanUp(Read(w, NovaCellCR).0, owned).0.Next().FailsBefore?
  }

  /** "Complete" does not mean that the NovaCell is gone: the error of its deletion is
      dropped.  It is gone unless it is not ours or that one call was refused. */
  lemma CompleteMeansGoneIff(w: World, owned: Owned, prepared: bool, job: Job)
    requires Recorded(w, owned)
    requires Teardown(w, owned, prepared, job).1.Complete?
    ensures NovaCellCR in Teardown(w, owned, prepared, job).0.objects <==>
            NovaCellCR in w.objects && (!owned.cell || RecordDeletionRefused(w, owned))
  {
    var (w0, err) := Read(w, NovaCellCR);
    if err.NoError? { CleanUpDoes(w0, owned); }
  }

  lemma CompleteButPresent() returns (w: World)
    ensures Recorded(w, Owned(true, true))
    ensures var (w', status, failed) := Teardown(w, Owned(true, true), true, JobFinished);
            status.Complete? && !failed && NovaCellCR in w'.objects
  {
    w := World({NovaCellCR}, {}, seq(9, i => Succeeds) + [FailsBefore]);
    var owned := Owned(true, true);
    TenthCallIsTheLast(w, owned);
    CompleteMeansGoneIff(w, owned, true, JobFinished);
  }

  predicate SucceedsFor(script: seq<Reply>, n: nat) {
    n <= |script| && forall i :: 0 <= i < n ==> script[i].Succeeds?
  }

  /** With nothing left but the record the attempt makes ten calls. */
  lemma TenthCallIsTheLast(w: World, owned: Owned)
    requires w.objects == {NovaCellCR} && w.linked == {} && SucceedsFor(w.script, 9) && |w.script| == 10
    ensures var w0 := Read(w, NovaCellCR).0;
            CleanUp(w0, owned).1 && CleanUp(w0, owned).0.script == w.script[9..]
  {
    var w0 := Read(w, NovaCellCR).0;
    assert w0.script == w.script[1..];
    RunStepsScript(w0, CLEANUP);
    RunStepsDo(w0, CLEANUP);
    var w1 := RunSteps(w0, CLEANUP).0;
    assert w1.script == w0.script[6..] == w.script[7..];
    assert Account !in w1.objects;
    NoAccount(w1, owned);
    var w2 := AccountSteps(w1, owned).0;
    RunStepsScript(w2, [Delete(Database)]);
    assert w2.script[1..] == w.script[9..];
  }

  lemma NoAccount(w: World, owned: Owned)
    requires Account !in w.objects && w.script != [] && w.script[0].Succeeds?
    ensures AccountSteps(w, owned) == (w.(script := w.script[1..]), true)
  {
  }

  /** Steps that succeed use up one reply each. */
  lemma {:induction false} RunStepsScript(w: World, steps: seq<Step>)
    requires SucceedsFor(w.script, |steps|)
    ensures RunSteps(w, steps).1 && RunSteps(w, steps).0.script == w.script[|steps|..]
    decreases |steps|
  {
    if steps != [] {
      var w' := Exec(w, steps[0]).0;
      RunStepsScript(w', steps[1..]);
      assert w.script[1..][|steps| - 1..] == w.script[|steps|..];
    }
  }
}
