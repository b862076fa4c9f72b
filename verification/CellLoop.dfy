/** The part of the Nova reconcile that orders the cells, ensures each of them and
    sums up how they are. */
module CellLoop {
  import opened Wrappers
  import opened Strings
  import opened CellNames

  // ---- ordering -------------------------------------------------------------

  /** Cell0 first, then the others sorted; `enumeration` is the arbitrary order in
      which the map of templates is ranged over. */
  method OrderCells(enumeration: seq<string>) returns (order: seq<string>)
    ensures order == Ordered(enumeration)
  {
    var others := [];
    for i := 0 to |enumeration|
      invariant others == Others(enumeration[..i])
    {
      assert enumeration[..i + 1][..i] == enumeration[..i];
      if enumeration[i] != CELL0 { others := others + [enumeration[i]]; }
    }
    assert enumeration[..|enumeration|] == enumeration;
    order := [CELL0] + Sort(others);
  }

  function Others(s: seq<string>): seq<string> {
    if s == [] then []
    else Others(s[..|s| - 1]) + if s[|s| - 1] != CELL0 then [s[|s| - 1]] else []
  }

  function Ordered(enumeration: seq<string>): seq<string> {
    [CELL0] + Sort(Others(enumeration))
  }

  lemma {:induction false} OthersAre(s: seq<string>)
    ensures forall x :: x in Others(s) <==> x in s && x != CELL0
    ensures Distinct(s) ==> Distinct(Others(s))
  {
    if s != [] {
      var front := s[..|s| - 1];
      OthersAre(front);
      assert s == front + [s[|s| - 1]];
      assert forall x :: x in s <==> x in front || x == s[|s| - 1];
      if Distinct(s) {
        assert Distinct(front);
        assert forall i :: 0 <= i < |front| ==> front[i] != s[|s| - 1];
        assert s[|s| - 1] !in front;
      }
    }
  }

  /** The order lists each cell once, cell0 first and the rest ascending. */
  lemma OrderIsPermutation(enumeration: seq<string>)
    requires Distinct(enumeration) && CELL0 in enumeration
    ensures var order := Ordered(enumeration);
            && order[0] == CELL0 && Ascending(order[1..]) && Distinct(order)
            && multiset(order) == multiset(enumeration)
  {
    var others := Others(enumeration);
    OthersAre(enumeration);
    SortSorts(others);
    DistinctFromMultiset(others, Sort(others));
    var order := Ordered(enumeration);
    assert order[1..] == Sort(others);
    assert forall x :: x in order <==> x == CELL0 || x in Sort(others);
    SameSetSameMultiset(order, enumeration);
  }

  /** For every enumeration of the map the order is the same. */
  lemma OrderIsCanonical(a: seq<string>, b: seq<string>)
    requires Distinct(a) && Distinct(b) && (forall x :: x in a <==> x in b)
    ensures Ordered(a) == Ordered(b)
  {
    OthersAre(a);
    OthersAre(b);
    SameSetSameMultiset(Others(a), Others(b));
    SortUnique(Others(a), Others(b));
  }

  // ---- one cell -------------------------------------------------------------

  datatype Status =
    | CellDeploying | CellMapping | CellMappingFailed | CellMappingReady | CellReady | CellFailed
    | CellComputeDiscovering | CellComputeDiscoveryFailed | CellComputeDiscoveryReady

  datatype JobResult = JobFailed | JobRunning | JobFinished

  /** What is looked at of a NovaCell. */
  datatype Cell = Cell(ready: bool, generation: int, observed: int)

  /** How the calls made for one cell turn out. */
  datatype Calls = Calls(
    secretErr: bool,              // writing the input secret of the cell fails
    readErr: bool,                // reading it back, or hashing it, fails
    patchErr: bool,               // creating or patching the NovaCell fails
    cell: Cell,                   // the NovaCell after the patch
    appliedInput: bool,           // its applied hash is that of the input
    manageErr: bool,              // the secret for nova-manage cannot be made
    mapHashErr: bool,
    mapJob: JobResult,
    hasComputes: bool,
    computesReady: bool,
    discoverJob: JobResult,
    accountErr: bool)             // finalizers of unused accounts cannot be removed

  /** The cell is missing when the reconcile did not get as far as naming it. */
  datatype Ensured = Ensured(cell: Option<Cell>, status: Status, err: bool)

  function EnsureMapped(o: Calls): (Status, bool) {
    if o.mapHashErr || o.mapJob.JobFailed? then (CellMappingFailed, true)
    else if o.mapJob.JobRunning? then (CellMapping, false)
    else (CellMappingReady, false)
  }

  function EnsureDiscovered(o: Calls): (Status, bool) {
    if !o.hasComputes then (CellComputeDiscoveryReady, false)
    else if !o.computesReady then (CellComputeDiscovering, false)
    else match o.discoverJob
      case JobFailed => (CellComputeDiscoveryFailed, true)
      case JobRunning => (CellComputeDiscovering, false)
      case JobFinished => (CellComputeDiscoveryReady, false)
  }

  function ReadyWithInput(o: Calls): bool {
    o.cell.ready && o.cell.generation == o.cell.observed && o.appliedInput
  }

  /** The discovery and what follows, once the mapping did not report an error. */
  function AfterMapping(o: Calls): Ensured {
    var (discovery, err) := EnsureDiscovered(o);
    var status := if discovery.CellComputeDiscoveryReady? then CellReady else discovery;
    Ensured(Some(o.cell), status, err || (status.CellReady? && o.accountErr))
  }

  function EnsureCell(o: Calls): Ensured {
    if o.secretErr then Ensured(None, CellDeploying, true)
    else if o.readErr then Ensured(None, CellFailed, true)
    else if o.patchErr then Ensured(Some(o.cell), CellFailed, true)
    else if !ReadyWithInput(o) then Ensured(Some(o.cell), CellDeploying, false)
    else if o.manageErr then Ensured(Some(o.cell), CellFailed, true)
    else
      var (mapping, err) := EnsureMapped(o);
      if err then Ensured(Some(o.cell), mapping, true) else AfterMapping(o)
  }

  /** The same with an early return while the mapping job is running. */
  function EnsureCellWaiting(o: Calls): Ensured {
    if o.secretErr then Ensured(None, CellDeploying, true)
    else if o.readErr then Ensured(None, CellFailed, true)
    else if o.patchErr then Ensured(Some(o.cell), CellFailed, true)
    else if !ReadyWithInput(o) then Ensured(Some(o.cell), CellDeploying, false)
    else if o.manageErr then Ensured(Some(o.cell), CellFailed, true)
    else
      var (mapping, err) := EnsureMapped(o);
      if err || !mapping.CellMappingReady? then Ensured(Some(o.cell), mapping, err) else AfterMapping(o)
  }

  /** A failed cell comes with an error to print, the intermediate statuses do not
      leave the function, and there is no cell exactly when its secret failed. */
  lemma EnsureCellRange(o: Calls)
    ensures var r := EnsureCell(o);
            && r.status in {CellDeploying, CellFailed, CellMappingFailed, CellComputeDiscovering,
                            CellComputeDiscoveryFailed, CellReady}
            && (r.status in {CellFailed, CellMappingFailed, CellComputeDiscoveryFailed} ==> r.err)
            && (r.cell.None? <==> o.secretErr || o.readErr)
            && (r.cell.Some? ==> r.cell.value == o.cell)
  {
  }

  /** The cell was patched, is ready with its input, and its jobs can be made. */
  predicate Reached(o: Calls) {
    !o.secretErr && !o.readErr && !o.patchErr && ReadyWithInput(o) && !o.manageErr
  }

  predicate MappingFails(o: Calls) {
    o.mapHashErr || o.mapJob.JobFailed?
  }

  /** When a cell comes out with which status, and with an error or without. */
  lemma EnsureCellExactly(o: Calls)
    ensures var r := EnsureCell(o);
            && (r.status.CellDeploying? <==> o.secretErr || (!o.readErr && !o.patchErr && !ReadyWithInput(o)))
            && (r.status.CellFailed? <==> !o.secretErr && (o.readErr || o.patchErr || (ReadyWithInput(o) && o.manageErr)))
            && (r.status.CellMappingFailed? <==> Reached(o) && MappingFails(o))
            && (r.status.CellComputeDiscovering? <==>
                  Reached(o) && !MappingFails(o) && o.hasComputes && (!o.computesReady || o.discoverJob.JobRunning?))
            && (r.status.CellComputeDiscoveryFailed? <==>
                  Reached(o) && !MappingFails(o) && o.hasComputes && o.computesReady && o.discoverJob.JobFailed?)
            && (r.status.CellReady? <==>
                  Reached(o) && !MappingFails(o) && (o.hasComputes ==> o.computesReady && o.discoverJob.JobFinished?))
            && (r.status.CellDeploying? ==> (r.err <==> o.secretErr))
            && (r.status.CellComputeDiscovering? ==> !r.err)
            && (r.status.CellReady? ==> (r.err <==> o.accountErr))
  {
  }

  /** The mapping job of the cell has finished with this input. */
  predicate Mapped(o: Calls) {
    !o.mapHashErr && o.mapJob.JobFinished?
  }

  /** A cell is regarded as ready although its mapping job is still running: the
      status of the mapping is overwritten by that of the discovery. */
  lemma ReadyButNotMapped() returns (o: Calls)
    ensures EnsureCell(o) == Ensured(Some(o.cell), CellReady, false) && !Mapped(o)
  {
    o := Calls(false, false, false, Cell(true, 1, 1), true, false, false, JobRunning, false, false, JobFinished, false);
  }

  /** A ready cell is mapped unless the job is running, and only then not. */
  lemma ReadyMeansMapped(o: Calls)
    requires EnsureCell(o).status.CellReady?
    ensures Mapped(o) <==> !o.mapJob.JobRunning?
    ensures ReadyWithInput(o) && (o.hasComputes ==> o.computesReady && o.discoverJob.JobFinished?)
  {
  }

  /** With the early return a ready cell is always mapped; a cell is reported as being
      mapped exactly when it got that far and its job is running; and otherwise nothing
      changes. */
  lemma WaitingKeepsThePromise(o: Calls)
    ensures EnsureCellWaiting(o).status.CellReady? <==> EnsureCell(o).status.CellReady? && Mapped(o)
    ensures EnsureCellWaiting(o).status.CellMapping? <==> Reached(o) && !o.mapHashErr && o.mapJob.JobRunning?
    ensures EnsureCellWaiting(o).status.CellMapping? ==> !EnsureCellWaiting(o).err
    ensures !EnsureCellWaiting(o).status.CellMapping? ==> EnsureCellWaiting(o) == EnsureCell(o)
  {
  }

  // ---- all cells ------------------------------------------------------------

  datatype ObjStatus = Failed | Creating | Completed

  datatype CellInput = CellInput(db: ObjStatus, mq: ObjStatus, hasAPIAccess: bool, calls: Calls)

  datatype Bucket = Skipped | Deploying | Mapping | Discovering | Broken | Ready

  function BucketOf(status: Status): Option<Bucket> {
    match status
    case CellDeploying => Some(Deploying)
    case CellMapping => Some(Mapping)
    case CellComputeDiscovering => Some(Discovering)
    case CellFailed => Some(Broken)
    case CellMappingFailed => Some(Broken)
    case CellComputeDiscoveryFailed => Some(Broken)
    case CellReady => Some(Ready)
    case _ => None
  }

  /** Cell0 got ensured in this pass and was ready. */
  predicate Cell0Ready(inputs: map<string, CellInput>)
  {
    && CELL0 in inputs && inputs[CELL0].db.Completed? && inputs[CELL0].mq.Completed?
    && EnsureCell(inputs[CELL0].calls).cell.Some? && inputs[CELL0].calls.cell.ready
  }

  /** Whether the cell is created or patched in this pass. */
  predicate Touched(inputs: map<string, CellInput>, c: string)
    requires c in inputs
  {
    && inputs[c].db.Completed? && inputs[c].mq.Completed?
    && (c == CELL0 || !inputs[c].hasAPIAccess || Cell0Ready(inputs))
  }

  /** Where a cell belongs, by what is known of it and of cell0 alone. */
  function Place(inputs: map<string, CellInput>, c: string): Option<Bucket>
    requires c in inputs
  {
    if !Touched(inputs, c) then Some(Skipped) else BucketOf(EnsureCell(inputs[c].calls).status)
  }

  /** Every cell has a place. */
  lemma EveryCellHasAPlace(inputs: map<string, CellInput>, c: string)
    requires c in inputs
    ensures Place(inputs, c).Some? && !Place(inputs, c).value.Mapping?
  {
  }

  function Having(inputs: map<string, CellInput>, order: seq<string>, b: Bucket): seq<string>
    requires forall c :: c in order ==> c in inputs
  {
    if order == [] then []
    else
      Having(inputs, order[..|order| - 1], b) +
      if Place(inputs, order[|order| - 1]) == Some(b) then [order[|order| - 1]] else []
  }

  function TouchedOf(inputs: map<string, CellInput>, order: seq<string>): set<string>
    requires forall c :: c in order ==> c in inputs
  {
    set c | c in order && Touched(inputs, c)
  }

  /** The condition NovaAllCellsReady. */
  datatype Condition = Unknown | True | FalseError | FalseRequested | FalseInit

  datatype Lists = Lists(
    skipped: seq<string>,
    deploying: seq<string>,
    mapping: seq<string>,
    discovering: seq<string>,
    broken: seq<string>,
    ready: seq<string>)

  function File(l: Lists, c: string, b: Option<Bucket>): Lists {
    if b.None? then l else
    match b.value
    case Skipped => l.(skipped := l.skipped + [c])
    case Deploying => l.(deploying := l.deploying + [c])
    case Mapping => l.(mapping := l.mapping + [c])
    case Discovering => l.(discovering := l.discovering + [c])
    case Broken => l.(broken := l.broken + [c])
    case Ready => l.(ready := l.ready + [c])
  }

  /** Each cell in its place. */
  ghost function Filed(inputs: map<string, CellInput>, order: seq<string>): Lists
    requires forall c :: c in order ==> c in inputs
  {
    if order == [] then Lists([], [], [], [], [], [])
    else File(Filed(inputs, order[..|order| - 1]), order[|order| - 1], Place(inputs, order[|order| - 1]))
  }

  function ListOf(l: Lists, b: Bucket): seq<string> {
    match b
    case Skipped => l.skipped
    case Deploying => l.deploying
    case Mapping => l.mapping
    case Discovering => l.discovering
    case Broken => l.broken
    case Ready => l.ready
  }

  class Pass {
    var skipped: seq<string>
    var deploying: seq<string>
    var mapping: seq<string>
    var discovering: seq<string>
    var broken: seq<string>
    var ready: seq<string>
    var cells: map<string, Option<Cell>>
    var allReady: bool
    var condition: Condition
    var appliedInput: Option<string>     // the input reported as applied by all of Nova

    constructor ()
      ensures Contents() == Lists([], [], [], [], [], [])
      ensures cells == map[] && allReady && condition == Unknown && appliedInput.None?
    {
      appliedInput := None;
      skipped, deploying, mapping, discovering, broken, ready := [], [], [], [], [], [];
      cells, allReady, condition := map[], true, Unknown;
    }

    ghost predicate CellsAre(inputs: map<string, CellInput>, order: seq<string>)
      reads this
      requires forall c :: c in order ==> c in inputs
    {
      && cells.Keys == TouchedOf(inputs, order)
      && forall c :: c in cells ==> cells[c] == EnsureCell(inputs[c].calls).cell
    }

    ghost predicate AllReadyIs(inputs: map<string, CellInput>, order: seq<string>)
      reads this
      requires forall c :: c in order ==> c in inputs
    {
      allReady <==> forall c :: c in order ==> Place(inputs, c) == Some(Ready)
    }

    ghost function Contents(): Lists
      reads this
    {
      Lists(skipped, deploying, mapping, discovering, broken, ready)
    }

    /** All that has to be true of the state after the given cells. */
    ghost predicate Handled(inputs: map<string, CellInput>, order: seq<string>)
      reads this
      requires forall c :: c in order ==> c in inputs
    {
      Contents() == Filed(inputs, order) && CellsAre(inputs, order) && AllReadyIs(inputs, order)
    }

    /** Skip the cell or ensure it. */
    method Attempt(c: string, inputs: map<string, CellInput>, ghost before: seq<string>) returns (b: Option<Bucket>)
      requires c in inputs && forall d :: d in before ==> d in inputs
      requires c == CELL0 <==> before == []
      requires before != [] ==> before[0] == CELL0
      requires CellsAre(inputs, before)
      modifies this`cells, this`allReady
      ensures b == Place(inputs, c)
      ensures cells == if Touched(inputs, c) then old(cells)[c := EnsureCell(inputs[c].calls).cell] else old(cells)
      ensures allReady == (old(allReady) && b == Some(Ready))
    {
      var i := inputs[c];
      if !i.db.Completed? || !i.mq.Completed? {
        allReady := false;
        return Some(Skipped);
      }
      var cell0Ready := CELL0 in cells && cells[CELL0].Some? && cells[CELL0].value.ready;
      if c != CELL0 { Cell0Seen(inputs, before); }
      if c != CELL0 && i.hasAPIAccess && !cell0Ready {
        allReady := false;
        return Some(Skipped);
      }
      var ensured := EnsureCell(i.calls);
      cells := cells[c := ensured.cell];
      allReady := allReady && ensured.status.CellReady?;
      b := BucketOf(ensured.status);
    }

    method Put(c: string, b: Option<Bucket>)
      modifies this`skipped, this`deploying, this`mapping, this`discovering, this`broken, this`ready
      ensures Contents() == File(old(Contents()), c, b)
    {
      if b.None? { return; }
      match b.value {
        case Skipped => skipped := skipped + [c];
        case Deploying => deploying := deploying + [c];
        case Mapping => mapping := mapping + [c];
        case Discovering => discovering := discovering + [c];
        case Broken => broken := broken + [c];
        case Ready => ready := ready + [c];
      }
    }

    lemma Cell0Seen(inputs: map<string, CellInput>, before: seq<string>)
      requires forall d :: d in before ==> d in inputs
      requires before != [] && before[0] == CELL0 && CellsAre(inputs, before)
      ensures Cell0Ready(inputs) <==> CELL0 in cells && cells[CELL0].Some? && cells[CELL0].value.ready
    {
    }

    /** One turn of the loop. */
    method HandleCell(c: string, inputs: map<string, CellInput>, ghost before: seq<string>)
      requires c in inputs && forall d :: d in before ==> d in inputs
      requires c == CELL0 <==> before == []
      requires before != [] ==> before[0] == CELL0
      requires Handled(inputs, before)
      modifies this
      ensures Handled(inputs, before + [c])
      ensures condition == old(condition)
    {
      FiledNext(inputs, before, c);
      HandledNext(inputs, before, c);
      var b := Attempt(c, inputs, before);
      Put(c, b);
    }

    /** The loop over the ordered cells. */
    method EnsureEach(order: seq<string>, inputs: map<string, CellInput>)
      requires order != [] && order[0] == CELL0 && Distinct(order)
      requires forall c :: c in order ==> c in inputs
      requires Handled(inputs, [])
      modifies this
      ensures Handled(inputs, order)
      ensures condition == old(condition)
    {
      assert order[..0] == [];
      for i := 0 to |order|
        invariant Handled(inputs, order[..i])
        invariant condition == old(condition)
      {
        assert order[..i + 1] == order[..i] + [order[i]];
        HandleCell(order[i], inputs, order[..i]);
      }
      assert order[..|order|] == order;
    }

    /** The condition of all cells together. */
    method EnsureCells(order: seq<string>, inputs: map<string, CellInput>)
      requires order != [] && order[0] == CELL0 && Distinct(order)
      requires forall c :: c in order ==> c in inputs
      requires Handled(inputs, []) && condition == Unknown
      modifies this
      ensures Handled(inputs, order)
      ensures condition == Summary(inputs, order)
      ensures condition.FalseError? <==> broken != []
      ensures condition.FalseRequested? <==> broken == [] && (deploying != [] || mapping != [] || discovering != [])
      ensures condition.FalseInit? <==> broken == deploying == mapping == discovering == [] && skipped != []
      ensures condition.True? <==> broken == deploying == mapping == discovering == skipped == []
    {
      EnsureEach(order, inputs);
      SummaryIs(inputs, order);
      AllReadyIff(inputs, order);
      if |broken| > 0 {
        condition := FalseError;
      } else if |deploying| + |mapping| + |discovering| > 0 {
        condition := FalseRequested;
      } else if |skipped| > 0 {
        condition := FalseInit;
      }
      if allReady {
        condition := True;
      }
    }

    /** The guard in front of the top-level services. */
    method MayDeployTopLevel() returns (guard: Guard)
      ensures guard == GuardFor(cells)
    {
      if CELL0 !in cells { return Wait; }
      if cells[CELL0].None? { return Crash; }          // nil is dereferenced
      var cell0 := cells[CELL0].value;
      if !cell0.ready || cell0.generation > cell0.observed { return Wait; }
      return Proceed;
    }

    /** What is reported as applied once the top-level services were ensured; `metadata`
        is there if the service is enabled. */
    method RecordApplied(input: string, api: bool, scheduler: bool, metadata: Option<bool>) returns (guard: Guard)
      modifies this`appliedInput
      ensures guard == GuardFor(cells)
      ensures appliedInput ==
                if guard.Proceed? && api && scheduler && metadata != Some(false) then Some(input) else old(appliedInput)
    {
      guard := MayDeployTopLevel();
      if !guard.Proceed? { return; }
      var metadataApplied := true;
      if metadata.Some? { metadataApplied := metadata.value; }
      if api && scheduler && metadataApplied { appliedInput := Some(input); }
    }
  }

  datatype Guard = Wait | Proceed | Crash

  function GuardFor(cells: map<string, Option<Cell>>): Guard {
    if CELL0 !in cells then Wait
    else if cells[CELL0].None? then Crash
    else if !cells[CELL0].value.ready || cells[CELL0].value.generation > cells[CELL0].value.observed then Wait
    else Proceed
  }

  ghost predicate Somewhere(inputs: map<string, CellInput>, order: seq<string>, b: Bucket)
    requires forall c :: c in order ==> c in inputs
  {
    exists c :: c in order && Place(inputs, c) == Some(b)
  }

  /** The condition by what is true of the cells, not by how it is computed. */
  ghost function Summary(inputs: map<string, CellInput>, order: seq<string>): Condition
    requires forall c :: c in order ==> c in inputs
  {
    if Somewhere(inputs, order, Broken) then FalseError
    else if Somewhere(inputs, order, Deploying) || Somewhere(inputs, order, Mapping) || Somewhere(inputs, order, Discovering)
    then FalseRequested
    else if Somewhere(inputs, order, Skipped) then FalseInit
    else True
  }

  lemma FileAdds(l: Lists, c: string, p: Option<Bucket>, b: Bucket)
    ensures ListOf(File(l, c, p), b) == ListOf(l, b) + if p == Some(b) then [c] else []
  {
  }

  /** Each list is the sub-list of the ordered cells that belong there. */
  lemma {:induction false} FiledInOrder(inputs: map<string, CellInput>, order: seq<string>, b: Bucket)
    requires forall c :: c in order ==> c in inputs
    ensures ListOf(Filed(inputs, order), b) == Having(inputs, order, b)
  {
    if order != [] {
      var front, last := order[..|order| - 1], order[|order| - 1];
      FiledInOrder(inputs, front, b);
      FileAdds(Filed(inputs, front), last, Place(inputs, last), b);
    }
  }

  lemma FiledNext(inputs: map<string, CellInput>, before: seq<string>, c: string)
    requires c in inputs && forall d :: d in before ==> d in inputs
    ensures forall d :: d in before + [c] <==> d in before || d == c
    ensures Filed(inputs, before + [c]) == File(Filed(inputs, before), c, Place(inputs, c))
  {
  }

  lemma HandledNext(inputs: map<string, CellInput>, before: seq<string>, c: string)
    requires c in inputs && forall d :: d in before ==> d in inputs
    ensures forall d :: d in before + [c] <==> d in before || d == c
    ensures TouchedOf(inputs, before + [c]) == TouchedOf(inputs, before) + if Touched(inputs, c) then {c} else {}
    ensures (forall d :: d in before + [c] ==> Place(inputs, d) == Some(Ready)) <==>
            (forall d :: d in before ==> Place(inputs, d) == Some(Ready)) && Place(inputs, c) == Some(Ready)
  {
  }

  lemma {:induction false} HavingHas(inputs: map<string, CellInput>, order: seq<string>, b: Bucket)
    requires forall c :: c in order ==> c in inputs
    ensures forall c :: c in Having(inputs, order, b) <==> c in order && Place(inputs, c) == Some(b)
  {
    if order != [] {
      var front := order[..|order| - 1];
      HavingHas(inputs, front, b);
      assert order == front + [order[|order| - 1]];
      assert forall c :: c in order <==> c in front || c == order[|order| - 1];
    }
  }

  lemma SomewhereIff(inputs: map<string, CellInput>, order: seq<string>, b: Bucket)
    requires forall c :: c in order ==> c in inputs
    ensures |ListOf(Filed(inputs, order), b)| > 0 <==> Somewhere(inputs, order, b)
  {
    FiledInOrder(inputs, order, b);
    HavingHas(inputs, order, b);
    if |Having(inputs, order, b)| > 0 { assert Having(inputs, order, b)[0] in order; }
  }

  lemma SummaryIs(inputs: map<string, CellInput>, order: seq<string>)
    requires forall c :: c in order ==> c in inputs
    ensures var l := Filed(inputs, order);
            Summary(inputs, order) ==
              if |l.broken| > 0 then FalseError
              else if |l.deploying| + |l.mapping| + |l.discovering| > 0 then FalseRequested
              else if |l.skipped| > 0 then FalseInit
              else True
  {
    SomewhereIff(inputs, order, Broken);
    SomewhereIff(inputs, order, Deploying);
    SomewhereIff(inputs, order, Mapping);
    SomewhereIff(inputs, order, Discovering);
    SomewhereIff(inputs, order, Skipped);
  }

  lemma AllReadyIff(inputs: map<string, CellInput>, order: seq<string>)
    requires forall c :: c in order ==> c in inputs
    ensures Summary(inputs, order).True? <==> forall c :: c in order ==> Place(inputs, c) == Some(Ready)
  {
  }

  /** The six lists partition the ordered cells. */
  lemma ListsPartition(inputs: map<string, CellInput>, order: seq<string>, c: string)
    requires forall d :: d in order ==> d in inputs
    requires c in order
    ensures Place(inputs, c).Some?
    ensures forall b: Bucket :: c in ListOf(Filed(inputs, order), b) <==> b == Place(inputs, c).value
  {
    EveryCellHasAPlace(inputs, c);
    forall b: Bucket ensures c in ListOf(Filed(inputs, order), b) <==> Place(inputs, c) == Some(b) {
      FiledInOrder(inputs, order, b);
      HavingHas(inputs, order, b);
    }
  }

  /** In which list an ordered cell is, by what was found of it and, for a cell with API
      access, of cell0. */
  lemma ListsExactly(inputs: map<string, CellInput>, order: seq<string>, c: string)
    requires forall d :: d in order ==> d in inputs
    requires c in order
    ensures var l, i, o := Filed(inputs, order), inputs[c], inputs[c].calls;
            var waits :=
              || !i.db.Completed? || !i.mq.Completed?
              || (c != CELL0 && i.hasAPIAccess &&
                   !(CELL0 in inputs && inputs[CELL0].db.Completed? && inputs[CELL0].mq.Completed? &&
                     !inputs[CELL0].calls.secretErr && !inputs[CELL0].calls.readErr && inputs[CELL0].calls.cell.ready));
            var done := o.cell.ready && o.cell.generation == o.cell.observed && o.appliedInput;
            var mapped := done && !o.manageErr && !o.mapHashErr && !o.mapJob.JobFailed?;
            && (c in l.skipped <==> waits)
            && (c in l.deploying <==> !waits && (o.secretErr || (!o.readErr && !o.patchErr && !done)))
            && (c in l.discovering <==>
                  && !waits && !o.secretErr && !o.readErr && !o.patchErr && mapped
                  && o.hasComputes && (!o.computesReady || o.discoverJob.JobRunning?))
            && (c in l.broken <==>
                  && !waits && !o.secretErr
                  && (o.readErr || o.patchErr || (done && !mapped) ||
                      (mapped && o.hasComputes && o.computesReady && o.discoverJob.JobFailed?)))
            && (c in l.ready <==>
                  && !waits && !o.secretErr && !o.readErr && !o.patchErr && mapped
                  && (o.hasComputes ==> o.computesReady && o.discoverJob.JobFinished?))
            && c !in l.mapping
  {
    ListsPartition(inputs, order, c);
    EnsureCellExactly(inputs[c].calls);
    var l := Filed(inputs, order);
    assert c in l.skipped <==> c in ListOf(l, Skipped);
    assert c in l.deploying <==> c in ListOf(l, Deploying);
    assert c in l.mapping <==> c in ListOf(l, Mapping);
    assert c in l.discovering <==> c in ListOf(l, Discovering);
    assert c in l.broken <==> c in ListOf(l, Broken);
    assert c in l.ready <==> c in ListOf(l, Ready);
  }

  /** The lists hold nothing but ordered cells, in their order and each once. */
  lemma {:induction false} ListsInOrder(inputs: map<string, CellInput>, order: seq<string>, b: Bucket, i: nat, j: nat, p: nat, q: nat)
    requires forall d :: d in order ==> d in inputs
    requires Distinct(order) && p < |order| && q < |order|
    requires var l := ListOf(Filed(inputs, order), b); i < j < |l| && l[i] == order[p] && l[j] == order[q]
    ensures p < q
    decreases |order|
  {
    var n := |order| - 1;
    var front := order[..n];
    FileAdds(Filed(inputs, front), order[n], Place(inputs, order[n]), b);
    var l := ListOf(Filed(inputs, front), b);
    FiledFrom(inputs, front, b, i);
    AtIn(order, front, l[i], p);
    if j < |l| {
      FiledFrom(inputs, front, b, j);
      AtIn(order, front, l[j], q);
      ListsInOrder(inputs, front, b, i, j, p, q);
    }
  }

  lemma FiledFrom(inputs: map<string, CellInput>, order: seq<string>, b: Bucket, i: nat)
    requires forall d :: d in order ==> d in inputs
    requires i < |ListOf(Filed(inputs, order), b)|
    ensures ListOf(Filed(inputs, order), b)[i] in order
  {
    FiledInOrder(inputs, order, b);
    HavingHas(inputs, order, b);
    assert Having(inputs, order, b)[i] in Having(inputs, order, b);
  }

  lemma AtIn(order: seq<string>, front: seq<string>, c: string, p: nat)
    requires Distinct(order) && order != [] && front == order[..|order| - 1]
    requires p < |order| && order[p] == c && c in front
    ensures p < |front|
  {
    var r :| 0 <= r < |front| && front[r] == c;
    assert order[r] == order[p];
  }

  /** When NovaAllCellsReady is True every ordered cell has its database and its bus, is
      ready at its observed generation and has applied its input; and so has cell0 been
      if one of them needs API access. */
  lemma TrueMeansApplied(inputs: map<string, CellInput>, order: seq<string>, c: string)
    requires forall d :: d in order ==> d in inputs
    requires Summary(inputs, order).True? && c in order
    ensures var i, cell := inputs[c], inputs[c].calls.cell;
            && i.db.Completed? && i.mq.Completed?
            && !i.calls.secretErr && !i.calls.readErr && !i.calls.patchErr && !i.calls.manageErr
            && cell.ready && cell.generation == cell.observed && i.calls.appliedInput
    ensures c != CELL0 && inputs[c].hasAPIAccess ==> CELL0 in inputs && inputs[CELL0].calls.cell.ready
  {
    AllReadyIff(inputs, order);
    ListsPartition(inputs, order, c);
    ListsExactly(inputs, order, c);
    assert c in Filed(inputs, order).ready <==> c in ListOf(Filed(inputs, order), Ready);
  }

  /** A cell in the failed list has an error to print.  The errors of other cells are
      dropped: those are the secret that could not be written, of a cell listed as
      deploying, and the finalizers of unused accounts, of a cell listed as ready. */
  lemma DroppedErrors(inputs: map<string, CellInput>, order: seq<string>, c: string)
    requires forall d :: d in order ==> d in inputs
    requires c in order && Touched(inputs, c)
    ensures var calls := inputs[c].calls;
            && (c in Filed(inputs, order).broken ==> EnsureCell(calls).err)
            && (EnsureCell(calls).err && c !in Filed(inputs, order).broken <==>
                  calls.secretErr || (c in Filed(inputs, order).ready && calls.accountErr))
            && (calls.secretErr ==> c in Filed(inputs, order).deploying)
  {
    ListsPartition(inputs, order, c);
    EnsureCellRange(inputs[c].calls);
    EnsureCellExactly(inputs[c].calls);
    var l := Filed(inputs, order);
    assert c in l.broken <==> c in ListOf(l, Broken);
    assert c in l.ready <==> c in ListOf(l, Ready);
    assert c in l.deploying <==> c in ListOf(l, Deploying);
  }

  /** No cell is ever reported as being mapped. */
  lemma MappingListIsEmpty(inputs: map<string, CellInput>, order: seq<string>)
    requires forall d :: d in order ==> d in inputs
    ensures ListOf(Filed(inputs, order), Mapping) == []
  {
  }

  /** NovaAllCellsReady is True exactly when the ready list is the whole ordered list,
      and it never stays Unknown. */
  lemma TrueIffWholeListIsReady(inputs: map<string, CellInput>, order: seq<string>)
    requires forall c :: c in order ==> c in inputs
    ensures Summary(inputs, order).True? <==> Filed(inputs, order).ready == order
    ensures !Summary(inputs, order).Unknown?
  {
    AllReadyIff(inputs, order);
    ReadyList(inputs, order);
  }

  lemma ReadyList(inputs: map<string, CellInput>, order: seq<string>)
    requires forall c :: c in order ==> c in inputs
    ensures Filed(inputs, order).ready == order <==> forall c :: c in order ==> Place(inputs, c) == Some(Ready)
  {
    FiledInOrder(inputs, order, Ready);
    assert ListOf(Filed(inputs, order), Ready) == Filed(inputs, order).ready;
    HavingAll(inputs, order);
  }

  lemma {:induction false} HavingAll(inputs: map<string, CellInput>, order: seq<string>)
    requires forall c :: c in order ==> c in inputs
    ensures Having(inputs, order, Ready) == order <==> forall c :: c in order ==> Place(inputs, c) == Some(Ready)
  {
    HavingHas(inputs, order, Ready);
    if forall c :: c in order ==> Place(inputs, c) == Some(Ready) { HavingWhole(inputs, order); }
  }

  lemma {:induction false} HavingWhole(inputs: map<string, CellInput>, order: seq<string>)
    requires forall c :: c in order ==> c in inputs && Place(inputs, c) == Some(Ready)
    ensures Having(inputs, order, Ready) == order
  {
    if order != [] {
      var front, last := order[..|order| - 1], order[|order| - 1];
      assert order == front + [last] && last in order;
      HavingWhole(inputs, front);
    }
  }

  /** A cell whose database and bus are there is created or patched, unless it needs API
      access and cell0 was not ensured and ready in this pass. */
  lemma ApiCellsWaitForCell0(inputs: map<string, CellInput>, order: seq<string>, c: string)
    requires forall d :: d in order ==> d in inputs
    requires c in order && c != CELL0
    ensures c in TouchedOf(inputs, order) <==>
              && inputs[c].db.Completed? && inputs[c].mq.Completed?
              && (inputs[c].hasAPIAccess ==>
                    && CELL0 in inputs && inputs[CELL0].db.Completed? && inputs[CELL0].mq.Completed?
                    && EnsureCell(inputs[CELL0].calls).cell == Some(inputs[CELL0].calls.cell)
                    && inputs[CELL0].calls.cell.ready)
  {
  }

  /** What the guard of the top-level services does with the cells of a pass: they go
      ahead iff cell0 was ensured, is ready and its generation is observed; and the
      reconcile crashes iff the input secret of cell0 could not be written and read. */
  lemma TopLevelWaitsForCell0(inputs: map<string, CellInput>, order: seq<string>, cells: map<string, Option<Cell>>)
    requires forall d :: d in order ==> d in inputs
    requires CELL0 in order
    requires cells.Keys == TouchedOf(inputs, order)
    requires forall c :: c in cells ==> cells[c] == EnsureCell(inputs[c].calls).cell
    ensures var cell0 := inputs[CELL0];
            && (GuardFor(cells).Proceed? <==>
                  && cell0.db.Completed? && cell0.mq.Completed? && !cell0.calls.secretErr && !cell0.calls.readErr
                  && cell0.calls.cell.ready && cell0.calls.cell.generation <= cell0.calls.cell.observed)
            && (GuardFor(cells).Crash? <==>
                  cell0.db.Completed? && cell0.mq.Completed? && (cell0.calls.secretErr || cell0.calls.readErr))
  {
  }

  /** Nova's applied input says nothing of cell0: it can be reported in a pass in which
      cell0 has not applied its own input. */
  lemma AppliedLeavesOutCell0() returns (inputs: map<string, CellInput>, cells: map<string, Option<Cell>>)
    ensures CELL0 in inputs && cells.Keys == TouchedOf(inputs, [CELL0])
    ensures cells == map[CELL0 := EnsureCell(inputs[CELL0].calls).cell]
    ensures GuardFor(cells).Proceed? && !inputs[CELL0].calls.appliedInput
  {
    var calls := Calls(false, false, false, Cell(true, 1, 1), false, false, false, JobFinished, false, false, JobFinished, false);
    inputs := map[CELL0 := CellInput(Completed, Completed, true, calls)];
    cells := map[CELL0 := EnsureCell(calls).cell];
    assert CELL0 in [CELL0] && Touched(inputs, CELL0);
  }

  /** The pass has seen cell0 ready with the input it was given in this pass. */
  predicate SeenApplied(o: Calls) {
    !o.secretErr && !o.readErr && !o.patchErr && ReadyWithInput(o)
  }

  /** In every pass in which the top-level services go ahead: the pass has seen cell0
      apply its input exactly when cell0 is not listed as deploying and its patch did not
      fail.  So whenever NovaAllCellsReady is True what is reported as applied covers
      cell0. */
  lemma AppliedCoversCell0Iff(inputs: map<string, CellInput>, order: seq<string>, cells: map<string, Option<Cell>>)
    requires forall d :: d in order ==> d in inputs
    requires CELL0 in order && cells.Keys == TouchedOf(inputs, order)
    requires forall c :: c in cells ==> cells[c] == EnsureCell(inputs[c].calls).cell
    requires GuardFor(cells).Proceed?
    ensures SeenApplied(inputs[CELL0].calls) <==>
            CELL0 !in Filed(inputs, order).deploying && !inputs[CELL0].calls.patchErr
    ensures Summary(inputs, order).True? ==> SeenApplied(inputs[CELL0].calls)
  {
    TopLevelWaitsForCell0(inputs, order, cells);
    ListsPartition(inputs, order, CELL0);
    EnsureCellExactly(inputs[CELL0].calls);
    assert CELL0 in Filed(inputs, order).deploying <==> CELL0 in ListOf(Filed(inputs, order), Deploying);
    AllReadyIff(inputs, order);
  }
}
