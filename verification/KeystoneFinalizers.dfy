/** A custom resource and the Keystone object it registers: Nova and Cyborg with their
    KeystoneService, NovaAPI and CyborgAPI with their KeystoneEndpoint.  The operator
    puts its finalizer on both, and must not let go of its own before it has taken it
    off the other.  The reconciler reads the resource from a cache that lags behind. */
module KeystoneFinalizers {

  /** A version of the resource.  The operator's is its only finalizer, so that a
      deleted resource without it is gone. */
  datatype Version = Absent | Plain | Guarded | Deleting

  /** The Keystone object, and whether it carries our finalizer. */
  datatype Object = NoObject | Object(guarded: bool)

  /** The running reconcile, by the version it has read. */
  datatype Pc =
    | Idle
    | Adding(i: nat)          // about to persist the finalizer
    | Registering(i: nat)     // past that: may create the Keystone object
    | Removing(i: nat)        // the resource is being deleted
    | LettingGo(i: nat)       // the Keystone object was seen to

  /** What the reconciler is told when it reads the Keystone object. */
  datatype View = NotThere | Unguarded | WithFinalizer

  datatype State = State(history: seq<Version>, seen: nat, keystone: Object, pc: Pc) {
    function Latest(): Version
      requires history != []
    {
      history[|history| - 1]
    }
  }

  datatype Event =
    | Create                  // somebody creates the resource, or again after it was gone
    | Delete                  // somebody deletes it
    | DeleteObject            // somebody deletes the Keystone object
    | CatchUp
    | Begin
    | PersistAdd
    | Register
    | Look(view: View)
    | Unguard                 // the update that takes the finalizer off succeeds
    | PersistRemove
    | Stop                    // end, error or crash

  predicate Enabled(s: State, e: Event)
  {
    && s.history != [] && s.seen < |s.history|
    && match e
       case Create => s.Latest().Absent?
       case Delete => s.Latest().Plain? || s.Latest().Guarded?
       case DeleteObject => true
       case CatchUp => s.seen + 1 < |s.history|
       case Begin => s.pc.Idle?
       case PersistAdd => s.pc.Adding?
       case Register => s.pc.Registering?
       case Look(view) => s.pc.Removing?
       case Unguard => s.pc.Removing?
       case PersistRemove => s.pc.LettingGo?
       case Stop => true
  }

  function Append(s: State, v: Version): State {
    s.(history := s.history + [v])
  }

  /** Where the reconcile goes with the version it has read. */
  function Branch(v: Version, i: nat): Pc {
    match v
    case Absent => Idle
    case Plain => Adding(i)
    case Guarded => Registering(i)
    case Deleting => Removing(i)
  }

  function Apply(s: State, e: Event): State
    requires Enabled(s, e)
  {
    match e
    case Create => Append(s, Plain)
    case Delete => Append(s, if s.Latest().Plain? then Absent else Deleting)
    case DeleteObject => if s.keystone.Object? && s.keystone.guarded then s else s.(keystone := NoObject)
    case CatchUp => s.(seen := s.seen + 1)
    case Begin =>
      s.(pc := Branch(s.history[s.seen], s.seen))
    // the reconcile ends here, so that nothing is registered before this is persisted;
    // the patch names the resource, not the version it was computed from
    case PersistAdd =>
      var t := if s.Latest().Plain? then Append(s, Guarded) else s;
      t.(pc := Idle)
    case Register => s.(keystone := Object(true))
    case Look(view) => if view.WithFinalizer? then s else s.(pc := LettingGo(s.pc.i))
    case Unguard =>
      s.(keystone := if s.keystone.Object? then Object(false) else NoObject, pc := LettingGo(s.pc.i))
    case PersistRemove =>
      var t := if s.Latest().Deleting? then Append(s, Absent) else if s.Latest().Guarded? then Append(s, Plain) else s;
      t.(pc := Idle)
    case Stop => s.(pc := Idle)
  }

  /** The reconciler is told that there is no finalizer to take off while there is. */
  predicate Hazard(s: State, e: Event)
  {
    e.Look? && !e.view.WithFinalizer? && s.keystone == Object(true)
  }

  /** The promise: a Keystone object with our finalizer has its resource, persisted
      with the finalizer that gives the operator the chance to clean up. */
  predicate NoOrphan(s: State)
    requires s.history != []
  {
    s.keystone == Object(true) ==> s.Latest().Guarded? || s.Latest().Deleting?
  }

  // ---- what every step keeps ------------------------------------------------

  /** How versions follow each other: the finalizer comes before a deletion that waits,
      and does not go without one. */
  ghost predicate Lawful(h: seq<Version>)
  {
    && (forall k :: 0 <= k < |h| - 1 && h[k + 1].Deleting? ==> h[k].Guarded?)
    && (forall k :: 0 <= k < |h| - 1 && h[k].Guarded? ==> h[k + 1].Deleting?)
    && (|h| > 0 ==> !h[0].Deleting?)
  }

  /** The deletion at `k` was finished by us. */
  predicate Finished(h: seq<Version>, k: nat)
  {
    k + 1 < |h| && h[k].Deleting?
  }

  /** A later resource gets the finalizer only after we have seen past the deletion of
      an earlier one; and what we finished deleting we had seen being deleted. */
  ghost predicate SeenInOrder(s: State)
  {
    && (forall a, b :: 0 <= a < b < |s.history| && s.history[a].Deleting? && s.history[b].Guarded? ==> a < s.seen)
    && (forall a: nat :: Finished(s.history, a) ==> a <= s.seen)
  }

  ghost predicate PcOk(s: State)
    requires s.history != []
  {
    match s.pc
    case Idle => true
    case Adding(i) => i <= s.seen && forall a: nat :: Finished(s.history, a) ==> a < i
    case Registering(i) => s.Latest().Guarded? || s.Latest().Deleting?
    case Removing(i) => ReadDeletion(s, i)
    case LettingGo(i) => ReadDeletion(s, i) && s.keystone != Object(true)
  }

  ghost predicate ReadDeletion(s: State, i: nat)
  {
    && i <= s.seen && i < |s.history| && s.history[i].Deleting?
    && forall b :: i < b < |s.history| ==> !s.history[b].Guarded?
  }

  ghost predicate Inv(s: State)
  {
    && s.history != [] && s.seen < |s.history|
    && Lawful(s.history) && SeenInOrder(s) && PcOk(s) && NoOrphan(s)
  }

  ghost predicate Init(s: State)
  {
    s.history == [Absent] && s.seen == 0 && s.pc.Idle? && s.keystone != Object(true)
  }

  lemma InvResource(s: State, e: Event)
    requires Inv(s) && Enabled(s, e) && (e.Create? || e.Delete?)
    ensures Inv(Apply(s, e))
  {
    var t := Apply(s, e);
    forall a: nat | Finished(t.history, a) ensures Finished(s.history, a) { }
  }

  lemma InvCatchUp(s: State)
    requires Inv(s) && Enabled(s, CatchUp)
    ensures Inv(Apply(s, CatchUp))
  {
  }

  lemma InvBegin(s: State)
    requires Inv(s) && Enabled(s, Begin)
    ensures Inv(Apply(s, Begin))
  {
    var i, h := s.seen, s.history;
    if h[i].Plain? {
      forall a: nat | Finished(h, a) ensures a < i { assert a <= s.seen; }
    }
    if h[i].Guarded? && i < |h| - 1 {
      assert h[i + 1].Deleting?;
      assert !Finished(h, i + 1);
    }
  }

  lemma InvPersistAdd(s: State)
    requires Inv(s) && Enabled(s, PersistAdd)
    ensures Inv(Apply(s, PersistAdd))
  {
    var t := Apply(s, PersistAdd);
    if s.Latest().Plain? {
      forall a | 0 <= a < |s.history| && s.history[a].Deleting? ensures a < s.seen {
        assert a + 1 < |s.history|;
        assert Finished(s.history, a);
      }
      forall a: nat | Finished(t.history, a) ensures Finished(s.history, a) { }
    }
  }

  /** When we let go of a deleted resource it is the one we read. */
  lemma InvPersistRemove(s: State)
    requires Inv(s) && Enabled(s, PersistRemove)
    ensures Inv(Apply(s, PersistRemove))
  {
    var i, h := s.pc.i, s.history;
    var last := |h| - 1;
    var t := Apply(s, PersistRemove);
    if h[last].Deleting? {
      assert last > 0 && h[last - 1].Guarded?;
      assert i == last;
      forall a: nat | Finished(t.history, a) ensures a <= s.seen {
        if a < last { assert Finished(h, a); }
      }
    }
  }

  /** Every step that is not a hazard keeps the invariant. */
  lemma InvStep(s: State, e: Event)
    requires Inv(s) && Enabled(s, e) && !Hazard(s, e)
    ensures Inv(Apply(s, e))
  {
    match e
    case Begin => InvBegin(s);
    case PersistAdd => InvPersistAdd(s);
    case PersistRemove => InvPersistRemove(s);
    case Register =>
    case Look(_) =>
    case Unguard =>
    case Stop =>
    case DeleteObject =>
    case CatchUp => InvCatchUp(s);
    case _ => InvResource(s, e);
  }

  predicate Run(s: State, es: seq<Event>)
    decreases |es|
  {
    es == [] || (Enabled(s, es[0]) && Run(Apply(s, es[0]), es[1..]))
  }

  predicate SafeRun(s: State, es: seq<Event>)
    decreases |es|
  {
    es == [] || (Enabled(s, es[0]) && !Hazard(s, es[0]) && SafeRun(Apply(s, es[0]), es[1..]))
  }

  function After(s: State, es: seq<Event>): State
    requires Run(s, es)
    decreases |es|
  {
    if es == [] then s else After(Apply(s, es[0]), es[1..])
  }

  lemma {:induction false} InvRun(s: State, es: seq<Event>)
    requires Inv(s) && SafeRun(s, es)
    ensures Run(s, es) && Inv(After(s, es))
    decreases |es|
  {
    if es != [] {
      InvStep(s, es[0]);
      InvRun(Apply(s, es[0]), es[1..]);
    }
  }

  /** In every reachable state, with reconciles that stop anywhere and read old versions,
      and with resources deleted and created anew, no Keystone object is orphaned. */
  lemma NeverOrphaned(s: State, es: seq<Event>)
    requires Init(s) && SafeRun(s, es)
    ensures Run(s, es) && After(s, es).history != [] && NoOrphan(After(s, es))
  {
    InvRun(s, es);
  }

  /** A reconcile that sees a new resource persists the finalizer, and one that sees
      that registers the Keystone object with the finalizer on it. */
  lemma CreationRegisters(s: State)
    requires Inv(s) && s.pc.Idle? && s.Latest().Plain? && s.seen == |s.history| - 1
    ensures Steps(s, [Begin, PersistAdd] + [CatchUp, Begin, Register, Stop],
                  State(s.history + [Guarded], s.seen + 1, Object(true), Idle))
  {
    var h, i := s.history + [Guarded], s.seen;
    var a, t := State(h, i, s.keystone, Idle), State(h, i + 1, Object(true), Idle);
    assert Steps(a, [], a) && Steps(t, [], t);
    Step(s.(pc := Adding(i)), PersistAdd, a, [], a);
    Step(s, Begin, s.(pc := Adding(i)), [PersistAdd], a);
    Step(t.(pc := Registering(i + 1)), Stop, t, [], t);
    Step(t.(keystone := s.keystone, pc := Registering(i + 1)), Register, t.(pc := Registering(i + 1)), [Stop], t);
    Step(t.(keystone := s.keystone), Begin, t.(keystone := s.keystone, pc := Registering(i + 1)), [Register] + [Stop], t);
    Step(a, CatchUp, t.(keystone := s.keystone), [Begin] + ([Register] + [Stop]), t);
    assert [Begin] + [PersistAdd] == [Begin, PersistAdd];
    assert [CatchUp] + ([Begin] + ([Register] + [Stop])) == [CatchUp, Begin, Register, Stop];
    StepsJoin(s, [Begin, PersistAdd], a, [CatchUp, Begin, Register, Stop], t);
  }

  /** A reconcile that sees the deletion and is answered rightly takes the finalizer off
      the Keystone object, if it is there, and lets the resource go. */
  lemma DeletionCompletes(s: State, view: View)
    requires Inv(s) && s.pc.Idle? && s.Latest().Deleting? && s.seen == |s.history| - 1
    requires s.keystone != Object(true) ==> !view.WithFinalizer?
    ensures Steps(s, [Begin, if s.keystone == Object(true) then Unguard else Look(view), PersistRemove],
                  State(s.history + [Absent], s.seen, if s.keystone == Object(true) then Object(false) else s.keystone, Idle))
  {
    var e, i := if s.keystone == Object(true) then Unguard else Look(view), s.seen;
    var k := if s.keystone == Object(true) then Object(false) else s.keystone;
    var t := State(s.history + [Absent], i, k, Idle);
    assert Steps(t, [], t);
    Step(s.(keystone := k, pc := LettingGo(i)), PersistRemove, t, [], t);
    Step(s.(pc := Removing(i)), e, s.(keystone := k, pc := LettingGo(i)), [PersistRemove], t);
    Step(s, Begin, s.(pc := Removing(i)), [e] + [PersistRemove], t);
    assert [Begin] + ([e] + [PersistRemove]) == [Begin, e, PersistRemove];
  }

  /** Going by a wrong answer about the Keystone object orphans it, going by a right one
      does not. */
  lemma WrongAnswerOrphans(s: State, view: View)
    requires Inv(s) && s.pc.Removing? && s.Latest().Deleting? && !view.WithFinalizer?
    ensures var t := Apply(s, Look(view));
            Hazard(s, Look(view)) <==> !NoOrphan(Apply(t, PersistRemove))
  {
  }

  /** A cache that has not seen the Keystone object yet gives such an answer. */
  lemma StaleLookOrphans() returns (es: seq<Event>)
    ensures Init(START) && Run(START, es) && After(START, es).history != [] && !NoOrphan(After(START, es))
    ensures forall e :: e in es && e.Look? ==> e == Look(NotThere)
  {
    es := GUARD + (REGISTER + LET_GO);
    TakesHold();
    Registers();
    LetsGo();
    StepsJoin(GUARDED, REGISTER, REGISTERED, LET_GO, ORPHANED);
    StepsJoin(START, GUARD, GUARDED, REGISTER + LET_GO, ORPHANED);
    assert Steps(START, es, ORPHANED);
    assert forall e :: e in es <==> e in GUARD || e in REGISTER || e in LET_GO;
  }

  const START := State([Absent], 0, NoObject, Idle)
  const GUARDED := State([Absent, Plain, Guarded], 1, NoObject, Idle)
  const REGISTERED := State([Absent, Plain, Guarded], 2, Object(true), Idle)
  const ORPHANED := State([Absent, Plain, Guarded, Deleting, Absent], 3, Object(true), Idle)

  const GUARD := [Create, CatchUp, Begin, PersistAdd]
  const REGISTER := [CatchUp, Begin, Register, Stop]
  const LET_GO := [Delete, CatchUp, Begin, Look(NotThere), PersistRemove]

  ghost predicate Steps(s: State, es: seq<Event>, t: State)
  {
    Run(s, es) && After(s, es) == t
  }

  lemma {:induction false} StepsJoin(s: State, a: seq<Event>, t: State, b: seq<Event>, u: State)
    requires Steps(s, a, t) && Steps(t, b, u)
    ensures Steps(s, a + b, u)
    decreases |a|
  {
    if a == [] {
      assert a + b == b;
    } else {
      assert (a + b)[1..] == a[1..] + b;
      StepsJoin(Apply(s, a[0]), a[1..], t, b, u);
    }
  }

  lemma Step(s: State, e: Event, t: State, es: seq<Event>, u: State)
    requires Enabled(s, e) && Apply(s, e) == t && Steps(t, es, u)
    ensures Steps(s, [e] + es, u)
  {
    assert ([e] + es)[1..] == es;
  }

  lemma TakesHold()
    ensures Steps(START, GUARD, GUARDED)
  {
    var h, es := [Absent, Plain], GUARD;
    assert Steps(GUARDED, [], GUARDED);
    Step(State(h, 1, NoObject, Adding(1)), PersistAdd, GUARDED, [], GUARDED);
    Step(State(h, 1, NoObject, Idle), Begin, State(h, 1, NoObject, Adding(1)), es[3..], GUARDED);
    Step(State(h, 0, NoObject, Idle), CatchUp, State(h, 1, NoObject, Idle), es[2..], GUARDED);
    Step(START, Create, State(h, 0, NoObject, Idle), es[1..], GUARDED);
    assert es == [Create] + es[1..];
  }

  lemma Registers()
    ensures Steps(GUARDED, REGISTER, REGISTERED)
  {
    var h, es := GUARDED.history, REGISTER;
    assert Steps(REGISTERED, [], REGISTERED);
    Step(State(h, 2, Object(true), Registering(2)), Stop, REGISTERED, [], REGISTERED);
    Step(State(h, 2, NoObject, Registering(2)), Register, State(h, 2, Object(true), Registering(2)), es[3..], REGISTERED);
    Step(State(h, 2, NoObject, Idle), Begin, State(h, 2, NoObject, Registering(2)), es[2..], REGISTERED);
    Step(GUARDED, CatchUp, State(h, 2, NoObject, Idle), es[1..], REGISTERED);
    assert es == [CatchUp] + es[1..];
  }

  lemma LetsGo()
    ensures Steps(REGISTERED, LET_GO, ORPHANED)
  {
    var h, es := REGISTERED.history + [Deleting], LET_GO;
    assert Steps(ORPHANED, [], ORPHANED);
    Step(State(h, 3, Object(true), LettingGo(3)), PersistRemove, ORPHANED, [], ORPHANED);
    Step(State(h, 3, Object(true), Removing(3)), Look(NotThere), State(h, 3, Object(true), LettingGo(3)), es[4..], ORPHANED);
    Step(State(h, 3, Object(true), Idle), Begin, State(h, 3, Object(true), Removing(3)), es[3..], ORPHANED);
    Step(State(h, 2, Object(true), Idle), CatchUp, State(h, 3, Object(true), Idle), es[2..], ORPHANED);
    Step(REGISTERED, Delete, State(h, 2, Object(true), Idle), es[1..], ORPHANED);
    assert es == [Delete] + es[1..];
  }
}
