/** For each kind of step that `Rotation.Hazard` excludes, exactly when it breaks the
    promise: when something that is still in use refers to a secret the parent does not
    plan to keep.  The condition speaks of the state before the step. */
module RotationExact {
  import opened Wrappers
  import opened Secrets
  import opened InputGroup
  import opened Rotation

  /** The run stays within the current reconcile of the parent. */
  predicate SamePass(es: seq<Rotation.Event>)
  {
    forall i :: 0 <= i < |es| ==> !es[i].Stop?
  }

  /** Whatever happens until this reconcile ends, no secret in use loses its finalizer. */
  ghost predicate SafeThisPass(s: System)
  {
    forall es :: Rotation.SafeRun(s, es) && Run(s, es) && SamePass(es) ==> Protected(Rotation.After(s, es))
  }

  /** Whatever happens from now on, no secret in use loses its finalizer. */
  ghost predicate SafeFromNowOn(s: System)
  {
    forall es :: Rotation.SafeRun(s, es) && Run(s, es) ==> Protected(Rotation.After(s, es))
  }

  /** Everything in use in the group refers to these secrets only. */
  ghost predicate UsesWithin(g: Group, creds: set<Secret>)
  {
    forall v: nat :: v < |g.store| && InUse(g, v) ==> g.store[v].creds <= creds
  }

  /** Everything child `c` runs, rolls out or will roll out does. */
  ghost predicate ChildWithin(g: Group, c: Child, creds: set<Secret>)
    requires c in g.leaves
  {
    forall v: nat :: v < |g.store| && LeafUses(g.leaves[c], v) ==> g.store[v].creds <= creds
  }

  // ---- what the plan covers stays covered -----------------------------------

  ghost predicate GroupCovered(g: Group, creds: set<Secret>)
  {
    0 < |g.store| && Bounded(g) && UsesWithin(g, creds)
  }

  /** The parent works on the plan, protects it, and nothing else is in use anywhere. */
  ghost predicate Covered(s: System, plan: Plan)
  {
    && (s.parent.Working? || s.parent.Releasing?) && s.parent.plan == plan
    && CredsOf(plan) <= s.held
    && forall g :: g in s.groups ==> GroupCovered(s.groups[g], CredsOf(plan))
  }

  lemma LocalCovered(g: Group, e: InputGroup.Event, creds: set<Secret>)
    requires GroupCovered(g, creds) && InputGroup.Enabled(g, e) && !e.Write?
    ensures GroupCovered(InputGroup.Apply(g, e), creds)
  {
    var h := InputGroup.Apply(g, e);
    BoundedStep(g, e);
    LocalFrame(g, e, 0);
    forall v: nat | v < |h.store| && InUse(h, v) ensures h.store[v].creds <= creds {
      UseIsFromStore(g, e, v);
    }
  }

  lemma WrittenCovered(s: System, g: GroupName, i: Input, creds: set<Secret>)
    requires i.creds <= creds && (g in s.groups ==> GroupCovered(s.groups[g], creds))
    ensures GroupCovered(Written(s, g, i), creds)
  {
    var h := Written(s, g, i);
    if g in s.groups && Current(s.groups[g]) != i {
      BoundedStep(s.groups[g], Write(i));
      forall v: nat | v < |h.store| && InUse(h, v) ensures h.store[v].creds <= creds {
        if v < |s.groups[g].store| { assert InUse(s.groups[g], v); }
      }
    }
  }

  /** Even a hazard does no harm within the reconcile once the plan covers all uses. */
  lemma CoveredStep(s: System, plan: Plan, e: Rotation.Event)
    requires Covered(s, plan) && Rotation.Enabled(s, e) && !e.Stop?
    ensures Covered(Rotation.Apply(s, e), plan)
  {
    match e
    case Local(g, ge) => LocalCovered(s.groups[g], ge, CredsOf(plan));
    case WriteInput(g) =>
      assert forall c :: c in plan[g].creds ==> c in CredsOf(plan);
      WrittenCovered(s, g, plan[g], CredsOf(plan));
    case _ =>
  }

  lemma {:induction false} CoveredRun(s: System, plan: Plan, es: seq<Rotation.Event>)
    requires Covered(s, plan) && Run(s, es) && SamePass(es)
    ensures Protected(Rotation.After(s, es))
    decreases |es|
  {
    if es != [] {
      CoveredStep(s, plan, es[0]);
      CoveredRun(Rotation.Apply(s, es[0]), plan, es[1..]);
    }
  }

  lemma CoveredIsSafe(s: System, plan: Plan)
    requires Covered(s, plan)
    ensures SafeThisPass(s)
  {
    forall es | Rotation.SafeRun(s, es) && Run(s, es) && SamePass(es) ensures Protected(Rotation.After(s, es)) {
      CoveredRun(s, plan, es);
    }
  }

  // ---- what it does not cover is released -----------------------------------

  /** What is safe stays safe after a step that is no hazard. */
  lemma SafeAfter(s: System, e: Rotation.Event)
    requires SafeThisPass(s) && Rotation.Enabled(s, e) && !Rotation.Hazard(s, e) && !e.Stop?
    ensures SafeThisPass(Rotation.Apply(s, e))
  {
    var t := Rotation.Apply(s, e);
    forall es | Rotation.SafeRun(t, es) && Run(t, es) && SamePass(es) ensures Protected(Rotation.After(t, es)) {
      var all := [e] + es;
      assert all[0] == e && all[1..] == es;
      assert Rotation.SafeRun(s, all) && Run(s, all) && SamePass(all);
      assert Rotation.After(s, all) == Rotation.After(t, es);
    }
  }

  lemma SafeIsProtected(s: System)
    requires SafeThisPass(s)
    ensures Protected(s)
  {
    assert Rotation.SafeRun(s, []) && Run(s, []) && SamePass([]) && Rotation.After(s, []) == s;
  }

  /** Where the parent may release, what is safe is covered. */
  lemma SafeIsCovered(s: System, g: GroupName)
    requires SafeThisPass(s) && s.parent.Working? && Rotation.Enabled(s, BeginRelease) && g in s.groups
    ensures UsesWithin(s.groups[g], CredsOf(s.parent.plan))
  {
    var t := Rotation.Apply(s, BeginRelease);
    SafeAfter(s, BeginRelease);
    forall v: nat, c | v < |s.groups[g].store| && InUse(s.groups[g], v) && c in s.groups[g].store[v].creds
      ensures c in CredsOf(s.parent.plan)
    {
      if c !in CredsOf(s.parent.plan) {
        SafeAfter(t, Release(c));
        SafeIsProtected(Rotation.Apply(t, Release(c)));
      }
    }
  }

  /** The general result, of which the hazards are cases: in a state in which the parent
      may release, however it came about, the rest of the reconcile is safe exactly when
      everything in use lies within the plan. */
  lemma ReleaseIsSafeIff(s: System)
    requires s.parent.Working? && Rotation.Enabled(s, BeginRelease) && CredsOf(s.parent.plan) <= s.held
    requires forall g :: g in s.groups ==> 0 < |s.groups[g].store| && Bounded(s.groups[g])
    ensures SafeThisPass(s) <==> forall g :: g in s.groups ==> UsesWithin(s.groups[g], CredsOf(s.parent.plan))
  {
    if SafeThisPass(s) {
      forall g | g in s.groups ensures UsesWithin(s.groups[g], CredsOf(s.parent.plan)) { SafeIsCovered(s, g); }
    }
    if forall g :: g in s.groups ==> UsesWithin(s.groups[g], CredsOf(s.parent.plan)) {
      CoveredIsSafe(s, s.parent.plan);
    }
  }

  /** A group that follows the plan is covered by it. */
  lemma AtIsCovered(s: System, g: GroupName)
    requires Rotation.Inv(s) && s.parent.Working? && At(s, s.parent.plan, g)
    ensures GroupCovered(s.groups[g], CredsOf(s.parent.plan))
  {
    var o, plan := s.groups[g], s.parent.plan;
    InvIsBounded(o);
    forall v: nat | v < |o.store| && InUse(o, v) ensures o.store[v].creds <= CredsOf(plan) {
      UseIsCurrent(o, v);
      assert forall c :: c in plan[g].creds ==> c in CredsOf(plan);
    }
  }

  // ---- the refused deletion of a cell ---------------------------------------

  function Without(s: System, g: GroupName): System {
    s.(groups := s.groups - {g})
  }

  /** Group `g` is left over, the rest is as it should be. */
  ghost predicate LeftOver(s: System, g: GroupName, plan: Plan)
  {
    && (s.parent.Working? || s.parent.Releasing?) && s.parent.plan == plan
    && g in s.groups && g !in plan && CredsOf(plan) <= s.held
    && InputGroup.Inv(s.groups[g]) && GroupCovered(s.groups[g], CredsOf(plan))
    && Rotation.Inv(Without(s, g))
  }

  lemma LeftOverIsProtected(s: System, g: GroupName, plan: Plan)
    requires LeftOver(s, g, plan)
    ensures Protected(s)
  {
    forall h, v: nat | h in s.groups && v < |s.groups[h].store| && InUse(s.groups[h], v)
      ensures s.groups[h].store[v].creds <= s.held
    {
      if h != g { assert h in Without(s, g).groups; }
    }
  }

  /** The step is not about `g`. */
  predicate Elsewhere(e: Rotation.Event, g: GroupName) {
    !(e.Local? && e.g == g) && !(e.DropGroup? && e.g == g) && !(e.WriteInput? && e.g == g)
  }

  /** A step elsewhere is a step of the rest. */
  lemma RestAllows(s: System, g: GroupName, e: Rotation.Event)
    requires g in s.groups && Rotation.Enabled(s, e) && Elsewhere(e, g)
    requires e.SeeApplied? ==> e.g != g
    ensures Rotation.Enabled(Without(s, g), e)
    ensures Rotation.Hazard(Without(s, g), e) == Rotation.Hazard(s, e)
  {
  }

  lemma RestCommutes(s: System, g: GroupName, e: Rotation.Event)
    requires g in s.groups && Rotation.Enabled(s, e) && Elsewhere(e, g)
    requires e.SeeApplied? ==> e.g != g
    ensures Rotation.Enabled(Without(s, g), e)
    ensures Without(Rotation.Apply(s, e), g) == Rotation.Apply(Without(s, g), e)
    ensures g in Rotation.Apply(s, e).groups && Rotation.Apply(s, e).groups[g] == s.groups[g]
  {
    RestAllows(s, g, e);
    assert Without(Rotation.Apply(s, e), g).groups == Rotation.Apply(Without(s, g), e).groups;
  }

  lemma RestStep(s: System, g: GroupName, plan: Plan, e: Rotation.Event)
    requires LeftOver(s, g, plan) && Rotation.Enabled(s, e) && !Rotation.Hazard(s, e)
    requires !e.Stop? && Elsewhere(e, g)
    ensures LeftOver(Rotation.Apply(s, e), g, plan)
  {
    RestAllows(s, g, e);
    RestCommutes(s, g, e);
    InvSystemStep(Without(s, g), e);
  }

  lemma LeftOverStep(s: System, g: GroupName, plan: Plan, e: Rotation.Event)
    requires LeftOver(s, g, plan) && Rotation.Enabled(s, e) && !Rotation.Hazard(s, e)
    ensures LeftOver(Rotation.Apply(s, e), g, plan) || Rotation.Inv(Rotation.Apply(s, e))
  {
    var t := Rotation.Apply(s, e);
    if e.Stop? {
      LeftOverIsProtected(s, g, plan);
      forall h | h in t.groups ensures 0 < |t.groups[h].store| && InputGroup.Inv(t.groups[h]) {
        if h != g { assert h in Without(s, g).groups; }
      }
    } else if e.Local? && e.g == g {
      InvStep(s.groups[g], e.e);
      LocalCovered(s.groups[g], e.e, CredsOf(plan));
      assert Without(t, g).groups == Without(s, g).groups;
    } else if e.DropGroup? && e.g == g {
      InvSystemStep(Without(s, g), e);
      assert Rotation.Apply(Without(s, g), e).groups == t.groups;
    } else {
      RestStep(s, g, plan, e);
    }
  }

  lemma {:induction false} LeftOverRun(s: System, g: GroupName, plan: Plan, es: seq<Rotation.Event>)
    requires LeftOver(s, g, plan) && Rotation.SafeRun(s, es) && Run(s, es)
    ensures Protected(Rotation.After(s, es))
    decreases |es|
  {
    if es == [] {
      LeftOverIsProtected(s, g, plan);
    } else {
      var t := Rotation.Apply(s, es[0]);
      LeftOverStep(s, g, plan, es[0]);
      if Rotation.Inv(t) { InvSafeRun(t, es[1..]); } else { LeftOverRun(t, g, plan, es[1..]); }
    }
  }

  /** Treating a cell as gone whose deletion was refused, when all else is ready: every
      later run - of this and of all later reconciles - is safe exactly when everything
      still in use in that cell refers only to secrets that Nova keeps. */
  lemma RefusedCellIsSafeIff(s: System, g: GroupName)
    requires Rotation.Inv(s) && s.parent.Working? && g in s.groups && g !in s.parent.plan
    requires s.parent.plan.Keys <= s.parent.ok
    requires s.groups.Keys - s.parent.gone <= s.parent.plan.Keys + {g}
    ensures Rotation.Enabled(s, DropGroup(g, false)) && Rotation.Hazard(s, DropGroup(g, false))
    ensures SafeFromNowOn(Rotation.Apply(s, DropGroup(g, false))) <==>
            UsesWithin(s.groups[g], CredsOf(s.parent.plan))
  {
    var plan, t := s.parent.plan, Rotation.Apply(s, DropGroup(g, false));
    if SafeFromNowOn(t) {
      assert SafeThisPass(t);
      SafeIsCovered(t, g);
    }
    if UsesWithin(s.groups[g], CredsOf(plan)) {
      InvSystemStep(s, DropGroup(g, true));
      assert Without(t, g) == Rotation.Apply(s, DropGroup(g, true));
      InvIsBounded(s.groups[g]);
      assert LeftOver(t, g, plan);
      forall es | Rotation.SafeRun(t, es) && Run(t, es) ensures Protected(Rotation.After(t, es)) {
        LeftOverRun(t, g, plan, es);
      }
    }
  }

  // ---- a value that was used before -----------------------------------------

  /** All groups are in the plan and all but `g` follow it already. */
  ghost predicate AllReadyBut(s: System, g: GroupName)
  {
    && Rotation.Inv(s) && s.parent.Working? && g in s.groups && g in s.parent.plan
    && s.parent.plan.Keys - {g} <= s.parent.ok
    && s.groups.Keys <= s.parent.plan.Keys
  }

  lemma OthersCovered(s: System, g: GroupName, h: GroupName)
    requires AllReadyBut(s, g) && h in s.groups && h != g
    ensures GroupCovered(s.groups[h], CredsOf(s.parent.plan))
  {
    assert At(s, s.parent.plan, h);
    AtIsCovered(s, h);
  }

  /** The latest value can always still be read. */
  lemma CurrentIsInUse(g: Group)
    requires 0 < |g.store| && Bounded(g)
    ensures InUse(g, |g.store| - 1)
  {
  }

  /** Once `g` has been reported to apply the planned value the parent may release, so
      that what is safe is covered. */
  lemma SafeOnceApplied(s: System, g: GroupName, w: nat)
    requires SafeThisPass(s) && s.parent.Working? && g in s.groups && g in s.parent.plan && g in s.parent.written
    requires s.parent.plan.Keys - {g} <= s.parent.ok && s.groups.Keys <= s.parent.plan.Keys
    requires w in s.groups[g].applied && w < |s.groups[g].store| && s.groups[g].store[w] == s.parent.plan[g]
    ensures UsesWithin(s.groups[g], CredsOf(s.parent.plan))
  {
    SafeAfter(s, SeeApplied(g, w));
    SafeIsCovered(Rotation.Apply(s, SeeApplied(g, w)), g);
  }

  /** Writing a value the group was once reported to apply, when all else is ready: the
      rest of the reconcile is safe exactly when everything in use in the group refers
      only to secrets of the plan.  That includes the value that is replaced, so it is
      never safe to rotate back away from a secret that the plan does not keep. */
  lemma ReuseIsSafeIff(s: System, g: GroupName, w: nat)
    requires AllReadyBut(s, g) && Current(s.groups[g]) != s.parent.plan[g]
    requires w in s.groups[g].applied && w < |s.groups[g].store| && s.groups[g].store[w] == s.parent.plan[g]
    ensures Rotation.Enabled(s, WriteInput(g)) && Rotation.Hazard(s, WriteInput(g))
    ensures SafeThisPass(Rotation.Apply(s, WriteInput(g))) <==> UsesWithin(s.groups[g], CredsOf(s.parent.plan))
    ensures UsesWithin(s.groups[g], CredsOf(s.parent.plan)) ==> Current(s.groups[g]).creds <= CredsOf(s.parent.plan)
  {
    var plan, t := s.parent.plan, Rotation.Apply(s, WriteInput(g));
    var o, p := s.groups[g], t.groups[g];
    InvIsBounded(o);
    CurrentIsInUse(o);
    if SafeThisPass(t) {
      SafeOnceApplied(t, g, w);
      forall v: nat | v < |o.store| && InUse(o, v) ensures o.store[v].creds <= CredsOf(plan) {
        assert InUse(p, v) && p.store[v] == o.store[v];
      }
    }
    if UsesWithin(o, CredsOf(plan)) {
      assert forall c :: c in plan[g].creds ==> c in CredsOf(plan);
      WrittenCovered(s, g, plan[g], CredsOf(plan));
      forall h | h in t.groups ensures GroupCovered(t.groups[h], CredsOf(plan)) {
        if h != g { OthersCovered(s, g, h); }
      }
      CoveredIsSafe(t, plan);
    }
  }

  // ---- a child that is left over --------------------------------------------

  /** Group `g` holds the planned value, which its collector is collecting for. */
  ghost predicate Collects(s: System, g: GroupName)
  {
    && AllReadyBut(s, g) && g in s.parent.written
    && s.groups[g].collector.Collecting? && s.groups[g].collector.v == |s.groups[g].store| - 1
  }

  /** A confirmed child uses nothing that renders differently from the current value. */
  lemma ConfirmedUse(g: Group, c: Child, v: nat)
    requires InputGroup.Inv(g) && 0 < |g.store| && (c, |g.store| - 1) in g.reported && c in g.leaves
    requires v < |g.store| && LeafUses(g.leaves[c], v)
    ensures g.store[v].creds == Current(g).creds
  {
    var last := |g.store| - 1;
    assert LeafAt(g, c, last) && LeafOk(g, c);
    if g.leaves[c].pc.Idle? || g.leaves[c].pc.v != v { assert Newer(g.store, last, v); }
  }

  /** If all children but `d` are confirmed the group is covered iff `d` is. */
  lemma CoveredButOne(g: Group, d: Child, creds: set<Secret>, confirmed: set<Child>)
    requires InputGroup.Inv(g) && 0 < |g.store| && d in g.leaves && confirmed != {}
    requires forall c :: c in confirmed ==> (c, |g.store| - 1) in g.reported
    requires g.leaves.Keys <= confirmed + {d} && Current(g).creds <= creds
    ensures UsesWithin(g, creds) <==> ChildWithin(g, d, creds)
  {
    var last := |g.store| - 1;
    var some :| some in confirmed;
    assert (some, last) in g.reported;
    if UsesWithin(g, creds) {
      forall v: nat | v < |g.store| && LeafUses(g.leaves[d], v) ensures g.store[v].creds <= creds {
        assert InUse(g, v);
      }
    }
    if ChildWithin(g, d, creds) {
      forall v: nat | v < |g.store| && InUse(g, v) ensures g.store[v].creds <= creds {
        if g.cache > v + 1 {
          var c :| c in g.leaves && LeafUses(g.leaves[c], v);
          if c != d { ConfirmedUse(g, c, v); }
        }
      }
    }
  }

  /** The steps that follow once nothing but the confirmed spec is known. */
  lemma SafeOncePublished(s: System, g: GroupName)
    requires SafeThisPass(s) && s.parent.Working? && g in s.groups && g in s.parent.plan && g in s.parent.written
    requires s.parent.plan.Keys - {g} <= s.parent.ok && s.groups.Keys <= s.parent.plan.Keys
    requires InputGroup.Enabled(s.groups[g], CollectPublish) && s.groups[g].collector.v < |s.groups[g].store|
    requires s.groups[g].store[s.groups[g].collector.v] == s.parent.plan[g]
    ensures UsesWithin(s.groups[g], CredsOf(s.parent.plan))
  {
    var e := Local(g, CollectPublish);
    var t := Rotation.Apply(s, e);
    SafeAfter(s, e);
    SafeOnceApplied(t, g, s.groups[g].collector.v);
    forall v: nat | v < |s.groups[g].store| && InUse(s.groups[g], v)
      ensures s.groups[g].store[v].creds <= CredsOf(s.parent.plan)
    {
      assert InUse(t.groups[g], v);
    }
  }

  /** Within group `g` a step that changes no uses leaves the system covered. */
  lemma CoveredAfterLocal(s: System, g: GroupName, e: InputGroup.Event)
    requires AllReadyBut(s, g) && InputGroup.Enabled(s.groups[g], e) && !e.Write?
    requires UsesWithin(s.groups[g], CredsOf(s.parent.plan))
    ensures SafeThisPass(Rotation.Apply(s, Local(g, e)))
  {
    var plan, t := s.parent.plan, Rotation.Apply(s, Local(g, e));
    InvIsBounded(s.groups[g]);
    LocalCovered(s.groups[g], e, CredsOf(plan));
    forall h | h in t.groups ensures GroupCovered(t.groups[h], CredsOf(plan)) {
      if h != g { OthersCovered(s, g, h); }
    }
    CoveredIsSafe(t, plan);
  }

  /** Treating a child as gone that is not, when all else is confirmed: the rest of the
      reconcile is safe exactly when that child uses only secrets of the plan. */
  lemma SwallowedDeletionIsSafeIff(s: System, g: GroupName, d: Child)
    requires Collects(s, g)
    requires var q := s.groups[g].collector;
             d in s.groups[g].leaves && d in q.known - q.spec && q.known - {d} <= q.spec <= q.confirmed
    ensures var e := Local(g, CollectDelete(d, false));
            && Rotation.Enabled(s, e) && Rotation.Hazard(s, e)
            && (SafeThisPass(Rotation.Apply(s, e)) <==> ChildWithin(s.groups[g], d, CredsOf(s.parent.plan)))
  {
    var o, plan := s.groups[g], s.parent.plan;
    var t := Rotation.Apply(s, Local(g, CollectDelete(d, false)));
    assert Current(o) == plan[g];
    assert forall c :: c in plan[g].creds ==> c in CredsOf(plan);
    CoveredButOne(o, d, CredsOf(plan), o.collector.spec);
    if SafeThisPass(t) {
      SafeOncePublished(t, g);
      forall v: nat | v < |o.store| && InUse(o, v) ensures o.store[v].creds <= CredsOf(plan) {
        assert InUse(t.groups[g], v);
      }
    }
    if ChildWithin(o, d, CredsOf(plan)) { CoveredAfterLocal(s, g, CollectDelete(d, false)); }
  }

  // ---- a compute that was never recorded ------------------------------------

  /** A collector that knows nothing beyond its spec and has reports of all of it, while
      child `d` runs on. */
  ghost predicate Reporting(s: System, g: GroupName, d: Child, spec: set<Child>)
  {
    && s.parent.Working? && g in s.groups && g in s.parent.plan && g in s.parent.written
    && s.parent.plan.Keys - {g} <= s.parent.ok && s.groups.Keys <= s.parent.plan.Keys
    && 0 < |s.groups[g].store| && Current(s.groups[g]) == s.parent.plan[g]
    && s.groups[g].collector.Collecting? && s.groups[g].collector.v == |s.groups[g].store| - 1
    && s.groups[g].collector.spec == spec && s.groups[g].collector.known <= spec
    && (forall c :: c in spec ==> (c, |s.groups[g].store| - 1) in s.groups[g].reported)
    && d in s.groups[g].leaves
  }

  /** Ensuring and seeing one child of the spec. */
  lemma SeeOne(s: System, g: GroupName, d: Child, spec: set<Child>, c: Child) returns (t: System)
    requires SafeThisPass(s) && Reporting(s, g, d, spec) && c in spec
    ensures SafeThisPass(t) && Reporting(t, g, d, spec) && t.parent == s.parent
    ensures t.groups[g].store == s.groups[g].store && t.groups[g].leaves[d] == s.groups[g].leaves[d]
    ensures t.groups[g].collector.confirmed == s.groups[g].collector.confirmed + {c}
  {
    var e, w := Local(g, CollectEnsure(c)), |s.groups[g].store| - 1;
    t := Rotation.Apply(s, e);
    SafeAfter(s, e);
    var f := Local(g, CollectSee(c, w));
    SafeAfter(t, f);
    t := Rotation.Apply(t, f);
  }

  lemma {:induction false} SeeAll(s: System, g: GroupName, d: Child, spec: set<Child>, left: set<Child>)
    requires SafeThisPass(s) && Reporting(s, g, d, spec) && left <= spec
    requires spec - left <= s.groups[g].collector.confirmed
    ensures ChildWithin(s.groups[g], d, CredsOf(s.parent.plan))
    decreases |left|
  {
    if left == {} {
      SafeOncePublished(s, g);
      forall v: nat | v < |s.groups[g].store| && LeafUses(s.groups[g].leaves[d], v)
        ensures s.groups[g].store[v].creds <= CredsOf(s.parent.plan)
      {
        assert InUse(s.groups[g], v);
      }
    } else {
      var c :| c in left;
      var t := SeeOne(s, g, d, spec, c);
      SeeAll(t, g, d, spec, left - {c});
    }
  }

  /** Dropping from the spec a compute that was never recorded, when all else has applied
      the current value: the rest of the reconcile is safe exactly when that compute uses
      only secrets of the plan. */
  lemma ForgottenChildIsSafeIff(s: System, g: GroupName, d: Child, spec: set<Child>)
    requires AllReadyBut(s, g) && g in s.parent.written
    requires var o := s.groups[g];
             && o.collector.Waiting? && spec != {}
             && d in o.leaves && d.Compute? && d !in o.recorded + spec
             && o.recorded + Standing(o) <= spec && o.leaves.Keys <= spec + {d}
             && forall c :: c in spec ==> (c, |o.store| - 1) in o.reported
    ensures var e := Local(g, CollectStart(|s.groups[g].store| - 1, spec));
            && Rotation.Enabled(s, e) && Rotation.Hazard(s, e)
            && (SafeThisPass(Rotation.Apply(s, e)) <==> ChildWithin(s.groups[g], d, CredsOf(s.parent.plan)))
  {
    var o, plan := s.groups[g], s.parent.plan;
    var e := CollectStart(|o.store| - 1, spec);
    var t := Rotation.Apply(s, Local(g, e));
    assert Current(o) == plan[g];
    assert forall c :: c in plan[g].creds ==> c in CredsOf(plan);
    CoveredButOne(o, d, CredsOf(plan), spec);
    if SafeThisPass(t) {
      assert Reporting(t, g, d, spec);
      SeeAll(t, g, d, spec, spec);
    }
    if ChildWithin(o, d, CredsOf(plan)) { CoveredAfterLocal(s, g, e); }
  }
}
