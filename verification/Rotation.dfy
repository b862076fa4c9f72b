/** The rotation protocol of a parent reconciler.

    The parent derives one input secret per group from its spec, protects every
    credential secret the derived inputs reference with a consumer finalizer before
    it writes them, and releases finalizers only in a reconcile in which every group
    has confirmed the value written in that same reconcile.  A reconcile may stop
    after any of its steps. */
module Rotation {
  import opened Wrappers
  import opened Secrets
  import opened InputGroup

  type GroupName = string
  type Plan = map<GroupName, Input>

  datatype Parent =
    | Idle
    | Protecting(plan: Plan)
    | Working(plan: Plan, written: set<GroupName>, ok: set<GroupName>, gone: set<GroupName>)
    | Releasing(plan: Plan)

  datatype System = System(groups: map<GroupName, Group>, held: set<Secret>, parent: Parent)

  datatype Event =
    | Local(g: GroupName, e: InputGroup.Event)      // any step inside a group but a write
    | Start(plan: Plan)
    | Protect(s: Secret)
    | BeginWork
    | WriteInput(g: GroupName)
    | SeeApplied(g: GroupName, w: nat)
    | DropGroup(g: GroupName, removed: bool)
    | BeginRelease
    | Release(s: Secret)
    | Stop                                          // finished, failed or crashed

  function CredsOf(plan: Plan): set<Secret> {
    set g, s | g in plan && s in plan[g].creds :: s
  }

  predicate Enabled(s: System, e: Event)
  {
    match e
    case Local(g, ge) => g in s.groups && !ge.Write? && InputGroup.Enabled(s.groups[g], ge)
    case Start(_) => s.parent.Idle?
    case Protect(_) => s.parent.Protecting?
    case BeginWork => s.parent.Protecting? && CredsOf(s.parent.plan) <= s.held
    case WriteInput(g) =>
      && s.parent.Working? && g in s.parent.plan
      && (g in s.groups ==> 0 < |s.groups[g].store|)
    case SeeApplied(g, w) =>
      && s.parent.Working? && g in s.parent.written && g in s.parent.plan && g in s.groups
      && w in s.groups[g].applied && w < |s.groups[g].store|
      && s.groups[g].store[w] == s.parent.plan[g]      // equality of hashes
    case DropGroup(g, _) => s.parent.Working? && g !in s.parent.plan
    case BeginRelease =>
      && s.parent.Working? && s.parent.plan.Keys <= s.parent.ok
      && s.groups.Keys - s.parent.gone <= s.parent.plan.Keys
    case Release(c) => s.parent.Releasing? && c !in CredsOf(s.parent.plan)
    case Stop => true
  }

  /** Writing a value the secret already holds changes nothing. */
  function Written(s: System, g: GroupName, i: Input): Group
    requires g in s.groups ==> 0 < |s.groups[g].store|
  {
    if g !in s.groups then Created(i)
    else if Current(s.groups[g]) == i then s.groups[g]
    else InputGroup.Apply(s.groups[g], Write(i))
  }

  function Apply(s: System, e: Event): System
    requires Enabled(s, e)
  {
    match e
    case Local(g, ge) => s.(groups := s.groups[g := InputGroup.Apply(s.groups[g], ge)])
    case Start(plan) => s.(parent := Protecting(plan))
    case Protect(c) => s.(held := s.held + {c})
    case BeginWork => s.(parent := Working(s.parent.plan, {}, {}, {}))
    case WriteInput(g) =>
      s.(groups := s.groups[g := Written(s, g, s.parent.plan[g])],
         parent := s.parent.(written := s.parent.written + {g}))
    case SeeApplied(g, _) => s.(parent := s.parent.(ok := s.parent.ok + {g}))
    case DropGroup(g, removed) =>
      s.(groups := if removed then s.groups - {g} else s.groups,
         parent := s.parent.(gone := s.parent.gone + {g}))
    case BeginRelease => s.(parent := Releasing(s.parent.plan))
    case Release(c) => s.(held := s.held - {c})
    case Stop => s.(parent := Parent.Idle)
  }

  predicate Hazard(s: System, e: Event)
  {
    match e
    case Local(g, ge) => g in s.groups && InputGroup.Hazard(s.groups[g], ge)
    case WriteInput(g) =>
      && s.parent.Working? && g in s.parent.plan && g in s.groups && 0 < |s.groups[g].store|
      && Current(s.groups[g]) != s.parent.plan[g]
      && InputGroup.Hazard(s.groups[g], Write(s.parent.plan[g]))
    case DropGroup(g, removed) => !removed && g in s.groups
    case _ => false
  }

  // ---- the promise ----------------------------------------------------------

  /** Version `v` can still be read from the cache, is being rolled out, or runs. */
  predicate InUse(g: Group, v: nat)
  {
    || g.cache <= v + 1
    || exists c :: c in g.leaves && LeafUses(g.leaves[c], v)
  }

  predicate LeafUses(leaf: Leaf, v: nat)
  {
    || (!leaf.pc.Idle? && leaf.pc.v == v)
    || leaf.template == Some(v)
    || v in leaf.pods
  }

  /** Every credential secret referenced by an input in use carries the finalizer. */
  ghost predicate Protected(s: System)
  {
    forall g, v: nat :: g in s.groups && v < |s.groups[g].store| && InUse(s.groups[g], v) ==>
      s.groups[g].store[v].creds <= s.held
  }

  /** Every pod of every group runs the configuration rendered from the plan. */
  ghost predicate Converged(s: System, plan: Plan)
  {
    forall g :: g in s.groups ==>
      && g in plan && 0 < |s.groups[g].store| && Current(s.groups[g]) == plan[g]
      && forall c, k :: c in s.groups[g].leaves && 0 <= k < |s.groups[g].leaves[c].pods| ==>
           && s.groups[g].leaves[c].pods[k] < |s.groups[g].store|
           && s.groups[g].store[s.groups[g].leaves[c].pods[k]].Render() == plan[g].Render()
  }

  /** Group `g` holds the planned value and nothing in it falls behind that. */
  ghost predicate At(s: System, plan: Plan, g: GroupName)
  {
    && g in s.groups && g in plan
    && 0 < |s.groups[g].store| && Current(s.groups[g]) == plan[g]
    && AllAt(s.groups[g], |s.groups[g].store| - 1)
  }

  ghost predicate ParentOk(s: System)
  {
    match s.parent
    case Idle => true
    case Protecting(_) => true
    case Working(plan, written, ok, gone) =>
      && CredsOf(plan) <= s.held
      && gone !! s.groups.Keys && gone !! plan.Keys
      && (forall g :: g in written ==>
            && g in s.groups && g in plan && 0 < |s.groups[g].store| && Current(s.groups[g]) == plan[g])
      && (forall g :: g in ok ==> At(s, plan, g))
    case Releasing(plan) =>
      && CredsOf(plan) <= s.held
      && (forall g :: g in s.groups ==> At(s, plan, g))
  }

  ghost predicate Inv(s: System)
  {
    && (forall g :: g in s.groups ==> 0 < |s.groups[g].store| && InputGroup.Inv(s.groups[g]))
    && Protected(s)
    && ParentOk(s)
  }

  ghost predicate Init(s: System)
  {
    s.groups == map[] && s.parent.Idle?
  }

  // ---- proofs ---------------------------------------------------------------

  lemma UseIsFromStore(g: Group, e: InputGroup.Event, v: nat)
    requires Bounded(g) && InputGroup.Enabled(g, e) && !e.Write?
    requires v < |g.store| && InUse(InputGroup.Apply(g, e), v)
    ensures InUse(g, v)
  {
    var h := InputGroup.Apply(g, e);
    if h.cache > v + 1 {
      var c :| c in h.leaves && LeafUses(h.leaves[c], v);
      if c in g.leaves { assert BoundedLeaf(g, c); }
      if e.PodReplace? && c == e.c && v in h.leaves[c].pods {
        assert v in g.leaves[c].pods || g.leaves[c].template == Some(v);
      }
      if !e.LeafRead? || c != e.c {
        assert c in g.leaves && LeafUses(g.leaves[c], v);
      }
    }
  }

  /** Inside a group nothing but a write changes the secret, and that `w` was
      reported makes no difference to any step. */
  lemma LocalFrame(g: Group, e: InputGroup.Event, w: nat)
    requires InputGroup.Enabled(g, e) && !e.Write?
    ensures InputGroup.Apply(g, e).store == g.store
    ensures var g' := g.(applied := g.applied + {w});
            && InputGroup.Enabled(g', e)
            && InputGroup.Hazard(g', e) == InputGroup.Hazard(g, e)
            && var h := InputGroup.Apply(g, e);
               InputGroup.Apply(g', e) == h.(applied := h.applied + {w})
  {
  }

  lemma SameAt(g: Group, h: Group, w: nat)
    requires g.store == h.store && g.leaves == h.leaves && g.cache == h.cache && AllAt(g, w)
    ensures AllAt(h, w)
  {
  }

  lemma RegardAsApplied(g: Group, w: nat)
    requires InputGroup.Inv(g) && AllAt(g, w)
    ensures InputGroup.Inv(g.(applied := g.applied + {w}))
  {
  }

  lemma LocalKeepsAllAt(g: Group, e: InputGroup.Event, w: nat)
    requires InputGroup.Inv(g) && InputGroup.Enabled(g, e) && !InputGroup.Hazard(g, e) && !e.Write?
    requires AllAt(g, w)
    ensures AllAt(InputGroup.Apply(g, e), w)
  {
    var g' := g.(applied := g.applied + {w});
    RegardAsApplied(g, w);
    LocalFrame(g, e, w);
    InvStep(g', e);
    SameAt(InputGroup.Apply(g', e), InputGroup.Apply(g, e), w);
  }

  /** Replacing a group by one with the same secret in which nothing new is in use. */
  lemma ReplaceGroup(s: System, g: GroupName, h: Group)
    requires Inv(s) && g in s.groups
    requires InputGroup.Inv(h) && h.store == s.groups[g].store
    requires forall v: nat :: v < |h.store| && InUse(h, v) ==> InUse(s.groups[g], v)
    requires AllAt(s.groups[g], |h.store| - 1) ==> AllAt(h, |h.store| - 1)
    ensures Inv(s.(groups := s.groups[g := h]))
  {
    var t := s.(groups := s.groups[g := h]);
    forall k, v: nat | k in t.groups && v < |t.groups[k].store| && InUse(t.groups[k], v)
      ensures t.groups[k].store[v].creds <= t.held
    {
      assert InUse(s.groups[k], v);
    }
    forall plan, k | At(s, plan, k) ensures At(t, plan, k) { }
    ReplacedParentOk(s, t);
  }

  lemma ReplacedParentOk(s: System, t: System)
    requires ParentOk(s) && s.parent == t.parent && s.held == t.held && s.groups.Keys == t.groups.Keys
    requires forall g :: g in s.groups ==> s.groups[g].store == t.groups[g].store
    requires forall plan, k :: At(s, plan, k) ==> At(t, plan, k)
    ensures ParentOk(t)
  {
  }

  lemma InvLocal(s: System, g: GroupName, e: InputGroup.Event)
    requires Inv(s) && Enabled(s, Local(g, e)) && !Hazard(s, Local(g, e))
    ensures Inv(Apply(s, Local(g, e)))
  {
    var h := InputGroup.Apply(s.groups[g], e);
    InvStep(s.groups[g], e);
    InvIsBounded(s.groups[g]);
    LocalFrame(s.groups[g], e, 0);
    if AllAt(s.groups[g], |h.store| - 1) { LocalKeepsAllAt(s.groups[g], e, |h.store| - 1); }
    forall v: nat | v < |h.store| && InUse(h, v) ensures InUse(s.groups[g], v) {
      UseIsFromStore(s.groups[g], e, v);
    }
    ReplaceGroup(s, g, h);
  }

  lemma InvWritten(s: System, g: GroupName)
    requires Inv(s) && Enabled(s, WriteInput(g)) && !Hazard(s, WriteInput(g))
    ensures var h := Written(s, g, s.parent.plan[g]);
            && InputGroup.Inv(h) && 0 < |h.store| && Current(h) == s.parent.plan[g]
            && (g in s.parent.ok ==> h == s.groups[g])
  {
    var plan := s.parent.plan;
    if g !in s.groups {
      InvCreated(plan[g]);
    } else if Current(s.groups[g]) != plan[g] {
      InvWrite(s.groups[g], plan[g]);
    }
    if g in s.parent.ok { assert At(s, plan, g); }
  }

  lemma WriteKeepsProtected(s: System, g: GroupName)
    requires Inv(s) && Enabled(s, WriteInput(g))
    ensures Protected(Apply(s, WriteInput(g)))
  {
  }

  lemma InvWriteInput(s: System, g: GroupName)
    requires Inv(s) && Enabled(s, WriteInput(g)) && !Hazard(s, WriteInput(g))
    ensures Inv(Apply(s, WriteInput(g)))
  {
    InvWritten(s, g);
    WriteKeepsProtected(s, g);
    var t := Apply(s, WriteInput(g));
    var plan := s.parent.plan;
    forall h | h in t.parent.ok ensures At(t, plan, h) { assert At(s, plan, h); }
  }

  /** In a converged group everything in use renders like the current value. */
  lemma UseIsCurrent(g: Group, v: nat)
    requires InputGroup.Inv(g) && 0 < |g.store| && AllAt(g, |g.store| - 1)
    requires v < |g.store| && InUse(g, v)
    ensures g.store[v].Render() == Current(g).Render()
  {
  }

  lemma ReleaseKeepsProtected(s: System, removed: set<Secret>)
    requires Inv(s) && s.parent.Releasing? && removed !! CredsOf(s.parent.plan)
    ensures Inv(s.(held := s.held - removed))
  {
    var t := s.(held := s.held - removed);
    var plan := s.parent.plan;
    forall g, v: nat | g in t.groups && v < |t.groups[g].store| && InUse(t.groups[g], v)
      ensures t.groups[g].store[v].creds <= t.held
    {
      assert At(s, plan, g);
      UseIsCurrent(s.groups[g], v);
      assert forall c :: c in plan[g].creds ==> c in CredsOf(plan);
    }
    forall g | g in t.groups ensures At(t, plan, g) { assert At(s, plan, g); }
  }

  lemma InvSeeApplied(s: System, g: GroupName, w: nat)
    requires Inv(s) && Enabled(s, SeeApplied(g, w))
    ensures Inv(Apply(s, SeeApplied(g, w)))
  {
  }

  /** Every step that is not a hazard keeps the invariant. */
  lemma InvSystemStep(s: System, e: Event)
    requires Inv(s) && Enabled(s, e) && !Hazard(s, e)
    ensures Inv(Apply(s, e))
  {
    var t := Apply(s, e);
    match e
    case Local(g, ge) => InvLocal(s, g, ge);
    case WriteInput(g) => InvWriteInput(s, g);
    case SeeApplied(g, w) => InvSeeApplied(s, g, w);
    case Release(c) => ReleaseKeepsProtected(s, {c});
    case DropGroup(g, removed) =>
      forall h | h in t.parent.ok ensures At(t, t.parent.plan, h) { assert At(s, s.parent.plan, h); }
    case BeginRelease =>
      forall g | g in t.groups ensures At(t, t.parent.plan, g) { assert At(s, s.parent.plan, g); }
    case _ =>
  }

  // ---- runs -----------------------------------------------------------------

  predicate Run(s: System, es: seq<Event>)
    decreases |es|
  {
    es == [] || (Enabled(s, es[0]) && Run(Apply(s, es[0]), es[1..]))
  }

  predicate SafeRun(s: System, es: seq<Event>)
    decreases |es|
  {
    es == [] || (Enabled(s, es[0]) && !Hazard(s, es[0]) && SafeRun(Apply(s, es[0]), es[1..]))
  }

  function After(s: System, es: seq<Event>): System
    requires Run(s, es)
    decreases |es|
  {
    if es == [] then s else After(Apply(s, es[0]), es[1..])
  }

  lemma {:induction false} InvSafeRun(s: System, es: seq<Event>)
    requires Inv(s) && SafeRun(s, es)
    ensures Run(s, es) && Inv(After(s, es))
    decreases |es|
  {
    if es != [] {
      InvSystemStep(s, es[0]);
      InvSafeRun(Apply(s, es[0]), es[1..]);
    }
  }

  /** Rotation safety, over every interleaving of rotations, lagging cache reads,
      child reconciles, roll-outs and parent reconciles that stop anywhere. */
  lemma RotationIsSafe(s: System, es: seq<Event>)
    requires Init(s) && SafeRun(s, es)
    ensures Run(s, es) && Protected(After(s, es))
  {
    InvSafeRun(s, es);
  }

  /** Readiness is never stale: when the parent regards every group as ready, every
      pod runs the value the parent wrote in this reconcile. */
  lemma ReadinessIsNeverStale(s: System, es: seq<Event>)
    requires Init(s) && SafeRun(s, es)
    ensures Run(s, es)
    ensures After(s, es).parent.Releasing? ==> Converged(After(s, es), After(s, es).parent.plan)
  {
    InvSafeRun(s, es);
    var t := After(s, es);
    if t.parent.Releasing? {
      forall g, c, k | g in t.groups && c in t.groups[g].leaves && 0 <= k < |t.groups[g].leaves[c].pods|
        ensures t.groups[g].leaves[c].pods[k] < |t.groups[g].store|
        ensures t.groups[g].store[t.groups[g].leaves[c].pods[k]].Render() == t.parent.plan[g].Render()
      {
        assert At(t, t.parent.plan, g);
        assert LeafOk(t.groups[g], c);
        assert LeafUses(t.groups[g].leaves[c], t.groups[g].leaves[c].pods[k]);
        UseIsCurrent(t.groups[g], t.groups[g].leaves[c].pods[k]);
      }
      forall g | g in t.groups ensures g in t.parent.plan && 0 < |t.groups[g].store| &&
                                       Current(t.groups[g]) == t.parent.plan[g]
      {
        assert At(t, t.parent.plan, g);
      }
    }
  }
}
