/** The steps excluded by `Rotation.Hazard` are steps the code can take, and each of
    them alone breaks the promise: one run per hazard in which it is the only hazard
    and after which a running pod references a secret without the finalizer. */
module RotationHazards {
  import opened Wrappers
  import opened Secrets
  import opened InputGroup
  import opened Rotation

  const EMPTY := System(map[], {}, Parent.Idle)

  /** The hazards among the steps of a run. */
  function Hazards(s: System, es: seq<Rotation.Event>): seq<Rotation.Event>
    requires Run(s, es)
    decreases |es|
  {
    if es == [] then []
    else (if Rotation.Hazard(s, es[0]) then [es[0]] else []) + Hazards(Rotation.Apply(s, es[0]), es[1..])
  }

  ghost predicate Reached(s: System, hs: seq<Rotation.Event>)
  {
    exists es :: RunTo(es, s, hs)
  }

  ghost predicate RunTo(es: seq<Rotation.Event>, s: System, hs: seq<Rotation.Event>)
  {
    Run(EMPTY, es) && Rotation.After(EMPTY, es) == s && Hazards(EMPTY, es) == hs
  }

  lemma {:induction false} Extend(s: System, es: seq<Rotation.Event>, e: Rotation.Event)
    requires Run(s, es) && Rotation.Enabled(Rotation.After(s, es), e)
    ensures Run(s, es + [e])
    ensures Rotation.After(s, es + [e]) == Rotation.Apply(Rotation.After(s, es), e)
    ensures Hazards(s, es + [e]) ==
            Hazards(s, es) + if Rotation.Hazard(Rotation.After(s, es), e) then [e] else []
    decreases |es|
  {
    if es == [] {
      assert es + [e] == [e];
      assert [e][1..] == [];
    } else {
      assert (es + [e])[1..] == es[1..] + [e];
      Extend(Rotation.Apply(s, es[0]), es[1..], e);
    }
  }

  lemma Do(s: System, hs: seq<Rotation.Event>, e: Rotation.Event) returns (t: System, ks: seq<Rotation.Event>)
    requires Reached(s, hs) && Rotation.Enabled(s, e)
    ensures t == Rotation.Apply(s, e)
    ensures ks == hs + (if Rotation.Hazard(s, e) then [e] else []) && Reached(t, ks)
  {
    var es :| RunTo(es, s, hs);
    Extend(EMPTY, es, e);
    t := Rotation.Apply(s, e);
    ks := hs + if Rotation.Hazard(s, e) then [e] else [];
    assert RunTo(es + [e], t, ks);
  }

  // ---- building blocks ------------------------------------------------------

  const RUNS_FIRST := Leaf(LeafPc.Idle, Some(0), [0])

  /** A step inside group `g` that is no hazard; `h` is the group it leads to. */
  lemma DoLocal(s: System, hs: seq<Rotation.Event>, g: GroupName, e: InputGroup.Event, h: Group) returns (t: System)
    requires Reached(s, hs) && g in s.groups && !e.Write?
    requires InputGroup.Enabled(s.groups[g], e) && !InputGroup.Hazard(s.groups[g], e)
    requires InputGroup.Apply(s.groups[g], e) == h
    ensures t == s.(groups := s.groups[g := h])
    ensures Reached(t, hs)
  {
    var ks;
    t, ks := Do(s, hs, Local(g, e));
    assert ks == hs + [];
    assert hs + [] == hs;
  }

  /** A parent reconcile up to and including the write of the input of one group. */
  lemma BeginReconcile(s: System, hs: seq<Rotation.Event>, g: GroupName, i: Input, c: Secret)
    returns (t: System, ks: seq<Rotation.Event>)
    requires Reached(s, hs) && s.parent.Idle? && i.creds == {c}
    requires g in s.groups ==> 0 < |s.groups[g].store|
    ensures t == System(s.groups[g := Written(s, g, i)], s.held + {c}, Working(map[g := i], {g}, {}, {}))
    ensures Reached(t, ks)
    ensures ks == hs + if g in s.groups && Current(s.groups[g]) != i && i in s.groups[g].store
                       then [WriteInput(g)] else []
  {
    var plan := map[g := i];
    assert plan[g] == i;
    assert CredsOf(plan) == {c};
    t, ks := Do(s, hs, Start(plan));
    t, ks := Do(t, ks, Protect(c));
    t, ks := Do(t, ks, BeginWork);
    assert t == System(s.groups, s.held + {c}, Working(plan, {}, {}, {}));
    assert Written(t, g, i) == Written(s, g, i);
    t, ks := Do(t, ks, WriteInput(g));
    assert {} + {g} == {g};
  }

  /** Two steps of child `c` in a row leave the group with the second result. */
  lemma Overwrite(o: Group, c: Child, l: Leaf, l': Leaf)
    ensures WithLeaf(WithLeaf(o, c, l), c, l') == WithLeaf(o, c, l')
  {
  }

  /** Prepending one step to a safe run. */
  lemma Chain(g: Group, e: InputGroup.Event, h: Group, rest: seq<InputGroup.Event>)
    requires InputGroup.Enabled(g, e) && !InputGroup.Hazard(g, e) && InputGroup.Apply(g, e) == h
    requires InputGroup.SafeRun(h, rest)
    ensures InputGroup.SafeRun(g, [e] + rest)
    ensures InputGroup.After(g, [e] + rest) == InputGroup.After(h, rest)
  {
  }

  lemma PatchSteps(o: Group, c: Child, l: Leaf) returns (es: seq<InputGroup.Event>)
    requires 0 < o.cache <= |o.store| && l.pc.Idle? && |l.pods| <= 1
    ensures InputGroup.SafeRun(WithLeaf(o, c, l), es) && (forall e :: e in es ==> !e.Write?)
    ensures var v := o.cache - 1;
            InputGroup.After(WithLeaf(o, c, l), es) == WithLeaf(o, c, Leaf(Patched(v), Some(v), [v]))
  {
    var v := o.cache - 1;
    var l1, l2, l3 := Leaf(HasRead(v), l.template, l.pods), Leaf(Patched(v), Some(v), l.pods), Leaf(Patched(v), Some(v), [v]);
    Overwrite(o, c, l, l1); Overwrite(o, c, l1, l2); Overwrite(o, c, l2, l3);
    var last := if l.pods == [] then PodAdd(c) else PodReplace(c, 0);
    assert if l.pods == [] then l.pods + [v] == [v] else l.pods[0 := v] == [v];
    Chain(WithLeaf(o, c, l2), last, WithLeaf(o, c, l3), []);
    Chain(WithLeaf(o, c, l1), LeafPatch(c), WithLeaf(o, c, l2), [last] + []);
    Chain(WithLeaf(o, c, l), LeafRead(c), WithLeaf(o, c, l1), [LeafPatch(c)] + ([last] + []));
    es := [LeafRead(c)] + ([LeafPatch(c)] + ([last] + []));
  }

  lemma ConfirmSteps(o: Group, c: Child, v: nat) returns (es: seq<InputGroup.Event>)
    requires v < |o.store|
    ensures var l := Leaf(Patched(v), Some(v), [v]);
            && InputGroup.SafeRun(WithLeaf(o, c, l), es) && (forall e :: e in es ==> !e.Write?)
            && InputGroup.After(WithLeaf(o, c, l), es) ==
                 WithLeaf(o, c, Leaf(LeafPc.Idle, Some(v), [v])).(reported := o.reported + {(c, v)})
  {
    var l, l1, l2 := Leaf(Patched(v), Some(v), [v]), Leaf(Confirmed(v), Some(v), [v]), Leaf(LeafPc.Idle, Some(v), [v]);
    Overwrite(o, c, l, l1); Overwrite(o, c, l1, l2);
    Chain(WithLeaf(o, c, l1), LeafReport(c), WithLeaf(o, c, l2).(reported := o.reported + {(c, v)}), []);
    Chain(WithLeaf(o, c, l), LeafConfirm(c), WithLeaf(o, c, l1), [LeafReport(c)] + []);
    es := [LeafConfirm(c)] + ([LeafReport(c)] + []);
  }

  /** A safe run inside group `g` is a run of the system without hazards. */
  lemma {:induction false} DoAll(s: System, hs: seq<Rotation.Event>, g: GroupName, es: seq<InputGroup.Event>)
    returns (t: System)
    requires Reached(s, hs) && g in s.groups
    requires InputGroup.SafeRun(s.groups[g], es) && (forall e :: e in es ==> !e.Write?)
    ensures t == s.(groups := s.groups[g := InputGroup.After(s.groups[g], es)])
    ensures Reached(t, hs)
    decreases |es|
  {
    if es == [] {
      t := s;
    } else {
      t := DoLocal(s, hs, g, es[0], InputGroup.Apply(s.groups[g], es[0]));
      t := DoAll(t, hs, g, es[1..]);
    }
  }

  /** Child `c` rolls out the version the cache shows and reports it. */
  lemma RollOut(s: System, hs: seq<Rotation.Event>, g: GroupName, o: Group, c: Child, l: Leaf) returns (t: System)
    requires Reached(s, hs) && g in s.groups && s.groups[g] == WithLeaf(o, c, l)
    requires 0 < o.cache <= |o.store| && l.pc.Idle? && |l.pods| <= 1
    ensures Reached(t, hs)
    ensures var v := o.cache - 1;
            t == s.(groups := s.groups[g :=
                      WithLeaf(o, c, Leaf(LeafPc.Idle, Some(v), [v])).(reported := o.reported + {(c, v)})])
  {
    var es := PatchSteps(o, c, l);
    t := DoAll(s, hs, g, es);
    es := ConfirmSteps(o, c, o.cache - 1);
    t := DoAll(t, hs, g, es);
  }

  /** A group all of whose versions the cache shows, with an idle collector. */
  function Settled(store: seq<Input>, leaves: map<Child, Leaf>, reported: set<(Child, nat)>,
                   recorded: set<Child>, applied: set<nat>): Group
  {
    Group(store, |store|, leaves, reported, recorded, Waiting, applied)
  }

  /** The collecting reconciler creates child `c`, which rolls out and reports. */
  lemma CreateChild(s: System, hs: seq<Rotation.Event>, g: GroupName, o: Group, c: Child) returns (t: System)
    requires Reached(s, hs) && g in s.groups && s.groups[g] == o
    requires 0 < o.cache <= |o.store| && c !in o.leaves
    requires o.collector.Collecting? && c in o.collector.spec
    ensures Reached(t, hs)
    ensures var v := o.cache - 1;
            t == s.(groups := s.groups[g := o.(
                leaves := o.leaves[c := Leaf(LeafPc.Idle, Some(v), [v])],
                reported := o.reported + {(c, v)},
                collector := o.collector.(known := o.collector.known + {c}))])
  {
    var empty := Leaf(LeafPc.Idle, None, []);
    var o' := o.(collector := o.collector.(known := o.collector.known + {c}));
    t := DoLocal(s, hs, g, CollectEnsure(c), WithLeaf(o', c, empty));
    t := RollOut(t, hs, g, o', c, empty);
  }

  lemma StartCollecting(s: System, hs: seq<Rotation.Event>, g: GroupName, o: Group, spec: set<Child>)
    returns (t: System)
    requires Reached(s, hs) && g in s.groups && s.groups[g] == o
    requires o.collector.Waiting? && o.cache + 1 == |o.store| && spec != {} && o.leaves == map[]
    ensures Reached(t, hs)
    ensures t == s.(groups := s.groups[g := o.(cache := o.cache + 1,
                                               collector := Collecting(o.cache, spec, {}, o.recorded))])
  {
    var o' := o.(cache := o.cache + 1);
    assert o'.recorded + Standing(o') == o.recorded;
    t := DoLocal(s, hs, g, CatchUp, o');
    t := DoLocal(t, hs, g, CollectStart(o.cache, spec), o'.(collector := Collecting(o.cache, spec, {}, o.recorded)));
  }

  /** The collecting reconciler, having seen all it waits for, publishes and ends. */
  lemma FinishCollecting(s: System, hs: seq<Rotation.Event>, g: GroupName, o: Group, persisted: bool)
    returns (t: System)
    requires Reached(s, hs) && g in s.groups && s.groups[g] == o
    requires InputGroup.Enabled(o, CollectPublish)
    ensures Reached(t, hs)
    ensures t == s.(groups := s.groups[g := o.(
                applied := o.applied + {o.collector.v}, collector := Waiting,
                recorded := if persisted then o.collector.known else o.recorded)])
  {
    var o' := o.(applied := o.applied + {o.collector.v});
    t := DoLocal(s, hs, g, CollectPublish, o');
    t := DoLocal(t, hs, g, CollectEnd(persisted),
                 o'.(collector := Waiting, recorded := if persisted then o.collector.known else o.recorded));
  }

  /** Children `c` and `d` run the first input and are confirmed; whether the
      collecting reconciler could persist its status is left open. */
  function FirstGroup(i: Input, c: Child, d: Child, persisted: bool): Group {
    Settled([i], map[c := RUNS_FIRST, d := RUNS_FIRST], {(c, 0), (d, 0)}, if persisted then {c, d} else {}, {0})
  }

  lemma FirstRollOut(g: GroupName, i: Input, x: Secret, c: Child, d: Child, persisted: bool)
    returns (t: System, hs: seq<Rotation.Event>)
    requires i.creds == {x} && c != d
    ensures Reached(t, []) && hs == []
    ensures t == System(map[g := FirstGroup(i, c, d, persisted)], {x}, Parent.Idle)
  {
    t := FirstCollecting(g, i, x, c, d);
    t := FirstChildren(t, g, i, x, c, d);
    var o := Settled([i], map[c := RUNS_FIRST, d := RUNS_FIRST], {(c, 0), (d, 0)}, {}, {});
    t := FinishCollecting(t, [], g, o.(collector := Collecting(0, {c, d}, {c, d}, {c, d})), persisted);
    hs := [];
    assert ({} + {0}) == {0};
    assert t.groups[g] == FirstGroup(i, c, d, persisted);
  }

  lemma FirstCollecting(g: GroupName, i: Input, x: Secret, c: Child, d: Child) returns (t: System)
    requires i.creds == {x} && c != d
    ensures Reached(t, [])
    ensures t == System(map[g := Settled([i], map[], {}, {}, {}).(collector := Collecting(0, {c, d}, {}, {}))], {x}, Parent.Idle)
  {
    assert RunTo([], EMPTY, []);
    var hs;
    t, hs := BeginReconcile(EMPTY, [], g, i, x);
    t, hs := Do(t, [], Rotation.Stop);
    var o := Created(i);
    assert t == System(map[g := o], {x}, Parent.Idle);
    t := StartCollecting(t, [], g, o, {c, d});
    assert t.groups[g] == Settled([i], map[], {}, {}, {}).(collector := Collecting(0, {c, d}, {}, {}));
  }

  lemma FirstChildren(s: System, g: GroupName, i: Input, x: Secret, c: Child, d: Child) returns (t: System)
    requires c != d && Reached(s, [])
    requires s == System(map[g := Settled([i], map[], {}, {}, {}).(collector := Collecting(0, {c, d}, {}, {}))], {x}, Parent.Idle)
    ensures Reached(t, [])
    ensures t == System(map[g := Settled([i], map[c := RUNS_FIRST, d := RUNS_FIRST], {(c, 0), (d, 0)}, {}, {}).(
                                 collector := Collecting(0, {c, d}, {c, d}, {c, d}))], {x}, Parent.Idle)
  {
    var none: set<Child> := {};
    var noReports: set<(Child, nat)> := {};
    assert none + {c} == {c} && {c} + {d} == {c, d};
    assert noReports + {(c, 0)} == {(c, 0)} && {(c, 0)} + {(d, 0)} == {(c, 0), (d, 0)};
    t := CreateChild(s, [], g, s.groups[g], c);
    var o := Settled([i], map[c := RUNS_FIRST], {(c, 0)}, {}, {}).(collector := Collecting(0, {c, d}, {}, {c}));
    assert t.groups[g] == o;
    t := CreateChild(t, [], g, o, d);
    o := Settled([i], map[c := RUNS_FIRST, d := RUNS_FIRST], {(c, 0), (d, 0)}, {}, {}).(
                 collector := Collecting(0, {c, d}, {}, {c, d}));
    assert t.groups[g] == o;
    t := SeeBoth(t, g, o, c, d);
  }

  lemma SeeBoth(s: System, g: GroupName, o0: Group, c: Child, d: Child) returns (t: System)
    requires c != d && Reached(s, []) && g in s.groups && s.groups[g] == o0
    requires |o0.store| == 1 && o0.collector == Collecting(0, {c, d}, {}, {c, d})
    requires (c, 0) in o0.reported && (d, 0) in o0.reported
    ensures Reached(t, [])
    ensures t == s.(groups := s.groups[g := o0.(collector := Collecting(0, {c, d}, {c, d}, {c, d}))])
  {
    var none: set<Child> := {};
    assert none + {c} == {c} && {c} + {d} == {c, d};
    var o := o0;
    t := s;
    o := o.(collector := Collecting(0, {c, d}, {c}, {c, d}));
    t := DoLocal(t, [], g, CollectSee(c, 0), o);
    o := o.(collector := Collecting(0, {c, d}, {c, d}, {c, d}));
    t := DoLocal(t, [], g, CollectSee(d, 0), o);
  }

  /** A pod of a child of `g` runs a version whose secret `x` has no finalizer. */
  lemma PodExposes(s: System, g: GroupName, c: Child, v: nat, x: Secret)
    requires g in s.groups && v < |s.groups[g].store| && c in s.groups[g].leaves
    requires v in s.groups[g].leaves[c].pods
    requires x in s.groups[g].store[v].creds && x !in s.held
    ensures !Protected(s)
  {
  }

  // ---- the four runs --------------------------------------------------------

  /** Rotating from one value to another and back: the old confirmation of the first
      value passes for a confirmation of its return while pods still run the second. */
  lemma ReuseIsUnsafe(g: GroupName, a: Input, b: Input, x: Secret, y: Secret, c: Child, d: Child)
    requires a.creds == {x} && b.creds == {y} && x != y && c != d
    ensures exists s :: Reached(s, [WriteInput(g)]) && !Protected(s)
  {
    var t, hs := FirstRollOut(g, a, x, c, d, true);
    t, hs := BeginReconcile(t, hs, g, b, y);
    t, hs := Do(t, [], Rotation.Stop);
    var o := FirstGroup(a, c, d, true).(store := [a, b], cache := 2);
    t := DoLocal(t, [], g, CatchUp, o);
    assert t.groups[g] == WithLeaf(o, c, RUNS_FIRST);
    t := RollOut(t, [], g, o, c, RUNS_FIRST);
    RotateBack(t, g, a, b, x, y, c);
  }

  /** The return of the first value is taken for confirmed at once. */
  lemma RotateBack(s: System, g: GroupName, a: Input, b: Input, x: Secret, y: Secret, c: Child)
    requires a.creds == {x} && b.creds == {y} && x != y
    requires Reached(s, []) && s.groups.Keys == {g} && s.held == {x, y} && s.parent.Idle?
    requires s.groups[g].store == [a, b] && 0 in s.groups[g].applied
    requires c in s.groups[g].leaves && s.groups[g].leaves[c].pods == [1]
    ensures exists t :: Reached(t, [WriteInput(g)]) && !Protected(t)
  {
    var t, hs := BeginReconcile(s, [], g, a, x);
    assert hs == [WriteInput(g)];
    assert t.groups[g] == s.groups[g].(store := [a, b] + [a]);
    t, hs := Do(t, hs, SeeApplied(g, 0));
    t, hs := Do(t, hs, BeginRelease);
    var plan := map[g := a];
    assert plan[g] == a;
    assert CredsOf(plan) == {x};
    t, hs := Do(t, hs, Release(y));
    assert hs == [WriteInput(g)];
    PodExposes(t, g, c, 1, y);
  }

  /** The collecting reconciler no longer knows child `d`; child `c` follows the
      rotation from `a` to `b` and the parent releases the secret of `a`. */
  lemma RotatePast(s: System, hs: seq<Rotation.Event>, g: GroupName, a: Input, b: Input, x: Secret, y: Secret,
                   c: Child, d: Child, recorded: set<Child>)
    requires a.creds == {x} && b.creds == {y} && x != y && c != d && a != b
    requires Reached(s, hs)
    requires s == System(map[g := Settled([a, b], map[c := RUNS_FIRST, d := RUNS_FIRST], {(c, 0), (d, 0)},
                                          recorded, {0}).(collector := Collecting(1, {c}, {}, {c}))],
                         {x, y}, Working(map[g := b], {g}, {}, {}))
    ensures exists t :: Reached(t, hs) && !Protected(t)
  {
    var rest := s.groups[g];
    assert rest == WithLeaf(rest, c, RUNS_FIRST);
    var t := RollOut(s, hs, g, rest, c, RUNS_FIRST);
    var o := Settled([a, b], map[c := Leaf(LeafPc.Idle, Some(1), [1]), d := RUNS_FIRST],
                     {(c, 0), (d, 0), (c, 1)}, recorded, {0}).(collector := Collecting(1, {c}, {}, {c}));
    assert t.groups[g] == o;
    var none: set<Child> := {};
    assert none + {c} == {c};
    t := DoLocal(t, hs, g, CollectSee(c, 1), o.(collector := Collecting(1, {c}, {c}, {c})));
    PublishAndRelease(t, hs, g, b, x, y, c, d);
  }

  lemma PublishAndRelease(s: System, hs: seq<Rotation.Event>, g: GroupName, b: Input, x: Secret, y: Secret, c: Child, d: Child)
    requires b.creds == {y} && x != y && Reached(s, hs)
    requires s.groups.Keys == {g} && s.held == {x, y} && s.parent == Working(map[g := b], {g}, {}, {})
    requires |s.groups[g].store| == 2 && s.groups[g].store[0].creds == {x} && s.groups[g].store[1] == b
    requires s.groups[g].collector == Collecting(1, {c}, {c}, {c})
    requires d in s.groups[g].leaves && s.groups[g].leaves[d] == RUNS_FIRST
    ensures exists t :: Reached(t, hs) && !Protected(t)
  {
    var o := s.groups[g];
    var t := DoLocal(s, hs, g, CollectPublish, o.(applied := o.applied + {1}));
    ReleaseFirst(t, hs, g, b, x, y, d);
  }

  /** The rotation of the only group has been reported as applied: `x` is released. */
  lemma ReleaseFirst(s: System, hs: seq<Rotation.Event>, g: GroupName, b: Input, x: Secret, y: Secret, d: Child)
    requires b.creds == {y} && x != y && Reached(s, hs)
    requires s.groups.Keys == {g} && s.held == {x, y} && s.parent == Working(map[g := b], {g}, {}, {})
    requires |s.groups[g].store| == 2 && s.groups[g].store[0].creds == {x} && s.groups[g].store[1] == b
    requires 1 in s.groups[g].applied && d in s.groups[g].leaves && s.groups[g].leaves[d] == RUNS_FIRST
    ensures exists t :: Reached(t, hs) && !Protected(t)
  {
    var plan := map[g := b];
    assert plan[g] == b;
    assert CredsOf(plan) == {y};
    var t, ks := Do(s, hs, SeeApplied(g, 1));
    t, ks := Do(t, ks, BeginRelease);
    t, ks := Do(t, ks, Release(x));
    assert ks == hs;
    PodExposes(t, g, d, 0, x);
  }

  lemma WriteSecond(g: GroupName, a: Input, b: Input, x: Secret, y: Secret, c: Child, d: Child, persisted: bool)
    returns (t: System)
    requires a.creds == {x} && b.creds == {y} && x != y && c != d
    ensures Reached(t, [])
    ensures t == System(map[g := FirstGroup(a, c, d, persisted).(store := [a, b], cache := 2)], {x, y},
                        Working(map[g := b], {g}, {}, {}))
  {
    var hs;
    t, hs := FirstRollOut(g, a, x, c, d, persisted);
    t, hs := BeginReconcile(t, [], g, b, y);
    var o := FirstGroup(a, c, d, persisted).(store := [a, b]);
    t := DoLocal(t, [], g, CatchUp, o.(cache := 2));
  }

  /** A child whose deletion failed with an error the code swallows keeps running. */
  lemma SwallowedDeletionIsUnsafe(g: GroupName, a: Input, b: Input, x: Secret, y: Secret, c: Child, d: Child)
    requires a.creds == {x} && b.creds == {y} && x != y && c != d
    ensures exists s :: Reached(s, [Local(g, CollectDelete(d, false))]) && !Protected(s)
  {
    var t := WriteSecond(g, a, b, x, y, c, d, true);
    var o := FirstGroup(a, c, d, true).(store := [a, b], cache := 2, collector := Collecting(1, {c}, {}, {c, d}));
    assert {c, d} + Standing(t.groups[g]) == {c, d};
    t := DoLocal(t, [], g, CollectStart(1, {c}), o);
    assert {c, d} + {c} == {c, d};
    t := DoLocal(t, [], g, CollectEnsure(c), o);
    var hs;
    t, hs := Do(t, [], Local(g, CollectDelete(d, false)));
    assert {c, d} - {d} == {c};
    RotatePast(t, hs, g, a, b, x, y, c, d, {c, d});
  }

  /** A compute that was created in a reconcile whose status was never persisted is
      forgotten when it leaves the spec. */
  lemma ForgottenChildIsUnsafe(g: GroupName, a: Input, b: Input, x: Secret, y: Secret, c: Child, d: Child)
    requires a.creds == {x} && b.creds == {y} && x != y && c != d && d.Compute?
    ensures exists s :: Reached(s, [Local(g, CollectStart(1, {c}))]) && !Protected(s)
  {
    var t := WriteSecond(g, a, b, x, y, c, d, false);
    var hs;
    assert d in t.groups[g].leaves.Keys && d !in t.groups[g].recorded + Standing(t.groups[g]) + {c};
    t, hs := Do(t, [], Local(g, CollectStart(1, {c})));
    var o := FirstGroup(a, c, d, false).(store := [a, b], cache := 2, collector := Collecting(1, {c}, {}, {c}));
    assert hs == [Local(g, CollectStart(1, {c}))];
    assert t.groups[g].collector.known + {c} == {c};
    t := DoLocal(t, hs, g, CollectEnsure(c), o);
    RotatePast(t, hs, g, a, b, x, y, c, d, {});
  }

  /** A removed group whose last deletion failed is counted as gone while it runs. */
  lemma SwallowedGroupDeletionIsUnsafe(g: GroupName, a: Input, x: Secret, c: Child, d: Child)
    requires a.creds == {x} && c != d
    ensures exists s :: Reached(s, [DropGroup(g, false)]) && !Protected(s)
  {
    var t, hs := FirstRollOut(g, a, x, c, d, true);
    t, hs := Do(t, [], Start(map[]));
    t, hs := Do(t, hs, BeginWork);
    t, hs := Do(t, hs, DropGroup(g, false));
    t, hs := Do(t, hs, BeginRelease);
    t, hs := Do(t, hs, Release(x));
    assert hs == [DropGroup(g, false)];
    PodExposes(t, g, c, 0, x);
  }
}
