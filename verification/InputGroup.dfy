/** One derived input secret, the service reconcilers that consume it, and the
    reconciler that collects their confirmations.

    A group is either the top-level input secret of a Nova (children NovaAPI,
    NovaScheduler, NovaMetadata; collected by the Nova reconciler), the secret of
    one cell (children conductor, metadata, noVNC proxy, computes; collected by
    the NovaCell reconciler) or the secret of a Cyborg.  Versions of the secret
    are indices into `store`; everything else refers to a version by its index. */
module InputGroup {
  import opened Wrappers
  import opened Secrets

  /** A child is one of the services there is exactly one of (API, scheduler, metadata,
      conductor, proxy), or one of any number of computes.  The collector knows of a
      compute only by its spec and by what is recorded; a service it can look up by its
      name whether it is recorded or not. */
  datatype Child = Service(name: string) | Compute(name: string)

  /** What a service renders out of its input.  The rendered configuration
      determines the credential secrets it references. */
  datatype Config = Config(creds: set<Secret>, rendered: string)

  /** The content of a derived input secret.  `unrendered` is data that is part of
      the hash but of no configuration file (the RabbitMQ user name). */
  datatype Input = Input(creds: set<Secret>, rendered: string, unrendered: string) {
    function Render(): Config { Config(creds, rendered) }
  }

  /** Where the reconciler of a child stands. */
  datatype LeafPc = Idle | HasRead(v: nat) | Patched(v: nat) | Confirmed(v: nat)

  datatype Leaf = Leaf(pc: LeafPc, template: Option<nat>, pods: seq<nat>)

  /** Where the collecting reconciler stands.  `v` is the version it compares the
      children with, `known` its in-memory copy of the recorded children. */
  datatype Collector =
    | Waiting
    | Collecting(v: nat, spec: set<Child>, confirmed: set<Child>, known: set<Child>)

  datatype Group = Group(
    store: seq<Input>,              // every value the secret has had, oldest first
    cache: nat,                     // how many of them the shared cache has shown
    leaves: map<Child, Leaf>,
    reported: set<(Child, nat)>,    // every (child, version) ever reported as applied
    recorded: set<Child>,           // children recorded in the persisted status
    collector: Collector,
    applied: set<nat>)              // every version ever reported as applied by the group

  function Current(g: Group): Input
    requires 0 < |g.store|
  {
    g.store[|g.store| - 1]
  }

  /** The services that exist. */
  function Standing(g: Group): set<Child> {
    set c | c in g.leaves && c.Service?
  }

  function Created(i: Input): Group {
    Group([i], 0, map[], {}, {}, Waiting, {})
  }

  datatype Event =
    | Write(input: Input)
    | CatchUp
    | LeafRead(c: Child)
    | LeafPatch(c: Child)
    | LeafConfirm(c: Child)
    | LeafReport(c: Child)
    | LeafAbort(c: Child)
    | PodReplace(c: Child, k: nat)
    | PodAdd(c: Child)
    | PodDrop(c: Child, k: nat)
    | CollectStart(v: nat, spec: set<Child>)
    | CollectEnsure(c: Child)
    | CollectSee(c: Child, w: nat)
    | CollectDelete(c: Child, removed: bool)
    | CollectPublish
    | CollectEnd(persisted: bool)

  // ---- the steps ------------------------------------------------------------

  predicate SameRender(store: seq<Input>, p: nat, q: nat)
  {
    p < |store| && q < |store| && store[p].Render() == store[q].Render()
  }

  /** The uncached roll-out check: the StatefulSet and all its pods carry the
      configuration rendered from version `v`. */
  predicate ReadyForInput(store: seq<Input>, leaf: Leaf, v: nat)
  {
    && leaf.template.Some?
    && SameRender(store, leaf.template.value, v)
    && forall k :: 0 <= k < |leaf.pods| ==> SameRender(store, leaf.pods[k], v)
  }

  predicate Enabled(g: Group, e: Event)
  {
    match e
    case Write(input) => 0 < |g.store| && Current(g) != input
    case CatchUp => g.cache < |g.store|
    case LeafRead(c) => c in g.leaves && g.leaves[c].pc.Idle? && 0 < g.cache
    case LeafPatch(c) => c in g.leaves && g.leaves[c].pc.HasRead?
    case LeafConfirm(c) =>
      c in g.leaves && g.leaves[c].pc.Patched? && ReadyForInput(g.store, g.leaves[c], g.leaves[c].pc.v)
    case LeafReport(c) => c in g.leaves && g.leaves[c].pc.Confirmed?
    case LeafAbort(c) => c in g.leaves
    case PodReplace(c, k) => c in g.leaves && g.leaves[c].template.Some? && k < |g.leaves[c].pods|
    case PodAdd(c) => c in g.leaves && g.leaves[c].template.Some?
    case PodDrop(c, k) => c in g.leaves && k < |g.leaves[c].pods|
    case CollectStart(v, spec) =>
      // a NovaCell compares with the cached version, a parent with the one it wrote
      g.collector.Waiting? && spec != {} && v < |g.store| && (v + 1 == g.cache || v + 1 == |g.store|)
    case CollectEnsure(c) => g.collector.Collecting? && c in g.collector.spec
    case CollectSee(c, w) =>
      && g.collector.Collecting? && c in g.collector.spec && c in g.collector.known
      && (c, w) in g.reported && w < |g.store| && g.collector.v < |g.store|
      && g.store[w] == g.store[g.collector.v]          // equality of hashes
    case CollectDelete(c, _) => g.collector.Collecting? && c in g.collector.known - g.collector.spec
    case CollectPublish =>
      g.collector.Collecting? && g.collector.known <= g.collector.spec <= g.collector.confirmed
    case CollectEnd(_) => g.collector.Collecting?
  }

  function WithLeaf(g: Group, c: Child, leaf: Leaf): Group {
    g.(leaves := g.leaves[c := leaf])
  }

  function Apply(g: Group, e: Event): Group
    requires Enabled(g, e)
  {
    match e
    case Write(input) => g.(store := g.store + [input])
    case CatchUp => g.(cache := g.cache + 1)
    case LeafRead(c) => WithLeaf(g, c, g.leaves[c].(pc := HasRead(g.cache - 1)))
    case LeafPatch(c) =>
      WithLeaf(g, c, g.leaves[c].(pc := Patched(g.leaves[c].pc.v), template := Some(g.leaves[c].pc.v)))
    case LeafConfirm(c) => WithLeaf(g, c, g.leaves[c].(pc := Confirmed(g.leaves[c].pc.v)))
    case LeafReport(c) =>
      WithLeaf(g, c, g.leaves[c].(pc := Idle)).(reported := g.reported + {(c, g.leaves[c].pc.v)})
    case LeafAbort(c) => WithLeaf(g, c, g.leaves[c].(pc := Idle))
    case PodReplace(c, k) =>
      WithLeaf(g, c, g.leaves[c].(pods := g.leaves[c].pods[k := g.leaves[c].template.value]))
    case PodAdd(c) => WithLeaf(g, c, g.leaves[c].(pods := g.leaves[c].pods + [g.leaves[c].template.value]))
    case PodDrop(c, k) =>
      WithLeaf(g, c, g.leaves[c].(pods := g.leaves[c].pods[..k] + g.leaves[c].pods[k + 1..]))
    case CollectStart(v, spec) => g.(collector := Collecting(v, spec, {}, g.recorded + Standing(g)))
    case CollectEnsure(c) =>
      var leaves := if c in g.leaves then g.leaves else g.leaves[c := Leaf(Idle, None, [])];
      g.(leaves := leaves, collector := g.collector.(known := g.collector.known + {c}))
    case CollectSee(c, _) => g.(collector := g.collector.(confirmed := g.collector.confirmed + {c}))
    case CollectDelete(c, removed) =>
      g.(leaves := if removed then g.leaves - {c} else g.leaves,
         collector := g.collector.(known := g.collector.known - {c}))
    case CollectPublish => g.(applied := g.applied + {g.collector.v})
    case CollectEnd(persisted) =>
      g.(recorded := if persisted then g.collector.known else g.recorded, collector := Waiting)
  }

  /** The steps after which the protocol no longer keeps its promise: writing a
      value the secret already had, treating a child as gone that is not (its deletion
      failed, or the cache does not show it yet), and dropping from the spec a compute
      that was created but never recorded. */
  predicate Hazard(g: Group, e: Event)
  {
    match e
    case Write(input) => input in g.store
    case CollectDelete(c, removed) => !removed && c in g.leaves
    case CollectStart(_, spec) => !(g.leaves.Keys <= g.recorded + Standing(g) + spec)
    case _ => false
  }

  // ---- what every step keeps ------------------------------------------------

  predicate Distinct(store: seq<Input>)
  {
    forall i, j :: 0 <= i < j < |store| ==> store[i] != store[j]
  }

  /** Version `p` is at least as new as `w`, up to configurations that render alike. */
  ghost predicate Newer(store: seq<Input>, w: nat, p: nat)
  {
    exists u :: w <= u < |store| && SameRender(store, u, p)
  }

  /** Child `c` runs, rolls out and will confirm nothing older than version `w`. */
  ghost predicate LeafAt(g: Group, c: Child, w: nat)
    requires c in g.leaves
  {
    var leaf := g.leaves[c];
    && (leaf.template.Some? ==> Newer(g.store, w, leaf.template.value))
    && (forall k :: 0 <= k < |leaf.pods| ==> Newer(g.store, w, leaf.pods[k]))
    && (!leaf.pc.Idle? ==> w <= leaf.pc.v)
  }

  /** No child of the group, present or created later, goes back behind `w`. */
  ghost predicate AllAt(g: Group, w: nat)
  {
    && w < g.cache
    && forall c :: c in g.leaves ==> LeafAt(g, c, w)
  }

  ghost predicate LeafOk(g: Group, c: Child)
    requires c in g.leaves
  {
    var leaf := g.leaves[c];
    && BoundedLeaf(g, c)
    && (leaf.pc.Confirmed? ==> LeafAt(g, c, leaf.pc.v))
  }

  ghost predicate CollectorOk(g: Group)
  {
    g.collector.Collecting? ==>
      var q := g.collector;
      && q.v < |g.store| && q.spec != {}
      && (forall c :: c in q.confirmed ==> (c, q.v) in g.reported)
      && g.leaves.Keys <= q.known + q.spec
  }

  ghost predicate ReportsOk(g: Group)
  {
    forall c, w :: (c, w) in g.reported ==> w < g.cache && (c in g.leaves ==> LeafAt(g, c, w))
  }

  ghost predicate Inv(g: Group)
  {
    && g.cache <= |g.store|
    && Distinct(g.store)
    && (forall c :: c in g.leaves ==> LeafOk(g, c))
    && ReportsOk(g)
    && CollectorOk(g)
    && (forall w :: w in g.applied ==> AllAt(g, w))
  }

  /** Nobody refers to a version the cache has not shown.  Unlike the invariant this is
      kept by every step, also by the hazards. */
  ghost predicate Bounded(g: Group)
  {
    && g.cache <= |g.store|
    && forall c :: c in g.leaves ==> BoundedLeaf(g, c)
  }

  ghost predicate BoundedLeaf(g: Group, c: Child)
    requires c in g.leaves
  {
    var leaf := g.leaves[c];
    && (!leaf.pc.Idle? ==> leaf.pc.v < g.cache)
    && (leaf.template.Some? ==> leaf.template.value < g.cache)
    && (forall k :: 0 <= k < |leaf.pods| ==> leaf.pods[k] < g.cache)
  }

  lemma InvIsBounded(g: Group)
    requires Inv(g)
    ensures Bounded(g)
  {
    forall c | c in g.leaves ensures BoundedLeaf(g, c) { assert LeafOk(g, c); }
  }

  lemma BoundedStep(g: Group, e: Event)
    requires Bounded(g) && Enabled(g, e)
    ensures Bounded(Apply(g, e))
  {
    var h := Apply(g, e);
    forall c | c in h.leaves ensures BoundedLeaf(h, c) {
      if c in g.leaves { assert BoundedLeaf(g, c); }
    }
  }

  lemma InvCreated(i: Input)
    ensures Inv(Created(i))
  {
  }

  /** Replacing one child by a version that stays in range and does not fall behind
      what it has already been seen to run keeps everything that is said of it. */
  lemma LeafStep(g: Group, c: Child, leaf: Leaf, reported: set<(Child, nat)>)
    requires Inv(g) && c in g.leaves
    requires forall w: nat :: LeafAt(g, c, w) && w < g.cache ==> LeafAt(WithLeaf(g, c, leaf), c, w)
    requires LeafOk(WithLeaf(g, c, leaf), c)
    requires reported <= g.reported || (g.leaves[c].pc.Confirmed? && reported == g.reported + {(c, g.leaves[c].pc.v)})
    requires g.reported <= reported
    ensures Inv(WithLeaf(g, c, leaf).(reported := reported))
  {
    var h := WithLeaf(g, c, leaf).(reported := reported);
    forall d | d in h.leaves ensures LeafOk(h, d) {
      if d != c { assert LeafOk(g, d); }
    }
    forall d, w | (d, w) in h.reported
      ensures w < h.cache && (d in h.leaves ==> LeafAt(h, d, w))
    {
      if (d, w) in g.reported {
        if d in g.leaves && d != c { assert LeafAt(g, d, w); }
      } else {
        assert LeafOk(g, c);
      }
    }
    forall w | w in h.applied ensures AllAt(h, w) {
      assert AllAt(g, w);
      forall d | d in h.leaves ensures LeafAt(h, d, w) {
        assert LeafAt(g, d, w);
      }
    }
  }

  lemma InvLeafSteps(g: Group, e: Event)
    requires Inv(g) && Enabled(g, e)
    requires e.LeafRead? || e.LeafPatch? || e.LeafConfirm? || e.LeafReport? || e.LeafAbort?
    ensures Inv(Apply(g, e))
  {
    var h := Apply(g, e);
    var c := e.c;
    assert LeafOk(g, c);
    assert h == WithLeaf(g, c, h.leaves[c]).(reported := h.reported);
    if e.LeafConfirm? {
      var v := g.leaves[c].pc.v;
      assert forall p :: SameRender(g.store, p, v) ==> v <= v < |g.store| && SameRender(g.store, v, p);
    }
    if e.LeafPatch? {
      var v := g.leaves[c].pc.v;
      assert SameRender(g.store, v, v);
    }
    LeafStep(g, c, h.leaves[c], h.reported);
  }

  lemma InvPodSteps(g: Group, e: Event)
    requires Inv(g) && Enabled(g, e)
    requires e.PodReplace? || e.PodAdd? || e.PodDrop?
    ensures Inv(Apply(g, e))
  {
    var h := Apply(g, e);
    assert LeafOk(g, e.c);
    assert h == WithLeaf(g, e.c, h.leaves[e.c]).(reported := h.reported);
    LeafStep(g, e.c, h.leaves[e.c], h.reported);
  }

  lemma NewerAppend(store: seq<Input>, i: Input, w: nat, p: nat)
    requires Newer(store, w, p)
    ensures Newer(store + [i], w, p)
  {
    var u :| w <= u < |store| && SameRender(store, u, p);
    assert SameRender(store + [i], u, p);
  }

  lemma LeafAtAppend(g: Group, i: Input, c: Child, w: nat)
    requires c in g.leaves && LeafAt(g, c, w)
    ensures LeafAt(g.(store := g.store + [i]), c, w)
  {
    var leaf := g.leaves[c];
    if leaf.template.Some? { NewerAppend(g.store, i, w, leaf.template.value); }
    forall k | 0 <= k < |leaf.pods| ensures Newer(g.store + [i], w, leaf.pods[k]) {
      NewerAppend(g.store, i, w, leaf.pods[k]);
    }
  }

  lemma InvWrite(g: Group, i: Input)
    requires Inv(g) && i !in g.store
    ensures Inv(g.(store := g.store + [i]))
  {
    var h := g.(store := g.store + [i]);
    forall c, w | c in g.leaves && LeafAt(g, c, w) ensures LeafAt(h, c, w) {
      LeafAtAppend(g, i, c, w);
    }
    forall c | c in h.leaves ensures LeafOk(h, c) { assert LeafOk(g, c); }
    forall w | w in h.applied ensures AllAt(h, w) { assert AllAt(g, w); }
  }

  lemma InvCatchUp(g: Group)
    requires Inv(g) && g.cache < |g.store|
    ensures Inv(g.(cache := g.cache + 1))
  {
  }

  /** Steps that only remove children or create empty ones. */
  lemma LeavesShrunk(g: Group, h: Group)
    requires Inv(g) && CollectorOk(h)
    requires h.store == g.store && h.cache == g.cache && h.reported == g.reported && h.applied == g.applied
    requires forall c :: c in h.leaves ==>
               (c in g.leaves && h.leaves[c] == g.leaves[c]) || h.leaves[c] == Leaf(Idle, None, [])
    ensures Inv(h)
  {
  }

  lemma InvPublish(g: Group)
    requires Inv(g) && Enabled(g, CollectPublish)
    ensures Inv(Apply(g, CollectPublish))
    ensures AllAt(g, g.collector.v)
  {
  }

  lemma InvCollectSteps(g: Group, e: Event)
    requires Inv(g) && Enabled(g, e) && !Hazard(g, e)
    requires e.CollectStart? || e.CollectEnsure? || e.CollectSee? || e.CollectDelete? || e.CollectEnd?
    ensures Inv(Apply(g, e))
  {
    if e.CollectSee? {
      assert e.w == g.collector.v;
    }
    LeavesShrunk(g, Apply(g, e));
  }

  /** Every step that is not a hazard keeps the invariant. */
  lemma InvStep(g: Group, e: Event)
    requires Inv(g) && Enabled(g, e) && !Hazard(g, e)
    ensures Inv(Apply(g, e))
  {
    match e
    case Write(input) => InvWrite(g, input);
    case CatchUp => InvCatchUp(g);
    case LeafRead(_) => InvLeafSteps(g, e);
    case LeafPatch(_) => InvLeafSteps(g, e);
    case LeafConfirm(_) => InvLeafSteps(g, e);
    case LeafReport(_) => InvLeafSteps(g, e);
    case LeafAbort(_) => InvLeafSteps(g, e);
    case PodReplace(_, _) => InvPodSteps(g, e);
    case PodAdd(_) => InvPodSteps(g, e);
    case PodDrop(_, _) => InvPodSteps(g, e);
    case CollectPublish => InvPublish(g);
    case _ => InvCollectSteps(g, e);
  }

  // ---- runs -----------------------------------------------------------------

  /** A run in which every step is possible and none is a hazard. */
  predicate SafeRun(g: Group, es: seq<Event>)
    decreases |es|
  {
    es == [] || (Enabled(g, es[0]) && !Hazard(g, es[0]) && SafeRun(Apply(g, es[0]), es[1..]))
  }

  function After(g: Group, es: seq<Event>): Group
    requires SafeRun(g, es)
    decreases |es|
  {
    if es == [] then g else After(Apply(g, es[0]), es[1..])
  }

  lemma {:induction false} InvRun(g: Group, es: seq<Event>)
    requires Inv(g) && SafeRun(g, es)
    ensures Inv(After(g, es))
    ensures g.applied <= After(g, es).applied
    decreases |es|
  {
    if es != [] {
      InvStep(g, es[0]);
      InvRun(Apply(g, es[0]), es[1..]);
    }
  }

  /** Once the group has reported version `w`, every pod of every child runs the
      configuration of a version at least as new, after every further run -
      including of children that are created later. */
  lemma AppliedIsNeverStale(g: Group, es: seq<Event>, w: nat, c: Child, k: nat)
    requires Inv(g) && SafeRun(g, es)
    requires w in g.applied
    requires c in After(g, es).leaves && k < |After(g, es).leaves[c].pods|
    ensures Newer(After(g, es).store, w, After(g, es).leaves[c].pods[k])
  {
    InvRun(g, es);
    assert AllAt(After(g, es), w);
  }
}
