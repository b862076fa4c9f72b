/** How Nova and Cyborg drive the rotation protocol: per role (application
    credential, API bus, notification bus, bus of a cell) the name of the secret
    consumed before a rotation is tracked in the status or an annotation, released
    by name once everything is ready, and - for transport secrets of Nova - all
    secrets that no role names are pruned. */
module TrackedRotation {
  import opened Wrappers
  import opened Secrets
  import opened InputGroup
  import opened Rotation

  datatype Role = Ac | Api | Notif | CellBus(cell: string)

  type Names = map<Role, string>

  function SecretOf(r: Role, name: string): Secret {
    if r.Ac? then AppCred(name) else Transport(name)
  }

  function SecretsOf(names: Names): set<Secret> {
    set r | r in names :: SecretOf(r, names[r])
  }

  function Lookup(names: Names, r: Role): Option<string> {
    if r in names then Some(names[r]) else None
  }

  function Store(names: Names, r: Role, name: Option<string>): Names {
    if name.Some? then names[r := name.value] else names - {r}
  }

  /** The contract of `FinalizeSecretRotation`: the name to track from now on. */
  function NextTracked(was: Option<string>, now: Option<string>, ready: bool): Option<string> {
    if was.None? || was == now || ready then now else was
  }

  /** The contract of `FinalizeSecretRotation`: the secret it strips. */
  function Stripped(r: Role, was: Option<string>, now: Option<string>, ready: bool): set<Secret> {
    if was.Some? && was != now && ready then {SecretOf(r, was.value)} else {}
  }

  /** What a reconcile found in the spec and the message bus objects.  `uses` says
      which roles the derived input of a group refers to, `data` what else is in
      it, `required` the roles without which nothing is ever ready. */
  datatype Conf = Conf(
    current: Names,
    uses: map<GroupName, set<Role>>,
    data: map<GroupName, (string, string)>,
    required: set<Role>)

  function InputOf(conf: Conf, g: GroupName): Input
    requires g in conf.uses
  {
    var data := if g in conf.data then conf.data[g] else ("", "");
    Input(set r | r in conf.uses[g] && r in conf.current :: SecretOf(r, conf.current[r]), data.0, data.1)
  }

  function PlanOf(conf: Conf): Plan {
    map g | g in conf.uses :: InputOf(conf, g)
  }

  /** `read` is the record the reconcile has read, `names` what it made of it so far. */
  datatype Mem = NoMem | Mem(conf: Conf, read: Names, names: Names, pending: set<Role>)

  /** `records` is all that was ever persisted, oldest first - the cache may show any of
      it - and `mem` what the running reconcile works on. */
  datatype Tracked = Tracked(rot: System, records: seq<Names>, mem: Mem) {
    function Latest(): Names
      requires records != []
    {
      records[|records| - 1]
    }
  }

  /** The patch of a record carries only what differs from what was read. */
  function MergedAt(latest: Names, read: Names, names: Names, r: Role): Option<string> {
    if Lookup(names, r) != Lookup(read, r) then Lookup(names, r) else Lookup(latest, r)
  }

  function Merged(latest: Names, read: Names, names: Names): Names {
    map r | r in latest.Keys + names.Keys && MergedAt(latest, read, names, r).Some? :: MergedAt(latest, read, names, r).value
  }

  lemma MergedLookup(latest: Names, read: Names, names: Names, r: Role)
    ensures Lookup(Merged(latest, read, names), r) == MergedAt(latest, read, names, r)
  {
  }

  datatype Event =
    | Work(e: Rotation.Event)
    | Begin(conf: Conf, k: nat)      // with the record of index `k`
    | Adopt(cell: string)            // remember the current secret of a cell if none is remembered
    | Finalize(r: Role)
    | Prune
    | End(persisted: bool)

  /** All roles a reconcile looks at when it finalizes. */
  function Finalized(conf: Conf): set<Role> {
    {Ac, Api, Notif} + conf.current.Keys
  }

  /** Tracked and current secrets of the given roles. */
  function KeepOf(names: Names, current: Names, roles: set<Role>): set<Secret> {
    (set r | r in roles && r in names :: SecretOf(r, names[r])) +
    (set r | r in roles && r in current :: SecretOf(r, current[r]))
  }

  /** What the prune keeps: the secrets of every role that is still in the spec. */
  function Keep(mem: Mem): set<Secret>
    requires mem.Mem?
  {
    KeepOf(mem.names, mem.conf.current, {Api, Notif} + mem.conf.required)
  }

  function Pruned(held: set<Secret>, keep: set<Secret>): set<Secret> {
    set c | c in held && c.Transport? && c !in keep
  }

  predicate WorkAllowed(s: Tracked, e: Rotation.Event)
  {
    match e
    case Start(_) => false
    case Stop => false
    case Release(_) => false
    case BeginWork => s.mem.Mem? && SecretsOf(s.mem.conf.current) <= s.rot.held
    case BeginRelease =>
      && s.mem.Mem? && s.mem.conf.required <= s.mem.conf.current.Keys
      && s.mem.pending == Finalized(s.mem.conf)
    case _ => true
  }

  predicate Enabled(s: Tracked, e: Event)
  {
    match e
    case Work(re) => WorkAllowed(s, re) && Rotation.Enabled(s.rot, re)
    case Begin(conf, k) =>
      && s.mem.NoMem? && s.rot.parent.Idle? && k < |s.records|
      && conf.current.Keys <= {Ac, Api, Notif} + conf.required
    case Adopt(cell) => s.mem.Mem? && CellBus(cell) in s.mem.conf.current && CellBus(cell) !in s.mem.names
    case Finalize(r) => s.mem.Mem? && (s.rot.parent.Working? || s.rot.parent.Releasing?) && r in s.mem.pending
    case Prune => s.mem.Mem? && s.rot.parent.Releasing? && s.mem.pending == {}
    case End(_) => s.mem.Mem? && s.records != []
  }

  function Apply(s: Tracked, e: Event): Tracked
    requires Enabled(s, e)
  {
    match e
    case Work(re) => s.(rot := Rotation.Apply(s.rot, re))
    case Begin(conf, k) =>
      s.(rot := Rotation.Apply(s.rot, Start(PlanOf(conf))), mem := Mem(conf, s.records[k], s.records[k], Finalized(conf)))
    case Adopt(cell) =>
      s.(mem := s.mem.(names := s.mem.names[CellBus(cell) := s.mem.conf.current[CellBus(cell)]]))
    case Finalize(r) =>
      var was, now := Lookup(s.mem.names, r), Lookup(s.mem.conf.current, r);
      var ready := s.rot.parent.Releasing?;
      s.(rot := s.rot.(held := s.rot.held - Stripped(r, was, now, ready)),
         mem := s.mem.(names := Store(s.mem.names, r, NextTracked(was, now, ready)),
                       pending := s.mem.pending - {r}))
    case Prune => s.(rot := s.rot.(held := s.rot.held - Pruned(s.rot.held, Keep(s.mem))))
    case End(persisted) =>
      s.(rot := Rotation.Apply(s.rot, Stop), mem := NoMem,
         records := s.records + if persisted then [Merged(s.Latest(), s.mem.read, s.mem.names)] else [])
  }

  /** The secret tracked for one role is the current secret of another. */
  predicate Clash(mem: Mem, r: Role)
  {
    && mem.Mem? && r in mem.names
    && Lookup(mem.conf.current, r) != Some(mem.names[r])
    && SecretOf(r, mem.names[r]) in SecretsOf(mem.conf.current)
  }

  predicate Hazard(s: Tracked, e: Event)
  {
    match e
    case Work(re) => Rotation.Hazard(s.rot, re)
    case Finalize(r) => s.rot.parent.Releasing? && Clash(s.mem, r)
    case _ => false
  }

  // ---- what every step keeps ------------------------------------------------

  ghost predicate Inv(s: Tracked)
  {
    && Rotation.Inv(s.rot) && s.records != []
    && (s.mem.NoMem? <==> s.rot.parent.Idle?)
    && (s.mem.Mem? ==> MemOk(s))
  }

  ghost predicate MemOk(s: Tracked)
    requires s.mem.Mem?
  {
    && !s.rot.parent.Idle? && s.rot.parent.plan == PlanOf(s.mem.conf)
    && s.mem.pending <= Finalized(s.mem.conf)
    && (s.rot.parent.Working? || s.rot.parent.Releasing? ==> SecretsOf(s.mem.conf.current) <= s.rot.held)
    && (s.rot.parent.Releasing? ==> s.mem.conf.required <= s.mem.conf.current.Keys)
    && s.mem.conf.current.Keys <= {Ac, Api, Notif} + s.mem.conf.required
    // a role that was finalized while everything was ready is tracked as it is now
    && (s.rot.parent.Releasing? ==>
          forall r :: r in Finalized(s.mem.conf) - s.mem.pending ==>
            Lookup(s.mem.names, r) == Lookup(s.mem.conf.current, r))
    // until then the reconcile works with what it has read
    && (forall r :: r in s.mem.pending && r in s.mem.read ==> Lookup(s.mem.names, r) == Lookup(s.mem.read, r))
    && (s.rot.parent.Releasing? ==> forall r :: r in Finalized(s.mem.conf) - s.mem.pending ==> Superseded(s, r))
  }

  /** The secret read for the role is the current one or has lost its finalizer. */
  ghost predicate Superseded(s: Tracked, r: Role)
    requires s.mem.Mem?
  {
    r in s.mem.read && Lookup(s.mem.conf.current, r) != Some(s.mem.read[r]) ==>
      SecretOf(r, s.mem.read[r]) !in s.rot.held
  }

  ghost predicate Init(s: Tracked)
  {
    Rotation.Init(s.rot) && s.mem.NoMem? && s.records != []
  }

  lemma PlanRefersToCurrent(conf: Conf)
    ensures CredsOf(PlanOf(conf)) <= SecretsOf(conf.current)
  {
  }

  lemma InvReleaseOne(s: Tracked, r: Role)
    requires Inv(s) && Enabled(s, Finalize(r)) && !Hazard(s, Finalize(r)) && s.rot.parent.Releasing?
    ensures Inv(Apply(s, Finalize(r)))
  {
    var t := Apply(s, Finalize(r));
    var was, now := Lookup(s.mem.names, r), Lookup(s.mem.conf.current, r);
    PlanRefersToCurrent(s.mem.conf);
    assert Stripped(r, was, now, true) !! SecretsOf(s.mem.conf.current);
    ReleaseKeepsProtected(s.rot, Stripped(r, was, now, true));
    forall q | q in Finalized(t.mem.conf) - t.mem.pending ensures Superseded(t, q) {
      if q != r { assert Superseded(s, q); }
    }
  }

  lemma InvFinalize(s: Tracked, r: Role)
    requires Inv(s) && Enabled(s, Finalize(r)) && !Hazard(s, Finalize(r))
    ensures Inv(Apply(s, Finalize(r)))
  {
    if s.rot.parent.Releasing? {
      InvReleaseOne(s, r);
    } else {
      assert Stripped(r, Lookup(s.mem.names, r), Lookup(s.mem.conf.current, r), false) == {};
      assert Apply(s, Finalize(r)).rot == s.rot;
    }
  }

  /** When every role is finalized the prune keeps the current secrets and no others. */
  lemma KeepIsCurrent(s: Tracked)
    requires s.mem.Mem? && MemOk(s) && s.rot.parent.Releasing? && s.mem.pending == {}
    ensures forall c: Secret :: c.Transport? ==> (c in Keep(s.mem) <==> c in SecretsOf(s.mem.conf.current))
  {
    var names, current, roles := s.mem.names, s.mem.conf.current, {Api, Notif} + s.mem.conf.required;
    forall c: Secret | c.Transport? && c in Keep(s.mem) ensures c in SecretsOf(current) {
      var r :| r in roles && ((r in names && c == SecretOf(r, names[r])) || (r in current && c == SecretOf(r, current[r])));
      assert Lookup(names, r) == Lookup(current, r);
    }
  }

  lemma InvPrune(s: Tracked)
    requires Inv(s) && Enabled(s, Prune)
    ensures Inv(Apply(s, Prune))
  {
    KeepIsCurrent(s);
    PlanRefersToCurrent(s.mem.conf);
    ReleaseKeepsProtected(s.rot, Pruned(s.rot.held, Keep(s.mem)));
  }

  lemma InvWork(s: Tracked, e: Rotation.Event)
    requires Inv(s) && Enabled(s, Work(e)) && !Hazard(s, Work(e))
    ensures Inv(Apply(s, Work(e)))
  {
    InvSystemStep(s.rot, e);
  }

  /** Every step that is not a hazard keeps the invariant. */
  lemma InvTrackedStep(s: Tracked, e: Event)
    requires Inv(s) && Enabled(s, e) && !Hazard(s, e)
    ensures Inv(Apply(s, e))
  {
    match e
    case Work(re) => InvWork(s, re);
    case Begin(conf, _) => InvSystemStep(s.rot, Start(PlanOf(conf)));
    case Finalize(r) => InvFinalize(s, r);
    case Prune => InvPrune(s);
    case End(_) => InvSystemStep(s.rot, Stop);
    case Adopt(_) =>
  }

  // ---- runs -----------------------------------------------------------------

  predicate SafeRun(s: Tracked, es: seq<Event>)
    decreases |es|
  {
    es == [] || (Enabled(s, es[0]) && !Hazard(s, es[0]) && SafeRun(Apply(s, es[0]), es[1..]))
  }

  function After(s: Tracked, es: seq<Event>): Tracked
    requires SafeRun(s, es)
    decreases |es|
  {
    if es == [] then s else After(Apply(s, es[0]), es[1..])
  }

  lemma {:induction false} InvTrackedRun(s: Tracked, es: seq<Event>)
    requires Inv(s) && SafeRun(s, es)
    ensures Inv(After(s, es))
    decreases |es|
  {
    if es != [] {
      InvTrackedStep(s, es[0]);
      InvTrackedRun(Apply(s, es[0]), es[1..]);
    }
  }

  /** Rotation safety with tracked names: no secret in use loses its finalizer. */
  lemma TrackedRotationIsSafe(s: Tracked, es: seq<Event>)
    requires Init(s) && SafeRun(s, es)
    ensures Protected(After(s, es).rot)
  {
    InvTrackedRun(s, es);
  }

  /** After a prune the transport finalizer is on exactly the current transport
      secrets, whatever rotations, failures and crashes came before. */
  lemma PruneIsExact(s: Tracked, es: seq<Event>)
    requires Init(s) && SafeRun(s, es) && Enabled(After(s, es), Prune)
    ensures var t := After(s, es);
            forall c: Secret :: c.Transport? ==>
              (c in Apply(t, Prune).rot.held <==> c in SecretsOf(t.mem.conf.current))
  {
    InvTrackedRun(s, es);
    KeepIsCurrent(After(s, es));
  }

  /** A reconcile that finalized every role while everything was ready.  Whatever older
      record it has read, the secret named there has lost its finalizer or is current.
      Its own record names the current secret unless it had read just that from a record
      that is no longer the latest.  So with the latest record read for the role, which
      an earlier reconcile may have left behind when it crashed after a release, the role
      is in order: recorded as it is, and the one recorded before released. */
  lemma CompletedReconcileRepairs(s: Tracked, es: seq<Event>, r: Role)
    requires Init(s) && SafeRun(s, es)
    requires var t := After(s, es); t.mem.Mem? && t.rot.parent.Releasing? && t.mem.pending == {}
    requires r in Finalized(After(s, es).mem.conf)
    ensures After(s, es).records != []
    ensures var t := After(s, es); var u := Apply(t, End(true)); var now := Lookup(t.mem.conf.current, r);
            && (r in t.mem.read && now != Some(t.mem.read[r]) ==> SecretOf(r, t.mem.read[r]) !in u.rot.held)
            && (Lookup(u.Latest(), r) == now <==> Lookup(t.mem.read, r) != now || Lookup(t.Latest(), r) == now)
            && (Lookup(t.mem.read, r) == Lookup(t.Latest(), r) ==>
                  && Lookup(u.Latest(), r) == now
                  && (r in t.Latest() && now != Some(t.Latest()[r]) ==> SecretOf(r, t.Latest()[r]) !in u.rot.held))
  {
    InvTrackedRun(s, es);
    var t := After(s, es);
    assert Superseded(t, r);
    MergedLookup(t.Latest(), t.mem.read, t.mem.names, r);
  }

  /** The case in which the record stays behind: a reconcile that has read the current
      secret from an outdated record persists nothing for the role. */
  lemma OutdatedRecordStays(s: Tracked, k: nat, conf: Conf, r: Role)
    requires Inv(s) && Enabled(s, Begin(conf, k)) && r in Finalized(conf)
    requires Lookup(s.records[k], r) == Lookup(conf.current, r) != Lookup(s.Latest(), r)
    ensures var t := Apply(s, Begin(conf, k));
            Lookup(Apply(t, End(true)).Latest(), r) == Lookup(s.Latest(), r) != Lookup(conf.current, r)
  {
    MergedLookup(s.Latest(), s.records[k], s.records[k], r);
  }

  /** Finalizing a role takes the finalizer off a current secret iff names clash. */
  lemma ClashIsUnsafe(s: Tracked, r: Role)
    requires Inv(s) && Enabled(s, Finalize(r)) && s.rot.parent.Releasing?
    ensures Clash(s.mem, r) <==> !(SecretsOf(s.mem.conf.current) <= Apply(s, Finalize(r)).rot.held)
  {
  }

  // ---- refinement of the generic protocol -----------------------------------

  ghost predicate Simulated(s: System, t: System)
  {
    exists es :: SafeRunTo(s, es, t)
  }

  ghost predicate SafeRunTo(s: System, es: seq<Rotation.Event>, t: System)
  {
    Rotation.SafeRun(s, es) && Run(s, es) && Rotation.After(s, es) == t
  }

  lemma {:induction false} Concat(s: System, es: seq<Rotation.Event>, t: System, fs: seq<Rotation.Event>, u: System)
    requires SafeRunTo(s, es, t) && SafeRunTo(t, fs, u)
    ensures SafeRunTo(s, es + fs, u)
    decreases |es|
  {
    if es == [] {
      assert es + fs == fs;
    } else {
      assert (es + fs)[1..] == es[1..] + fs;
      Concat(Rotation.Apply(s, es[0]), es[1..], t, fs, u);
    }
  }

  lemma NoStep(s: System)
    ensures SafeRunTo(s, [], s)
  {
  }

  lemma FirstStep(s: System, e: Rotation.Event, es: seq<Rotation.Event>, t: System)
    requires Rotation.Enabled(s, e) && !Rotation.Hazard(s, e)
    requires SafeRunTo(Rotation.Apply(s, e), es, t)
    ensures SafeRunTo(s, [e] + es, t)
  {
    var all := [e] + es;
    assert all[0] == e && all[1..] == es;
    assert Run(s, all);
    assert Rotation.After(s, all) == Rotation.After(Rotation.Apply(s, all[0]), all[1..]);
  }

  lemma OneStep(s: System, e: Rotation.Event)
    requires Rotation.Enabled(s, e) && !Rotation.Hazard(s, e)
    ensures Simulated(s, Rotation.Apply(s, e))
  {
    NoStep(Rotation.Apply(s, e));
    FirstStep(s, e, [], Rotation.Apply(s, e));
  }

  /** Stripping several secrets is a run of single releases. */
  lemma {:induction false} ReleaseAll(s: System, removed: set<Secret>)
    requires s.parent.Releasing? && removed !! CredsOf(s.parent.plan)
    ensures Simulated(s, s.(held := s.held - removed))
    decreases |removed|
  {
    if removed == {} {
      assert s.held - removed == s.held;
      NoStep(s);
    } else {
      var c :| c in removed;
      var t := Rotation.Apply(s, Release(c));
      ReleaseAll(t, removed - {c});
      assert t.held - (removed - {c}) == s.held - removed;
      var es :| SafeRunTo(t, es, t.(held := t.held - (removed - {c})));
      FirstStep(s, Release(c), es, s.(held := s.held - removed));
    }
  }

  lemma StepRefines(s: Tracked, e: Event)
    requires Inv(s) && Enabled(s, e) && !Hazard(s, e)
    ensures Simulated(s.rot, Apply(s, e).rot)
  {
    match e
    case Work(re) => OneStep(s.rot, re);
    case Begin(conf, _) => OneStep(s.rot, Start(PlanOf(conf)));
    case End(_) => OneStep(s.rot, Stop);
    case Adopt(_) => NoStep(s.rot);
    case Finalize(r) =>
      var was, now := Lookup(s.mem.names, r), Lookup(s.mem.conf.current, r);
      if s.rot.parent.Releasing? {
        PlanRefersToCurrent(s.mem.conf);
        ReleaseAll(s.rot, Stripped(r, was, now, true));
      } else {
        assert s.rot.held - Stripped(r, was, now, false) == s.rot.held;
        NoStep(s.rot);
      }
    case Prune =>
      KeepIsCurrent(s);
      PlanRefersToCurrent(s.mem.conf);
      ReleaseAll(s.rot, Pruned(s.rot.held, Keep(s.mem)));
  }

  /** Every safe run with tracked names is a safe run of the generic protocol. */
  lemma {:induction false} RunRefines(s: Tracked, es: seq<Event>)
    requires Inv(s) && SafeRun(s, es)
    ensures Simulated(s.rot, After(s, es).rot)
    decreases |es|
  {
    if es == [] {
      NoStep(s.rot);
    } else {
      var t := Apply(s, es[0]);
      InvTrackedStep(s, es[0]);
      StepRefines(s, es[0]);
      RunRefines(t, es[1..]);
      var fs :| SafeRunTo(s.rot, fs, t.rot);
      var gs :| SafeRunTo(t.rot, gs, After(s, es).rot);
      Concat(s.rot, fs, t.rot, gs, After(s, es).rot);
    }
  }

  /** Once everything counts as ready all pods render the planned input. */
  lemma ReadyPodsRenderThePlan(s: Tracked, es: seq<Event>, g: string, c: Child, k: nat)
    requires Init(s) && SafeRun(s, es)
    requires var t := After(s, es);
             && t.mem.Mem? && t.rot.parent.Releasing? && g in t.rot.groups
             && c in t.rot.groups[g].leaves && k < |t.rot.groups[g].leaves[c].pods|
    ensures var t := After(s, es);
            var pod := t.rot.groups[g].leaves[c].pods[k];
            && pod < |t.rot.groups[g].store| && g in t.mem.conf.uses
            && t.rot.groups[g].store[pod].Render() == InputOf(t.mem.conf, g).Render()
  {
    var t := After(s, es);
    InvTrackedRun(s, es);
    RunRefines(s, es);
    var fs :| SafeRunTo(s.rot, fs, t.rot);
    Rotation.ReadinessIsNeverStale(s.rot, fs);
    assert Rotation.Converged(t.rot, t.rot.parent.plan);
  }
}
