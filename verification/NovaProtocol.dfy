/** Nova as an instance of the tracked rotation protocol: one group for the top-level
    services and one per cell, two levels of reconcilers. */
module NovaProtocol {
  import opened Wrappers
  import opened Secrets
  import opened CellNames
  import opened InputGroup
  import Rotation
  import opened TrackedRotation
  import opened NovaRotation

  /** What one reconcile sees: the secrets named in the spec and by the TransportURLs
      ("" for none), the cells of the spec and the bus secrets of those cells that
      have one already.  Cell0 uses the bus of the API. */
  datatype Nova = Nova(
    name: string,
    ac: string,
    api: string,
    notif: string,
    cells: set<string>,
    buses: map<string, string>,
    data: map<string, (string, string)>)
  {
    predicate Valid() {
      && CELL0 in cells && buses.Keys <= cells - {CELL0}
      && (forall c :: c in buses ==> buses[c] != "")
    }

    function CellCR(cell: string): string { CellCRName(name, cell) }

    /** The roles whose secrets the derived input `g` refers to. */
    function Uses(g: string): set<Role> {
      if |g| <= |name| || g == CellCR(CELL0) then {Ac, Api, Notif}
      else {Ac, Notif, CellBus(g[|name| + 1..])}
    }

    function Conf(): Conf {
      TrackedRotation.Conf(
        NamesOf(ac, api, notif, buses),
        map g | g in {name} + (set c | c in cells :: CellCR(c)) :: Uses(g),
        data,
        {Api} + (set c | c in cells - {CELL0} :: CellBus(c)))
    }
  }

  lemma CurrentNames(n: Nova, r: Role)
    ensures Lookup(n.Conf().current, r) == Opt(NameAt(n.ac, n.api, n.notif, n.buses, r))
  {
  }

  /** Every reconcile in the run is one of Nova. */
  ghost predicate NovaRun(es: seq<TrackedRotation.Event>)
  {
    forall i :: 0 <= i < |es| && es[i].Begin? ==> IsNova(es[i].conf)
  }

  ghost predicate IsNova(conf: Conf)
  {
    exists n: Nova :: n.Valid() && conf == n.Conf()
  }

  ghost predicate Start(s: Tracked)
  {
    TrackedRotation.Init(s) && forall names :: names in s.records ==> CellBus(CELL0) !in names
  }

  ghost predicate NoBusForCell0(s: Tracked)
  {
    && (forall names :: names in s.records ==> CellBus(CELL0) !in names)
    && (s.mem.Mem? ==> CellBus(CELL0) !in s.mem.read && CellBus(CELL0) !in s.mem.names && CellBus(CELL0) !in s.mem.conf.current)
  }

  lemma {:induction false} Cell0NeverHasABus(s: Tracked, es: seq<TrackedRotation.Event>)
    requires NovaRun(es) && TrackedRotation.SafeRun(s, es) && NoBusForCell0(s)
    ensures NoBusForCell0(TrackedRotation.After(s, es))
    decreases |es|
  {
    if es != [] {
      if es[0].Begin? {
        var n: Nova :| n.Valid() && es[0].conf == n.Conf();
        CurrentNames(n, CellBus(CELL0));
      }
      assert NovaRun(es[1..]);
      Cell0NeverHasABus(TrackedRotation.Apply(s, es[0]), es[1..]);
    }
  }

  /** Remembering the secret of a cell is finalizing its role before anything is ready:
      a name that still has to be released stays. */
  lemma AdoptIsProtect(s: Tracked, cell: string)
    requires s.mem.Mem? && CellBus(cell) in s.mem.conf.current
    ensures var r := CellBus(cell);
            var names := Store(s.mem.names, r, NextTracked(Lookup(s.mem.names, r), Lookup(s.mem.conf.current, r), false));
            names == if TrackedRotation.Enabled(s, Adopt(cell)) then TrackedRotation.Apply(s, Adopt(cell)).mem.names
                     else s.mem.names
  {
    var r := CellBus(cell);
    if r in s.mem.names { assert s.mem.names[r := s.mem.names[r]] == s.mem.names; }
  }

  // ---- safety ---------------------------------------------------------------

  /** Each secret named in the configuration of a running pod carries the finalizer. */
  lemma PodsKeepTheirCredentials(s: Tracked, es: seq<TrackedRotation.Event>, g: string, c: Child, k: nat)
    requires Start(s) && TrackedRotation.SafeRun(s, es)
    requires var t := TrackedRotation.After(s, es).rot;
             g in t.groups && c in t.groups[g].leaves && k < |t.groups[g].leaves[c].pods|
    ensures var t := TrackedRotation.After(s, es).rot;
            var pod := t.groups[g].leaves[c].pods[k];
            pod < |t.groups[g].store| && t.groups[g].store[pod].Render().creds <= t.held
  {
    InvTrackedRun(s, es);
    var t := TrackedRotation.After(s, es).rot;
    var pod := t.groups[g].leaves[c].pods[k];
    assert InputGroup.Inv(t.groups[g]) && LeafOk(t.groups[g], c);
    assert Rotation.LeafUses(t.groups[g].leaves[c], pod);
    assert Rotation.InUse(t.groups[g], pod);
  }

  // ---- readiness ------------------------------------------------------------

  /** An input refers to the secrets of its roles that have one. */
  lemma ThreeCreds(conf: Conf, g: Rotation.GroupName, r: Role, bus: string, notif: string, ac: string)
    requires g in conf.uses && conf.uses[g] == {Ac, Notif, r} && !r.Ac?
    requires Lookup(conf.current, r) == Opt(bus)
    requires Lookup(conf.current, Notif) == Opt(notif) && Lookup(conf.current, Ac) == Opt(ac)
    ensures InputOf(conf, g).creds == (if bus != "" then {Transport(bus)} else {})
                                    + (if notif != "" then {Transport(notif)} else {})
                                    + (if ac != "" then {AppCred(ac)} else {})
  {
    var creds := InputOf(conf, g).creds;
    assert creds == set q | q in conf.uses[g] && q in conf.current :: SecretOf(q, conf.current[q]);
    assert r in conf.uses[g] && Notif in conf.uses[g] && Ac in conf.uses[g];
    if bus != "" { assert SecretOf(r, conf.current[r]) in creds; }
    if notif != "" { assert SecretOf(Notif, conf.current[Notif]) in creds; }
    if ac != "" { assert SecretOf(Ac, conf.current[Ac]) in creds; }
  }

  /** There is an input for the top-level services and one for each cell of the spec. */
  lemma InputPerCell(n: Nova, g: string)
    ensures g in n.Conf().uses <==> g == n.name || exists c :: c in n.cells && g == n.name + "-" + c
  {
    assert g in n.Conf().uses <==> g == n.name || exists c :: c in n.cells && g == n.CellCR(c);
    forall c: string ensures n.CellCR(c) == n.name + "-" + c {
    }
  }

  /** The top-level services and cell0 are given the API bus. */
  lemma TopLevelInput(n: Nova, g: string)
    requires n.Valid() && (g == n.name || g == n.CellCR(CELL0))
    ensures g in n.Conf().uses
    ensures var i := InputOf(n.Conf(), g);
            && i.creds == (if n.api != "" then {Transport(n.api)} else {})
                        + (if n.notif != "" then {Transport(n.notif)} else {})
                        + (if n.ac != "" then {AppCred(n.ac)} else {})
            && (i.rendered, i.unrendered) == if g in n.data then n.data[g] else ("", "")
  {
    assert n.Conf().uses[g] == {Ac, Notif, Api};
    CurrentNames(n, Api);
    CurrentNames(n, Notif);
    CurrentNames(n, Ac);
    ThreeCreds(n.Conf(), g, Api, n.api, n.notif, n.ac);
  }

  /** Any other cell is given its own bus. */
  lemma CellInput(n: Nova, cell: string)
    requires n.Valid() && cell in n.cells - {CELL0}
    ensures n.CellCR(cell) in n.Conf().uses
    ensures var i := InputOf(n.Conf(), n.CellCR(cell));
            && i.creds == (if cell in n.buses then {Transport(n.buses[cell])} else {})
                        + (if n.notif != "" then {Transport(n.notif)} else {})
                        + (if n.ac != "" then {AppCred(n.ac)} else {})
            && (i.rendered, i.unrendered) == if n.CellCR(cell) in n.data then n.data[n.CellCR(cell)] else ("", "")
  {
    var g := n.CellCR(cell);
    assert g[|n.name| + 1..] == cell && n.CellCR(CELL0)[|n.name| + 1..] == CELL0;
    assert n.Conf().uses[g] == {Ac, Notif, CellBus(cell)};
    CurrentNames(n, CellBus(cell));
    CurrentNames(n, Notif);
    CurrentNames(n, Ac);
    ThreeCreds(n.Conf(), g, CellBus(cell), if cell in n.buses then n.buses[cell] else "", n.notif, n.ac);
  }

  /** When every sub-condition is True, whatever older reports the reconcile went by,
      the running pods of the API, the scheduler, the top-level metadata service and of
      cell0 refer to the current API bus, the current notification bus and the current
      application credential, and to nothing else. */
  lemma ReadyTopLevelPodsAreCurrent(s: Tracked, es: seq<TrackedRotation.Event>, n: Nova, g: string, c: Child, k: nat)
    requires Start(s) && TrackedRotation.SafeRun(s, es) && n.Valid() && (g == n.name || g == n.CellCR(CELL0))
    requires var t := TrackedRotation.After(s, es);
             && t.mem.Mem? && t.mem.conf == n.Conf() && t.rot.parent.Releasing? && g in t.rot.groups
             && c in t.rot.groups[g].leaves && k < |t.rot.groups[g].leaves[c].pods|
    ensures var group := TrackedRotation.After(s, es).rot.groups[g];
            && group.leaves[c].pods[k] < |group.store|
            && n.api != ""
            && group.store[group.leaves[c].pods[k]].Render().creds ==
                 {Transport(n.api)} + (if n.notif != "" then {Transport(n.notif)} else {})
                                    + (if n.ac != "" then {AppCred(n.ac)} else {})
  {
    InvTrackedRun(s, es);
    RequiredArePresent(n);
    ReadyPodsRenderThePlan(s, es, g, c, k);
    TopLevelInput(n, g);
  }

  /** When every sub-condition is True, whatever older reports the reconcile went by,
      the running pods of a cell refer to the cell's current bus, the current
      notification bus and the current application credential, and to nothing else. */
  lemma ReadyCellPodsAreCurrent(s: Tracked, es: seq<TrackedRotation.Event>, n: Nova, cell: string, c: Child, k: nat)
    requires Start(s) && TrackedRotation.SafeRun(s, es) && n.Valid() && cell in n.cells - {CELL0}
    requires var t := TrackedRotation.After(s, es);
             && t.mem.Mem? && t.mem.conf == n.Conf() && t.rot.parent.Releasing?
             && n.CellCR(cell) in t.rot.groups
             && c in t.rot.groups[n.CellCR(cell)].leaves && k < |t.rot.groups[n.CellCR(cell)].leaves[c].pods|
    ensures var group := TrackedRotation.After(s, es).rot.groups[n.CellCR(cell)];
            && group.leaves[c].pods[k] < |group.store|
            && cell in n.buses
            && group.store[group.leaves[c].pods[k]].Render().creds ==
                 {Transport(n.buses[cell])} + (if n.notif != "" then {Transport(n.notif)} else {})
                                            + (if n.ac != "" then {AppCred(n.ac)} else {})
  {
    InvTrackedRun(s, es);
    RequiredArePresent(n);
    ReadyPodsRenderThePlan(s, es, n.CellCR(cell), c, k);
    CellInput(n, cell);
  }

  // ---- exactness ------------------------------------------------------------

  lemma StillNoClash(s: Tracked, q: Role, r: Role)
    requires s.mem.Mem? && s.rot.parent.Releasing? && q in s.mem.pending && q != r && !Clash(s.mem, r)
    ensures !Clash(TrackedRotation.Apply(s, Finalize(q)).mem, r)
  {
  }

  lemma OneRelease(s: Tracked, q: Role, rest: seq<Role>)
    requires s.mem.Mem? && s.rot.parent.Releasing? && q in s.mem.pending && !Clash(s.mem, q)
    requires TrackedRotation.SafeRun(TrackedRotation.Apply(s, Finalize(q)), FinalizeEvents(rest))
    ensures TrackedRotation.SafeRun(s, FinalizeEvents([q] + rest))
  {
    assert FinalizeEvents([q] + rest)[1..] == FinalizeEvents(rest);
  }

  /** Without a clash the whole release is a safe run. */
  lemma {:induction false} ReleaseIsSafe(s: Tracked, roles: seq<Role>)
    requires s.mem.Mem? && s.rot.parent.Releasing? && DistinctRoles(roles)
    requires forall r :: r in roles ==> r in s.mem.pending && !Clash(s.mem, r)
    ensures TrackedRotation.SafeRun(s, FinalizeEvents(roles))
    decreases |roles|
  {
    if roles != [] {
      var q, rest := roles[0], roles[1..];
      assert roles == [q] + rest;
      var t := TrackedRotation.Apply(s, Finalize(q));
      forall r | r in rest ensures r in t.mem.pending && !Clash(t.mem, r) {
        assert r in roles && r != q;
        StillNoClash(s, q, r);
      }
      ReleaseIsSafe(t, rest);
      OneRelease(s, q, rest);
    }
  }

  lemma {:induction false} ReleasedAreDone(s: Tracked, roles: seq<Role>)
    requires s.mem.Mem? && TrackedRotation.SafeRun(s, FinalizeEvents(roles))
    ensures TrackedRotation.After(s, FinalizeEvents(roles)).mem.Mem?
    ensures TrackedRotation.After(s, FinalizeEvents(roles)).mem.pending == s.mem.pending - (set r | r in roles)
    decreases |roles|
  {
    if roles != [] {
      assert FinalizeEvents(roles)[1..] == FinalizeEvents(roles[1..]);
      assert roles == [roles[0]] + roles[1..];
      ReleasedAreDone(TrackedRotation.Apply(s, Finalize(roles[0])), roles[1..]);
      assert (set r | r in roles) == {roles[0]} + (set r | r in roles[1..]);
    }
  }

  /** The transport secrets a Nova consumes. */
  ghost predicate Consumed(n: Nova, x: string)
  {
    x == n.api || (n.notif != "" && x == n.notif) || exists c :: c in n.buses && x == n.buses[c]
  }

  lemma ConsumedIsCurrent(n: Nova, x: string)
    requires n.Valid() && n.api != ""
    ensures Transport(x) in SecretsOf(n.Conf().current) <==> Consumed(n, x)
  {
    var current := n.Conf().current;
    forall r: Role ensures Lookup(current, r) == Opt(NameAt(n.ac, n.api, n.notif, n.buses, r)) {
      CurrentNames(n, r);
    }
    if Transport(x) in SecretsOf(current) {
      var r :| r in current && SecretOf(r, current[r]) == Transport(x);
      assert Lookup(current, r) == Some(x);
    }
    if x == n.api { assert Lookup(current, Api) == Some(x); }
    if n.notif != "" && x == n.notif { assert Lookup(current, Notif) == Some(x); }
    if c :| c in n.buses && x == n.buses[c] { assert Lookup(current, CellBus(c)) == Some(x); }
  }

  /** Everything is ready and nothing has been finalized yet. */
  ghost predicate ReadyToRelease(t: Tracked, n: Nova)
  {
    && t.mem.Mem? && t.mem.conf == n.Conf() && t.rot.parent.Releasing?
    && t.mem.pending == Finalized(n.Conf())
    && (forall r :: !Clash(t.mem, r))
  }

  lemma ReleaseCoversAllRoles(n: Nova, order: seq<string>)
    requires n.Valid() && Enumerates(order, n.buses.Keys)
    ensures DistinctRoles(ReleaseRoles(order))
    ensures Finalized(n.Conf()) == set r | r in ReleaseRoles(order)
  {
  }

  /** The releases of a reconcile with everything ready, as steps of the protocol. */
  lemma AfterReleases(t: Tracked, n: Nova, order: seq<string>)
    requires TrackedRotation.Inv(t) && NoBusForCell0(t) && n.Valid() && ReadyToRelease(t, n)
    requires Enumerates(order, n.buses.Keys)
    ensures TrackedRotation.SafeRun(t, FinalizeEvents(ReleaseRoles(order)))
    ensures var u := TrackedRotation.After(t, FinalizeEvents(ReleaseRoles(order)));
            && TrackedRotation.Inv(u) && NoBusForCell0(u)
            && u.mem.Mem? && u.mem.conf == n.Conf() && u.rot.parent.Releasing? && u.mem.pending == {}
            && Effect(u.rot.held, u.mem.names) ==
                 FinalizeAll(Effect(t.rot.held, t.mem.names), n.Conf().current, true, ReleaseRoles(order))
  {
    ReleaseCoversAllRoles(n, order);
    RolesReleased(t, ReleaseRoles(order));
  }

  lemma RolesReleased(t: Tracked, roles: seq<Role>)
    requires TrackedRotation.Inv(t) && NoBusForCell0(t) && t.mem.Mem? && t.rot.parent.Releasing?
    requires DistinctRoles(roles) && t.mem.pending == set r | r in roles
    requires forall r :: !Clash(t.mem, r)
    ensures TrackedRotation.SafeRun(t, FinalizeEvents(roles))
    ensures var u := TrackedRotation.After(t, FinalizeEvents(roles));
            && TrackedRotation.Inv(u) && NoBusForCell0(u)
            && u.mem.Mem? && u.mem.conf == t.mem.conf && u.rot.parent.Releasing? && u.mem.pending == {}
            && Effect(u.rot.held, u.mem.names) ==
                 FinalizeAll(Effect(t.rot.held, t.mem.names), t.mem.conf.current, true, roles)
  {
    ReleaseIsSafe(t, roles);
    ReleasedAreDone(t, roles);
    EffectIsRun(t, roles);
    InvTrackedRun(t, FinalizeEvents(roles));
    Cell0NeverHasABus(t, FinalizeEvents(roles));
  }

  /** The prune keeps the consumed secrets and nothing else. */
  lemma PruneKeepsConsumed(u: Tracked, n: Nova, cells: seq<string>)
    requires TrackedRotation.Inv(u) && NoBusForCell0(u) && n.Valid() && Enumerates(cells, n.cells)
    requires u.mem.Mem? && u.mem.conf == n.Conf() && u.rot.parent.Releasing? && u.mem.pending == {}
    ensures forall x :: Transport(x) in KeepOf(u.mem.names, n.Conf().current, TransportRoles(cells)) <==> Consumed(n, x)
    ensures forall x :: Consumed(n, x) ==> Transport(x) in u.rot.held
  {
    KeepIsCurrent(u);
    RequiredArePresent(n);
    SameKeep(u.mem.names, n, cells);
    forall x: string
      ensures Transport(x) in Keep(u.mem) <==> Consumed(n, x)
      ensures Consumed(n, x) ==> Transport(x) in u.rot.held
    {
      ConsumedIsCurrent(n, x);
      assert Transport(x) in Keep(u.mem) <==> Transport(x) in SecretsOf(n.Conf().current);
    }
  }

  /** Exactness.  After whatever history of rotations, failures and crashes, when a
      reconcile with everything ready gets through its releases and the prune, the
      transport finalizer is on the current API secret, the current notification
      secret if there is one, the current secret of every cell in the spec, and on
      nothing else; and what is recorded is what is current. */
  lemma NovaReleaseIsExact(s: Tracked, es: seq<TrackedRotation.Event>, n: Nova, order: seq<string>, cells: seq<string>)
    requires Start(s) && TrackedRotation.SafeRun(s, es) && NovaRun(es) && n.Valid()
    requires ReadyToRelease(TrackedRotation.After(s, es), n)
    requires Enumerates(order, n.buses.Keys) && Enumerates(cells, n.cells)
    ensures var t := TrackedRotation.After(s, es);
            var out := ReleaseEffect(Effect(t.rot.held, t.mem.names), n.Conf().current, order, cells, true);
            && (forall x :: Transport(x) in out.held <==> Consumed(n, x))
            && (forall r :: r in Finalized(n.Conf()) ==> Lookup(out.names, r) == Lookup(n.Conf().current, r))
            && n.buses.Keys == n.cells - {CELL0}
  {
    var t := TrackedRotation.After(s, es);
    InvTrackedRun(s, es);
    Cell0NeverHasABus(s, es);
    AfterReleases(t, n, order);
    var u := TrackedRotation.After(t, FinalizeEvents(ReleaseRoles(order)));
    RequiredArePresent(n);
    PruneKeepsConsumed(u, n, cells);
    assert MemOk(u);
  }

  /** Releasing needs the API bus and the bus of every cell but cell0, and no more. */
  lemma RequiredArePresent(n: Nova)
    requires n.Valid()
    ensures n.Conf().required <= n.Conf().current.Keys <==> n.api != "" && n.buses.Keys == n.cells - {CELL0}
  {
    var current, required := n.Conf().current, n.Conf().required;
    CurrentNames(n, Api);
    assert Api in required;
    assert Api in current <==> n.api != "";
    forall c | c in n.cells - {CELL0} ensures CellBus(c) in required && (CellBus(c) in current <==> c in n.buses) {
      CurrentNames(n, CellBus(c));
    }
    if n.api != "" && n.buses.Keys == n.cells - {CELL0} {
      forall r | r in required ensures r in current {
        assert r == Api || (r.CellBus? && r.cell in n.cells - {CELL0});
      }
    }
  }

  /** Cell0 is in the source's list of cells but never names a secret of its own. */
  lemma SameKeep(names: Names, n: Nova, cells: seq<string>)
    requires n.Valid() && Enumerates(cells, n.cells) && CellBus(CELL0) !in names
    ensures KeepOf(names, n.Conf().current, TransportRoles(cells)) ==
            KeepOf(names, n.Conf().current, {Api, Notif} + n.Conf().required)
  {
  }
}
