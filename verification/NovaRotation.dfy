/** The last part of the Nova reconcile: releasing the secrets that a rotation has
    superseded, by name, and pruning the finalizers of all others. */
module NovaRotation {
  import opened Wrappers
  import opened Secrets
  import opened CellNames
  import opened TrackedRotation
  import Rotation

  /** An API call takes effect, or fails before or after taking effect. */
  datatype Outcome = Succeeds | FailsBefore | FailsAfter

  /** The source writes "" for no secret. */
  function Opt(name: string): Option<string> {
    if name == "" then None else Some(name)
  }

  // ---- the effect of finalizing a list of roles -----------------------------

  datatype Effect = Effect(held: set<Secret>, names: Names)

  /** The effect of `FinalizeSecretRotation` for one role after another. */
  function FinalizeAll(e: Effect, current: Names, ready: bool, roles: seq<Role>): Effect
    decreases |roles|
  {
    if roles == [] then e
    else
      var p := FinalizeAll(e, current, ready, roles[..|roles| - 1]);
      FinalizeOne(p, current, ready, roles[|roles| - 1])
  }

  function FinalizeOne(e: Effect, current: Names, ready: bool, r: Role): Effect {
    var was, now := Lookup(e.names, r), Lookup(current, r);
    Effect(e.held - Stripped(r, was, now, ready), Store(e.names, r, NextTracked(was, now, ready)))
  }

  function PruneEffect(e: Effect, current: Names, roles: set<Role>, ready: bool): Effect {
    if ready then e.(held := e.held - Pruned(e.held, KeepOf(e.names, current, roles))) else e
  }

  function FinalizeEvents(roles: seq<Role>): seq<TrackedRotation.Event>
    ensures |FinalizeEvents(roles)| == |roles|
    ensures forall i :: 0 <= i < |roles| ==> FinalizeEvents(roles)[i] == Finalize(roles[i])
  {
    seq(|roles|, i requires 0 <= i < |roles| => Finalize(roles[i]))
  }

  /** The effect is that of the protocol's steps, one per role. */
  lemma {:induction false} EffectIsRun(s: Tracked, roles: seq<Role>)
    requires s.mem.Mem? && (s.rot.parent.Working? || s.rot.parent.Releasing?)
    requires SafeRun(s, FinalizeEvents(roles))
    ensures var t := After(s, FinalizeEvents(roles));
            && t.rot.parent == s.rot.parent && t.mem.Mem? && t.mem.conf == s.mem.conf
            && Effect(t.rot.held, t.mem.names) ==
                 FinalizeAll(Effect(s.rot.held, s.mem.names), s.mem.conf.current, s.rot.parent.Releasing?, roles)
    decreases |roles|
  {
    if roles != [] {
      var t := Apply(s, Finalize(roles[0]));
      assert FinalizeEvents(roles)[1..] == FinalizeEvents(roles[1..]);
      EffectIsRun(t, roles[1..]);
      FinalizeFront(Effect(s.rot.held, s.mem.names), s.mem.conf.current, s.rot.parent.Releasing?, roles);
    }
  }

  lemma FinalizeNext(e: Effect, current: Names, ready: bool, roles: seq<Role>, i: nat)
    requires i < |roles|
    ensures FinalizeAll(e, current, ready, roles[..i + 1]) ==
            FinalizeOne(FinalizeAll(e, current, ready, roles[..i]), current, ready, roles[i])
  {
    assert roles[..i + 1][..i] == roles[..i];
  }

  lemma {:induction false} FinalizeFront(e: Effect, current: Names, ready: bool, roles: seq<Role>)
    requires roles != []
    ensures FinalizeAll(e, current, ready, roles) ==
            FinalizeAll(FinalizeOne(e, current, ready, roles[0]), current, ready, roles[1..])
    decreases |roles|
  {
    var n := |roles| - 1;
    if n == 0 {
      assert roles[..0] == [] && roles[1..] == [];
    } else {
      FinalizeFront(e, current, ready, roles[..n]);
      assert roles[..n][1..] == roles[1..][..n - 1];
    }
  }

  // ---- the code -------------------------------------------------------------

  /** The replies used up between two scripts.  The part that used them succeeded iff each
      of its calls did. */
  predicate Consumed(before: seq<Outcome>, after: seq<Outcome>, ok: bool)
  {
    && |after| <= |before| && after == before[|before| - |after|..]
    && (ok <==> forall i :: 0 <= i < |before| - |after| ==> before[i].Succeeds?)
  }

  lemma ConsumedJoin(a: seq<Outcome>, b: seq<Outcome>, c: seq<Outcome>, ok: bool)
    requires Consumed(a, b, true) && Consumed(b, c, ok)
    ensures Consumed(a, c, ok)
  {
    var m, n := |a| - |b|, |b| - |c|;
    assert forall i :: 0 <= i < n ==> b[i] == a[m + i];
    if !ok {
      var i :| 0 <= i < n && !b[i].Succeeds?;
      assert !a[m + i].Succeeds?;
    }
  }

  /** The part of the API server the reconcile writes to.  `script` decides how its
      calls turn out; when it is used up they succeed. */
  class Cluster {
    var held: set<Secret>
    var script: seq<Outcome>

    constructor (held: set<Secret>, script: seq<Outcome>)
      ensures this.held == held && this.script == script
    {
      this.held := held;
      this.script := script;
    }

    method Next() returns (outcome: Outcome)
      modifies this`script
      ensures outcome == if old(script) == [] then Succeeds else old(script)[0]
      ensures script == if old(script) == [] then [] else old(script)[1..]
      ensures Consumed(old(script), script, outcome.Succeeds?)
    {
      outcome := if script == [] then Succeeds else script[0];
      script := if script == [] then [] else script[1..];
    }

    /** Put the finalizer on a secret. */
    method Protect(c: Secret) returns (ok: bool)
      modifies this
      ensures held == old(held) || held == old(held) + {c}
      ensures ok ==> held == old(held) + {c}
      ensures Consumed(old(script), script, ok)
    {
      var outcome := Next();
      if !outcome.FailsBefore? { held := held + {c}; }
      ok := outcome.Succeeds?;
    }

    /** Take it off some. */
    method Strip(removed: set<Secret>) returns (ok: bool)
      modifies this
      ensures held == old(held) || held == old(held) - removed
      ensures ok ==> held == old(held) - removed
      ensures Consumed(old(script), script, ok)
    {
      var outcome := Next();
      if !outcome.FailsBefore? { held := held - removed; }
      ok := outcome.Succeeds?;
    }

    method FinalizeSecretRotation(r: Role, was: string, now: string, ready: bool) returns (name: string, ok: bool)
      modifies this
      ensures ok ==> held == old(held) - Stripped(r, Opt(was), Opt(now), ready)
      ensures ok ==> Opt(name) == NextTracked(Opt(was), Opt(now), ready)
      ensures old(held) - Stripped(r, Opt(was), Opt(now), ready) <= held <= old(held)
      ensures Consumed(old(script), script, ok)
    {
      if was == "" || was == now {
        return now, true;
      }
      if !ready {
        return was, true;
      }
      ok := Strip({SecretOf(r, was)});
      name := if ok then now else was;
    }
  }

  /** A secret that was tracked, is not current and still has the finalizer is tracked
      still: otherwise nothing would ever release it. */
  ghost predicate NothingForgotten(held: set<Secret>, was: Names, current: Names, names: Names)
  {
    forall r :: r in was && Lookup(current, r) != Some(was[r]) && SecretOf(r, was[r]) in held ==>
      Lookup(names, r) == Some(was[r])
  }

  /** The fields of the Nova CR that remember consumed secrets. */
  class NovaInstance {
    var applicationCredentialSecret: string
    var transportURLSecret: string
    var notificationsTransportURLSecret: string
    var annotations: map<string, string>       // keyed by cell name

    constructor (ac: string, api: string, notif: string, annotations: map<string, string>)
      ensures applicationCredentialSecret == ac && transportURLSecret == api
      ensures notificationsTransportURLSecret == notif && this.annotations == annotations
    {
      applicationCredentialSecret := ac;
      transportURLSecret := api;
      notificationsTransportURLSecret := notif;
      this.annotations := annotations;
    }

    ghost function Tracks(): Names
      reads this
    {
      NamesOf(applicationCredentialSecret, transportURLSecret, notificationsTransportURLSecret, annotations)
    }

    /** Early in the reconcile: remember the secret of a cell if none is remembered that
        still has to be released, and put the finalizer on it. */
    method ProtectCellSecret(cluster: Cluster, cell: string, secret: string) returns (ok: bool)
      modifies this`annotations, cluster
      ensures cell == CELL0 || secret == "" ==>
                ok && Tracks() == old(Tracks()) && cluster.held == old(cluster.held) && cluster.script == old(cluster.script)
      ensures cell != CELL0 && secret != "" ==>
                && Tracks() == Store(old(Tracks()), CellBus(cell),
                                     NextTracked(Lookup(old(Tracks()), CellBus(cell)), Some(secret), false))
                && old(cluster.held) <= cluster.held <= old(cluster.held) + {Transport(secret)}
                && (ok ==> Transport(secret) in cluster.held)
      ensures Consumed(old(cluster.script), cluster.script, ok)
    {
      if secret == "" || cell == CELL0 { return true; }
      var was := if cell in annotations then annotations[cell] else "";
      NamesStored(applicationCredentialSecret, transportURLSecret, notificationsTransportURLSecret, annotations,
                  CellBus(cell), secret);
      SameNames(Tracks(), Store(Tracks(), CellBus(cell), Lookup(Tracks(), CellBus(cell))));
      if was == "" || was == secret { annotations := annotations[cell := secret]; }
      ok := cluster.Protect(Transport(secret));
    }

    /** Finalizing one role against the effect it should have: if its call fails the
        record is as it was. */
    ghost predicate Progress(cluster: Cluster, e: Effect, next: Effect, ok: bool)
      reads this, cluster
    {
      && (ok ==> Effect(cluster.held, Tracks()) == next)
      && (!ok ==> Tracks() == e.names && next.held <= cluster.held <= e.held)
    }

    method ReleaseAppCred(cluster: Cluster, ac: string, ghost current: Names, ready: bool) returns (ok: bool)
      requires Lookup(current, Ac) == Opt(ac)
      modifies this`applicationCredentialSecret, cluster
      ensures var e := Effect(old(cluster.held), old(Tracks()));
              && Progress(cluster, e, FinalizeOne(e, current, ready, Ac), ok)
              && NothingForgotten(cluster.held, e.names, current, Tracks())
      ensures Consumed(old(cluster.script), cluster.script, ok)
    {
      var name;
      name, ok := cluster.FinalizeSecretRotation(Ac, applicationCredentialSecret, ac, ready);
      NamesStored(applicationCredentialSecret, transportURLSecret, notificationsTransportURLSecret, annotations, Ac, name);
      if ok { applicationCredentialSecret := name; }
    }

    method ReleaseApi(cluster: Cluster, api: string, ghost current: Names, ready: bool) returns (ok: bool)
      requires Lookup(current, Api) == Opt(api)
      modifies this`transportURLSecret, cluster
      ensures var e := Effect(old(cluster.held), old(Tracks()));
              && Progress(cluster, e, FinalizeOne(e, current, ready, Api), ok)
              && NothingForgotten(cluster.held, e.names, current, Tracks())
      ensures Consumed(old(cluster.script), cluster.script, ok)
    {
      var name;
      name, ok := cluster.FinalizeSecretRotation(Api, transportURLSecret, api, ready);
      NamesStored(applicationCredentialSecret, transportURLSecret, notificationsTransportURLSecret, annotations, Api, name);
      if ok { transportURLSecret := name; }
    }

    method ReleaseNotifications(cluster: Cluster, notif: string, ghost current: Names, ready: bool) returns (ok: bool)
      requires Lookup(current, Notif) == Opt(notif)
      modifies this`notificationsTransportURLSecret, cluster
      ensures var e := Effect(old(cluster.held), old(Tracks()));
              && Progress(cluster, e, FinalizeOne(e, current, ready, Notif), ok)
              && NothingForgotten(cluster.held, e.names, current, Tracks())
      ensures Consumed(old(cluster.script), cluster.script, ok)
    {
      var name := notificationsTransportURLSecret;
      ok := true;
      if notif != "" {
        name, ok := cluster.FinalizeSecretRotation(Notif, notificationsTransportURLSecret, notif, ready);
      } else if notificationsTransportURLSecret != "" && ready {
        ok := cluster.Strip({SecretOf(Notif, notificationsTransportURLSecret)});
        name := "";
      }
      NamesStored(applicationCredentialSecret, transportURLSecret, notificationsTransportURLSecret, annotations, Notif, name);
      if ok { notificationsTransportURLSecret := name; }
    }

    method ReleaseCell(cluster: Cluster, cell: string, now: string, ghost current: Names, ready: bool) returns (ok: bool)
      requires Lookup(current, CellBus(cell)) == Opt(now)
      modifies this`annotations, cluster
      ensures var e := Effect(old(cluster.held), old(Tracks()));
              && Progress(cluster, e, FinalizeOne(e, current, ready, CellBus(cell)), ok)
              && NothingForgotten(cluster.held, e.names, current, Tracks())
      ensures Consumed(old(cluster.script), cluster.script, ok)
    {
      var was := if cell in annotations then annotations[cell] else "";
      var name;
      name, ok := cluster.FinalizeSecretRotation(CellBus(cell), was, now, ready);
      NamesStored(applicationCredentialSecret, transportURLSecret, notificationsTransportURLSecret, annotations,
                  CellBus(cell), name);
      if ok { annotations := annotations[cell := name]; }
    }

    /** The first `i` roles are finalized; after a failure, of the call for the next one,
        that one is as it was recorded, released or not. */
    ghost predicate Got(cluster: Cluster, e0: Effect, current: Names, ready: bool, roles: seq<Role>, i: nat, ok: bool)
      reads this, cluster
      requires i <= |roles|
    {
      && (ok ==> Effect(cluster.held, Tracks()) == FinalizedTo(e0, current, ready, roles, i))
      && (!ok ==>
            && i < |roles| && Tracks() == FinalizedTo(e0, current, ready, roles, i).names
            && FinalizedTo(e0, current, ready, roles, i + 1).held <= cluster.held <= FinalizedTo(e0, current, ready, roles, i).held)
    }

    /** The loop over the current cell secrets. */
    method ReleaseCells(cluster: Cluster, cells: map<string, string>, cellOrder: seq<string>,
                        ghost e0: Effect, ghost current: Names, ready: bool)
      returns (ok: bool, ghost done: nat)
      requires forall c :: c in cellOrder ==> c in cells && Lookup(current, CellBus(c)) == Opt(cells[c])
      requires Got(cluster, e0, current, ready, ReleaseRoles(cellOrder), 3, true)
      modifies this`annotations, cluster
      ensures done <= |ReleaseRoles(cellOrder)| && Got(cluster, e0, current, ready, ReleaseRoles(cellOrder), done, ok)
      ensures ok ==> done == |ReleaseRoles(cellOrder)|
      ensures Consumed(old(cluster.script), cluster.script, ok)
    {
      ghost var roles := ReleaseRoles(cellOrder);
      done := 3;
      for i := 0 to |cellOrder|
        invariant done == i + 3 && Got(cluster, e0, current, ready, roles, done, true)
        invariant Consumed(old(cluster.script), cluster.script, true)
      {
        var cell := cellOrder[i];
        ghost var before := cluster.script;
        FinalizeNext(e0, current, ready, roles, done);
        ok := ReleaseCell(cluster, cell, cells[cell], current, ready);
        ConsumedJoin(old(cluster.script), before, cluster.script, ok);
        if !ok { return; }
        done := done + 1;
      }
      ok := true;
    }

    /** The transport secrets to keep, as the source lists them. */
    method TransportKeep(ghost ac: string, api: string, notif: string, cells: map<string, string>, orderedCells: seq<string>)
      returns (keep: seq<string>)
      ensures forall n :: n != "" ==>
                (n in keep <==> Transport(n) in KeepOf(Tracks(), NamesOf(ac, api, notif, cells), {Api, Notif} + SpecRoles(orderedCells)))
    {
      keep := [transportURLSecret, api];
      if notificationsTransportURLSecret != "" { keep := keep + [notificationsTransportURLSecret]; }
      if notif != "" { keep := keep + [notif]; }
      var i := 0;
      while i < |orderedCells|
        invariant 0 <= i <= |orderedCells|
        invariant forall n :: n != "" ==>
          (n in keep <==> n in [transportURLSecret, api, notificationsTransportURLSecret, notif] ||
                          exists k :: 0 <= k < i && NamedBy(annotations, cells, orderedCells[k], n))
      {
        var cell := orderedCells[i];
        if cell in annotations && annotations[cell] != "" { keep := keep + [annotations[cell]]; }
        if cell in cells && cells[cell] != "" { keep := keep + [cells[cell]]; }
        i := i + 1;
      }
      forall n | n != ""
        ensures n in keep <==> Transport(n) in KeepOf(Tracks(), NamesOf(ac, api, notif, cells), {Api, Notif} + SpecRoles(orderedCells))
      {
        KeepListed(transportURLSecret, notificationsTransportURLSecret, annotations, applicationCredentialSecret, ac,
                   api, notif, cells, orderedCells, n);
      }
    }

    /** The releases of one reconcile.  `cellOrder` is the order in which the map of
        current cell secrets happens to be iterated. */
    method ReleaseTracked(cluster: Cluster, ac: string, api: string, notif: string, cells: map<string, string>,
                          cellOrder: seq<string>, ghost current: Names, ready: bool)
      returns (ok: bool, ghost done: nat)
      requires NamedThus(current, r => NameAt(ac, api, notif, cells, r))
      requires forall c :: c in cellOrder ==> c in cells
      modifies this, cluster
      ensures done <= |ReleaseRoles(cellOrder)| && (ok ==> done == |ReleaseRoles(cellOrder)|)
      ensures Got(cluster, Effect(old(cluster.held), old(Tracks())), current, ready, ReleaseRoles(cellOrder), done, ok)
      ensures Consumed(old(cluster.script), cluster.script, ok)
    {
      ghost var e0, roles, script := Effect(cluster.held, Tracks()), ReleaseRoles(cellOrder), cluster.script;
      FirstThree(e0, current, ready, cellOrder);
      ok := ReleaseAppCred(cluster, ac, current, ready);
      done := 0;
      if !ok { return; }
      ghost var before := cluster.script;
      ok := ReleaseApi(cluster, api, current, ready);
      ConsumedJoin(script, before, cluster.script, ok);
      done := 1;
      if !ok { return; }
      before := cluster.script;
      ok := ReleaseNotifications(cluster, notif, current, ready);
      ConsumedJoin(script, before, cluster.script, ok);
      done := 2;
      if !ok { return; }
      before := cluster.script;
      ok, done := ReleaseCells(cluster, cells, cellOrder, e0, current, ready);
      ConsumedJoin(script, before, cluster.script, ok);
    }

    /** The prune: every other transport secret loses the finalizer. */
    method PruneStranded(cluster: Cluster, ghost ac: string, api: string, notif: string, cells: map<string, string>,
                         orderedCells: seq<string>)
      returns (ok: bool)
      requires Transport("") !in cluster.held           // objects have names
      modifies cluster
      ensures var e := Effect(old(cluster.held), Tracks());
              Progress(cluster, e, PruneEffect(e, NamesOf(ac, api, notif, cells), TransportRoles(orderedCells), true), ok)
      ensures Consumed(old(cluster.script), cluster.script, ok)
    {
      ghost var keepSet := KeepOf(Tracks(), NamesOf(ac, api, notif, cells), TransportRoles(orderedCells));
      var keep := TransportKeep(ac, api, notif, cells, orderedCells);
      var stranded := set c | c in cluster.held && c.Transport? && c.name !in keep;
      assert stranded == Pruned(cluster.held, keepSet);
      ok := cluster.Strip(stranded);
    }

    /** Releases and prune of one reconcile, as far as they got.  If a call fails the
        record is that of the roles finalized before it; whatever fails no secret is
        forgotten that still has to be released; and the method succeeds iff each of its
        calls does. */
    method ReleaseRotated(cluster: Cluster, ac: string, api: string, notif: string, cells: map<string, string>,
                          cellOrder: seq<string>, orderedCells: seq<string>, ready: bool)
      returns (ok: bool, ghost done: nat)
      requires Enumerates(cellOrder, cells.Keys)
      requires Transport("") !in cluster.held
      modifies this, cluster
      ensures var e := Effect(old(cluster.held), old(Tracks()));
              var current := NamesOf(ac, api, notif, cells);
              && (ok ==> Effect(cluster.held, Tracks()) == ReleaseEffect(e, current, cellOrder, orderedCells, ready))
              && (!ok ==> Stopped(e, current, cellOrder, orderedCells, ready, Effect(cluster.held, Tracks()), done))
              && NothingForgotten(cluster.held, e.names, current, Tracks())
              && (!ready ==> cluster.held == e.held)
      ensures Consumed(old(cluster.script), cluster.script, ok)
    {
      ghost var current, e := NamesOf(ac, api, notif, cells), Effect(cluster.held, Tracks());
      ghost var script, roles := cluster.script, ReleaseRoles(cellOrder);
      NamesThus(ac, api, notif, cells, r => NameAt(ac, api, notif, cells, r));
      ok, done := ReleaseTracked(cluster, ac, api, notif, cells, cellOrder, current, ready);
      assert roles[..|roles|] == roles;
      ghost var mid := Effect(cluster.held, Tracks());
      HeldShrinks(e, current, ready, roles[..done], 0);
      if !ok && done + 1 <= |roles| { HeldShrinks(e, current, ready, roles[..done + 1], 0); }
      if ok && ready {
        ghost var before := cluster.script;
        ok := PruneStranded(cluster, ac, api, notif, cells, orderedCells);
        ConsumedJoin(script, before, cluster.script, ok);
      }
      ReleaseRolesApart(cellOrder, cells.Keys);
      ForgetsNothing(e, current, ready, roles, done, cluster.held);
    }
  }

  /** The effect of finalizing the first `i` roles. */
  function FinalizedTo(e: Effect, current: Names, ready: bool, roles: seq<Role>, i: nat): Effect
    requires i <= |roles|
  {
    FinalizeAll(e, current, ready, roles[..i])
  }

  /** A failure after `done` roles were finalized: in the call of the next one or, when
      there is none left, in the prune. */
  ghost predicate Stopped(e: Effect, current: Names, cellOrder: seq<string>, orderedCells: seq<string>, ready: bool,
                          out: Effect, done: nat)
  {
    var roles := ReleaseRoles(cellOrder);
    && done <= |roles| && out.names == FinalizedTo(e, current, ready, roles, done).names
    && out.held <= FinalizedTo(e, current, ready, roles, done).held
    && (if done < |roles| then FinalizedTo(e, current, ready, roles, done + 1).held <= out.held
        else ready && ReleaseEffect(e, current, cellOrder, orderedCells, ready).held <= out.held)
  }

  lemma FirstThree(e: Effect, current: Names, ready: bool, cellOrder: seq<string>)
    ensures var roles := ReleaseRoles(cellOrder);
            && FinalizedTo(e, current, ready, roles, 0) == e
            && FinalizedTo(e, current, ready, roles, 1) == FinalizeOne(e, current, ready, Ac)
            && FinalizedTo(e, current, ready, roles, 2) ==
                 FinalizeOne(FinalizedTo(e, current, ready, roles, 1), current, ready, Api)
            && FinalizedTo(e, current, ready, roles, 3) ==
                 FinalizeOne(FinalizedTo(e, current, ready, roles, 2), current, ready, Notif)
  {
    var roles := ReleaseRoles(cellOrder);
    assert roles[..0] == [];
    FinalizeNext(e, current, ready, roles, 0);
    FinalizeNext(e, current, ready, roles, 1);
    FinalizeNext(e, current, ready, roles, 2);
  }

  lemma ForgetsNothing(e: Effect, current: Names, ready: bool, roles: seq<Role>, i: nat, held: set<Secret>)
    requires DistinctRoles(roles) && i <= |roles| && held <= FinalizedTo(e, current, ready, roles, i).held
    ensures NothingForgotten(held, e.names, current, FinalizedTo(e, current, ready, roles, i).names)
  {
    FinalizeAllAt(e, current, ready, roles[..i]);
    var out := FinalizedTo(e, current, ready, roles, i);
    forall r | r in e.names && Lookup(current, r) != Some(e.names[r]) && SecretOf(r, e.names[r]) in held
      ensures Lookup(out.names, r) == Some(e.names[r])
    {
      if r in roles[..i] && ready { assert StrippedFor(e, current, ready, r, SecretOf(r, e.names[r])); }
    }
  }

  /** What the releases and the prune of a reconcile are meant to do. */
  function ReleaseEffect(e: Effect, current: Names, cellOrder: seq<string>, orderedCells: seq<string>, ready: bool): Effect {
    PruneEffect(FinalizeAll(e, current, ready, ReleaseRoles(cellOrder)), current, TransportRoles(orderedCells), ready)
  }

  function ReleaseRoles(cellOrder: seq<string>): seq<Role> {
    [Ac, Api, Notif] + BusRoles(cellOrder)
  }

  function TransportRoles(orderedCells: seq<string>): set<Role> {
    {Api, Notif} + SpecRoles(orderedCells)
  }

  ghost predicate NamedBy(annotations: map<string, string>, cells: map<string, string>, cell: string, n: string) {
    (cell in annotations && annotations[cell] == n) || (cell in cells && cells[cell] == n)
  }

  /** Role `r` but for the application credential has name `n` in one of the two. */
  ghost predicate NamedAs(was: Role -> string, now: Role -> string, r: Role, n: string) {
    !r.Ac? && (was(r) == n || now(r) == n)
  }

  ghost predicate NamedThus(names: Names, f: Role -> string) {
    forall r: Role :: Lookup(names, r) == Opt(f(r))
  }

  lemma KeepNamed(names: Names, current: Names, was: Role -> string, now: Role -> string, orderedCells: seq<string>, n: string)
    requires n != "" && NamedThus(names, was) && NamedThus(current, now)
    ensures Transport(n) in KeepOf(names, current, {Api, Notif} + SpecRoles(orderedCells)) <==>
            NamedAs(was, now, Api, n) || NamedAs(was, now, Notif, n) ||
            exists k :: 0 <= k < |orderedCells| && NamedAs(was, now, CellBus(orderedCells[k]), n)
  {
  }

  lemma NamesThus(ac: string, api: string, notif: string, cells: map<string, string>, f: Role -> string)
    requires forall r :: f(r) == NameAt(ac, api, notif, cells, r)
    ensures NamedThus(NamesOf(ac, api, notif, cells), f)
  {
  }

  lemma KeepListed(wasApi: string, wasNotif: string, annotations: map<string, string>, ac: string,
                   nowAc: string, api: string, notif: string, cells: map<string, string>, orderedCells: seq<string>, n: string)
    requires n != ""
    ensures (n in [wasApi, api, wasNotif, notif] ||
             exists k :: 0 <= k < |orderedCells| && NamedBy(annotations, cells, orderedCells[k], n))
            <==> Transport(n) in KeepOf(NamesOf(ac, wasApi, wasNotif, annotations), NamesOf(nowAc, api, notif, cells),
                                        {Api, Notif} + SpecRoles(orderedCells))
  {
    var was, now := r => NameAt(ac, wasApi, wasNotif, annotations, r), r => NameAt(nowAc, api, notif, cells, r);
    NamesThus(ac, wasApi, wasNotif, annotations, was);
    NamesThus(nowAc, api, notif, cells, now);
    KeepNamed(NamesOf(ac, wasApi, wasNotif, annotations), NamesOf(nowAc, api, notif, cells), was, now, orderedCells, n);
    CellsNamed(annotations, cells, was, now, orderedCells, n);
  }

  lemma CellsNamed(annotations: map<string, string>, cells: map<string, string>, was: Role -> string, now: Role -> string,
                   orderedCells: seq<string>, n: string)
    requires n != ""
    requires forall c :: was(CellBus(c)) == (if c in annotations then annotations[c] else "")
    requires forall c :: now(CellBus(c)) == (if c in cells then cells[c] else "")
    ensures (exists k :: 0 <= k < |orderedCells| && NamedBy(annotations, cells, orderedCells[k], n)) <==>
            (exists k :: 0 <= k < |orderedCells| && NamedAs(was, now, CellBus(orderedCells[k]), n))
  {
    forall k | 0 <= k < |orderedCells|
      ensures NamedBy(annotations, cells, orderedCells[k], n) <==> NamedAs(was, now, CellBus(orderedCells[k]), n)
    {
    }
  }

  lemma NamesStored(ac: string, api: string, notif: string, cells: map<string, string>, r: Role, name: string)
    ensures var names := NamesOf(ac, api, notif, cells);
            && Lookup(names, r) == Opt(NameAt(ac, api, notif, cells, r))
            && Store(names, r, Opt(name)) == NamesWith(ac, api, notif, cells, r, name)
  {
    LookupNames(ac, api, notif, cells, r);
    forall q: Role
      ensures Lookup(Store(NamesOf(ac, api, notif, cells), r, Opt(name)), q) ==
              Lookup(NamesWith(ac, api, notif, cells, r, name), q)
    {
      NameStored(ac, api, notif, cells, r, name, q);
    }
    SameNames(Store(NamesOf(ac, api, notif, cells), r, Opt(name)), NamesWith(ac, api, notif, cells, r, name));
  }

  function NamesWith(ac: string, api: string, notif: string, cells: map<string, string>, r: Role, name: string): Names {
    match r
    case Ac => NamesOf(name, api, notif, cells)
    case Api => NamesOf(ac, name, notif, cells)
    case Notif => NamesOf(ac, api, name, cells)
    case CellBus(c) => NamesOf(ac, api, notif, cells[c := name])
  }

  lemma NameStored(ac: string, api: string, notif: string, cells: map<string, string>, r: Role, name: string, q: Role)
    ensures Lookup(Store(NamesOf(ac, api, notif, cells), r, Opt(name)), q) ==
            Lookup(NamesWith(ac, api, notif, cells, r, name), q)
  {
    StoreAt(NamesOf(ac, api, notif, cells), r, Opt(name), q);
    LookupNames(ac, api, notif, cells, q);
    match r
    case Ac => LookupNames(name, api, notif, cells, q);
    case Api => LookupNames(ac, name, notif, cells, q);
    case Notif => LookupNames(ac, api, name, cells, q);
    case CellBus(c) => LookupNames(ac, api, notif, cells[c := name], q);
  }

  lemma StoreAt(names: Names, r: Role, name: Option<string>, q: Role)
    ensures Lookup(Store(names, r, name), q) == if q == r then name else Lookup(names, q)
  {
  }

  /** Finalizing more roles never gives a secret its finalizer back. */
  lemma {:induction false} HeldShrinks(e: Effect, current: Names, ready: bool, roles: seq<Role>, k: nat)
    requires k <= |roles|
    ensures FinalizeAll(e, current, ready, roles).held <= FinalizeAll(e, current, ready, roles[..k]).held
    ensures !ready ==> FinalizeAll(e, current, ready, roles).held == e.held
    decreases |roles|
  {
    if k < |roles| {
      var front := roles[..|roles| - 1];
      HeldShrinks(e, current, ready, front, k);
      assert front[..k] == roles[..k];
    } else if roles != [] {
      assert roles[..k] == roles;
      HeldShrinks(e, current, ready, roles[..|roles| - 1], |roles| - 1);
    }
  }

  ghost predicate Enumerates(order: seq<string>, keys: set<string>)
  {
    && (forall c :: c in order <==> c in keys)
    && (forall i, j :: 0 <= i < j < |order| ==> order[i] != order[j])
  }

  function BusRoles(cells: seq<string>): seq<Role>
    ensures |BusRoles(cells)| == |cells|
    ensures forall i :: 0 <= i < |cells| ==> BusRoles(cells)[i] == CellBus(cells[i])
  {
    seq(|cells|, i requires 0 <= i < |cells| => CellBus(cells[i]))
  }

  function SpecRoles(cells: seq<string>): set<Role> {
    set c | c in cells :: CellBus(c)
  }

  function NameAt(ac: string, api: string, notif: string, cells: map<string, string>, r: Role): string {
    match r
    case Ac => ac
    case Api => api
    case Notif => notif
    case CellBus(c) => if c in cells then cells[c] else ""
  }

  function NamesOf(ac: string, api: string, notif: string, cells: map<string, string>): Names {
    map r | r in {Ac, Api, Notif} + (set c | c in cells :: CellBus(c)) && NameAt(ac, api, notif, cells, r) != ""
      :: NameAt(ac, api, notif, cells, r)
  }

  lemma LookupNames(ac: string, api: string, notif: string, cells: map<string, string>, r: Role)
    ensures Lookup(NamesOf(ac, api, notif, cells), r) == Opt(NameAt(ac, api, notif, cells, r))
  {
  }

  // ---- the effect does not depend on the order of the roles -----------------

  ghost predicate DistinctRoles(roles: seq<Role>) {
    forall i, j :: 0 <= i < j < |roles| ==> roles[i] != roles[j]
  }

  /** `c` is what finalizing role `r` strips. */
  ghost predicate StrippedFor(e: Effect, current: Names, ready: bool, r: Role, c: Secret) {
    c in Stripped(r, Lookup(e.names, r), Lookup(current, r), ready)
  }

  lemma {:induction false} FinalizeAllAt(e: Effect, current: Names, ready: bool, roles: seq<Role>)
    requires DistinctRoles(roles)
    ensures var out := FinalizeAll(e, current, ready, roles);
            && (forall r :: Lookup(out.names, r) ==
                  if r in roles then NextTracked(Lookup(e.names, r), Lookup(current, r), ready) else Lookup(e.names, r))
            && (forall c :: c in out.held <==>
                  c in e.held && !exists r :: r in roles && StrippedFor(e, current, ready, r, c))
    decreases |roles|
  {
    if roles != [] {
      var front, last := roles[..|roles| - 1], roles[|roles| - 1];
      FinalizeAllAt(e, current, ready, front);
      assert roles == front + [last];
      assert last !in front;
      var mid, out := FinalizeAll(e, current, ready, front), FinalizeAll(e, current, ready, roles);
      assert out == FinalizeOne(mid, current, ready, last);
      forall c ensures c in out.held <==>
                       c in e.held && !exists r :: r in roles && StrippedFor(e, current, ready, r, c)
      {
        assert c in out.held <==> c in mid.held && !StrippedFor(e, current, ready, last, c);
        assert forall r :: r in roles <==> r in front || r == last;
      }
    }
  }

  lemma SameNames(a: Names, b: Names)
    requires forall r :: Lookup(a, r) == Lookup(b, r)
    ensures a == b
  {
    forall r: Role ensures (r in a <==> r in b) && (r in a ==> a[r] == b[r]) {
      assert Lookup(a, r) == Lookup(b, r);
    }
  }

  lemma ReleaseRolesApart(cellOrder: seq<string>, keys: set<string>)
    requires Enumerates(cellOrder, keys)
    ensures DistinctRoles(ReleaseRoles(cellOrder))
    ensures forall r :: r in ReleaseRoles(cellOrder) <==> r in {Ac, Api, Notif} || (r.CellBus? && r.cell in keys)
  {
  }

  /** Whatever order the map of cell secrets is iterated in and whatever order the
      spec cells are listed in, the releases and the prune do the same. */
  lemma ReleaseOrderIsIrrelevant(e: Effect, current: Names, keys: set<string>, ready: bool,
                                 order: seq<string>, order': seq<string>, cells: seq<string>, cells': seq<string>)
    requires Enumerates(order, keys) && Enumerates(order', keys)
    requires forall c :: c in cells <==> c in cells'
    ensures ReleaseEffect(e, current, order, cells, ready) == ReleaseEffect(e, current, order', cells', ready)
  {
    ReleaseRolesApart(order, keys);
    ReleaseRolesApart(order', keys);
    var roles, roles' := ReleaseRoles(order), ReleaseRoles(order');
    FinalizeAllAt(e, current, ready, roles);
    FinalizeAllAt(e, current, ready, roles');
    var a, b := FinalizeAll(e, current, ready, roles), FinalizeAll(e, current, ready, roles');
    SameNames(a.names, b.names);
    assert a.held == b.held;
    assert TransportRoles(cells) == TransportRoles(cells');
  }

  /** Application credentials are released one by one and never pruned: the one
      tracked is released, any other that still has the finalizer keeps it. */
  lemma AppCredReleaseIsExact(e: Effect, current: Names, keys: set<string>, order: seq<string>, cells: seq<string>,
                              ready: bool, x: string)
    requires Enumerates(order, keys)
    ensures AppCred(x) in ReleaseEffect(e, current, order, cells, ready).held <==>
            AppCred(x) in e.held && !(ready && Lookup(e.names, Ac) == Some(x) && Lookup(current, Ac) != Some(x))
  {
    ReleaseRolesApart(order, keys);
    FinalizeAllAt(e, current, ready, ReleaseRoles(order));
    assert StrippedFor(e, current, ready, Ac, AppCred(x)) <==>
           ready && Lookup(e.names, Ac) == Some(x) && Lookup(current, Ac) != Some(x);
  }
}
