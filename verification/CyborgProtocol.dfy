/** Cyborg as the second instance of the tracked rotation protocol: one group, one
    tracked role (the application credential), and no prune. */
module CyborgProtocol {
  import opened Wrappers
  import opened Secrets
  import InputGroup
  import Rotation
  import opened TrackedRotation
  import opened NovaRotation

  datatype Cyborg = Cyborg(name: string, ac: string, data: (string, string)) {
    function Conf(): Conf {
      TrackedRotation.Conf(NamesOf(ac, "", "", map[]), map[name := {Ac}], map[name := data], {})
    }
  }

  lemma CurrentNames(y: Cyborg, r: Role)
    ensures Lookup(y.Conf().current, r) == if r.Ac? then Opt(y.ac) else None
  {
  }

  /** The one derived input refers to the application credential, if there is one; without
      one the service is released just the same. */
  lemma ServiceInput(y: Cyborg)
    ensures y.Conf().uses.Keys == {y.name} && y.Conf().required == {}
    ensures var i := InputOf(y.Conf(), y.name);
            && i.creds == (if y.ac != "" then {AppCred(y.ac)} else {})
            && (i.rendered, i.unrendered) == y.data
  {
    CurrentNames(y, Ac);
    var conf := y.Conf();
    assert Ac in conf.uses[y.name];
    if y.ac != "" { assert SecretOf(Ac, conf.current[Ac]) in InputOf(conf, y.name).creds; }
  }

  class CyborgInstance {
    var applicationCredentialSecret: string

    constructor (ac: string)
      ensures applicationCredentialSecret == ac
    {
      applicationCredentialSecret := ac;
    }

    ghost function Tracks(): Names
      reads this
    {
      NamesOf(applicationCredentialSecret, "", "", map[])
    }

    /** The end of the reconcile: the last statement that can fail. */
    method ReleaseRotated(cluster: Cluster, ac: string, ready: bool) returns (ok: bool)
      modifies this, cluster
      ensures var e := Effect(old(cluster.held), old(Tracks()));
              var done := FinalizeOne(e, NamesOf(ac, "", "", map[]), ready, Ac);
              && (ok ==> Effect(cluster.held, Tracks()) == done)
              && (!ok ==> Tracks() == e.names)
              && done.held <= cluster.held <= e.held
              && (!ready ==> cluster.held == e.held)
      ensures Consumed(old(cluster.script), cluster.script, ok)
    {
      LookupNames(ac, "", "", map[], Ac);
      LookupNames(applicationCredentialSecret, "", "", map[], Ac);
      var name;
      name, ok := cluster.FinalizeSecretRotation(Ac, applicationCredentialSecret, ac, ready);
      NamesStored(applicationCredentialSecret, "", "", map[], Ac, name);
      if ok { applicationCredentialSecret := name; }
    }
  }

  ghost predicate IsCyborg(conf: Conf)
  {
    exists y: Cyborg :: conf == y.Conf()
  }

  ghost predicate CyborgRun(es: seq<Event>)
  {
    forall i :: 0 <= i < |es| ==> !es[i].Prune? && !es[i].Adopt? && (es[i].Begin? ==> IsCyborg(es[i].conf))
  }

  ghost predicate OnlyAc(s: Tracked)
  {
    && (forall names :: names in s.records ==> names.Keys <= {Ac})
    && (s.mem.Mem? ==> s.mem.read.Keys <= {Ac} && s.mem.names.Keys <= {Ac} && IsCyborg(s.mem.conf))
  }

  lemma OnlyAcStep(s: Tracked, e: Event)
    requires OnlyAc(s) && Enabled(s, e) && !e.Prune? && !e.Adopt? && (e.Begin? ==> IsCyborg(e.conf))
    ensures OnlyAc(Apply(s, e))
  {
    if e.Finalize? {
      var y: Cyborg :| s.mem.conf == y.Conf();
      CurrentNames(y, e.r);
    }
  }

  lemma {:induction false} OnlyAcIsTracked(s: Tracked, es: seq<Event>)
    requires CyborgRun(es) && SafeRun(s, es) && OnlyAc(s)
    ensures OnlyAc(After(s, es))
    decreases |es|
  {
    if es != [] {
      OnlyAcStep(s, es[0]);
      assert CyborgRun(es[1..]);
      OnlyAcIsTracked(Apply(s, es[0]), es[1..]);
    }
  }

  /** With one role the names of roles cannot clash. */
  lemma CyborgNeverClashes(s: Tracked, r: Role)
    requires OnlyAc(s)
    ensures !Clash(s.mem, r)
  {
    if s.mem.Mem? && r in s.mem.names {
      var y: Cyborg :| s.mem.conf == y.Conf();
      var current := y.Conf().current;
      if SecretOf(r, s.mem.names[r]) in SecretsOf(current) {
        var q :| q in current && SecretOf(q, current[q]) == SecretOf(r, s.mem.names[r]);
        CurrentNames(y, q);
        assert q == r;
      }
    }
  }

  /** A run of Cyborg without a hazard of the generic protocol. */
  predicate PlainRun(s: Tracked, es: seq<Event>)
    decreases |es|
  {
    es == [] ||
    (Enabled(s, es[0]) && !(es[0].Work? && Rotation.Hazard(s.rot, es[0].e)) && PlainRun(Apply(s, es[0]), es[1..]))
  }

  /** Nothing that Cyborg does when it releases is a hazard. */
  lemma {:induction false} CyborgRunIsSafe(s: Tracked, es: seq<Event>)
    requires PlainRun(s, es) && CyborgRun(es) && OnlyAc(s)
    ensures SafeRun(s, es)
    decreases |es|
  {
    if es != [] {
      if es[0].Finalize? { CyborgNeverClashes(s, es[0].r); }
      OnlyAcStep(s, es[0]);
      assert CyborgRun(es[1..]);
      CyborgRunIsSafe(Apply(s, es[0]), es[1..]);
    }
  }

  /** A service never runs with a credential that lost its finalizer. */
  lemma PodsKeepTheirCredential(s: Tracked, es: seq<Event>, g: string, c: InputGroup.Child, k: nat)
    requires Init(s) && OnlyAc(s) && PlainRun(s, es) && CyborgRun(es)
    ensures SafeRun(s, es)
    ensures var t := After(s, es).rot;
            g in t.groups && c in t.groups[g].leaves && k < |t.groups[g].leaves[c].pods| ==>
              var pod := t.groups[g].leaves[c].pods[k];
              pod < |t.groups[g].store| && t.groups[g].store[pod].Render().creds <= t.held
  {
    CyborgRunIsSafe(s, es);
    InvTrackedRun(s, es);
    var t := After(s, es).rot;
    if g in t.groups && c in t.groups[g].leaves && k < |t.groups[g].leaves[c].pods| {
      assert InputGroup.Inv(t.groups[g]) && InputGroup.LeafOk(t.groups[g], c);
      assert InputGroup.BoundedLeaf(t.groups[g], c);
      assert Rotation.LeafUses(t.groups[g].leaves[c], t.groups[g].leaves[c].pods[k]);
      assert Rotation.InUse(t.groups[g], t.groups[g].leaves[c].pods[k]);
    }
  }

  /** When API and conductor are ready, whatever older reports the reconcile went by,
      their pods refer to the current application credential and to nothing else. */
  lemma ReadyPodsAreCurrent(s: Tracked, es: seq<Event>, y: Cyborg, g: string, c: InputGroup.Child, k: nat)
    requires Init(s) && OnlyAc(s) && PlainRun(s, es) && CyborgRun(es)
    ensures SafeRun(s, es)
    ensures var t := After(s, es);
            t.mem.Mem? && t.mem.conf == y.Conf() && t.rot.parent.Releasing? && g in t.rot.groups
            && c in t.rot.groups[g].leaves && k < |t.rot.groups[g].leaves[c].pods| ==>
              var pod := t.rot.groups[g].leaves[c].pods[k];
              && g == y.name && pod < |t.rot.groups[g].store|
              && t.rot.groups[g].store[pod].Render().creds == (if y.ac != "" then {AppCred(y.ac)} else {})
  {
    CyborgRunIsSafe(s, es);
    var t := After(s, es);
    if t.mem.Mem? && t.mem.conf == y.Conf() && t.rot.parent.Releasing? && g in t.rot.groups
      && c in t.rot.groups[g].leaves && k < |t.rot.groups[g].leaves[c].pods| {
      ReadyPodsRenderThePlan(s, es, g, c, k);
      ServiceInput(y);
    }
  }

  /** A crash after the release but before the status is patched is repaired.  The next
      reconcile that finds everything ready strips exactly the credential it has read, if
      that is not the current one, whatever record that was; the current one stays
      protected; and what it persists names the current one unless it had read just that
      from a record that is no longer the latest. */
  lemma AbortIsRepaired(s: Tracked, es: seq<Event>, y: Cyborg)
    requires Init(s) && OnlyAc(s) && PlainRun(s, es) && CyborgRun(es)
    ensures SafeRun(s, es)
    ensures var t := After(s, es);
            t.mem.Mem? && t.mem.conf == y.Conf() && t.rot.parent.Releasing? && t.mem.pending == Finalized(y.Conf()) ==>
              t.records != [] &&
              var out := FinalizeOne(Effect(t.rot.held, t.mem.names), y.Conf().current, true, Ac);
              var read := Lookup(t.mem.read, Ac);
              && out.held == t.rot.held - (if read.Some? && read != Opt(y.ac) then {AppCred(read.value)} else {})
              && (y.ac != "" ==> AppCred(y.ac) in out.held)
              && (Lookup(Merged(t.Latest(), t.mem.read, out.names), Ac) == Opt(y.ac) <==>
                    read != Opt(y.ac) || Lookup(t.Latest(), Ac) == Opt(y.ac))
  {
    CyborgRunIsSafe(s, es);
    InvTrackedRun(s, es);
    OnlyAcIsTracked(s, es);
    AsReadRun(s, es);
    var t := After(s, es);
    if t.mem.Mem? && t.mem.conf == y.Conf() && t.rot.parent.Releasing? && t.mem.pending == Finalized(y.Conf()) {
      CyborgNeverClashes(t, Ac);
      CurrentNames(y, Ac);
      var out := FinalizeOne(Effect(t.rot.held, t.mem.names), y.Conf().current, true, Ac);
      MergedLookup(t.Latest(), t.mem.read, out.names, Ac);
      if y.ac != "" {
        assert Lookup(y.Conf().current, Ac) == Some(y.ac);
        assert SecretOf(Ac, y.ac) in SecretsOf(y.Conf().current);
      }
    }
  }

  /** Before it is finalized the role is as it was read. */
  ghost predicate AsRead(s: Tracked)
  {
    s.mem.Mem? && Ac in s.mem.pending ==> Lookup(s.mem.names, Ac) == Lookup(s.mem.read, Ac)
  }

  lemma {:induction false} AsReadRun(s: Tracked, es: seq<Event>)
    requires SafeRun(s, es) && AsRead(s)
    ensures AsRead(After(s, es))
    decreases |es|
  {
    if es != [] {
      AsReadRun(Apply(s, es[0]), es[1..]);
    }
  }
}
