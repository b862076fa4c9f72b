/** How a NovaCell keeps account of its computes: forget the obsolete ones, ensure
    those in the spec, and compare numbers. */
module ComputeStatuses {
  import opened Wrappers

  datatype ComputeStatus = ComputeStatus(deployed: bool, errors: bool)

  /** What ensuring one compute meets. */
  datatype Seen =
    | GetFails
    | NotOurs
    | PatchFails
    | Patched(generation: int, observed: int, ready: bool, applied: string)

  /** What deleting one compute meets.  `Refused`: the server answers the deletion
      with an error other than "not found". */
  datatype Deletion = ReadFails | NotThere | Foreign | Deleted | Vanished | Refused

  function EnsureCompute(seen: Seen, input: string): (r: ComputeStatus)
    ensures r.deployed <==>
              seen.Patched? && seen.ready && seen.generation == seen.observed && seen.applied == input
    ensures r.errors <==> !seen.Patched?
  {
    match seen
    case GetFails => ComputeStatus(false, true)
    case NotOurs => ComputeStatus(false, true)
    case PatchFails => ComputeStatus(false, true)
    case Patched(generation, observed, ready, applied) =>
      ComputeStatus(generation == observed && ready && applied == input, false)
  }

  type Statuses = map<string, ComputeStatus>

  /** The noVNC proxy of the cell: not part of it, enabled and not ready yet, ready but
      its endpoint cannot be read, or ready. */
  datatype Proxy = Off | NotReady | UrlFails | Ready

  /** The deletion of the `k`-th compute fails. */
  predicate StoppedAt(names: seq<string>, spec: set<string>, d: map<string, Deletion>, k: nat)
    requires k < |names| && (names[k] !in spec ==> names[k] in d)
  {
    names[k] !in spec && (d[names[k]].ReadFails? || d[names[k]].Vanished?)
  }

  function DeployedIn(s: Statuses): set<string> {
    set c | c in s && s[c].deployed
  }

  ghost predicate Lists(names: seq<string>, keys: set<string>) {
    && (forall c :: c in names <==> c in keys)
    && (forall i, j :: 0 <= i < j < |names| ==> names[i] != names[j])
  }

  class NovaCell {
    var statuses: Statuses
    var computes: set<string>          // the NovaComputes of this cell that exist
    var allDeployed: Option<bool>      // the condition; None when removed, Some(false) initially

    constructor (statuses: Statuses, computes: set<string>)
      ensures this.statuses == statuses && this.computes == computes && allDeployed == Some(false)
    {
      this.statuses := statuses;
      this.computes := computes;
      allDeployed := Some(false);
    }

    /** Only "not found" is reported when the deletion itself fails. */
    method EnsureComputeDeleted(c: string, d: Deletion) returns (ok: bool)
      modifies this`computes
      ensures ok <==> !d.ReadFails? && !d.Vanished?
      ensures computes == if d.Deleted? || d.Vanished? then old(computes) - {c} else old(computes)
    {
      if d.NotThere? { return true; }
      if d.ReadFails? { return false; }
      if d.Foreign? { return true; }
      if d.Deleted? || d.Vanished? { computes := computes - {c}; }
      return !d.Vanished?;
    }

    /** The loop over the recorded statuses, in whatever order `names` lists them: it
        forgets the obsolete ones and, if it fails, those before the one it fails for. */
    method DropObsolete(names: seq<string>, spec: set<string>, d: map<string, Deletion>)
      returns (ok: bool, ghost dropped: set<string>)
      requires Lists(names, statuses.Keys)
      requires statuses.Keys - spec <= d.Keys
      modifies this`statuses, this`computes
      ensures ok <==> forall c :: c in old(statuses).Keys - spec ==> !d[c].ReadFails? && !d[c].Vanished?
      ensures statuses == old(statuses) - dropped && dropped <= old(statuses).Keys - spec
      ensures ok ==> dropped == old(statuses).Keys - spec
      ensures ok ==> computes == old(computes) - set c | c in dropped && d[c].Deleted?
      ensures !ok ==>
                exists k :: 0 <= k < |names| && StoppedAt(names, spec, d, k) && dropped == (set c | c in names[..k] && c !in spec) &&
                  computes == old(computes) - (set c | c in dropped && d[c].Deleted?)
                                            - (if d[names[k]].Vanished? then {names[k]} else {})
    {
      ghost var s0 := statuses;
      ghost var c0 := computes;
      dropped := {};
      for i := 0 to |names|
        invariant dropped <= s0.Keys - spec
        invariant forall c :: c in dropped <==> c in names[..i] && c !in spec
        invariant statuses == s0 - dropped
        invariant computes == c0 - set c | c in dropped && d[c].Deleted?
        invariant forall c :: c in dropped ==> !d[c].ReadFails? && !d[c].Vanished?
      {
        var c := names[i];
        assert names[..i + 1] == names[..i] + [c];
        assert c in names;
        if c !in spec {
          ok := EnsureComputeDeleted(c, d[c]);
          if !ok { return; }
          statuses := statuses - {c};
          dropped := dropped + {c};
        }
      }
      assert names[..|names|] == names;
      assert dropped == s0.Keys - spec;
      ok := true;
    }

    /** The loop over the templates. */
    method EnsureComputes(names: seq<string>, spec: set<string>, seen: map<string, Seen>, input: string)
      requires Lists(names, spec) && seen.Keys == spec
      modifies this`statuses
      ensures statuses.Keys == old(statuses).Keys + spec
      ensures forall c :: c in statuses ==>
                statuses[c] == if c in spec then EnsureCompute(seen[c], input) else old(statuses)[c]
    {
      ghost var s0 := statuses;
      for i := 0 to |names|
        invariant statuses.Keys == s0.Keys + set c | c in names[..i]
        invariant forall c :: c in statuses ==>
          statuses[c] == if c in names[..i] then EnsureCompute(seen[c], input) else s0[c]
      {
        assert names[..i + 1] == names[..i] + [names[i]];
        statuses := statuses[names[i] := EnsureCompute(seen[names[i]], input)];
      }
      assert names[..|names|] == names;
    }

    /** The ready list; only its length is used. */
    method ReadyComputes(names: seq<string>) returns (ready: seq<string>)
      requires Lists(names, statuses.Keys)
      ensures Lists(ready, DeployedIn(statuses))
      ensures |ready| == |DeployedIn(statuses)|
    {
      ready := [];
      for i := 0 to |names|
        invariant Lists(ready, set c | c in names[..i] && statuses[c].deployed)
      {
        assert names[..i + 1] == names[..i] + [names[i]];
        assert names[i] !in names[..i];
        ghost var before := set c | c in names[..i] && statuses[c].deployed;
        if statuses[names[i]].deployed {
          ListsOneMore(ready, before, names[i]);
          ready := ready + [names[i]];
          assert (set c | c in names[..i + 1] && statuses[c].deployed) == before + {names[i]};
        } else {
          assert (set c | c in names[..i + 1] && statuses[c].deployed) == before;
        }
      }
      assert names[..|names|] == names;
      ListedOnce(ready, DeployedIn(statuses));
    }

    /** The comparison of numbers, after the computes of the spec were ensured. */
    method CheckAllDeployed(templates: seq<string>, spec: set<string>) returns (allApplied: bool)
      requires Lists(templates, spec) && statuses.Keys == spec
      modifies this`allDeployed
      ensures allApplied <==> forall c :: c in spec ==> statuses[c].deployed
      ensures allDeployed == if spec == {} then None else if allApplied then Some(true) else old(allDeployed)
    {
      allApplied := true;
      ListedOnce(templates, spec);
      if |templates| == 0 {
        allDeployed := None;
      } else {
        var ready := ReadyComputes(templates);
        CountIsExact(statuses, spec);
        allApplied := |templates| == |ready|;
        if allApplied { allDeployed := Some(true); }
      }
    }

    /** The three loops and the comparison, in whatever order each map is ranged over.
        While the proxy of the cell is not ready only obsolete computes are dropped;
        `done` says that the reconcile got past that. */
    method ReconcileComputes(recorded: seq<string>, templates: seq<string>, spec: set<string>,
                             d: map<string, Deletion>, proxy: Proxy, seen: map<string, Seen>, input: string)
      returns (ok: bool, done: bool, allApplied: bool)
      requires Lists(recorded, statuses.Keys) && statuses.Keys - spec <= d.Keys
      requires Lists(templates, spec) && seen.Keys == spec
      modifies this
      ensures var dropFails := exists c :: c in old(statuses).Keys - spec && (d[c].ReadFails? || d[c].Vanished?);
              && (ok <==> !dropFails && !proxy.UrlFails?)
              && (!dropFails && !done ==> statuses == old(statuses) - (old(statuses).Keys - spec))
      ensures done <==> ok && !proxy.NotReady?
      ensures done ==> statuses.Keys == spec && forall c :: c in spec ==> statuses[c] == EnsureCompute(seen[c], input)
      ensures done ==> (allApplied <==> forall c :: c in spec ==>
                          seen[c].Patched? && seen[c].ready && seen[c].generation == seen[c].observed && seen[c].applied == input)
      ensures done ==> allDeployed == if spec == {} then None else if allApplied then Some(true) else old(allDeployed)
      ensures !done ==> !allApplied && allDeployed == old(allDeployed)
    {
      done, allApplied := false, false;
      ghost var dropped;
      ok, dropped := DropObsolete(recorded, spec, d);
      if !ok { return; }
      if proxy.NotReady? { return; }
      if proxy.UrlFails? { ok := false; return; }
      assert statuses.Keys <= spec;
      EnsureComputes(templates, spec, seen, input);
      allApplied := CheckAllDeployed(templates, spec);
      done := true;
    }
  }

  lemma ListsOneMore(names: seq<string>, keys: set<string>, c: string)
    requires Lists(names, keys) && c !in keys
    ensures Lists(names + [c], keys + {c})
  {
  }

  lemma {:induction false} ListedOnce(names: seq<string>, keys: set<string>)
    requires Lists(names, keys)
    ensures |names| == |keys|
    decreases |names|
  {
    if names == [] {
      if c :| c in keys { assert c in names; }
    } else {
      var last := |names| - 1;
      assert names == names[..last] + [names[last]];
      ListedOnce(names[..last], keys - {names[last]});
    }
  }

  /** Comparing numbers is comparing computes, when the statuses are those of the spec. */
  lemma CountIsExact(s: Statuses, spec: set<string>)
    requires s.Keys == spec
    ensures |DeployedIn(s)| == |spec| <==> forall c :: c in spec ==> s[c].deployed
  {
    var d := DeployedIn(s);
    if forall c :: c in spec ==> s[c].deployed {
      assert d == spec;
    } else {
      var c :| c in spec && !s[c].deployed;
      SmallerInside(d, spec, c);
    }
  }

  lemma SmallerInside(a: set<string>, b: set<string>, c: string)
    requires a <= b && c in b - a
    ensures |a| < |b|
  {
    var rest := b - a;
    assert c in rest && |rest| > 0;
    assert a + rest == b && a !! rest;
    assert |a + rest| == |a| + |rest|;
  }

  /** Without dropping the obsolete statuses first the numbers could agree although a
      compute of the spec does not run the input. */
  lemma CountWouldMislead() returns (s: Statuses, spec: set<string>)
    ensures spec <= s.Keys && |DeployedIn(s)| == |spec|
    ensures exists c :: c in spec && !s[c].deployed
  {
    s := map["new" := ComputeStatus(false, false), "obsolete" := ComputeStatus(true, false)];
    spec := {"new"};
    assert "obsolete" in s;
    assert DeployedIn(s) == {"obsolete"};
    assert "new" in spec && !s["new"].deployed;
  }
}
