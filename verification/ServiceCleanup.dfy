/** Removing from the Nova database the services of replicas that are scaled away. */
module ServiceCleanup {
  import opened Wrappers
  import opened Strings
  import opened CellNames

  datatype Service = Service(id: string, host: string)

  /** The number at the end of a host name. */
  function HostIndex(host: string): Option<int> {
    Atoi(LastPart(Split(host, '-')))
  }

  predicate Obsolete(s: Service, cell: string, replicas: int)
  {
    Contains(s.host, cell) && HostIndex(s.host).Some? && HostIndex(s.host).value >= replicas
  }

  /** The service makes the cleanup fail: it is of the cell but has no index. */
  predicate Unreadable(s: Service, cell: string)
  {
    Contains(s.host, cell) && HostIndex(s.host).None?
  }

  function ObsoleteOf(services: seq<Service>, cell: string, replicas: int): seq<Service> {
    if services == [] then []
    else
      var last := services[|services| - 1];
      ObsoleteOf(services[..|services| - 1], cell, replicas) + if Obsolete(last, cell, replicas) then [last] else []
  }

  class NovaApi {
    var deleted: seq<Service>
    /** How many more deletions succeed; None for all. */
    var budget: Option<nat>

    constructor (budget: Option<nat>)
      ensures deleted == [] && this.budget == budget
    {
      deleted := [];
      this.budget := budget;
    }

    method Delete(s: Service) returns (ok: bool)
      modifies this
      ensures ok ==> deleted == old(deleted) + [s]
      ensures !ok ==> deleted == old(deleted)
      ensures ok <==> old(budget) != Some(0)
      ensures budget == if ok && old(budget).Some? then Some(old(budget).value - 1) else old(budget)
    {
      if budget == Some(0) { return false; }
      if budget.Some? { budget := Some(budget.value - 1); }
      deleted := deleted + [s];
      ok := true;
    }

    /** One turn of the loop. */
    method CleanOne(service: Service, replicas: int, cell: string) returns (ok: bool)
      modifies this
      ensures ok <==> !Unreadable(service, cell) && (Obsolete(service, cell, replicas) ==> old(budget) != Some(0))
      ensures ok ==> deleted == old(deleted) + if Obsolete(service, cell, replicas) then [service] else []
      ensures !ok ==> deleted == old(deleted)
      ensures budget == Spent(old(budget), |deleted| - |old(deleted)|)
    {
      if !Contains(service.host, cell) { return true; }
      var parts := Split(service.host, '-');
      var index := Atoi(parts[|parts| - 1]);
      if index.None? { return false; }
      ok := true;
      if index.value >= replicas {
        ok := Delete(service);
      }
    }

    /** It succeeds iff each service of the cell has an index at the end of its host and
        the server takes as many deletions as there are obsolete services; these are then
        deleted, in the order they are listed.  Otherwise those of an initial part are. */
    method Clean(services: seq<Service>, replicas: int, cell: string) returns (ok: bool, ghost done: nat)
      modifies this
      ensures ok <==> Readable(services, cell) && Affordable(old(budget), |ObsoleteOf(services, cell, replicas)|)
      ensures done <= |services| && deleted == old(deleted) + ObsoleteOf(services[..done], cell, replicas)
      ensures ok ==> deleted == old(deleted) + ObsoleteOf(services, cell, replicas)
      ensures !ok ==>
                && done < |services|
                && (Unreadable(services[done], cell) || (Obsolete(services[done], cell, replicas) && budget == Some(0)))
      ensures budget == Spent(old(budget), |deleted| - |old(deleted)|)
    {
      done := 0;
      for i := 0 to |services|
        invariant done == i && deleted == old(deleted) + ObsoleteOf(services[..i], cell, replicas)
        invariant Readable(services[..i], cell)
        invariant budget == Spent(old(budget), |ObsoleteOf(services[..i], cell, replicas)|)
        invariant Affordable(old(budget), |ObsoleteOf(services[..i], cell, replicas)|)
      {
        NextService(services, cell, replicas, i);
        ok := CleanOne(services[i], replicas, cell);
        if !ok {
          NoFurther(services, cell, replicas, i, old(budget));
          return;
        }
        done := done + 1;
      }
      assert services[..|services|] == services;
      ok := true;
    }
  }

  predicate Readable(services: seq<Service>, cell: string) {
    forall s :: s in services ==> !Unreadable(s, cell)
  }

  predicate Affordable(budget: Option<nat>, n: nat) {
    budget.Some? ==> n <= budget.value
  }

  lemma NextService(services: seq<Service>, cell: string, replicas: int, i: nat)
    requires i < |services|
    ensures ObsoleteOf(services[..i + 1], cell, replicas) ==
            ObsoleteOf(services[..i], cell, replicas) + if Obsolete(services[i], cell, replicas) then [services[i]] else []
    ensures Readable(services[..i + 1], cell) <==> Readable(services[..i], cell) && !Unreadable(services[i], cell)
  {
    assert services[..i + 1] == services[..i] + [services[i]];
    assert services[..i + 1][..i] == services[..i];
  }

  /** Where the loop stops the whole cannot succeed. */
  lemma NoFurther(services: seq<Service>, cell: string, replicas: int, i: nat, budget: Option<nat>)
    requires i < |services|
    requires Unreadable(services[i], cell) || !Affordable(budget, |ObsoleteOf(services[..i + 1], cell, replicas)|)
    ensures !(Readable(services, cell) && Affordable(budget, |ObsoleteOf(services, cell, replicas)|))
  {
    assert services[i] in services;
    ObsoleteGrow(services, cell, replicas, i + 1);
  }

  /** What is left of the deletions that succeed. */
  function Spent(budget: Option<nat>, n: int): Option<nat> {
    if budget.None? then None else Some(if 0 <= n <= budget.value then budget.value - n else 0)
  }

  lemma {:induction false} ObsoleteGrow(services: seq<Service>, cell: string, replicas: int, k: nat)
    requires k <= |services|
    ensures |ObsoleteOf(services[..k], cell, replicas)| <= |ObsoleteOf(services, cell, replicas)|
    decreases |services|
  {
    if k == |services| {
      assert services[..k] == services;
    } else {
      var front := services[..|services| - 1];
      assert front[..k] == services[..k];
      ObsoleteGrow(front, cell, replicas, k);
    }
  }

  lemma {:induction false} ObsoleteAre(services: seq<Service>, cell: string, replicas: int)
    ensures forall s :: s in ObsoleteOf(services, cell, replicas) <==> s in services && Obsolete(s, cell, replicas)
  {
    if services != [] {
      var last := services[|services| - 1];
      ObsoleteAre(services[..|services| - 1], cell, replicas);
      assert services == services[..|services| - 1] + [last];
    }
  }

  /** What decides is what follows the last dash of a host, and only if the name of the
      cell occurs in it: without a number there the cleanup fails, with one the service
      goes iff the number is at least the replica count. */
  lemma AfterTheLastDash(id: string, prefix: string, t: string, cell: string, replicas: int)
    requires '-' !in t
    ensures var s := Service(id, prefix + "-" + t);
            && (Unreadable(s, cell) <==> Contains(prefix + "-" + t, cell) && Atoi(t).None?)
            && (Obsolete(s, cell, replicas) <==>
                 Contains(prefix + "-" + t, cell) && Atoi(t).Some? && Atoi(t).value >= replicas)
  {
    SplitLast(prefix, '-', t);
    assert prefix + "-" + t == prefix + ['-'] + t;
  }

  // ---- the hosts of the operator's own pods ---------------------------------

  /** The pod of a StatefulSet. */
  function PodName(set_: string, index: nat): string {
    set_ + "-" + Decimal(index)
  }

  function ConductorSet(nova: string, cell: string): string {
    CellCRName(nova, cell) + "-conductor"
  }

  /** Splitting and parsing undoes the naming of pods. */
  lemma PodIndex(set_: string, index: nat)
    ensures HostIndex(PodName(set_, index)) == if index <= INT64_MAX then Some(index) else None
  {
    var d := Decimal(index);
    assert '-' !in d by {
      forall i | 0 <= i < |d| ensures d[i] != '-' { assert IsDigit(d[i]); }
    }
    assert PodName(set_, index) == set_ + ['-'] + d;
    SplitLast(set_, '-', d);
    AtoiDecimal(index);
  }

  lemma {:induction false} ContainsMiddle(a: string, t: string, b: string)
    ensures Contains(a + t + b, t)
  {
    if a == [] {
      assert a + t + b == t + b;
    } else {
      assert (a + t + b)[1..] == a[1..] + t + b;
      ContainsMiddle(a[1..], t, b);
    }
  }

  /** Scaling the conductor of a cell: of its own pods exactly those from the replica
      count upwards go. */
  lemma OwnConductors(nova: string, cell: string, id: string, index: nat, replicas: nat)
    requires index <= INT64_MAX
    ensures Obsolete(Service(id, PodName(ConductorSet(nova, cell), index)), cell, replicas) <==> index >= replicas
  {
    var host := PodName(ConductorSet(nova, cell), index);
    PodIndex(ConductorSet(nova, cell), index);
    assert host == (nova + "-") + cell + ("-conductor" + "-" + Decimal(index));
    ContainsMiddle(nova + "-", cell, "-conductor" + "-" + Decimal(index));
  }

  /** Another cell's service is deleted exactly when the name of the cell occurs in its
      host and its index is at least the replica count of this cell. */
  lemma OtherConductors(nova: string, cell: string, other: string, id: string, index: nat, replicas: nat)
    requires index <= INT64_MAX
    ensures Obsolete(Service(id, PodName(ConductorSet(nova, other), index)), cell, replicas) <==>
            Contains(PodName(ConductorSet(nova, other), index), cell) && index >= replicas
  {
    PodIndex(ConductorSet(nova, other), index);
  }

  /** When no cell's name occurs in a host of another the cleanup of one cell leaves
      all services of the others alone. */
  lemma CellsApart(nova: string, cell: string, others: set<string>, services: seq<Service>, replicas: int)
    requires forall s :: s in services ==>
               exists c, i: nat :: c in others + {cell} && s.host == PodName(ConductorSet(nova, c), i)
    requires forall c, i: nat :: c in others ==> !Contains(PodName(ConductorSet(nova, c), i), cell)
    ensures forall s :: s in ObsoleteOf(services, cell, replicas) ==>
              exists i: nat :: s.host == PodName(ConductorSet(nova, cell), i)
  {
  }

  /** A cell whose name begins with that of another loses its services from the other's
      replica count upwards, in use or not. */
  lemma PrefixTakes(nova: string, cell: string, rest: string, id: string, index: nat, replicas: nat)
    requires index <= INT64_MAX
    ensures Obsolete(Service(id, PodName(ConductorSet(nova, cell + rest), index)), cell, replicas) <==> index >= replicas
  {
    var host := PodName(ConductorSet(nova, cell + rest), index);
    PodIndex(ConductorSet(nova, cell + rest), index);
    assert host == (nova + "-") + cell + (rest + "-conductor" + "-" + Decimal(index));
    ContainsMiddle(nova + "-", cell, rest + "-conductor" + "-" + Decimal(index));
  }

  /** Scaling the conductor of cell1 to one deletes services of cell10. */
  lemma Cell1TakesFromCell10(nova: string, id: string, index: nat) returns (cell: string, other: string)
    requires 1 <= index <= INT64_MAX
    ensures cell == "cell1" && other == "cell10"
    ensures Obsolete(Service(id, PodName(ConductorSet(nova, other), index)), cell, 1)
  {
    cell := "cell1";
    var rest := "0";
    other := cell + rest;
    PrefixTakes(nova, cell, rest, id, index, 1);
  }

  /** Without a cell, as for the scheduler, every service is looked at. */
  lemma NoCellMeansAll(s: Service, replicas: int)
    ensures Obsolete(s, "", replicas) <==> HostIndex(s.host).Some? && HostIndex(s.host).value >= replicas
  {
  }
}
