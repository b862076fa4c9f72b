/** The reconcile functions of the services and of the NovaCell as the sequences of
    calls they are, each of which may be preceded by any steps of everybody else and
    may be the last one.  They take only steps of the protocol. */
module Reconcilers {
  import opened Wrappers
  import opened InputGroup

  /** Whose step it is: the reconciler of a child, the collector's, or anybody's. */
  datatype Who = OfLeaf(c: Child) | OfCollector | OfOthers

  function By(e: Event): Who {
    match e
    case LeafRead(c) => OfLeaf(c)
    case LeafPatch(c) => OfLeaf(c)
    case LeafConfirm(c) => OfLeaf(c)
    case LeafReport(c) => OfLeaf(c)
    case LeafAbort(c) => OfLeaf(c)
    case CollectStart(_, _) => OfCollector
    case CollectEnsure(_) => OfCollector
    case CollectSee(_, _) => OfCollector
    case CollectDelete(_, _) => OfCollector
    case CollectPublish => OfCollector
    case CollectEnd(_) => OfCollector
    case _ => OfOthers
  }

  ghost predicate Reaches(g: Group, h: Group) {
    exists es :: IsRun(g, es, h)
  }

  ghost predicate IsRun(g: Group, es: seq<Event>, h: Group) {
    SafeRun(g, es) && After(g, es) == h
  }

  lemma ReachesItself(g: Group)
    ensures Reaches(g, g)
  {
    assert IsRun(g, [], g);
  }

  lemma {:induction false} RunsJoin(g: Group, es: seq<Event>, h: Group, fs: seq<Event>, k: Group)
    requires IsRun(g, es, h) && IsRun(h, fs, k)
    ensures IsRun(g, es + fs, k)
    decreases |es|
  {
    if es == [] {
      assert es + fs == fs;
    } else {
      assert (es + fs)[1..] == es[1..] + fs;
      RunsJoin(Apply(g, es[0]), es[1..], h, fs, k);
    }
  }

  lemma ReachesOn(g: Group, h: Group, e: Event)
    requires Reaches(g, h) && Enabled(h, e) && !Hazard(h, e)
    ensures Reaches(g, Apply(h, e))
  {
    var es :| IsRun(g, es, h);
    var k := Apply(h, e);
    assert [e][1..] == [];
    assert IsRun(k, [], k);
    assert IsRun(h, [e], k);
    RunsJoin(g, es, h, [e], k);
  }

  /** Those of the steps that are possible, safe and not of `me`. */
  function Play(g: Group, es: seq<Event>, me: Who): Group
    decreases |es|
  {
    if es == [] then g
    else
      var h, e := Play(g, es[..|es| - 1], me), es[|es| - 1];
      if By(e) != me && Enabled(h, e) && !Hazard(h, e) then Apply(h, e) else h
  }

  /** The steps of others leave alone what is the collector's or a reconciler's own. */
  lemma OtherStep(g: Group, e: Event, me: Who)
    requires Enabled(g, e) && By(e) != me
    ensures var h := Apply(g, e);
            && (me.OfCollector? ==> Owned(h) == Owned(g))
            && (me.OfLeaf? && me.c in h.leaves && !h.leaves[me.c].pc.Idle? ==>
                 me.c in g.leaves && h.leaves[me.c].pc == g.leaves[me.c].pc)
  {
    if me.OfCollector? { assert Apply(g, e).leaves.Keys == g.leaves.Keys; }
  }

  /** What only the collector changes. */
  function Owned(g: Group): (Collector, set<Child>, set<nat>, set<Child>) {
    (g.collector, g.recorded, g.applied, g.leaves.Keys)
  }

  /** The children whose report, seen in `view`, is one of the content of version `v`. */
  function Sure(g: Group, view: map<Child, nat>, v: nat): set<Child>
    requires v < |g.store|
  {
    set c | c in view && (c, view[c]) in g.reported && view[c] < |g.store| && g.store[view[c]] == g.store[v]
  }

  /** Those that are seen to report version `v`. */
  function Seen(view: map<Child, nat>, v: nat): set<Child> {
    set c | c in view && view[c] == v
  }

  /** A child that was ensured, and whether its report was then found to match. */
  datatype Entry = Entry(c: Child, shown: bool)

  /** The collector after ensuring one child after another. */
  function Ran(q: Collector, log: seq<Entry>): (r: Collector)
    requires q.Collecting?
    ensures r.Collecting?
    decreases |log|
  {
    if log == [] then q
    else
      var p, e := Ran(q, log[..|log| - 1]), log[|log| - 1];
      p.(known := p.known + {e.c}, confirmed := if e.shown then p.confirmed + {e.c} else p.confirmed)
  }

  /** The entries are those of the children of `all` but for `todo`, each once; they match
      for all the `sure` and for none but the `seen`. */
  ghost predicate Drawn(log: seq<Entry>, all: set<Child>, todo: set<Child>, sure: set<Child>, seen: set<Child>)
    decreases |log|
  {
    if log == [] then todo == all
    else
      var e := log[|log| - 1];
      && e.c in all && e.c !in todo && (e.c in sure ==> e.shown) && (e.shown ==> e.c in seen)
      && Drawn(log[..|log| - 1], all, todo + {e.c}, sure, seen)
  }

  lemma {:induction false} DrawnMeans(q: Collector, log: seq<Entry>, all: set<Child>, todo: set<Child>, sure: set<Child>, seen: set<Child>)
    requires q.Collecting? && Drawn(log, all, todo, sure, seen)
    ensures todo <= all && |log| + |todo| == |all|
    ensures var r := Ran(q, log);
            && r.known == q.known + (all - todo)
            && q.confirmed + (all - todo) * sure <= r.confirmed <= q.confirmed + (all - todo) * seen
    decreases |log|
  {
    if log != [] {
      var e := log[|log| - 1];
      DrawnMeans(q, log[..|log| - 1], all, todo + {e.c}, sure, seen);
      assert all - todo == all - (todo + {e.c}) + {e.c};
    }
  }

  lemma {:induction false} DrawnWithin(log: seq<Entry>, all: set<Child>, todo: set<Child>, sure: set<Child>, seen: set<Child>)
    requires Drawn(log, all, todo, sure, seen)
    ensures todo <= all
    decreases |log|
  {
    if log != [] { DrawnWithin(log[..|log| - 1], all, todo + {log[|log| - 1].c}, sure, seen); }
  }

  lemma DrawnNext(log: seq<Entry>, all: set<Child>, todo: set<Child>, sure: set<Child>, seen: set<Child>, e: Entry)
    requires Drawn(log, all, todo, sure, seen)
    requires e.c in todo && (e.c in sure ==> e.shown) && (e.shown ==> e.c in seen)
    ensures Drawn(log + [e], all, todo - {e.c}, sure, seen)
  {
    DrawnWithin(log, all, todo, sure, seen);
    assert (log + [e])[..|log + [e]| - 1] == log;
    assert todo - {e.c} + {e.c} == todo;
  }

  lemma RanNext(q: Collector, log: seq<Entry>, e: Entry)
    requires q.Collecting?
    ensures Ran(q, log + [e]) ==
              var p := Ran(q, log);
              p.(known := p.known + {e.c}, confirmed := if e.shown then p.confirmed + {e.c} else p.confirmed)
  {
    assert (log + [e])[..|log + [e]| - 1] == log;
  }

  /** The services or the computes among them. */
  function OfKind(s: set<Child>, computes: bool): set<Child> {
    set c | c in s && c.Compute? == computes
  }

  lemma KindsApart(s: set<Child>)
    ensures s == OfKind(s, false) + OfKind(s, true) && |s| == |OfKind(s, false)| + |OfKind(s, true)|
  {
    assert s == OfKind(s, false) + OfKind(s, true);
  }

  lemma KindsGone(known: set<Child>, spec: set<Child>)
    ensures var services, computes := OfKind(known - spec, false), OfKind(known - spec, true);
            && |known - spec| == |services| + |computes|
            && OfKind(known - services - spec, true) == computes
            && known - services - computes == known - (known - spec)
  {
    KindsApart(known - spec);
  }

  lemma DrawnAll(q: Collector, log: seq<Entry>, all: set<Child>, sure: set<Child>, seen: set<Child>)
    requires q.Collecting? && Drawn(log, all, {}, sure, seen)
    ensures |log| == |all|
    ensures var r := Ran(q, log);
            r.known == q.known + all && q.confirmed + all * sure <= r.confirmed <= q.confirmed + all * seen
  {
    DrawnMeans(q, log, all, {}, sure, seen);
    assert all - {} == all;
  }

  lemma DrawnPart(q: Collector, log: seq<Entry>, all: set<Child>, rest: set<Child>, sure: set<Child>, seen: set<Child>)
    requires q.Collecting? && Drawn(log, all, rest, sure, seen) && rest != {} && all !! q.confirmed
    ensures |log| < |all|
    ensures var r := Ran(q, log);
            && q.known <= r.known <= q.known + all && q.confirmed <= r.confirmed <= q.confirmed + all * seen
            && all - r.confirmed != {}
  {
    DrawnMeans(q, log, all, rest, sure, seen);
    var c :| c in rest;
    assert c in all - Ran(q, log).confirmed;
  }

  /** What is known and not in the spec has been deleted, as far as the calls went. */
  predicate Deleted(q: Collector, r: Collector, spec: set<Child>, calls: nat, left: nat)
    requires q.Collecting? && r.Collecting?
  {
    && r == q.(known := r.known)
    && (calls >= |q.known - spec| ==> left == calls - |q.known - spec| && r.known == q.known - (q.known - spec))
    && (calls < |q.known - spec| ==> left == 0 && r.known - spec != {})
  }

  /** A pass over a cell that has ensured the services and deleted what is obsolete. */
  predicate Cleared(known: set<Child>, q: Collector, services: set<Child>, spec: set<Child>, sure: set<Child>)
    requires q.Collecting?
  {
    q.known == known * spec + services && services * sure <= q.confirmed
  }

  /** One that has not. */
  predicate Short(q: Collector, services: set<Child>, spec: set<Child>)
    requires q.Collecting?
  {
    q.known - spec != {} || services - q.confirmed != {}
  }

  /** The accounts of a pass over a cell up to the computes of the spec. */
  lemma ServicesPass(q0: Collector, q1: Collector, q2: Collector, log: seq<Entry>, rest: set<Child>, calls: nat, left: nat, left': nat,
                     spec: set<Child>, sure: set<Child>, seen: set<Child>)
    requires q0.Collecting? && q0.confirmed == {} && q1 == Ran(q0, log) && q2.Collecting?
    requires Drawn(log, OfKind(spec, false), rest, sure, seen) && left + |log| == calls && (rest == {} || left == 0)
    requires Deleted(q1, q2, spec, left, left')
    ensures var services := OfKind(spec, false);
            var needed := |services| + |q0.known - spec|;
            && q2.confirmed <= services * seen
            && (calls >= needed ==> left' == calls - needed && Cleared(q0.known, q2, services, spec, sure))
            && (calls < needed ==> left' == 0 && Short(q2, services, spec))
  {
    var services := OfKind(spec, false);
    if rest == {} {
      DrawnAll(q0, log, services, sure, seen);
      AllCleared(q0.known, q1, q2, services, spec, sure, left, left');
    } else {
      DrawnPart(q0, log, services, rest, sure, seen);
      assert services - q1.confirmed == services - q2.confirmed;
    }
  }

  lemma AllCleared(known: set<Child>, q1: Collector, q2: Collector, services: set<Child>, spec: set<Child>, sure: set<Child>,
                   calls: nat, left: nat)
    requires q1.Collecting? && q2.Collecting? && Deleted(q1, q2, spec, calls, left)
    requires services <= spec && q1.known == known + services && services * sure <= q1.confirmed
    ensures calls >= |known - spec| ==> left == calls - |known - spec| && Cleared(known, q2, services, spec, sure)
    ensures calls < |known - spec| ==> left == 0 && Short(q2, services, spec)
  {
    assert q1.known - spec == known - spec;
  }

  /** The whole pass: everything is dealt with and has been shown to match iff the
      collector's condition holds at the end. */
  lemma WholePass(known: set<Child>, q2: Collector, q3: Collector, log: seq<Entry>, rest: set<Child>, calls: nat, left: nat,
                  spec: set<Child>, sure: set<Child>, seen: set<Child>)
    requires q2.Collecting? && q3 == Ran(q2, log)
    requires var services := OfKind(spec, false);
             var needed := |services| + |known - spec|;
             && q2.confirmed <= services * seen
             && (calls >= needed ==> left == calls - needed && Cleared(known, q2, services, spec, sure))
             && (calls < needed ==> left == 0 && Short(q2, services, spec))
    requires Drawn(log, OfKind(spec, true), rest, sure, seen) && |log| <= left && (rest == {} || |log| == left)
    ensures var enough := calls >= |spec| + |known - spec|;
            && (q3.known <= spec <= q3.confirmed ==> enough && spec <= seen)
            && (enough && spec <= sure ==> q3.known <= spec <= q3.confirmed)
            && (enough ==> q3.known == spec)
  {
    KindsApart(spec);
    var services, computes := OfKind(spec, false), OfKind(spec, true);
    assert computes !! q2.confirmed;
    if rest == {} {
      DrawnAll(q2, log, computes, sure, seen);
      if calls < |services| + |known - spec| { StillShort(q2, q3, services, computes, spec); }
      else { AllPassed(known, q2, q3, services, computes, spec, sure, seen); }
    } else {
      DrawnPart(q2, log, computes, rest, sure, seen);
    }
  }

  lemma StillShort(q2: Collector, q3: Collector, services: set<Child>, computes: set<Child>, spec: set<Child>)
    requires q2.Collecting? && q3.Collecting? && Short(q2, services, spec) && services <= spec && services !! computes
    requires q2.known <= q3.known && q3.confirmed <= q2.confirmed + computes
    ensures !(q3.known <= spec <= q3.confirmed)
  {
    if c :| c in q2.known - spec { assert c in q3.known; }
    if c :| c in services - q2.confirmed { assert c in spec && c !in q3.confirmed; }
  }

  lemma AllPassed(known: set<Child>, q2: Collector, q3: Collector, services: set<Child>, computes: set<Child>, spec: set<Child>,
                  sure: set<Child>, seen: set<Child>)
    requires q2.Collecting? && q3.Collecting? && Cleared(known, q2, services, spec, sure)
    requires spec == services + computes && q2.confirmed <= services * seen
    requires q3.known == q2.known + computes
    requires q2.confirmed + computes * sure <= q3.confirmed <= q2.confirmed + computes * seen
    ensures q3.known == spec
    ensures spec <= q3.confirmed ==> spec <= seen
    ensures spec <= sure ==> spec <= q3.confirmed
  {
  }

  class Server {
    var group: Group

    constructor (group: Group)
      ensures this.group == group
    {
      this.group := group;
    }

    /** Nothing that was ever written or reported is taken back. */
    ghost predicate Grown(was: Group)
      reads this
    {
      was.cache <= group.cache && was.store <= group.store && was.reported <= group.reported
    }

    ghost predicate Since(g: Group)
      reads this
    {
      Inv(g) && Reaches(g, group) && Inv(group) && Grown(g)
    }

    method Do(e: Event, ghost g: Group)
      requires Since(g) && Enabled(group, e) && !Hazard(group, e)
      modifies this
      ensures Since(g) && Grown(old(group)) && group == Apply(old(group), e)
    {
      ReachesOn(g, group, e);
      InvStep(group, e);
      group := Apply(group, e);
    }

    /** Everybody but `me` takes those of the steps that are possible and safe. */
    method Others(es: seq<Event>, me: Who, ghost g: Group)
      requires Since(g)
      modifies this
      ensures Since(g) && Grown(old(group)) && group == Play(old(group), es, me)
      ensures me.OfCollector? ==> Owned(group) == Owned(old(group))
      ensures me.OfLeaf? && me.c in group.leaves && !group.leaves[me.c].pc.Idle? ==>
                me.c in old(group.leaves) && group.leaves[me.c].pc == old(group).leaves[me.c].pc
    {
      ghost var was := group;
      for i := 0 to |es|
        invariant Since(g) && Grown(was) && group == Play(was, es[..i], me)
        invariant me.OfCollector? ==> Owned(group) == Owned(was)
        invariant me.OfLeaf? && me.c in group.leaves && !group.leaves[me.c].pc.Idle? ==>
          me.c in was.leaves && group.leaves[me.c].pc == was.leaves[me.c].pc
      {
        var e := es[i];
        assert es[..i + 1][..i] == es[..i];
        if By(e) != me && Enabled(group, e) && !Hazard(group, e) {
          OtherStep(group, e, me);
          Do(e, g);
        }
      }
      assert es[..|es|] == es;
    }

    /** The first half of the reconcile of a service: read the input secret from the
        cache, create or patch the StatefulSet. */
    method RollOut(c: Child, others: seq<seq<Event>>, calls: nat, ghost g: Group) returns (v: Option<nat>)
      requires Since(g) && |others| == 4
      requires c in group.leaves && group.leaves[c].pc.Idle?
      modifies this
      ensures Since(g) && Grown(old(group))
      ensures v.Some? ==> calls >= 2 && c in group.leaves && group.leaves[c].pc == Patched(v.value) && old(group.cache) <= v.value + 1
      ensures others[0] == others[1] == [] ==>
                var was, leaf := old(group), old(group.leaves[c]);
                && v == (if calls >= 2 && was.cache > 0 then Some(was.cache - 1) else None)
                && group == if v.None? then was else WithLeaf(was, c, Leaf(Patched(v.value), v, leaf.pods))
    {
      v := None;
      // read the input secret from the cache
      Others(others[0], OfLeaf(c), g);
      if c !in group.leaves || group.cache == 0 || calls < 1 { return; }
      Do(LeafRead(c), g);
      var w := group.leaves[c].pc.v;
      // create or patch the StatefulSet
      Others(others[1], OfLeaf(c), g);
      if c !in group.leaves || group.leaves[c].pc.Idle? { return; }
      if calls < 2 { Do(LeafAbort(c), g); return; }
      Do(LeafPatch(c), g);
      v := Some(w);
    }

    /** The second half: check, past the cache, that it is rolled out, and persist the
        status. */
    method Confirm(c: Child, v: nat, others: seq<seq<Event>>, calls: nat, ghost g: Group) returns (confirmed: bool)
      requires Since(g) && |others| == 4
      requires c in group.leaves && group.leaves[c].pc == Patched(v)
      modifies this
      ensures Since(g)
      ensures confirmed ==> (c, v) in group.reported && (c in group.leaves ==> LeafAt(group, c, v))
      ensures others[2] == others[3] == [] ==>
                var was, leaf := old(group), old(group.leaves[c]);
                && (confirmed <==> calls >= 4 && ReadyForInput(was.store, leaf, v))
                && group == WithLeaf(was, c, leaf.(pc := Idle)).(
                     reported := if confirmed then was.reported + {(c, v)} else was.reported)
    {
      confirmed := false;
      // check, past the cache, that it is rolled out
      Others(others[2], OfLeaf(c), g);
      if c !in group.leaves || group.leaves[c].pc.Idle? { return; }
      if calls < 3 || !ReadyForInput(group.store, group.leaves[c], v) { Do(LeafAbort(c), g); return; }
      Do(LeafConfirm(c), g);
      // persist the status
      Others(others[3], OfLeaf(c), g);
      if c !in group.leaves || group.leaves[c].pc.Idle? { return; }
      if calls < 4 { Do(LeafAbort(c), g); return; }
      Do(LeafReport(c), g);
      assert (c, v) in group.reported;
      confirmed := true;
    }

    /** One reconcile of a service.  `others` are the steps of everybody else before each
        of its calls, `calls` how many of its calls succeed.  It confirms only an input
        at least as new as the cache showed when it began, and only when no pod of the
        service runs anything older.  With nobody else at work it rolls the cached input
        out with its second call and confirms it with its fourth iff no pod runs any
        other configuration. */
    method ReconcileLeaf(c: Child, others: seq<seq<Event>>, calls: nat) returns (confirmed: Option<nat>)
      requires Inv(group) && |others| == 4
      requires c in group.leaves && group.leaves[c].pc.Idle?
      modifies this
      ensures Since(old(group))
      ensures confirmed.Some? ==>
                && old(group.cache) <= confirmed.value + 1
                && (c, confirmed.value) in group.reported
                && (c in group.leaves ==> LeafAt(group, c, confirmed.value))
      ensures others == [[], [], [], []] ==>
                var was, leaf, v := old(group), old(group.leaves[c]), old(group.cache) - 1;
                && (confirmed == Some(v) <==> calls >= 4 && v >= 0 && forall k :: 0 <= k < |leaf.pods| ==>
                      leaf.pods[k] < |was.store| && was.store[leaf.pods[k]].Render() == was.store[v].Render())
                && (confirmed.Some? ==> confirmed.value == v)
                && group == was.(
                     leaves := was.leaves[c := Leaf(Idle, if calls >= 2 && v >= 0 then Some(v) else leaf.template, leaf.pods)],
                     reported := if confirmed.Some? then was.reported + {(c, v)} else was.reported)
    {
      ghost var g := group;
      ReachesItself(g);
      confirmed := None;
      var v := RollOut(c, others, calls, g);
      if v.Some? {
        var done := Confirm(c, v.value, others, calls, g);
        if done { confirmed := v; }
      } else if others[0] == others[1] == [] {
        assert group.leaves == group.leaves[c := group.leaves[c]];
      }
    }

    /** The collector is at work on version `v` for the children of the spec. */
    ghost predicate AtWork(g: Group, v: nat, spec: set<Child>)
      reads this
    {
      && Since(g) && group.recorded == g.recorded
      && group.collector.Collecting? && group.collector.v == v && group.collector.spec == spec && v < |g.store|
    }

    /** Ensuring one child and comparing what it reports, as seen in `view`, with the
        input.  What is seen may be any earlier report. */
    method EnsureChild(c: Child, view: map<Child, nat>, others: seq<Event>, ghost g: Group, ghost v: nat, ghost spec: set<Child>)
      returns (shown: bool)
      requires AtWork(g, v, spec) && c in spec
      modifies this
      ensures AtWork(g, v, spec) && Grown(old(group))
      ensures group.applied == old(group.applied) && group.leaves.Keys == old(group.leaves.Keys) + {c}
      ensures var q := old(group.collector);
              group.collector == q.(known := q.known + {c}, confirmed := if shown then q.confirmed + {c} else q.confirmed)
      ensures shown <==>
                c in view && (c, view[c]) in group.reported && view[c] < |group.store| && group.store[view[c]] == group.store[v]
    {
      Others(others, OfCollector, g);
      Do(CollectEnsure(c), g);
      shown := c in view && (c, view[c]) in group.reported && view[c] < |group.store|
               && group.store[view[c]] == group.store[group.collector.v];
      if shown { Do(CollectSee(c, view[c]), g); }
    }

    /** Deleting one child that is recorded but no longer in the spec. */
    method DeleteChild(c: Child, others: seq<Event>, ghost g: Group, ghost v: nat, ghost spec: set<Child>)
      requires AtWork(g, v, spec) && c in group.collector.known - spec
      modifies this
      ensures AtWork(g, v, spec) && Grown(old(group))
      ensures group.collector == old(group.collector).(known := old(group.collector.known) - {c})
      ensures group.leaves.Keys == old(group.leaves.Keys) - {c} && group.applied == old(group.applied)
    {
      Others(others, OfCollector, g);
      Do(CollectDelete(c, true), g);
    }

    /** The loop over those children that are known but not in the spec. */
    method DeleteObsolete(computes: bool, others: Child -> seq<Event>, calls: nat, ghost g: Group, ghost v: nat, spec: set<Child>)
      returns (left: nat)
      requires AtWork(g, v, spec)
      modifies this
      ensures AtWork(g, v, spec) && Grown(old(group)) && group.applied == old(group.applied)
      ensures var obsolete := OfKind(old(group.collector.known) - spec, computes);
              && group.collector.confirmed == old(group.collector.confirmed)
              && (calls >= |obsolete| ==>
                   && left == calls - |obsolete|
                   && group.collector.known == old(group.collector.known) - obsolete)
              && (calls < |obsolete| ==> left == 0 && group.collector.known - spec != {})
    {
      left := calls;
      ghost var was := group;
      var obsolete := OfKind(group.collector.known - spec, computes);
      ghost var all := obsolete;
      while obsolete != {} && left > 0
        invariant AtWork(g, v, spec) && Grown(was) && group.applied == was.applied && obsolete <= all
        invariant left + |all| == calls + |obsolete|
        invariant group.collector.confirmed == was.collector.confirmed
        invariant group.collector.known == was.collector.known - (all - obsolete)
        decreases |obsolete|
      {
        var c :| c in obsolete;
        DeleteChild(c, others(c), g, v, spec);
        obsolete, left := obsolete - {c}, left - 1;
      }
      if c :| c in obsolete { assert c in group.collector.known - spec; }
    }

    /** The children of the spec, either the services or the computes. */
    method EnsureSpec(computes: bool, view: map<Child, nat>, others: Child -> seq<Event>, calls: nat,
                      ghost g: Group, ghost v: nat, spec: set<Child>)
      returns (left: nat, ghost log: seq<Entry>, ghost rest: set<Child>)
      requires AtWork(g, v, spec)
      modifies this
      ensures AtWork(g, v, spec) && group.applied == old(group.applied)
      ensures group.collector == Ran(old(group.collector), log)
      ensures Drawn(log, OfKind(spec, computes), rest, Sure(g, view, v), Seen(view, v))
      ensures left + |log| == calls && (rest == {} || left == 0)
    {
      left, log := calls, [];
      ghost var q, all, sure, seen := group.collector, OfKind(spec, computes), Sure(g, view, v), Seen(view, v);
      var todo := OfKind(spec, computes);
      while todo != {} && left > 0
        invariant AtWork(g, v, spec) && group.applied == old(group.applied) && todo <= spec
        invariant group.collector == Ran(q, log) && Drawn(log, all, todo, sure, seen)
        invariant left + |log| == calls
        decreases |todo|
      {
        var c :| c in todo;
        var shown := EnsureChild(c, view, others(c), g, v, spec);
        DrawnNext(log, all, todo, sure, seen, Entry(c, shown));
        RanNext(q, log, Entry(c, shown));
        todo, left, log := todo - {c}, left - 1, log + [Entry(c, shown)];
      }
      rest := todo;
    }

    method Publish(persisted: bool, ghost g: Group, v: nat, spec: set<Child>) returns (published: bool)
      requires AtWork(g, v, spec)
      modifies this
      ensures Since(g) && group.collector.Waiting?
      ensures published <==> old(group.collector.known) <= spec <= old(group.collector.confirmed)
      ensures published ==> v in group.applied && AllAt(group, v) && forall c :: c in spec ==> (c, v) in group.reported
      ensures group.leaves.Keys <= old(group.collector.known) + spec
      ensures !published ==> group.applied == old(group.applied)
      ensures group.recorded == if persisted then old(group.collector.known) else g.recorded
      ensures group.leaves == old(group.leaves) && group.reported == old(group.reported) && group.store == old(group.store)
    {
      published := group.collector.known <= spec <= group.collector.confirmed;
      if published { Do(CollectPublish, g); }
      Do(CollectEnd(persisted), g);
    }

    /** All that is known but not in the spec. */
    method DeleteAll(others: Child -> seq<Event>, calls: nat, ghost g: Group, ghost v: nat, spec: set<Child>) returns (left: nat)
      requires AtWork(g, v, spec)
      modifies this
      ensures AtWork(g, v, spec) && Grown(old(group)) && group.applied == old(group.applied)
      ensures Deleted(old(group.collector), group.collector, spec, calls, left)
    {
      KindsGone(group.collector.known, spec);
      left := DeleteObsolete(false, others, calls, g, v, spec);
      left := DeleteObsolete(true, others, left, g, v, spec);
    }

    /** One reconcile of a NovaCell: the services of the spec are ensured and disabled ones
        go, then obsolete computes go and, unless the proxy is waited for, those of the
        spec are ensured; and the input is reported as applied iff each of them has been
        seen to have applied it.  `calls` is how many children can be dealt with before a
        call fails. */
    method ReconcileCell(spec: set<Child>, view: map<Child, nat>, others: Child -> seq<Event>, calls: nat,
                         waits: bool, persisted: bool)
      returns (published: Option<nat>)
      requires Inv(group) && group.collector.Waiting? && spec != {} && group.cache > 0
      requires forall c :: c in group.leaves && c.Compute? ==> c in group.recorded + spec   // none created and never recorded
      modifies this
      ensures Since(old(group)) && group.collector.Waiting?
      ensures published.Some? ==>
                && !waits && published.value == old(group.cache) - 1
                && published.value in group.applied && AllAt(group, published.value)
                && (forall c :: c in spec ==>
                     && c in view && (c, view[c]) in group.reported
                     && view[c] < |group.store| && group.store[view[c]] == group.store[published.value])
      ensures var was, v := old(group), old(group.cache) - 1;
              var known := was.recorded + Standing(was);
              var enough := calls >= |spec| + |known - spec|;
              && (published.Some? ==> enough)
              && (published.None? ==> group.applied == was.applied)
              && (enough && !waits && (forall c :: c in spec ==>
                    c in view && (c, view[c]) in was.reported && view[c] < |was.store| && was.store[view[c]] == was.store[v]) ==>
                  published == Some(v))
              && (enough && !waits ==> group.leaves.Keys <= spec)
              && (enough && persisted ==> group.recorded == if waits then known * spec + OfKind(spec, false) else spec)
              && (!persisted ==> group.recorded == was.recorded)
    {
      ghost var g := group;
      ReachesItself(g);
      published := None;
      var v := group.cache - 1;
      Do(CollectStart(v, spec), g);
      ghost var q0, log, rest, sure, seen := group.collector, [], {}, Sure(g, view, v), Seen(view, v);
      var left, left';
      left, log, rest := EnsureSpec(false, view, others, calls, g, v, spec);
      ghost var q1 := group.collector;
      left' := DeleteAll(others, left, g, v, spec);
      ghost var q2 := group.collector;
      ServicesPass(q0, q1, q2, log, rest, calls, left, left', spec, sure, seen);
      if waits {
        KindsApart(spec);
        Do(CollectEnd(persisted), g);
        return;
      }
      left, log, rest := EnsureSpec(true, view, others, left', g, v, spec);
      WholePass(q0.known, q2, group.collector, log, rest, calls, left', spec, sure, seen);
      var all := Publish(persisted, g, v, spec);
      if all { published := Some(v); }
    }
  }
}
