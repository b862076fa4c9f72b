/** What Nova accepts leads to children that their own webhooks accept. */
module NovaDerivation {
  import opened Wrappers
  import opened CellNames
  import opened NovaSpecs
  import opened NovaValidation

  /** A cell derived from accepted cell templates is accepted by the NovaCell webhook. */
  lemma CellIsAccepted(lib: Lib, nova: Nova, namespace: string, c: string)
    requires Dereferenceable(nova) && CellTemplatesOk(lib, nova, namespace) && ServicesOk(lib, nova, namespace)
    requires c in nova.cells
    ensures NovaCellOk(lib, DefaultNovaCell(NovaCellSpec(nova, c)), namespace)
    ensures DefaultNovaCell(NovaCellSpec(nova, c)).metadata == NovaCellSpec(nova, c).metadata
  {
  }

  /** So is everything the cell controller derives from it. */
  lemma CellServicesAreAccepted(lib: Lib, nova: Nova, namespace: string, c: string)
    requires Dereferenceable(nova) && CellTemplatesOk(lib, nova, namespace) && ServicesOk(lib, nova, namespace)
    requires c in nova.cells
    ensures var cell := DefaultNovaCell(NovaCellSpec(nova, c));
            && NovaConductorOk(lib, NovaConductorSpec(cell), cell.schedule, namespace)
            && NovaMetadataOk(lib, NovaMetadataSpec(cell), namespace)
            && NovaNoVNCProxyOk(lib, NovaNoVNCProxySpec(cell), namespace)
            && (forall n :: n in cell.computes ==> NovaComputeOk(lib, NovaComputeSpec(cell, n), namespace))
  {
  }

  /** Selectors and topologies of a service in a cell come from the nearest level that
      sets them - service, cell, Nova - and the rest of its settings from the service. */
  lemma SettingsComeFromTheNearest(nova: Nova, c: string)
    requires c in nova.cells
    ensures var cell, t := DefaultNovaCell(NovaCellSpec(nova, c)), nova.cells[c];
            && Nearest(NovaConductorSpec(cell), t.conductor, t, nova)
            && Nearest(NovaMetadataSpec(cell), t.metadata.service, t, nova)
            && Nearest(NovaNoVNCProxySpec(cell), t.noVNC.service, t, nova)
            && cell.cellName == c && cell.schedule == t.schedule && cell.computes.Keys == t.computes.Keys
            && cell.metadata.enabled == (if t.metadata.enabled.Some? then t.metadata.enabled else Some(false))
            && cell.noVNC.enabled == (if t.noVNC.enabled.Some? then t.noVNC.enabled else Some(c != "cell0"))
            && forall n :: n in t.computes ==>
                 && Nearest(NovaComputeSpec(cell, n).service, t.computes[n].service, t, nova)
                 && NovaComputeSpec(cell, n).driver == t.computes[n].driver
  {
    var cell, t := DefaultNovaCell(NovaCellSpec(nova, c)), nova.cells[c];
    forall s: Service
      ensures Nearest(WithFallback(s, cell.nodeSelector, cell.topologyRef), s, t, nova)
    {
      FallbackIsNearest(s, t, nova);
    }
  }

  /** So do those of the services on top, from two levels. */
  lemma TopSettingsComeFromTheNearest(nova: Nova)
    ensures NearestOfTwo(NovaAPISpec(nova), nova.api, nova)
    ensures NearestOfTwo(NovaSchedulerSpec(nova), nova.scheduler, nova)
    ensures NearestOfTwo(TopMetadataSpec(nova), nova.metadata.service, nova)
  {
  }

  ghost predicate NearestOfTwo(derived: Service, own: Service, nova: Nova)
  {
    && derived.nodeSelector == (if own.nodeSelector.Some? then own.nodeSelector else nova.nodeSelector)
    && derived.topologyRef == (if own.topologyRef.Some? then own.topologyRef else nova.topologyRef)
    && derived.replicas == own.replicas && derived.probes == own.probes && derived.overwrite == own.overwrite
    && derived.rest == own.rest
  }

  lemma FallbackIsNearest(s: Service, t: CellTemplate, nova: Nova)
    ensures Nearest(WithFallback(s, OrElse(t.nodeSelector, nova.nodeSelector), OrElse(t.topologyRef, nova.topologyRef)), s, t, nova)
  {
  }

  ghost predicate Nearest(derived: Service, own: Service, t: CellTemplate, nova: Nova)
  {
    && (derived.nodeSelector.Some? <==> own.nodeSelector.Some? || t.nodeSelector.Some? || nova.nodeSelector.Some?)
    && (own.nodeSelector.Some? ==> derived.nodeSelector == own.nodeSelector)
    && (own.nodeSelector.None? && t.nodeSelector.Some? ==> derived.nodeSelector == t.nodeSelector)
    && (own.nodeSelector.None? && t.nodeSelector.None? ==> derived.nodeSelector == nova.nodeSelector)
    && (own.topologyRef.Some? ==> derived.topologyRef == own.topologyRef)
    && (own.topologyRef.None? && t.topologyRef.Some? ==> derived.topologyRef == t.topologyRef)
    && (own.topologyRef.None? && t.topologyRef.None? ==> derived.topologyRef == nova.topologyRef)
    && derived.replicas == own.replicas && derived.probes == own.probes && derived.overwrite == own.overwrite
    && derived.rest == own.rest
  }

  /** A Nova that leaves unset what has a default meets all rules about that: no two
      cells share a bus, metadata runs on top only, and cell0 has no proxy. */
  lemma DefaultsAreAcceptable(nova: Nova, timeout: int)
    requires nova.metadata.enabled.None?
    requires forall c :: c in nova.cells ==>
               nova.cells[c].cluster == "" && nova.cells[c].metadata.enabled.None? && nova.cells[c].noVNC.enabled.None?
    ensures var d := Defaulted(nova, timeout);
            && ClustersDistinct(d.cells) && d.metadata.enabled == Some(true)
            && forall c :: c in d.cells ==>
                 d.cells[c].metadata.enabled == Some(false) && d.cells[c].noVNC.enabled == Some(c != CELL0)
  {
    var d := Defaulted(nova, timeout);
    forall c, e | c in d.cells && e in d.cells && c != CELL0 && e != CELL0 && c != e
      ensures ClusterOf(d.cells[c]) != ClusterOf(d.cells[e])
    {
      DefaultBusesAreDistinct(nova, timeout, c, e);
      DefaultBusesAreDistinct(nova, timeout, e, c);
    }
  }

  /** Every child there is of a Nova, of both levels.  The metadata services and the
      proxies are there where they are enabled. */
  ghost predicate ChildrenAccepted(lib: Lib, nova: Nova, namespace: string)
  {
    && NovaAPIOk(lib, NovaAPISpec(nova), nova.apiRoutes, namespace)
    && NovaSchedulerOk(lib, NovaSchedulerSpec(nova), namespace)
    && (nova.metadata.enabled == Some(true) ==> NovaMetadataOk(lib, TopMetadataSpec(nova), namespace))
    && forall c :: c in nova.cells ==> CellAccepted(lib, DefaultNovaCell(NovaCellSpec(nova, c)), namespace)
  }

  ghost predicate CellAccepted(lib: Lib, cell: NovaCell, namespace: string)
    requires cell.cellName == CELL0 ==> cell.metadata.enabled.Some? && cell.noVNC.enabled.Some?
  {
    && NovaCellOk(lib, cell, namespace)
    && NovaConductorOk(lib, NovaConductorSpec(cell), cell.schedule, namespace)
    && (cell.metadata.enabled == Some(true) ==> NovaMetadataOk(lib, NovaMetadataSpec(cell), namespace))
    && (cell.noVNC.enabled == Some(true) ==> NovaNoVNCProxyOk(lib, NovaNoVNCProxySpec(cell), namespace))
    && (forall n :: n in cell.computes ==> NovaComputeOk(lib, NovaComputeSpec(cell, n), namespace))
  }

  lemma AllCellsAccepted(lib: Lib, nova: Nova, namespace: string)
    requires Dereferenceable(nova) && CellTemplatesOk(lib, nova, namespace) && ServicesOk(lib, nova, namespace)
    ensures forall c :: c in nova.cells ==> CellAccepted(lib, DefaultNovaCell(NovaCellSpec(nova, c)), namespace)
  {
    forall c | c in nova.cells ensures CellAccepted(lib, DefaultNovaCell(NovaCellSpec(nova, c)), namespace) {
      CellIsAccepted(lib, nova, namespace, c);
      CellServicesAreAccepted(lib, nova, namespace, c);
    }
  }

  lemma TopServices(lib: Lib, nova: Nova, namespace: string)
    requires ServicesOk(lib, nova, namespace)
    ensures NovaAPIOk(lib, NovaAPISpec(nova), nova.apiRoutes, namespace)
    ensures NovaSchedulerOk(lib, NovaSchedulerSpec(nova), namespace)
    ensures NovaMetadataOk(lib, TopMetadataSpec(nova), namespace) <==> lib.probesOk(nova.metadata.service.probes)
  {
  }

  /** The checks Nova makes of a cell template are those of the children derived from it,
      and one more: metadata does not run on both levels. */
  lemma TemplateOkIff(lib: Lib, nova: Nova, namespace: string, c: string)
    requires Dereferenceable(nova) && TopologyRefOk(lib, nova.topologyRef, namespace) && c in nova.cells
    ensures CellTemplateOk(lib, nova, c, namespace) <==> AllOfCellAccepted(lib, nova, namespace, c)
  {
    var cell, t := DefaultNovaCell(NovaCellSpec(nova, c)), nova.cells[c];
    assert cell.computes == t.computes && cell.metadata == t.metadata && cell.noVNC.service == t.noVNC.service;
    if TopologyRefOk(lib, t.topologyRef, namespace) {
      forall n | n in t.computes
        ensures ComputeTemplateOk(lib, n, t.computes[n], namespace) && lib.probesOk(t.computes[n].service.probes) <==>
                ComputeTemplateOk(lib, n, cell.computes[n], namespace) && NovaComputeOk(lib, NovaComputeSpec(cell, n), namespace)
      {
      }
    }
  }

  /** Nova is accepted on creation iff it has cell0, no two other cells share a bus,
      metadata does not run on both levels, its own topology is fine, and every child
      there could be of it, whether enabled or not, is accepted. */
  lemma CreateOkIff(lib: Lib, nova: Nova, namespace: string)
    requires Dereferenceable(nova)
    ensures CreateOk(lib, nova, namespace) <==>
              && CELL0 in nova.cells && ClustersDistinct(nova.cells) && TopologyRefOk(lib, nova.topologyRef, namespace)
              && NovaAPIOk(lib, NovaAPISpec(nova), nova.apiRoutes, namespace)
              && NovaSchedulerOk(lib, NovaSchedulerSpec(nova), namespace)
              && NovaMetadataOk(lib, TopMetadataSpec(nova), namespace)
              && (forall c :: c in nova.cells ==> AllOfCellAccepted(lib, nova, namespace, c))
  {
    if TopologyRefOk(lib, nova.topologyRef, namespace) {
      forall c | c in nova.cells
        ensures CellTemplateOk(lib, nova, c, namespace) <==> AllOfCellAccepted(lib, nova, namespace, c)
      {
        TemplateOkIff(lib, nova, namespace, c);
      }
    }
  }

  ghost predicate AllOfCellAccepted(lib: Lib, nova: Nova, namespace: string, c: string)
    requires c in nova.cells && Dereferenceable(nova)
  {
    var cell := DefaultNovaCell(NovaCellSpec(nova, c));
    && !(cell.metadata.enabled == Some(true) && nova.metadata.enabled == Some(true))
    && NovaCellOk(lib, cell, namespace)
    && NovaConductorOk(lib, NovaConductorSpec(cell), cell.schedule, namespace)
    && NovaMetadataOk(lib, NovaMetadataSpec(cell), namespace)
    && NovaNoVNCProxyOk(lib, NovaNoVNCProxySpec(cell), namespace)
    && (forall n :: n in cell.computes ==> NovaComputeOk(lib, NovaComputeSpec(cell, n), namespace))
  }

  /** Whatever is accepted on creation has only acceptable children. */
  lemma CreatedNovaHasAcceptableChildren(lib: Lib, nova: Nova, namespace: string)
    requires Dereferenceable(nova) && CreateOk(lib, nova, namespace)
    ensures ChildrenAccepted(lib, nova, namespace)
  {
    TopServices(lib, nova, namespace);
    AllCellsAccepted(lib, nova, namespace);
  }

  /** An accepted update has, except that nobody looked at the probes of the top-level
      metadata service: its children are accepted exactly when that service is not
      enabled or its probes are fine. */
  lemma UpdatedNovaHasAcceptableChildren(lib: Lib, nova: Nova, namespace: string)
    requires Dereferenceable(nova) && UpdateOk(lib, nova, namespace)
    ensures ChildrenAccepted(lib, nova, namespace) <==>
            (nova.metadata.enabled == Some(true) ==> lib.probesOk(nova.metadata.service.probes))
  {
    TopServices(lib, nova, namespace);
    AllCellsAccepted(lib, nova, namespace);
  }

  /** An update that Nova accepts and NovaMetadata refuses. */
  lemma UpdateSlipsThrough(namespace: string) returns (lib: Lib, nova: Nova)
    ensures Dereferenceable(nova) && UpdateOk(lib, nova, namespace) && !CreateOk(lib, nova, namespace)
    ensures nova.metadata.enabled == Some(true) && !NovaMetadataOk(lib, TopMetadataSpec(nova), namespace)
    ensures !ChildrenAccepted(lib, nova, namespace)
  {
    lib := Lib(n => true, (g, n) => true, p => p != "bad", r => true, s => true, (t, n) => true);
    var service := Service(None, None, 1, "", map[], "");
    var off := Optional(Some(false), service);
    var cell0 := CellTemplate("rabbitmq", "", service, off, off, map[], None, None, "", "");
    var metadata := Optional(Some(true), service.(probes := "bad"));
    nova := Nova("rabbitmq", 60, service, "", service, metadata, map[CELL0 := cell0], None, None, "");
    assert nova.cells.Keys == {CELL0};
  }
}
