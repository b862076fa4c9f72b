/** What the validating webhooks of Nova and of its children accept. */
module NovaValidation {
  import opened Wrappers
  import opened CellNames
  import opened NovaSpecs

  /** The checks of libraries, of which nothing is known. */
  datatype Lib = Lib(
    nameOk: string -> bool,               // the regular expression of CRD names
    matches: (string, string) -> bool,    // file glob, file name
    probesOk: string -> bool,
    routesOk: string -> bool,
    cronOk: string -> bool,
    topologyOk: (TopoRef, string) -> bool)

  datatype Error =
    | Cell0Missing
    | CellName(cell: string)
    | DuplicateBus(cell: string, cluster: string, other: string)
    | MetadataTwice(cell: string)
    | Topology(cell: string, service: string)
    | Probes(cell: string, service: string)
    | ConfigFile(name: string)
    | Schedule(cell: string)
    | NotInCell0(what: string)
    | IronicReplicas(compute: string)
    | ComputeName(compute: string)
    | Routes
    | Deprecated(field: string)

  function If(bad: bool, e: Error): seq<Error> {
    if bad then [e] else []
  }

  const IRONIC := "ironic.IronicDriver"
  const METADATA_FILES := ["api-paste.ini"]
  const COMPUTE_FILES := ["provider*.yaml"]
  const API_FILES := ["policy.yaml", "api-paste.ini", "nova_api_audit_map.conf"]

  // ---- the parts ------------------------------------------------------------

  predicate TopologyRefOk(lib: Lib, ref: Option<TopoRef>, namespace: string) {
    ref.Some? ==> lib.topologyOk(ref.value, namespace)
  }

  predicate AnyMatches(lib: Lib, name: string, allowed: seq<string>) {
    exists i :: 0 <= i < |allowed| && lib.matches(allowed[i], name)
  }

  predicate OverwriteOk(lib: Lib, overwrite: map<string, string>, allowed: seq<string>) {
    forall name :: name in overwrite ==> AnyMatches(lib, name, allowed)
  }

  method MatchAny(lib: Lib, name: string, allowed: seq<string>) returns (found: bool)
    ensures found <==> AnyMatches(lib, name, allowed)
  {
    for i := 0 to |allowed|
      invariant forall j :: 0 <= j < i ==> !lib.matches(allowed[j], name)
    {
      if lib.matches(allowed[i], name) { return true; }
    }
    return false;
  }

  /** One error for each file that may not be overwritten, in no particular order. */
  method ValidateDefaultConfigOverwrite(lib: Lib, overwrite: map<string, string>, allowed: seq<string>)
    returns (errors: seq<Error>)
    ensures forall e :: e in errors <==> OverwriteViolation(lib, overwrite, allowed, e)
    ensures errors == [] <==> OverwriteOk(lib, overwrite, allowed)
  {
    errors := [];
    var left := overwrite.Keys;
    while left != {}
      invariant left <= overwrite.Keys
      invariant forall e :: e in errors <==> e.ConfigFile? && e.name in overwrite.Keys - left && !AnyMatches(lib, e.name, allowed)
      decreases |left|
    {
      var name :| name in left;
      left := left - {name};
      var found := MatchAny(lib, name, allowed);
      if !found { errors := errors + [ConfigFile(name)]; }
    }
    if errors == [] {
      forall name | name in overwrite ensures AnyMatches(lib, name, allowed) {
        assert ConfigFile(name) !in errors;
      }
    } else {
      assert errors[0] in errors;
    }
  }

  predicate CellNameOk(lib: Lib, cell: string) {
    |cell| <= 35 && lib.nameOk(cell)
  }

  predicate ComputeNameOk(lib: Lib, compute: string) {
    |compute| <= 20 && lib.nameOk(compute)
  }

  /** What a compute template has to meet, in Nova and in NovaCell alike. */
  predicate ComputeTemplateOk(lib: Lib, name: string, c: Compute, namespace: string) {
    && (c.driver == IRONIC ==> c.service.replicas <= 1)
    && ComputeNameOk(lib, name)
    && OverwriteOk(lib, c.service.overwrite, COMPUTE_FILES)
    && TopologyRefOk(lib, c.service.topologyRef, namespace)
  }

  // ---- what the children accept ---------------------------------------------

  predicate NovaConductorOk(lib: Lib, s: Service, schedule: string, namespace: string) {
    lib.cronOk(schedule) && lib.probesOk(s.probes) && TopologyRefOk(lib, s.topologyRef, namespace)
  }

  predicate NovaMetadataOk(lib: Lib, s: Service, namespace: string) {
    OverwriteOk(lib, s.overwrite, METADATA_FILES) && lib.probesOk(s.probes) && TopologyRefOk(lib, s.topologyRef, namespace)
  }

  predicate NovaNoVNCProxyOk(lib: Lib, s: Service, namespace: string) {
    TopologyRefOk(lib, s.topologyRef, namespace) && lib.probesOk(s.probes)
  }

  predicate NovaComputeOk(lib: Lib, c: Compute, namespace: string) {
    && (c.driver == IRONIC ==> c.service.replicas <= 1)
    && OverwriteOk(lib, c.service.overwrite, COMPUTE_FILES)
    && TopologyRefOk(lib, c.service.topologyRef, namespace) && lib.probesOk(c.service.probes)
  }

  predicate NovaAPIOk(lib: Lib, s: Service, routes: string, namespace: string) {
    && lib.routesOk(routes) && lib.probesOk(s.probes) && OverwriteOk(lib, s.overwrite, API_FILES)
    && TopologyRefOk(lib, s.topologyRef, namespace)
  }

  predicate NovaSchedulerOk(lib: Lib, s: Service, namespace: string) {
    TopologyRefOk(lib, s.topologyRef, namespace) && lib.probesOk(s.probes)
  }

  predicate NovaCellOk(lib: Lib, cell: NovaCell, namespace: string)
    requires cell.cellName == CELL0 ==> cell.metadata.enabled.Some? && cell.noVNC.enabled.Some?
  {
    && (cell.cellName == CELL0 ==>
          !cell.metadata.enabled.value && !cell.noVNC.enabled.value && |cell.computes| == 0)
    && TopologyRefOk(lib, cell.topologyRef, namespace)
    && TopologyRefOk(lib, cell.metadata.service.topologyRef, namespace)
    && TopologyRefOk(lib, cell.noVNC.service.topologyRef, namespace)
    && TopologyRefOk(lib, cell.conductor.topologyRef, namespace)
    && (forall n :: n in cell.computes ==> ComputeTemplateOk(lib, n, cell.computes[n], namespace))
    && CellNameOk(lib, cell.cellName)
    && lib.cronOk(cell.schedule)
  }

  // ---- what Nova accepts ----------------------------------------------------

  /** The bus a cell uses: the new field, or else the deprecated one. */
  function ClusterOf(t: CellTemplate): string {
    if t.cluster != "" then t.cluster else t.busInstance
  }

  predicate ClustersDistinct(cells: map<string, CellTemplate>) {
    forall c, d :: c in cells && d in cells && c != CELL0 && d != CELL0 && c != d ==> ClusterOf(cells[c]) != ClusterOf(cells[d])
  }

  /** What a cell has to meet apart from its computes and files. */
  predicate CellBasicsOk(lib: Lib, nova: Nova, c: string, namespace: string)
    requires c in nova.cells && Dereferenceable(nova)
  {
    var t := nova.cells[c];
    && CellNameOk(lib, c)
    && TopologyRefOk(lib, t.topologyRef, namespace)
    && !(t.metadata.enabled.value && nova.metadata.enabled.value)
    && TopologyRefOk(lib, t.metadata.service.topologyRef, namespace) && lib.probesOk(t.metadata.service.probes)
    && TopologyRefOk(lib, t.noVNC.service.topologyRef, namespace) && lib.probesOk(t.noVNC.service.probes)
    && TopologyRefOk(lib, t.conductor.topologyRef, namespace) && lib.probesOk(t.conductor.probes)
    && lib.cronOk(t.schedule)
    && (c == CELL0 ==> !t.metadata.enabled.value && !t.noVNC.enabled.value && |t.computes| == 0)
  }

  predicate CellTemplateOk(lib: Lib, nova: Nova, c: string, namespace: string)
    requires c in nova.cells && Dereferenceable(nova)
  {
    var t := nova.cells[c];
    && CellBasicsOk(lib, nova, c, namespace)
    && OverwriteOk(lib, t.metadata.service.overwrite, METADATA_FILES)
    && (forall n :: n in t.computes ==>
          ComputeTemplateOk(lib, n, t.computes[n], namespace) && lib.probesOk(t.computes[n].service.probes))
  }

  predicate CellTemplatesOk(lib: Lib, nova: Nova, namespace: string)
    requires Dereferenceable(nova)
  {
    && CELL0 in nova.cells && ClustersDistinct(nova.cells)
    && forall c :: c in nova.cells ==> CellTemplateOk(lib, nova, c, namespace)
  }

  /** What creation and update both check besides the cells. */
  predicate ServicesOk(lib: Lib, nova: Nova, namespace: string) {
    && lib.routesOk(nova.apiRoutes) && lib.probesOk(nova.api.probes) && OverwriteOk(lib, nova.api.overwrite, API_FILES)
    && TopologyRefOk(lib, nova.api.topologyRef, namespace)
    && TopologyRefOk(lib, nova.scheduler.topologyRef, namespace) && lib.probesOk(nova.scheduler.probes)
    && TopologyRefOk(lib, nova.metadata.service.topologyRef, namespace)
    && OverwriteOk(lib, nova.metadata.service.overwrite, METADATA_FILES)
    && TopologyRefOk(lib, nova.topologyRef, namespace)
  }

  predicate CreateOk(lib: Lib, nova: Nova, namespace: string)
    requires Dereferenceable(nova)
  {
    CellTemplatesOk(lib, nova, namespace) && ServicesOk(lib, nova, namespace) && lib.probesOk(nova.metadata.service.probes)
  }

  /** The same but for the probes of the top-level metadata service. */
  predicate UpdateOk(lib: Lib, nova: Nova, namespace: string)
    requires Dereferenceable(nova)
  {
    CellTemplatesOk(lib, nova, namespace) && ServicesOk(lib, nova, namespace)
  }

  /** All checks of a cell template, one by one. */
  lemma CellTemplateOkExactly(lib: Lib, nova: Nova, c: string, namespace: string)
    requires c in nova.cells && Dereferenceable(nova)
    ensures var t := nova.cells[c];
            var topology := (r: Option<TopoRef>) => r.Some? ==> lib.topologyOk(r.value, namespace);
            CellTemplateOk(lib, nova, c, namespace) <==>
              && |c| <= 35 && lib.nameOk(c)
              && topology(t.topologyRef) && topology(t.conductor.topologyRef)
              && topology(t.metadata.service.topologyRef) && topology(t.noVNC.service.topologyRef)
              && lib.probesOk(t.conductor.probes) && lib.probesOk(t.metadata.service.probes) && lib.probesOk(t.noVNC.service.probes)
              && lib.cronOk(t.schedule)
              && !(t.metadata.enabled == Some(true) && nova.metadata.enabled == Some(true))
              && (forall name :: name in t.metadata.service.overwrite ==> lib.matches("api-paste.ini", name))
              && (c == "cell0" ==> t.metadata.enabled == Some(false) && t.noVNC.enabled == Some(false) && t.computes.Keys == {})
              && (forall n :: n in t.computes ==>
                   ComputeTemplateOk(lib, n, t.computes[n], namespace) && lib.probesOk(t.computes[n].service.probes))
  {
    OneAllowed(lib, METADATA_FILES, "api-paste.ini");
    assert nova.cells[c].computes.Keys == {} <==> |nova.cells[c].computes| == 0;
  }

  /** And of a compute template. */
  lemma ComputeTemplateOkExactly(lib: Lib, name: string, c: Compute, namespace: string)
    ensures ComputeTemplateOk(lib, name, c, namespace) <==>
              && |name| <= 20 && lib.nameOk(name)
              && (c.driver == "ironic.IronicDriver" ==> c.service.replicas <= 1)
              && (forall file :: file in c.service.overwrite ==> lib.matches("provider*.yaml", file))
              && (c.service.topologyRef.Some? ==> lib.topologyOk(c.service.topologyRef.value, namespace))
  {
    OneAllowed(lib, COMPUTE_FILES, "provider*.yaml");
  }

  lemma OneAllowed(lib: Lib, allowed: seq<string>, glob: string)
    requires allowed == [glob]
    ensures forall name :: AnyMatches(lib, name, allowed) <==> lib.matches(glob, name)
  {
    assert allowed[0] == glob;
  }

  /** And those of the services on top. */
  lemma ServicesOkExactly(lib: Lib, nova: Nova, namespace: string)
    ensures var topology := (r: Option<TopoRef>) => r.Some? ==> lib.topologyOk(r.value, namespace);
            ServicesOk(lib, nova, namespace) <==>
              && lib.routesOk(nova.apiRoutes)
              && topology(nova.topologyRef) && topology(nova.api.topologyRef)
              && topology(nova.scheduler.topologyRef) && topology(nova.metadata.service.topologyRef)
              && lib.probesOk(nova.api.probes) && lib.probesOk(nova.scheduler.probes)
              && (forall name :: name in nova.api.overwrite ==>
                   lib.matches("policy.yaml", name) || lib.matches("api-paste.ini", name) || lib.matches("nova_api_audit_map.conf", name))
              && (forall name :: name in nova.metadata.service.overwrite ==> lib.matches("api-paste.ini", name))
  {
    OneAllowed(lib, METADATA_FILES, "api-paste.ini");
    forall name: string
      ensures AnyMatches(lib, name, API_FILES) <==>
              lib.matches("policy.yaml", name) || lib.matches("api-paste.ini", name) || lib.matches("nova_api_audit_map.conf", name)
    {
      assert API_FILES[0] == "policy.yaml" && API_FILES[1] == "api-paste.ini" && API_FILES[2] == "nova_api_audit_map.conf";
    }
  }

  /** The checks of the webhooks of the services one by one. */
  lemma ServiceWebhooksExactly(lib: Lib, s: Service, c: Compute, text: string, namespace: string)
    ensures var topology := s.topologyRef.Some? ==> lib.topologyOk(s.topologyRef.value, namespace);
            && (NovaConductorOk(lib, s, text, namespace) <==> lib.cronOk(text) && lib.probesOk(s.probes) && topology)
            && (NovaMetadataOk(lib, s, namespace) <==>
                 lib.probesOk(s.probes) && topology && forall file :: file in s.overwrite ==> lib.matches("api-paste.ini", file))
            && (NovaNoVNCProxyOk(lib, s, namespace) <==> lib.probesOk(s.probes) && topology)
            && (NovaSchedulerOk(lib, s, namespace) <==> lib.probesOk(s.probes) && topology)
            && (NovaAPIOk(lib, s, text, namespace) <==>
                 lib.routesOk(text) && lib.probesOk(s.probes) && topology && OverwriteOk(lib, s.overwrite, API_FILES))
    ensures NovaComputeOk(lib, c, namespace) <==>
              && (c.driver == "ironic.IronicDriver" ==> c.service.replicas <= 1)
              && (forall file :: file in c.service.overwrite ==> lib.matches("provider*.yaml", file))
              && (c.service.topologyRef.Some? ==> lib.topologyOk(c.service.topologyRef.value, namespace))
              && lib.probesOk(c.service.probes)
  {
    OneAllowed(lib, METADATA_FILES, "api-paste.ini");
    OneAllowed(lib, COMPUTE_FILES, "provider*.yaml");
  }

  /** No bus is shared: the bus of a cell is that of the new field or, if that is empty,
      of the deprecated one. */
  lemma ClustersDistinctExactly(cells: map<string, CellTemplate>)
    ensures ClustersDistinct(cells) <==>
              forall c, d :: c in cells && d in cells && c != "cell0" && d != "cell0" && c != d ==>
                (if cells[c].cluster == "" then cells[c].busInstance else cells[c].cluster) !=
                (if cells[d].cluster == "" then cells[d].busInstance else cells[d].cluster)
  {
    forall c, d | c in cells && d in cells
      ensures ClusterOf(cells[c]) != ClusterOf(cells[d]) <==>
                (if cells[c].cluster == "" then cells[c].busInstance else cells[c].cluster) !=
                (if cells[d].cluster == "" then cells[d].busInstance else cells[d].cluster)
    {
    }
  }

  // ---- the errors -----------------------------------------------------------

  predicate ServiceViolation(lib: Lib, cell: string, name: string, s: Service, namespace: string, e: Error) {
    || (e == Topology(cell, name) && !TopologyRefOk(lib, s.topologyRef, namespace))
    || (e == Probes(cell, name) && !lib.probesOk(s.probes))
  }

  predicate OverwriteViolation(lib: Lib, overwrite: map<string, string>, allowed: seq<string>, e: Error) {
    e.ConfigFile? && e.name in overwrite && !AnyMatches(lib, e.name, allowed)
  }

  /** What is wrong with a compute template. */
  predicate ComputeViolation(lib: Lib, cell: string, name: string, c: Compute, namespace: string, e: Error) {
    || (e == IronicReplicas(name) && c.driver == IRONIC && c.service.replicas > 1)
    || (e == ComputeName(name) && !ComputeNameOk(lib, name))
    || OverwriteViolation(lib, c.service.overwrite, COMPUTE_FILES, e)
    || ServiceViolation(lib, cell, name, c.service, namespace, e)
  }

  predicate ComputesViolation(lib: Lib, cell: string, computes: map<string, Compute>, names: set<string>, namespace: string, e: Error)
    requires names <= computes.Keys
  {
    exists n :: n in names && ComputeViolation(lib, cell, n, computes[n], namespace, e)
  }

  predicate CellServicesViolation(lib: Lib, t: CellTemplate, c: string, namespace: string, e: Error) {
    || ServiceViolation(lib, c, "metadata", t.metadata.service, namespace, e)
    || ServiceViolation(lib, c, "noVNC", t.noVNC.service, namespace, e)
    || ServiceViolation(lib, c, "conductor", t.conductor, namespace, e)
  }

  predicate Cell0Violation(t: CellTemplate, e: Error)
    requires t.metadata.enabled.Some? && t.noVNC.enabled.Some?
  {
    || (e == NotInCell0("metadata") && t.metadata.enabled.value)
    || (e == NotInCell0("noVNC") && t.noVNC.enabled.value)
    || (e == NotInCell0("computes") && |t.computes| > 0)
  }

  /** What is wrong with a cell template, its bus apart. */
  predicate CellViolation(lib: Lib, nova: Nova, c: string, namespace: string, e: Error)
    requires Dereferenceable(nova) && c in nova.cells
  {
    var t := nova.cells[c];
    || (e == CellName(c) && !CellNameOk(lib, c))
    || (e == Topology(c, "cell") && !TopologyRefOk(lib, t.topologyRef, namespace))
    || (e == MetadataTwice(c) && t.metadata.enabled.value && nova.metadata.enabled.value)
    || (e == Schedule(c) && !lib.cronOk(t.schedule))
    || CellServicesViolation(lib, t, c, namespace, e)
    || (c == CELL0 && Cell0Violation(t, e))
    || OverwriteViolation(lib, t.metadata.service.overwrite, METADATA_FILES, e)
    || ComputesViolation(lib, c, t.computes, t.computes.Keys, namespace, e)
  }

  /** If the error is about a bus, two cells other than cell0 are on it. */
  predicate Justified(cells: map<string, CellTemplate>, names: set<string>, e: Error)
    requires names <= cells.Keys
  {
    match e
    case DuplicateBus(c, cluster, other) =>
      && c in names && other in names && c != other && c != CELL0 && other != CELL0
      && ClusterOf(cells[c]) == cluster && ClusterOf(cells[other]) == cluster
    case _ => true
  }

  lemma NoServiceViolation(lib: Lib, cell: string, name: string, s: Service, namespace: string)
    ensures (forall e :: !ServiceViolation(lib, cell, name, s, namespace, e)) <==>
            TopologyRefOk(lib, s.topologyRef, namespace) && lib.probesOk(s.probes)
  {
    assert ServiceViolation(lib, cell, name, s, namespace, Topology(cell, name)) <==> !TopologyRefOk(lib, s.topologyRef, namespace);
    assert ServiceViolation(lib, cell, name, s, namespace, Probes(cell, name)) <==> !lib.probesOk(s.probes);
  }

  lemma NoOverwriteViolation(lib: Lib, overwrite: map<string, string>, allowed: seq<string>)
    ensures (forall e :: !OverwriteViolation(lib, overwrite, allowed, e)) <==> OverwriteOk(lib, overwrite, allowed)
  {
    forall name | name in overwrite
      ensures OverwriteViolation(lib, overwrite, allowed, ConfigFile(name)) <==> !AnyMatches(lib, name, allowed)
    {
    }
  }

  lemma NoComputeViolation(lib: Lib, cell: string, name: string, c: Compute, namespace: string)
    ensures (forall e :: !ComputeViolation(lib, cell, name, c, namespace, e)) <==>
            ComputeTemplateOk(lib, name, c, namespace) && lib.probesOk(c.service.probes)
  {
    NoServiceViolation(lib, cell, name, c.service, namespace);
    NoOverwriteViolation(lib, c.service.overwrite, COMPUTE_FILES);
    if forall e :: !ComputeViolation(lib, cell, name, c, namespace, e) {
      assert !ComputeViolation(lib, cell, name, c, namespace, IronicReplicas(name));
      assert !ComputeViolation(lib, cell, name, c, namespace, ComputeName(name));
      forall e ensures !ServiceViolation(lib, cell, name, c.service, namespace, e) &&
                       !OverwriteViolation(lib, c.service.overwrite, COMPUTE_FILES, e)
      {
        assert !ComputeViolation(lib, cell, name, c, namespace, e);
      }
    }
  }

  lemma NoComputesViolation(lib: Lib, cell: string, computes: map<string, Compute>, namespace: string)
    ensures (forall e :: !ComputesViolation(lib, cell, computes, computes.Keys, namespace, e)) <==>
            forall n :: n in computes ==> ComputeTemplateOk(lib, n, computes[n], namespace) && lib.probesOk(computes[n].service.probes)
  {
    forall n | n in computes
      ensures (forall e :: !ComputeViolation(lib, cell, n, computes[n], namespace, e)) <==>
              ComputeTemplateOk(lib, n, computes[n], namespace) && lib.probesOk(computes[n].service.probes)
    {
      NoComputeViolation(lib, cell, n, computes[n], namespace);
    }
    if forall e :: !ComputesViolation(lib, cell, computes, computes.Keys, namespace, e) {
      forall n, e | n in computes ensures !ComputeViolation(lib, cell, n, computes[n], namespace, e) {
        assert !ComputesViolation(lib, cell, computes, computes.Keys, namespace, e);
      }
    }
  }

  lemma NoCell0Violation(t: CellTemplate)
    requires t.metadata.enabled.Some? && t.noVNC.enabled.Some?
    ensures (forall e :: !Cell0Violation(t, e)) <==> !t.metadata.enabled.value && !t.noVNC.enabled.value && |t.computes| == 0
  {
    assert Cell0Violation(t, NotInCell0("metadata")) <==> t.metadata.enabled.value;
    assert Cell0Violation(t, NotInCell0("noVNC")) <==> t.noVNC.enabled.value;
    assert Cell0Violation(t, NotInCell0("computes")) <==> |t.computes| > 0;
  }

  lemma NoCellServicesViolation(lib: Lib, t: CellTemplate, c: string, namespace: string)
    ensures (forall e :: !CellServicesViolation(lib, t, c, namespace, e)) <==>
              && TopologyRefOk(lib, t.metadata.service.topologyRef, namespace) && lib.probesOk(t.metadata.service.probes)
              && TopologyRefOk(lib, t.noVNC.service.topologyRef, namespace) && lib.probesOk(t.noVNC.service.probes)
              && TopologyRefOk(lib, t.conductor.topologyRef, namespace) && lib.probesOk(t.conductor.probes)
  {
    NoServiceViolation(lib, c, "metadata", t.metadata.service, namespace);
    NoServiceViolation(lib, c, "noVNC", t.noVNC.service, namespace);
    NoServiceViolation(lib, c, "conductor", t.conductor, namespace);
    if forall e :: !CellServicesViolation(lib, t, c, namespace, e) {
      forall e
        ensures !ServiceViolation(lib, c, "metadata", t.metadata.service, namespace, e)
        ensures !ServiceViolation(lib, c, "noVNC", t.noVNC.service, namespace, e)
        ensures !ServiceViolation(lib, c, "conductor", t.conductor, namespace, e)
      {
        assert !CellServicesViolation(lib, t, c, namespace, e);
      }
    }
  }

  /** There is an error iff something is wrong. */
  lemma NoViolationMeansOk(lib: Lib, nova: Nova, c: string, namespace: string)
    requires Dereferenceable(nova) && c in nova.cells
    ensures (forall e :: !CellViolation(lib, nova, c, namespace, e)) <==> CellTemplateOk(lib, nova, c, namespace)
    ensures forall e :: CellViolation(lib, nova, c, namespace, e) ==> !e.DuplicateBus?
  {
    var t := nova.cells[c];
    NoCellServicesViolation(lib, t, c, namespace);
    NoOverwriteViolation(lib, t.metadata.service.overwrite, METADATA_FILES);
    NoComputesViolation(lib, c, t.computes, namespace);
    if c == CELL0 { NoCell0Violation(t); }
    if forall e :: !CellViolation(lib, nova, c, namespace, e) { PartsFine(lib, nova, c, namespace); }
  }

  lemma PartsFine(lib: Lib, nova: Nova, c: string, namespace: string)
    requires Dereferenceable(nova) && c in nova.cells && forall e :: !CellViolation(lib, nova, c, namespace, e)
    ensures var t := nova.cells[c];
            && CellNameOk(lib, c) && TopologyRefOk(lib, t.topologyRef, namespace) && lib.cronOk(t.schedule)
            && !(t.metadata.enabled.value && nova.metadata.enabled.value)
            && (forall e :: !CellServicesViolation(lib, t, c, namespace, e))
            && (forall e :: !OverwriteViolation(lib, t.metadata.service.overwrite, METADATA_FILES, e))
            && (forall e :: !ComputesViolation(lib, c, t.computes, t.computes.Keys, namespace, e))
            && (c == CELL0 ==> forall e :: !Cell0Violation(t, e))
  {
    assert !CellViolation(lib, nova, c, namespace, CellName(c));
    assert !CellViolation(lib, nova, c, namespace, Topology(c, "cell"));
    assert !CellViolation(lib, nova, c, namespace, MetadataTwice(c));
    assert !CellViolation(lib, nova, c, namespace, Schedule(c));
    var t := nova.cells[c];
    forall e ensures !CellServicesViolation(lib, t, c, namespace, e) { assert !CellViolation(lib, nova, c, namespace, e); }
    forall e ensures !OverwriteViolation(lib, t.metadata.service.overwrite, METADATA_FILES, e) {
      assert !CellViolation(lib, nova, c, namespace, e);
    }
    forall e ensures !ComputesViolation(lib, c, t.computes, t.computes.Keys, namespace, e) {
      assert !CellViolation(lib, nova, c, namespace, e);
    }
    if c == CELL0 {
      forall e ensures !Cell0Violation(t, e) { assert !CellViolation(lib, nova, c, namespace, e); }
    }
  }

  // ---- the code -------------------------------------------------------------

  ghost predicate NoDuplicates(errors: seq<Error>) {
    forall e :: e in errors ==> !e.DuplicateBus?
  }

  method ValidateComputes(lib: Lib, cell: string, computes: map<string, Compute>, namespace: string)
    returns (errors: seq<Error>)
    ensures forall e :: e in errors <==> ComputesViolation(lib, cell, computes, computes.Keys, namespace, e)
  {
    errors := [];
    var left := computes.Keys;
    while left != {}
      invariant left <= computes.Keys
      invariant forall e :: e in errors <==> ComputesViolation(lib, cell, computes, computes.Keys - left, namespace, e)
      decreases |left|
    {
      var name :| name in left;
      assert computes.Keys - (left - {name}) == computes.Keys - left + {name};
      left := left - {name};
      var found := ValidateCompute(lib, cell, name, computes[name], namespace);
      errors := errors + found;
    }
  }

  method ValidateCompute(lib: Lib, cell: string, name: string, c: Compute, namespace: string) returns (errors: seq<Error>)
    ensures forall e :: e in errors <==> ComputeViolation(lib, cell, name, c, namespace, e)
  {
    errors := [];
    if c.driver == IRONIC { errors := If(c.service.replicas > 1, IronicReplicas(name)); }
    errors := errors + If(|name| > 20, ComputeName(name)) + If(!lib.nameOk(name), ComputeName(name));
    var overwritten := ValidateDefaultConfigOverwrite(lib, c.service.overwrite, COMPUTE_FILES);
    errors := errors + overwritten + ServiceErrors(lib, cell, name, c.service, namespace);
  }

  function ServiceErrors(lib: Lib, cell: string, name: string, s: Service, namespace: string): (errors: seq<Error>)
    ensures forall e :: e in errors <==> ServiceViolation(lib, cell, name, s, namespace, e)
  {
    If(!TopologyRefOk(lib, s.topologyRef, namespace), Topology(cell, name)) + If(!lib.probesOk(s.probes), Probes(cell, name))
  }

  method ValidateCellServices(lib: Lib, t: CellTemplate, c: string, namespace: string) returns (errors: seq<Error>)
    ensures forall e :: e in errors <==> CellServicesViolation(lib, t, c, namespace, e)
  {
    errors := ServiceErrors(lib, c, "metadata", t.metadata.service, namespace);
    errors := errors + ServiceErrors(lib, c, "noVNC", t.noVNC.service, namespace);
    errors := errors + ServiceErrors(lib, c, "conductor", t.conductor, namespace);
  }

  method ValidateCell0(t: CellTemplate) returns (errors: seq<Error>)
    requires t.metadata.enabled.Some? && t.noVNC.enabled.Some?
    ensures forall e :: e in errors <==> Cell0Violation(t, e)
  {
    errors := If(t.metadata.enabled.value, NotInCell0("metadata")) + If(t.noVNC.enabled.value, NotInCell0("noVNC"))
              + If(|t.computes| > 0, NotInCell0("computes"));
  }

  method ValidateCellBasics(lib: Lib, nova: Nova, c: string, namespace: string) returns (errors: seq<Error>)
    requires Dereferenceable(nova) && c in nova.cells
    ensures var t := nova.cells[c];
            forall e :: e in errors <==>
              || (e == CellName(c) && !CellNameOk(lib, c))
              || (e == Topology(c, "cell") && !TopologyRefOk(lib, t.topologyRef, namespace))
              || (e == MetadataTwice(c) && t.metadata.enabled.value && nova.metadata.enabled.value)
              || (e == Schedule(c) && !lib.cronOk(t.schedule))
              || CellServicesViolation(lib, t, c, namespace, e)
              || (c == CELL0 && Cell0Violation(t, e))
  {
    var t := nova.cells[c];
    errors := If(|c| > 35, CellName(c)) + If(!lib.nameOk(c), CellName(c))
              + If(!TopologyRefOk(lib, t.topologyRef, namespace), Topology(c, "cell"))
              + If(t.metadata.enabled.value && nova.metadata.enabled.value, MetadataTwice(c));
    var services := ValidateCellServices(lib, t, c, namespace);
    errors := errors + services + If(!lib.cronOk(t.schedule), Schedule(c));
    if c == CELL0 {
      var cell0 := ValidateCell0(t);
      errors := errors + cell0;
    }
  }

  /** One turn of the loop over the cells, but for the bus. */
  method ValidateCellTemplate(lib: Lib, nova: Nova, c: string, namespace: string) returns (errors: seq<Error>)
    requires Dereferenceable(nova) && c in nova.cells
    ensures forall e :: e in errors <==> CellViolation(lib, nova, c, namespace, e)
    ensures NoDuplicates(errors)
    ensures errors == [] <==> CellTemplateOk(lib, nova, c, namespace)
  {
    var t := nova.cells[c];
    errors := ValidateCellBasics(lib, nova, c, namespace);
    var overwritten := ValidateDefaultConfigOverwrite(lib, t.metadata.service.overwrite, METADATA_FILES);
    var computes := ValidateComputes(lib, c, t.computes, namespace);
    errors := errors + overwritten + computes;
    NoViolationMeansOk(lib, nova, c, namespace);
    if errors != [] { assert errors[0] in errors; }
  }

  function Duplicates(errors: seq<Error>): nat {
    if errors == [] then 0
    else Duplicates(errors[..|errors| - 1]) + if errors[|errors| - 1].DuplicateBus? then 1 else 0
  }

  lemma {:induction false} DuplicatesAdd(a: seq<Error>, b: seq<Error>)
    ensures Duplicates(a + b) == Duplicates(a) + Duplicates(b)
    ensures NoDuplicates(b) ==> Duplicates(b) == 0
  {
    if b == [] {
      assert a + b == a;
    } else {
      var front := b[..|b| - 1];
      assert (a + b)[..|a + b| - 1] == a + front;
      DuplicatesAdd(a, front);
      assert b[|b| - 1] in b;
      assert forall e :: e in front ==> e in b;
    }
  }

  function OthersOf(names: set<string>): set<string> {
    set c | c in names && c != CELL0
  }

  function ClustersOf(cells: map<string, CellTemplate>, names: set<string>): set<string>
    requires names <= cells.Keys
  {
    set c | c in names && c != CELL0 :: ClusterOf(cells[c])
  }

  /** The bus check of one cell against those seen before. */
  function BusErrors(seen: map<string, string>, c: string, cluster: string): seq<Error> {
    if cluster in seen then [DuplicateBus(c, cluster, seen[cluster])] else []
  }

  /** The cells in `names` are fine and cell0 is there. */
  predicate Fine(lib: Lib, nova: Nova, names: set<string>, namespace: string)
    requires Dereferenceable(nova) && names <= nova.cells.Keys
  {
    CELL0 in nova.cells && forall c :: c in names ==> CellTemplateOk(lib, nova, c, namespace)
  }

  lemma OneMoreFine(lib: Lib, nova: Nova, names: set<string>, c: string, namespace: string)
    requires Dereferenceable(nova) && names <= nova.cells.Keys && c in nova.cells
    ensures Fine(lib, nova, names + {c}, namespace) <==>
            Fine(lib, nova, names, namespace) && CellTemplateOk(lib, nova, c, namespace)
  {
  }

  /** For every order in which the cells are picked the number of duplicate buses
      reported is that of the cells but cell0 less that of the buses they use, and each
      names two cells of the same bus; the other errors are exactly those of the cells;
      and the templates are accepted exactly when each of them is fine and no two use the
      same bus. */
  method ValidateCellTemplates(lib: Lib, nova: Nova, namespace: string) returns (errors: seq<Error>)
    requires Dereferenceable(nova)
    ensures Duplicates(errors) == |OthersOf(nova.cells.Keys)| - |ClustersOf(nova.cells, nova.cells.Keys)|
    ensures errors == [] <==> CellTemplatesOk(lib, nova, namespace)
    ensures Reported(lib, nova, nova.cells.Keys, namespace, errors)
    ensures forall e :: e in errors ==> Justified(nova.cells, nova.cells.Keys, e)
  {
    ghost var seen, fine;
    errors, seen, fine := ValidateEach(lib, nova, namespace);
    DistinctIff(nova.cells, nova.cells.Keys);
    FineAndApart(lib, nova, namespace);
  }

  /** Where the loop stands when the cells `done` have been looked at. */
  ghost predicate Progress(lib: Lib, nova: Nova, done: set<string>, namespace: string,
                           errors: seq<Error>, seen: map<string, string>, fine: bool)
    requires Dereferenceable(nova) && done <= nova.cells.Keys
  {
    && Tally(nova.cells, done, fine, errors, seen)
    && Reported(lib, nova, done, namespace, errors)
    && AllJustified(nova.cells, done, errors, seen)
    && (fine <==> Fine(lib, nova, done, namespace))
  }

  /** One turn of the loop. */
  method ValidateNext(lib: Lib, nova: Nova, c: string, namespace: string, errors: seq<Error>, seen: map<string, string>,
                      ghost left: set<string>, ghost fine: bool)
    returns (errors': seq<Error>, seen': map<string, string>, ghost fine': bool)
    requires Dereferenceable(nova) && left <= nova.cells.Keys && c in left
    requires Progress(lib, nova, nova.cells.Keys - left, namespace, errors, seen, fine)
    ensures Progress(lib, nova, nova.cells.Keys - (left - {c}), namespace, errors', seen', fine')
  {
    ghost var done := nova.cells.Keys - left;
    assert nova.cells.Keys - (left - {c}) == done + {c};
    var found := ValidateCellTemplate(lib, nova, c, namespace);
    OneMoreFine(lib, nova, done, c, namespace);
    errors', seen' := AddErrors(nova.cells, c, found, errors, seen, done, fine);
    ReportedNext(lib, nova, done, c, namespace, errors, found, errors');
    fine' := fine && found == [];
  }

  method ValidateEach(lib: Lib, nova: Nova, namespace: string)
    returns (errors: seq<Error>, ghost busOf: map<string, string>, ghost fine: bool)
    requires Dereferenceable(nova)
    ensures Progress(lib, nova, nova.cells.Keys, namespace, errors, busOf, fine)
  {
    errors := If(CELL0 !in nova.cells, Cell0Missing);
    var seen: map<string, string> := map[];
    var left := nova.cells.Keys;
    fine := CELL0 in nova.cells;
    TallyStart(nova.cells, errors);
    assert nova.cells.Keys - left == {};
    while left != {}
      invariant left <= nova.cells.Keys
      invariant Progress(lib, nova, nova.cells.Keys - left, namespace, errors, seen, fine)
      decreases |left|
    {
      var c :| c in left;
      errors, seen, fine := ValidateNext(lib, nova, c, namespace, errors, seen, left, fine);
      left := left - {c};
    }
    assert nova.cells.Keys - left == nova.cells.Keys;
    busOf := seen;
  }

  predicate OfBus(e: Error) { e.DuplicateBus? }

  /** The errors so far, buses apart. */
  ghost predicate Reported(lib: Lib, nova: Nova, done: set<string>, namespace: string, errors: seq<Error>)
    requires Dereferenceable(nova) && done <= nova.cells.Keys
  {
    forall e :: !OfBus(e) ==> (e in errors <==> CellsViolation(lib, nova, done, namespace, e))
  }

  /** What is wrong with the cell templates, their buses apart. */
  predicate CellsViolation(lib: Lib, nova: Nova, names: set<string>, namespace: string, e: Error)
    requires Dereferenceable(nova) && names <= nova.cells.Keys
  {
    || (e == Cell0Missing && CELL0 !in nova.cells)
    || exists c :: c in names && CellViolation(lib, nova, c, namespace, e)
  }

  lemma ReportedNext(lib: Lib, nova: Nova, done: set<string>, c: string, namespace: string,
                     errors: seq<Error>, found: seq<Error>, errors': seq<Error>)
    requires Dereferenceable(nova) && done <= nova.cells.Keys && c in nova.cells
    requires Reported(lib, nova, done, namespace, errors)
    requires forall e :: e in found <==> CellViolation(lib, nova, c, namespace, e)
    requires forall e :: !OfBus(e) ==> (e in errors' <==> e in errors || e in found)
    requires NoDuplicates(found)
    ensures Reported(lib, nova, done + {c}, namespace, errors')
  {
  }

  lemma TallyStart(cells: map<string, CellTemplate>, errors: seq<Error>)
    requires errors == if CELL0 in cells then [] else [Cell0Missing]
    ensures Tally(cells, {}, CELL0 in cells, errors, map[])
  {
  }

  /** The errors so far: one for each cell too many on a bus, and others iff something
      is not fine. */
  ghost predicate Tally(cells: map<string, CellTemplate>, done: set<string>, fine: bool, errors: seq<Error>, seen: map<string, string>)
    requires done <= cells.Keys
  {
    && seen.Keys == ClustersOf(cells, done)
    && Duplicates(errors) == |OthersOf(done)| - |ClustersOf(cells, done)|
    && Duplicates(errors) <= |errors|
    && (fine <==> |errors| == Duplicates(errors))
  }

  /** Each bus seen is that of the cell it was seen with, and no error about a bus is
      unjustified. */
  ghost predicate AllJustified(cells: map<string, CellTemplate>, done: set<string>, errors: seq<Error>, seen: map<string, string>)
    requires done <= cells.Keys
  {
    && (forall bus :: bus in seen ==> seen[bus] in done && seen[bus] != CELL0 && ClusterOf(cells[seen[bus]]) == bus)
    && (forall e :: e in errors ==> Justified(cells, done, e))
  }

  lemma JustifiedNext(cells: map<string, CellTemplate>, done: set<string>, c: string, found: seq<Error>, errors: seq<Error>,
                      seen: map<string, string>)
    requires done <= cells.Keys && c in cells && c !in done && NoDuplicates(found)
    requires AllJustified(cells, done, errors, seen)
    ensures c == CELL0 ==> AllJustified(cells, done + {c}, errors + found, seen)
    ensures c != CELL0 ==>
              AllJustified(cells, done + {c}, errors + found + BusErrors(seen, c, ClusterOf(cells[c])), seen[ClusterOf(cells[c]) := c])
  {
    forall e | e in errors + found ensures Justified(cells, done + {c}, e) {
      assert e in errors || e in found;
    }
  }

  lemma TallyNext(cells: map<string, CellTemplate>, done: set<string>, c: string)
    requires done <= cells.Keys && c in cells && c !in done
    ensures ClustersOf(cells, done + {c}) == ClustersOf(cells, done) + if c == CELL0 then {} else {ClusterOf(cells[c])}
    ensures |OthersOf(done + {c})| - |ClustersOf(cells, done + {c})| ==
            |OthersOf(done)| - |ClustersOf(cells, done)| +
              if c != CELL0 && ClusterOf(cells[c]) in ClustersOf(cells, done) then 1 else 0
  {
    OneMoreCluster(cells, done, c);
    MoreOrSame(OthersOf(done), c);
    MoreOrSame(ClustersOf(cells, done), ClusterOf(cells[c]));
  }

  lemma DuplicatesOf(errors: seq<Error>, found: seq<Error>, dup: seq<Error>)
    requires NoDuplicates(found) && (dup == [] || (|dup| == 1 && dup[0].DuplicateBus?))
    ensures Duplicates(errors + found + dup) == Duplicates(errors) + |dup|
  {
    DuplicatesAdd(errors, found);
    DuplicatesAdd(errors + found, dup);
  }

  method AddErrors(cells: map<string, CellTemplate>, c: string, found: seq<Error>, errors: seq<Error>,
                   seen: map<string, string>, ghost done: set<string>, ghost fine: bool)
    returns (errors': seq<Error>, seen': map<string, string>)
    requires done <= cells.Keys && c in cells && c !in done
    requires NoDuplicates(found) && Tally(cells, done, fine, errors, seen) && AllJustified(cells, done, errors, seen)
    ensures Tally(cells, done + {c}, fine && found == [], errors', seen')
    ensures AllJustified(cells, done + {c}, errors', seen')
    ensures forall e :: !OfBus(e) ==> (e in errors' <==> e in errors || e in found)
  {
    var dup := [];
    seen' := seen;
    if c != CELL0 {
      // the new field, or else the deprecated one
      var cluster := if cells[c].cluster != "" then cells[c].cluster else cells[c].busInstance;
      dup := BusErrors(seen, c, cluster);
      seen' := seen[cluster := c];
    }
    TallyAdd(cells, done, fine, c, found, dup, errors, seen, seen');
    JustifiedNext(cells, done, c, found, errors, seen);
    errors' := errors + found + dup;
    if dup == [] { assert errors' == errors + found; }
  }

  lemma TallyAdd(cells: map<string, CellTemplate>, done: set<string>, fine: bool, c: string, found: seq<Error>, dup: seq<Error>,
                 errors: seq<Error>, seen: map<string, string>, seen': map<string, string>)
    requires done <= cells.Keys && c in cells && c !in done
    requires NoDuplicates(found) && Tally(cells, done, fine, errors, seen)
    requires c == CELL0 ==> dup == [] && seen' == seen
    requires c != CELL0 ==> dup == BusErrors(seen, c, ClusterOf(cells[c])) && seen' == seen[ClusterOf(cells[c]) := c]
    ensures Tally(cells, done + {c}, fine && found == [], errors + found + dup, seen')
  {
    TallyNext(cells, done, c);
    DuplicatesOf(errors, found, dup);
  }

  lemma MoreOrSame(s: set<string>, x: string)
    ensures |s + {x}| == |s| + if x in s then 0 else 1
  {
    if x in s { assert s + {x} == s; }
  }

  lemma FineAndApart(lib: Lib, nova: Nova, namespace: string)
    requires Dereferenceable(nova)
    ensures CellTemplatesOk(lib, nova, namespace) <==>
            Fine(lib, nova, nova.cells.Keys, namespace) && SharingNone(nova.cells, nova.cells.Keys)
  {
  }

  lemma OneMoreCluster(cells: map<string, CellTemplate>, names: set<string>, c: string)
    requires names <= cells.Keys && c in cells && c !in names
    ensures OthersOf(names + {c}) == OthersOf(names) + if c == CELL0 then {} else {c}
    ensures ClustersOf(cells, names + {c}) == ClustersOf(cells, names) + if c == CELL0 then {} else {ClusterOf(cells[c])}
    ensures SharingNone(cells, names + {c}) <==>
            SharingNone(cells, names) && (c == CELL0 || ClusterOf(cells[c]) !in ClustersOf(cells, names))
  {
  }

  /** As many buses as cells means that no two cells share one. */
  lemma {:induction false} DistinctIff(cells: map<string, CellTemplate>, names: set<string>)
    requires names <= cells.Keys
    ensures |ClustersOf(cells, names)| <= |OthersOf(names)|
    ensures |ClustersOf(cells, names)| == |OthersOf(names)| <==> SharingNone(cells, names)
    decreases |names|
  {
    if names != {} {
      var c :| c in names;
      var rest := names - {c};
      assert names == rest + {c};
      DistinctIff(cells, rest);
      OneMoreCluster(cells, rest, c);
    }
  }

  predicate SharingNone(cells: map<string, CellTemplate>, names: set<string>)
    requires names <= cells.Keys
  {
    forall c, d :: c in names && d in names && c != CELL0 && d != CELL0 && c != d ==> ClusterOf(cells[c]) != ClusterOf(cells[d])
  }

  /** The checks that creation and update share, after the cells. */
  method ValidateServices(lib: Lib, nova: Nova, namespace: string) returns (errors: seq<Error>)
    ensures errors == [] <==> ServicesOk(lib, nova, namespace)
  {
    errors := If(!lib.routesOk(nova.apiRoutes), Routes) + If(!lib.probesOk(nova.api.probes), Probes("", "api"));
    var api := ValidateDefaultConfigOverwrite(lib, nova.api.overwrite, API_FILES);
    errors := errors + api;
    errors := errors + If(!TopologyRefOk(lib, nova.api.topologyRef, namespace), Topology("", "api"));
    errors := errors + ServiceErrors(lib, "", "scheduler", nova.scheduler, namespace);
    errors := errors + If(!TopologyRefOk(lib, nova.metadata.service.topologyRef, namespace), Topology("", "metadata"));
    var metadata := ValidateDefaultConfigOverwrite(lib, nova.metadata.service.overwrite, METADATA_FILES);
    errors := errors + metadata;
    errors := errors + If(!TopologyRefOk(lib, nova.topologyRef, namespace), Topology("", ""));
  }

  method ValidateCreate(lib: Lib, nova: Nova, namespace: string) returns (errors: seq<Error>)
    requires Dereferenceable(nova)
    ensures errors == [] <==> CreateOk(lib, nova, namespace)
  {
    errors := ValidateCellTemplates(lib, nova, namespace);
    var services := ValidateServices(lib, nova, namespace);
    errors := errors + services + If(!lib.probesOk(nova.metadata.service.probes), Probes("", "metadata"));
  }

  /** `deprecated` is what the check of deprecated fields reports. */
  method ValidateUpdate(lib: Lib, nova: Nova, namespace: string, deprecated: seq<Error>) returns (errors: seq<Error>)
    requires Dereferenceable(nova)
    ensures errors == [] <==> deprecated == [] && UpdateOk(lib, nova, namespace)
  {
    errors := deprecated;
    var cells := ValidateCellTemplates(lib, nova, namespace);
    var services := ValidateServices(lib, nova, namespace);
    errors := errors + cells + services;
  }
}
