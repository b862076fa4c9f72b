/** The specs of Nova and of what the controllers derive from it, and their defaults.
    Of each service the model has what the webhooks look at; `rest` stands for all
    that is only copied. */
module NovaSpecs {
  import opened Wrappers
  import opened CellNames

  datatype TopoRef = TopoRef(name: string, namespace: string)

  datatype Service = Service(
    nodeSelector: Option<map<string, string>>,
    topologyRef: Option<TopoRef>,
    replicas: int,
    probes: string,                       // the overridden probes
    overwrite: map<string, string>,       // defaultConfigOverwrite: file name to content
    rest: string)

  datatype Optional = Optional(enabled: Option<bool>, service: Service)

  datatype Compute = Compute(driver: string, service: Service)

  datatype CellTemplate = CellTemplate(
    cluster: string,                      // messagingBus.cluster
    busInstance: string,                  // the deprecated cellMessageBusInstance
    conductor: Service,
    metadata: Optional,
    noVNC: Optional,
    computes: map<string, Compute>,
    nodeSelector: Option<map<string, string>>,
    topologyRef: Option<TopoRef>,
    schedule: string,                     // of the DB purge
    rest: string)

  datatype Nova = Nova(
    cluster: string,
    apiTimeout: int,
    api: Service,
    apiRoutes: string,                    // the service override of the API
    scheduler: Service,
    metadata: Optional,
    cells: map<string, CellTemplate>,
    nodeSelector: Option<map<string, string>>,
    topologyRef: Option<TopoRef>,
    rest: string)

  datatype NovaCell = NovaCell(
    cellName: string,
    conductor: Service,
    metadata: Optional,
    noVNC: Optional,
    computes: map<string, Compute>,
    nodeSelector: Option<map<string, string>>,
    topologyRef: Option<TopoRef>,
    schedule: string)

  // ---- derivation -----------------------------------------------------------

  function OrElse<T>(a: Option<T>, b: Option<T>): Option<T> {
    if a.None? then b else a
  }

  function WithFallback(s: Service, nodeSelector: Option<map<string, string>>, topologyRef: Option<TopoRef>): Service {
    s.(nodeSelector := OrElse(s.nodeSelector, nodeSelector), topologyRef := OrElse(s.topologyRef, topologyRef))
  }

  function NovaCellSpec(nova: Nova, cell: string): NovaCell
    requires cell in nova.cells
  {
    var t := nova.cells[cell];
    NovaCell(cell, t.conductor, t.metadata, t.noVNC, t.computes,
             OrElse(t.nodeSelector, nova.nodeSelector), OrElse(t.topologyRef, nova.topologyRef), t.schedule)
  }

  function NovaConductorSpec(cell: NovaCell): Service {
    WithFallback(cell.conductor, cell.nodeSelector, cell.topologyRef)
  }

  function NovaMetadataSpec(cell: NovaCell): Service {
    WithFallback(cell.metadata.service, cell.nodeSelector, cell.topologyRef)
  }

  function NovaNoVNCProxySpec(cell: NovaCell): Service {
    WithFallback(cell.noVNC.service, cell.nodeSelector, cell.topologyRef)
  }

  function NovaComputeSpec(cell: NovaCell, name: string): Compute
    requires name in cell.computes
  {
    var c := cell.computes[name];
    c.(service := WithFallback(c.service, cell.nodeSelector, cell.topologyRef))
  }

  function NovaAPISpec(nova: Nova): Service {
    WithFallback(nova.api, nova.nodeSelector, nova.topologyRef)
  }

  function NovaSchedulerSpec(nova: Nova): Service {
    WithFallback(nova.scheduler, nova.nodeSelector, nova.topologyRef)
  }

  function TopMetadataSpec(nova: Nova): Service {
    WithFallback(nova.metadata.service, nova.nodeSelector, nova.topologyRef)
  }

  // ---- defaults -------------------------------------------------------------

  function Enable(o: Optional, default_: bool): Optional {
    if o.enabled.None? then o.(enabled := Some(default_)) else o
  }

  /** The bus of a cell without one. */
  function DefaultBus(cell: string): string {
    if cell == CELL0 then "rabbitmq" else "rabbitmq-" + cell
  }

  function DefaultCell(name: string, t: CellTemplate): CellTemplate {
    t.(metadata := Enable(t.metadata, false),
       noVNC := Enable(t.noVNC, name != CELL0),
       cluster := if t.cluster == "" then DefaultBus(name) else t.cluster)
  }

  function DefaultedCells(cells: map<string, CellTemplate>): map<string, CellTemplate> {
    map c | c in cells :: DefaultCell(c, cells[c])
  }

  function Defaulted(nova: Nova, timeout: int): Nova {
    nova.(metadata := Enable(nova.metadata, true),
          apiTimeout := if nova.apiTimeout == 0 then timeout else nova.apiTimeout,
          cluster := if nova.cluster == "" then "rabbitmq" else nova.cluster,
          cells := DefaultedCells(nova.cells))
  }

  /** The defaults the NovaCell webhook sets. */
  function DefaultNovaCell(cell: NovaCell): NovaCell {
    cell.(metadata := Enable(cell.metadata, false), noVNC := Enable(cell.noVNC, cell.cellName != CELL0))
  }

  class NovaCR {
    var spec: Nova

    constructor (spec: Nova)
      ensures this.spec == spec
    {
      this.spec := spec;
    }

    /** Defaulting in place, entry by entry, in whatever order `names` lists the cells:
        the result does not depend on it. */
    method Default(names: seq<string>, timeout: int)
      requires forall c :: c in names <==> c in spec.cells
      requires forall i, j :: 0 <= i < j < |names| ==> names[i] != names[j]
      modifies this
      ensures spec == Defaulted(old(spec), timeout)
    {
      if spec.metadata.enabled.None? {
        spec := spec.(metadata := spec.metadata.(enabled := Some(true)));
      }
      if spec.apiTimeout == 0 { spec := spec.(apiTimeout := timeout); }
      if spec.cluster == "" { spec := spec.(cluster := "rabbitmq"); }
      DefaultCells(names);
    }

    /** The loop over the map of templates, which it updates. */
    method DefaultCells(names: seq<string>)
      requires forall c :: c in names <==> c in spec.cells
      requires forall i, j :: 0 <= i < j < |names| ==> names[i] != names[j]
      modifies this
      ensures spec == old(spec).(cells := DefaultedCells(old(spec).cells))
    {
      var cells := spec.cells;
      for i := 0 to |names|
        invariant spec == old(spec) && cells.Keys == spec.cells.Keys
        invariant forall c :: c in cells && c in names[i..] ==> cells[c] == spec.cells[c]
        invariant forall c :: c in cells && c !in names[i..] ==> cells[c] == DefaultCell(c, spec.cells[c])
      {
        var cell := names[i];
        assert names[i..] == [cell] + names[i + 1..];
        assert cell in names && cell !in names[i + 1..];
        var t := DefaultTemplate(cell, cells[cell]);
        cells := cells[cell := t];
      }
      AllDefaulted(cells, spec.cells);
      spec := spec.(cells := cells);
    }

    /** One turn of the loop, on the copy of the entry. */
    method DefaultTemplate(name: string, template: CellTemplate) returns (t: CellTemplate)
      ensures t == DefaultCell(name, template)
    {
      t := template;
      if t.metadata.enabled.None? { t := t.(metadata := t.metadata.(enabled := Some(false))); }
      if name == CELL0 {
        if t.noVNC.enabled.None? { t := t.(noVNC := t.noVNC.(enabled := Some(false))); }
      } else {
        if t.noVNC.enabled.None? { t := t.(noVNC := t.noVNC.(enabled := Some(true))); }
      }
      if t.cluster == "" {
        if name == CELL0 { t := t.(cluster := "rabbitmq"); } else { t := t.(cluster := "rabbitmq-" + name); }
      }
    }
  }

  lemma AllDefaulted(cells: map<string, CellTemplate>, was: map<string, CellTemplate>)
    requires cells.Keys == was.Keys && forall c :: c in cells ==> cells[c] == DefaultCell(c, was[c])
    ensures cells == DefaultedCells(was)
  {
  }

  /** What validation dereferences. */
  predicate Dereferenceable(nova: Nova)
  {
    && (forall c :: c in nova.cells ==>
          nova.cells[c].metadata.enabled.Some? &&
          (nova.cells[c].metadata.enabled.value ==> nova.metadata.enabled.Some?))
    && (CELL0 in nova.cells ==> nova.cells[CELL0].noVNC.enabled.Some?)
  }

  lemma DefaultingIsIdempotent(nova: Nova, timeout: int, again: int)
    requires timeout != 0 || again == 0
    ensures Defaulted(Defaulted(nova, timeout), again) == Defaulted(nova, timeout)
    ensures Dereferenceable(Defaulted(nova, timeout))
  {
  }

  /** No value that was set is changed. */
  lemma DefaultingPreserves(nova: Nova, timeout: int, c: string)
    requires c in nova.cells
    ensures var d := Defaulted(nova, timeout);
            && d.cells.Keys == nova.cells.Keys
            && (nova.metadata.enabled.Some? ==> d.metadata == nova.metadata)
            && (nova.apiTimeout != 0 ==> d.apiTimeout == nova.apiTimeout)
            && (nova.cluster != "" ==> d.cluster == nova.cluster)
            && (nova.cells[c].metadata.enabled.Some? ==> d.cells[c].metadata == nova.cells[c].metadata)
            && (nova.cells[c].noVNC.enabled.Some? ==> d.cells[c].noVNC == nova.cells[c].noVNC)
            && (nova.cells[c].cluster != "" ==> d.cells[c].cluster == nova.cells[c].cluster)
            && d.cells[c].conductor == nova.cells[c].conductor && d.cells[c].computes == nova.cells[c].computes
            && d.cells[c].busInstance == nova.cells[c].busInstance
            && d.api == nova.api && d.scheduler == nova.scheduler
  {
  }

  /** What is unset gets the default of the source: cell0 shares the bus of the API, the
      metadata service runs on top, and every cell but cell0 has a proxy. */
  lemma DefaultsExactly(nova: Nova, timeout: int, c: string)
    requires c in nova.cells
    ensures var d, t := Defaulted(nova, timeout), nova.cells[c];
            && (nova.metadata.enabled.None? ==> d.metadata == nova.metadata.(enabled := Some(true)))
            && (nova.apiTimeout == 0 ==> d.apiTimeout == timeout)
            && (nova.cluster == "" ==> d.cluster == "rabbitmq")
            && (t.metadata.enabled.None? ==> d.cells[c].metadata == t.metadata.(enabled := Some(false)))
            && (t.noVNC.enabled.None? ==> d.cells[c].noVNC == t.noVNC.(enabled := Some(c != "cell0")))
            && (t.cluster == "" ==> d.cells[c].cluster == if c == "cell0" then "rabbitmq" else "rabbitmq-" + c)
    ensures nova.cluster == "" && CELL0 in nova.cells && nova.cells[CELL0].cluster == "" ==>
              Defaulted(nova, timeout).cells[CELL0].cluster == Defaulted(nova, timeout).cluster
  {
  }

  /** Cells that set no bus get buses of their own, none of them that of the API. */
  lemma DefaultBusesAreDistinct(nova: Nova, timeout: int, c: string, d: string)
    requires c in nova.cells && d in nova.cells && c != d && c != CELL0
    requires nova.cells[c].cluster == "" && nova.cells[d].cluster == ""
    ensures var cells := Defaulted(nova, timeout).cells;
            cells[c].cluster != cells[d].cluster && cells[c].cluster != "rabbitmq" && cells[c].cluster != ""
  {
    assert DefaultBus(c)[9..] == c;
    if d == CELL0 {
      assert |DefaultBus(c)| != |DefaultBus(d)|;
    } else {
      assert DefaultBus(d)[9..] == d;
    }
  }

  /** The NovaCell webhook sets what the Nova webhook would have set, and changes
      nothing in a cell derived from a Nova that went through its own. */
  lemma CellDefaultsAgree(nova: Nova, timeout: int, c: string)
    requires c in nova.cells
    ensures DefaultNovaCell(NovaCellSpec(Defaulted(nova, timeout), c)) == NovaCellSpec(Defaulted(nova, timeout), c)
    ensures DefaultNovaCell(NovaCellSpec(nova, c)) == NovaCellSpec(Defaulted(nova, timeout), c)
  {
  }
}
