/** Inference workload overlays (server/dependencies.go). Header names are compared ignoring case, as section 5.1 of
    RFC 9110 asks; `fold` maps a name to its case-insensitive form, so that strings.EqualFold(a, b) is fold(a) == fold(b). */
module WorkloadOverlay {
  import opened Wrappers

  type Fold = string -> string

  type Headers = map<string, string>

  /** validateInferenceHeaders: no two names differ only in case. */
  ghost predicate CaseUnique(fold: Fold, headers: Headers) {
    forall a, b | a in headers && b in headers && fold(a) == fold(b) :: a == b
  }

  // ---------- merging headers ----------

  /** The inner loop: drops every name that folds like `name`. */
  function Without(fold: Fold, headers: Headers, name: string): Headers {
    map x | x in headers && fold(x) != fold(name) :: headers[x]
  }

  function Put(fold: Fold, headers: Headers, name: string, value: string): Headers {
    Without(fold, headers, name)[name := value]
  }

  /** The overlay's names, each once, in some order of iteration. */
  ghost predicate IsOrder(overlay: Headers, order: seq<string>) {
    Enumerates(order, overlay.Keys)
  }

  ghost predicate Enumerates(order: seq<string>, names: set<string>) {
    && (forall x | x in names :: x in order)
    && (forall i | 0 <= i < |order| :: order[i] in names)
    && (forall i, j | 0 <= i < j < |order| :: order[i] != order[j])
  }

  /** The outer loop, for one order of iteration. */
  ghost function MergeInOrder(fold: Fold, base: Headers, overlay: Headers, order: seq<string>): Headers
    requires forall i | 0 <= i < |order| :: order[i] in overlay
  {
    if order == [] then base
    else
      var last := order[|order| - 1];
      Put(fold, MergeInOrder(fold, base, overlay, order[..|order| - 1]), last, overlay[last])
  }

  /** Some overlay name folds like `name`. */
  ghost predicate Shadowed(fold: Fold, overlay: Headers, name: string) {
    exists o | o in overlay :: fold(o) == fold(name)
  }

  /** The overlay's headers, and those of the base that no overlay name shadows. */
  ghost function Merged(fold: Fold, base: Headers, overlay: Headers): Headers {
    map x | x in base.Keys + overlay.Keys && (x in overlay || !Shadowed(fold, overlay, x)) ::
      if x in overlay then overlay[x] else base[x]
  }

  /** The part of the overlay already visited. */
  ghost function Visited(overlay: Headers, order: seq<string>): Headers {
    map x | x in overlay && x in order :: overlay[x]
  }

  lemma {:induction false} MergeVisits(fold: Fold, base: Headers, overlay: Headers, order: seq<string>)
    requires CaseUnique(fold, overlay) && forall i | 0 <= i < |order| :: order[i] in overlay
    requires forall i, j | 0 <= i < j < |order| :: order[i] != order[j]
    ensures MergeInOrder(fold, base, overlay, order) == Merged(fold, base, Visited(overlay, order))
  {
    if order == [] {
      assert Visited(overlay, order) == map[];
      assert Merged(fold, base, map[]) == base;
    } else {
      var init, last := order[..|order| - 1], order[|order| - 1];
      MergeVisits(fold, base, overlay, init);
      assert order == init + [last];
      VisitedSnoc(fold, overlay, init, last);
      PutMerged(fold, base, Visited(overlay, init), last, overlay[last]);
    }
  }

  lemma VisitedSnoc(fold: Fold, overlay: Headers, init: seq<string>, last: string)
    requires CaseUnique(fold, overlay) && last in overlay && last !in init
    ensures Visited(overlay, init + [last]) == Visited(overlay, init)[last := overlay[last]]
    ensures last !in Visited(overlay, init) && CaseUnique(fold, Visited(overlay, init + [last]))
  {}

  lemma PutMerged(fold: Fold, base: Headers, overlay: Headers, name: string, value: string)
    requires name !in overlay && CaseUnique(fold, overlay[name := value])
    ensures Put(fold, Merged(fold, base, overlay), name, value) == Merged(fold, base, overlay[name := value])
  {
    var left, right := Put(fold, Merged(fold, base, overlay), name, value), Merged(fold, base, overlay[name := value]);
    forall x: string ensures (x in left <==> x in right) && (x in left ==> left[x] == right[x]) {
      PutMergedAt(fold, base, overlay, name, value, x);
    }
  }

  lemma PutMergedAt(fold: Fold, base: Headers, overlay: Headers, name: string, value: string, x: string)
    requires name !in overlay && CaseUnique(fold, overlay[name := value])
    ensures var left, right := Put(fold, Merged(fold, base, overlay), name, value), Merged(fold, base, overlay[name := value]);
            (x in left <==> x in right) && (x in left ==> left[x] == right[x])
  {
    ShadowedByOneMore(fold, overlay, name, value, x);
  }

  lemma ShadowedByOneMore(fold: Fold, overlay: Headers, name: string, value: string, x: string)
    requires name !in overlay && CaseUnique(fold, overlay[name := value])
    ensures Shadowed(fold, overlay[name := value], x) <==> Shadowed(fold, overlay, x) || fold(x) == fold(name)
    ensures x in overlay ==> fold(x) != fold(name)
  {
    var extended := overlay[name := value];
    assert name in extended;
    if fold(x) == fold(name) { assert fold(name) == fold(x); }
    if o :| o in overlay && fold(o) == fold(x) { assert o in extended; }
    assert x in overlay ==> x in extended;
  }

  /** When the overlay's names are unique ignoring case, every order of iteration gives the same headers. */
  lemma OrderIrrelevant(fold: Fold, base: Headers, overlay: Headers, order: seq<string>)
    requires CaseUnique(fold, overlay) && IsOrder(overlay, order)
    ensures forall i | 0 <= i < |order| :: order[i] in overlay
    ensures MergeInOrder(fold, base, overlay, order) == Merged(fold, base, overlay)
  {
    MergeVisits(fold, base, overlay, order);
    assert Visited(overlay, order) == overlay;
  }

  /** A name visited last survives, and its case variants do not. */
  lemma LastWins(fold: Fold, base: Headers, overlay: Headers, order: seq<string>, other: string)
    requires order != [] && forall i | 0 <= i < |order| :: order[i] in overlay
    requires other != order[|order| - 1] && fold(other) == fold(order[|order| - 1])
    ensures order[|order| - 1] in MergeInOrder(fold, base, overlay, order)
    ensures other !in MergeInOrder(fold, base, overlay, order)
  {}

  lemma {:induction false} OrderExists(names: set<string>) returns (order: seq<string>)
    ensures Enumerates(order, names)
  {
    if names == {} {
      order := [];
    } else {
      var k :| k in names;
      order := OrderEndingIn(names, k);
    }
  }

  lemma {:induction false} OrderEndingIn(names: set<string>, last: string) returns (order: seq<string>)
    requires last in names
    ensures Enumerates(order, names) && order != [] && order[|order| - 1] == last
    decreases names, 0
  {
    var init := OrderExists(names - {last});
    order := init + [last];
    assert forall x | x in names :: x == last || x in init;
  }

  /** The condition is exact: with two names that differ only in case, the order of iteration shows. */
  lemma OrderMatters(fold: Fold, base: Headers, overlay: Headers) returns (first: seq<string>, second: seq<string>)
    requires !CaseUnique(fold, overlay)
    ensures IsOrder(overlay, first) && IsOrder(overlay, second)
    ensures forall i | 0 <= i < |first| :: first[i] in overlay
    ensures forall i | 0 <= i < |second| :: second[i] in overlay
    ensures MergeInOrder(fold, base, overlay, first) != MergeInOrder(fold, base, overlay, second)
  {
    var a, b :| a in overlay && b in overlay && fold(a) == fold(b) && a != b;
    first := OrderEndingIn(overlay.Keys, a);
    second := OrderEndingIn(overlay.Keys, b);
    LastWins(fold, base, overlay, first, b);
    LastWins(fold, base, overlay, second, a);
  }

  /** A lookup ignoring case finds the overlay's value when it has one and otherwise the base's, and the merged names
      stay unique ignoring case. */
  lemma MergedLookups(fold: Fold, base: Headers, overlay: Headers)
    requires CaseUnique(fold, base) && CaseUnique(fold, overlay)
    ensures CaseUnique(fold, Merged(fold, base, overlay))
    ensures forall name | name in overlay :: Finds(fold, Merged(fold, base, overlay), name, overlay[name])
    ensures forall name | name in base && !Shadowed(fold, overlay, name) :: Finds(fold, Merged(fold, base, overlay), name, base[name])
    ensures forall name | name in Merged(fold, base, overlay) :: name in overlay || (name in base && !Shadowed(fold, overlay, name))
  {
    var merged := Merged(fold, base, overlay);
    forall a, b | a in merged && b in merged && fold(a) == fold(b) ensures a == b {
      assert a in overlay ==> Shadowed(fold, overlay, b);
      assert b in overlay ==> Shadowed(fold, overlay, a);
    }
  }

  /** Every name that folds like `name` holds `value`, and one does. */
  ghost predicate Finds(fold: Fold, headers: Headers, name: string, value: string) {
    && (exists x | x in headers :: fold(x) == fold(name))
    && forall x | x in headers && fold(x) == fold(name) :: headers[x] == value
  }

  // ---------- maps on the heap ----------

  /** A Go map of headers: an object that several configurations may refer to. */
  class HeaderMap {
    var values: Headers

    constructor (values: Headers)
      ensures this.values == values
    {
      this.values := values;
    }
  }

  /** The nested loops, deleting from and inserting into the live map `target`; both maps are visited in whatever
      order. */
  method MergeHeaders(fold: Fold, target: HeaderMap, overlay: Headers) returns (ghost order: seq<string>)
    modifies target
    ensures IsOrder(overlay, order) && forall i | 0 <= i < |order| :: order[i] in overlay
    ensures target.values == MergeInOrder(fold, old(target.values), overlay, order)
    ensures CaseUnique(fold, overlay) ==> target.values == Merged(fold, old(target.values), overlay)
  {
    order := [];
    ghost var base := target.values;
    var names := overlay.Keys;
    while names != {}
      invariant names <= overlay.Keys
      invariant Enumerates(order, overlay.Keys - names)
      invariant target.values == MergeInOrder(fold, base, overlay, order)
    {
      var name :| name in names;
      DeleteFolded(fold, target, name);
      target.values := target.values[name := overlay[name]];
      ghost var before := order;
      order := order + [name];
      assert order[..|before|] == before;
      assert forall x | x in overlay.Keys - (names - {name}) :: x == name || x in before;
      names := names - {name};
    }
    if CaseUnique(fold, overlay) {
      OrderIrrelevant(fold, base, overlay, order);
    }
  }

  /** Deletes from the map while visiting it, as Go allows. */
  method DeleteFolded(fold: Fold, target: HeaderMap, name: string)
    modifies target
    ensures target.values == Without(fold, old(target.values), name)
  {
    ghost var headers := target.values;
    var remaining := target.values.Keys;
    while remaining != {}
      invariant remaining <= headers.Keys
      invariant target.values == map x | x in headers && (x in remaining || fold(x) != fold(name)) :: headers[x]
    {
      var existing :| existing in remaining;
      if fold(existing) == fold(name) {
        target.values := target.values - {existing};
      }
      remaining := remaining - {existing};
    }
  }

  // ---------- workloads ----------

  datatype Setting = Real(value: real) | Opaque(text: string)

  /** A Go map of model settings. */
  class SettingsMap {
    var values: map<string, Setting>

    constructor (values: map<string, Setting>)
      ensures this.values == values
    {
      this.values := values;
    }
  }

  datatype Workload = Workload(baseURL: string, headers: Headers, settings: map<string, Setting>)

  predicate HasOverrides(w: Workload) { w.baseURL != "" || |w.headers| > 0 || |w.settings| > 0 }

  const EMPTY := Workload("", map[], map[])

  ghost function Overlaid(fold: Fold, base: Workload, overlay: Workload): Workload {
    Workload(if overlay.baseURL != "" then overlay.baseURL else base.baseURL,
             Merged(fold, base.headers, overlay.headers),
             base.settings + overlay.settings)
  }

  /** The reranker's configured workload laid over what it inherits: without a model of its own, the generation
      workload. */
  ghost function Inherited(fold: Fold, generation: Option<Workload>, workload: Option<Workload>, model: string): Option<Workload> {
    var inherited := if model == "" then generation else None;
    if workload.None? then inherited
    else Some(Overlaid(fold, if inherited.Some? then inherited.value else EMPTY, workload.value))
  }

  /** The workload the reranker runs with, None when nothing overrides the defaults. */
  ghost function Resolved(fold: Fold, generation: Option<Workload>, workload: Option<Workload>, model: string): Option<Workload> {
    var merged := Inherited(fold, generation, workload, model);
    if merged.None? || !HasOverrides(merged.value) then None
    else Some(Deterministic(merged.value))
  }

  /** With a model of its own, or with nothing to inherit, only the reranker's workload counts. */
  lemma OwnModelInheritsNothing(fold: Fold, generation: Option<Workload>, workload: Option<Workload>, model: string)
    requires model != "" || generation.None?
    ensures workload.None? ==> Resolved(fold, generation, workload, model) == None
    ensures workload.Some? ==>
              Resolved(fold, generation, workload, model) ==
              if workload.value.baseURL == "" && workload.value.headers == map[] && workload.value.settings == map[] then None
              else Some(Workload(workload.value.baseURL, workload.value.headers, workload.value.settings["temperature" := Real(0.0)]))
  {
    if workload.Some? {
      assert Merged(fold, map[], workload.value.headers) == workload.value.headers;
      assert map[] + workload.value.settings == workload.value.settings;
    }
  }

  /** Without a workload of its own the reranker runs as generation does, at temperature zero. */
  lemma InheritsGeneration(fold: Fold, generation: Workload)
    ensures Resolved(fold, Some(generation), None, "") ==
            if generation.baseURL == "" && generation.headers == map[] && generation.settings == map[] then None
            else Some(Workload(generation.baseURL, generation.headers, generation.settings["temperature" := Real(0.0)]))
  {}

  /** With both, the reranker's URL wins if it has one, its headers win ignoring case (see MergedLookups) and its settings
      win by name. */
  lemma OverlayWins(fold: Fold, generation: Workload, workload: Workload)
    ensures Resolved(fold, Some(generation), Some(workload), "") ==
            if generation == Workload("", map[], map[]) && workload == Workload("", map[], map[]) then None
            else Some(Workload(if workload.baseURL == "" then generation.baseURL else workload.baseURL,
                               Merged(fold, generation.headers, workload.headers),
                               (generation.settings + workload.settings)["temperature" := Real(0.0)]))
  {
    MergedEmptyIff(fold, generation.headers, workload.headers);
    SettingsEmptyIff(generation.settings, workload.settings);
  }

  lemma SettingsEmptyIff(a: map<string, Setting>, b: map<string, Setting>)
    ensures a + b == map[] <==> a == map[] && b == map[]
  {
    assert (a + b).Keys == a.Keys + b.Keys;
    assert a.Keys == {} <==> a == map[];
    assert b.Keys == {} <==> b == map[];
  }

  lemma MergedEmptyIff(fold: Fold, base: Headers, overlay: Headers)
    ensures Merged(fold, base, overlay) == map[] <==> base == map[] && overlay == map[]
  {
    if overlay == map[] {
      assert Merged(fold, base, overlay) == base;
    } else {
      var name :| name in overlay;
      assert name in Merged(fold, base, overlay);
    }
  }

  function HeadersIn(m: HeaderMap?): Headers
    reads m
  { if m == null then map[] else m.values }

  function SettingsIn(m: SettingsMap?): map<string, Setting>
    reads m
  { if m == null then map[] else m.values }

  /** A configured workload. Its maps may be nil, and other configurations may hold the same maps. */
  class InferenceWorkload {
    var baseURL: string
    var headers: HeaderMap?
    var settings: SettingsMap?

    constructor (baseURL: string, headers: HeaderMap?, settings: SettingsMap?)
      ensures this.baseURL == baseURL && this.headers == headers && this.settings == settings
    {
      this.baseURL, this.headers, this.settings := baseURL, headers, settings;
    }

    function Snapshot(): Workload
      reads this, headers, settings
    { Workload(baseURL, HeadersIn(headers), SettingsIn(settings)) }
  }

  /** The object and the maps it holds did not exist before. */
  twostate predicate AllNew(new w: InferenceWorkload)
    reads w
  { fresh(w) && (w.headers != null ==> fresh(w.headers)) && (w.settings != null ==> fresh(w.settings)) }

  function SnapshotOf(w: InferenceWorkload?): Option<Workload>
    reads w, if w == null then {} else {w.headers, w.settings}
  { if w == null then None else Some(w.Snapshot()) }

  /** cloneInferenceWorkload: a new object with maps of its own. */
  method CloneWorkload(config: InferenceWorkload?) returns (r: InferenceWorkload?)
    ensures SnapshotOf(r) == SnapshotOf(config)
    ensures r != null ==> AllNew(r)
    ensures forall m: HeaderMap | old(allocated(m)) :: m.values == old(m.values)
    ensures forall m: SettingsMap | old(allocated(m)) :: m.values == old(m.values)
  {
    if config == null {
      return null;
    }
    var headers := CloneHeaders(config.headers);
    var settings := CloneSettings(config.settings);
    r := new InferenceWorkload(config.baseURL, headers, settings);
  }

  /** maps.Clone, which keeps nil. */
  method CloneHeaders(m: HeaderMap?) returns (r: HeaderMap?)
    ensures HeadersIn(r) == HeadersIn(m) && (r != null ==> fresh(r))
  {
    if m == null {
      return null;
    }
    r := new HeaderMap(m.values);
  }

  method CloneSettings(m: SettingsMap?) returns (r: SettingsMap?)
    ensures SettingsIn(r) == SettingsIn(m) && (r != null ==> fresh(r))
  {
    if |SettingsIn(m)| == 0 {
      assert SettingsIn(m) == map[];
      return null;
    }
    r := new SettingsMap(map[]);
    CopySettings(r, m.values);
  }

  /** Writes the entries of `source` into the live map, in whatever order. */
  method CopySettings(target: SettingsMap, source: map<string, Setting>)
    modifies target
    ensures target.values == old(target.values) + source
  {
    ghost var base := target.values;
    var names := source.Keys;
    while names != {}
      invariant names <= source.Keys
      invariant target.values == base + (map x | x in source && x !in names :: source[x])
    {
      var name :| name in names;
      target.values := target.values[name := source[name]];
      names := names - {name};
    }
    assert (map x | x in source && x !in names :: source[x]) == source;
  }

  /** overlayInferenceWorkload: without an overlay it returns the base itself, otherwise a new object with maps of its
      own. It changes no existing object and no existing map. */
  method OverlayWorkload(fold: Fold, base: InferenceWorkload?, overlay: InferenceWorkload?) returns (r: InferenceWorkload?)
    ensures overlay == null ==> r == base
    ensures overlay != null ==> r != null && AllNew(r)
    ensures overlay != null && CaseUnique(fold, old(overlay.Snapshot()).headers) ==>
              r.Snapshot() == Overlaid(fold, old(if base == null then EMPTY else base.Snapshot()), old(overlay.Snapshot()))
    ensures forall m: HeaderMap | old(allocated(m)) :: m.values == old(m.values)
    ensures forall m: SettingsMap | old(allocated(m)) :: m.values == old(m.values)
  {
    if overlay == null {
      return base;
    }
    r := CloneOrEmpty(base);
    LayOver(fold, r, overlay);
  }

  method CloneOrEmpty(base: InferenceWorkload?) returns (r: InferenceWorkload)
    ensures r.Snapshot() == (if base == null then EMPTY else base.Snapshot()) && AllNew(r)
  {
    var clone := CloneWorkload(base);
    if clone == null {
      return new InferenceWorkload("", null, null);
    }
    return clone;
  }

  /** `r` shares no map with the overlay. */
  predicate Separate(r: InferenceWorkload, overlay: InferenceWorkload)
    reads r, overlay
  {
    && r != overlay
    && (overlay.headers != null ==> r.headers != overlay.headers)
    && (overlay.settings != null ==> r.settings != overlay.settings)
  }

  /** Writes the overlay into `r` and its live maps. */
  method LayOver(fold: Fold, r: InferenceWorkload, overlay: InferenceWorkload)
    requires Separate(r, overlay)
    modifies r, r.headers, r.settings
    ensures (r.headers == old(r.headers) || fresh(r.headers)) && (r.settings == old(r.settings) || fresh(r.settings))
    ensures CaseUnique(fold, old(overlay.Snapshot()).headers) ==>
              r.Snapshot() == Overlaid(fold, old(r.Snapshot()), old(overlay.Snapshot()))
  {
    if overlay.baseURL != "" {
      r.baseURL := overlay.baseURL;
    }
    r.headers := OverlayHeaders(fold, r.headers, overlay.headers);
    r.settings := OverlaySettings(r.settings, overlay.settings);
  }

  /** Merges into the live map, making one if there is none; an overlay without headers leaves it alone. */
  method OverlayHeaders(fold: Fold, target: HeaderMap?, overlay: HeaderMap?) returns (r: HeaderMap?)
    requires target != overlay || overlay == null
    modifies target
    ensures r == target || fresh(r)
    ensures CaseUnique(fold, HeadersIn(overlay)) ==> HeadersIn(r) == Merged(fold, old(HeadersIn(target)), HeadersIn(overlay))
  {
    r := target;
    if |HeadersIn(overlay)| > 0 {
      if r == null {
        r := new HeaderMap(map[]);
      }
      var _ := MergeHeaders(fold, r, overlay.values);
    } else {
      MergedWithNothing(fold, HeadersIn(r), HeadersIn(overlay));
    }
  }

  method OverlaySettings(target: SettingsMap?, overlay: SettingsMap?) returns (r: SettingsMap?)
    requires target != overlay || overlay == null
    modifies target
    ensures r == target || fresh(r)
    ensures SettingsIn(r) == old(SettingsIn(target)) + SettingsIn(overlay)
  {
    r := target;
    if |SettingsIn(overlay)| > 0 {
      if r == null {
        r := new SettingsMap(map[]);
      }
      CopySettings(r, overlay.values);
    }
  }

  lemma MergedWithNothing(fold: Fold, base: Headers, overlay: Headers)
    requires |overlay| == 0
    ensures Merged(fold, base, overlay) == base
  {}

  ghost predicate Unambiguous(fold: Fold, w: Option<Workload>) {
    w.Some? ==> CaseUnique(fold, w.value.headers)
  }

  datatype RerankConfig = RerankConfig(workload: InferenceWorkload?, model: string)

  /** resolvedRerankWorkload: deterministic even when the inherited workload samples. The temperature is written into a
      settings map that no configuration holds. */
  method ResolvedRerankWorkload(fold: Fold, generation: InferenceWorkload?, rerank: Option<RerankConfig>) returns (r: InferenceWorkload?)
    ensures r != null ==> AllNew(r)
    ensures r != null ==> r.settings != null && "temperature" in r.settings.values
    ensures r != null ==> r.settings.values["temperature"] == Real(0.0)
    ensures rerank.None? ==> r == null
    ensures rerank.Some? && Unambiguous(fold, old(SnapshotOf(rerank.value.workload))) ==>
              SnapshotOf(r) == Resolved(fold, old(SnapshotOf(generation)), old(SnapshotOf(rerank.value.workload)), rerank.value.model)
    ensures forall m: HeaderMap | old(allocated(m)) :: m.values == old(m.values)
    ensures forall m: SettingsMap | old(allocated(m)) :: m.values == old(m.values)
  {
    if rerank.None? {
      return null;
    }
    r := InheritWorkload(fold, generation, rerank.value.workload, rerank.value.model);
    if r == null || !HasOverrides(r.Snapshot()) {
      return null;
    }
    ForceTemperature(r);
  }

  function Deterministic(w: Workload): Workload {
    w.(settings := w.settings["temperature" := Real(0.0)])
  }

  /** Writes the temperature into the live settings map, making one if there is none. */
  method ForceTemperature(r: InferenceWorkload)
    modifies r, r.settings
    ensures r.headers == old(r.headers) && (r.settings == old(r.settings) || fresh(r.settings))
    ensures r.settings != null && "temperature" in r.settings.values && r.settings.values["temperature"] == Real(0.0)
    ensures r.Snapshot() == Deterministic(old(r.Snapshot()))
  {
    if r.settings == null {
      r.settings := new SettingsMap(map[]);
    }
    r.settings.values := r.settings.values["temperature" := Real(0.0)];
  }

  method InheritWorkload(fold: Fold, generation: InferenceWorkload?, workload: InferenceWorkload?, model: string) returns (r: InferenceWorkload?)
    ensures r != null ==> AllNew(r)
    ensures Unambiguous(fold, old(SnapshotOf(workload))) ==>
              SnapshotOf(r) == Inherited(fold, old(SnapshotOf(generation)), old(SnapshotOf(workload)), model)
  {
    r := null;
    if model == "" {
      r := CloneWorkload(generation);
    }
    r := OverlayWorkload(fold, r, workload);
  }
}
