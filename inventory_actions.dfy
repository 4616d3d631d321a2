/**
 * The pure parts of the `loadEntities` action creator: the ids it sends, the
 * filter overlay for hidden filters, the sort defaults, the request meta,
 * the shaping of a fulfilled response into the store's payload and the
 * tagging of a failure; and the small creators beside it.
 */
module InventoryActions {
  import opened JsValues
  import opened ActionTypes
  import RowSelection
  import ActiveFilters
  import Entities

  // ---------------------------------------------------------------------------
  // Ids of the requested items
  // ---------------------------------------------------------------------------

  /** `curr && typeof curr === 'string' ? curr : curr.id` for an item that is neither null nor undefined. */
  function IdOf(item: Val): Val {
    if item.Str? && item.s != "" then item else Prop(item, "id")
  }

  /** `.filter(Boolean)` */
  function TruthyOnly(vs: seq<Val>): (r: seq<Val>)
    ensures |r| <= |vs|
    ensures forall v :: v in r <==> v in vs && Truthy(v)
  {
    if vs == [] then []
    else (if Truthy(vs[0]) then [vs[0]] else []) + TruthyOnly(vs[1..])
  }

  /** A JavaScript `null` or `undefined`, whose `.id` throws. */
  predicate Nullish(v: Val) { v == Undefined || v == Null }

  /** `itemIds`: the id of each item in order, falsy ones dropped; a nullish item throws. */
  function ItemIds(items: seq<Val>): (r: Result<seq<Val>, JsError>)
    ensures r.Err? <==> exists i :: 0 <= i < |items| && Nullish(items[i])
    ensures r.Ok? ==> forall v :: v in r.value <==> Truthy(v) && exists i :: 0 <= i < |items| && IdOf(items[i]) == v
  {
    if exists i :: 0 <= i < |items| && Nullish(items[i]) then
      Err(TypeError("Cannot read properties of null (reading 'id')"))
    else
      var ids := seq(|items|, i requires 0 <= i < |items| => IdOf(items[i]));
      assert forall v :: v in ids <==> exists i :: 0 <= i < |items| && IdOf(items[i]) == v by {
        forall v | v in ids ensures exists i :: 0 <= i < |items| && IdOf(items[i]) == v {
          var i :| 0 <= i < |ids| && ids[i] == v;
        }
        forall v | (exists i :: 0 <= i < |items| && IdOf(items[i]) == v) ensures v in ids {
          var i :| 0 <= i < |items| && IdOf(items[i]) == v;
          assert ids[i] == v;
        }
      }
      Ok(TruthyOnly(ids))
  }

  /** When no value is falsy, `filter(Boolean)` drops nothing. */
  lemma {:induction false} TruthyOnlyKeepsAll(vs: seq<Val>)
    requires forall k :: 0 <= k < |vs| ==> Truthy(vs[k])
    ensures TruthyOnly(vs) == vs
  {
    if vs != [] {
      TruthyOnlyKeepsAll(vs[1..]);
    }
  }

  /** `filter(Boolean)` works element by element: it keeps the order of what it keeps. */
  lemma {:induction false} TruthyOnlyAppend(a: seq<Val>, b: seq<Val>)
    ensures TruthyOnly(a + b) == TruthyOnly(a) + TruthyOnly(b)
  {
    if a != [] {
      assert (a + b)[1..] == a[1..] + b;
      TruthyOnlyAppend(a[1..], b);
    } else {
      assert a + b == b;
    }
  }

  /**
   * The ids of two runs of items are the ids of the first run followed by
   * those of the second: with `ItemIdsOne`, the ids keep the order of the items.
   */
  lemma ItemIdsAppend(xs: seq<Val>, ys: seq<Val>)
    requires forall k :: 0 <= k < |xs| ==> !Nullish(xs[k])
    requires forall k :: 0 <= k < |ys| ==> !Nullish(ys[k])
    ensures ItemIds(xs + ys) == Ok(ItemIds(xs).value + ItemIds(ys).value)
  {
    var ix := seq(|xs|, i requires 0 <= i < |xs| => IdOf(xs[i]));
    var iy := seq(|ys|, i requires 0 <= i < |ys| => IdOf(ys[i]));
    var zs := xs + ys;
    assert !exists i :: 0 <= i < |zs| && Nullish(zs[i]) by {
      forall i | 0 <= i < |zs| ensures !Nullish(zs[i]) {
        if i >= |xs| { assert zs[i] == ys[i - |xs|]; }
      }
    }
    assert seq(|zs|, i requires 0 <= i < |zs| => IdOf(zs[i])) == ix + iy;
    TruthyOnlyAppend(ix, iy);
  }

  /** One item gives its id when that is truthy, and nothing otherwise. */
  lemma ItemIdsOne(x: Val)
    requires !Nullish(x)
    ensures ItemIds([x]) == Ok(if Truthy(IdOf(x)) then [IdOf(x)] else [])
  {
    assert !exists i :: 0 <= i < |[x]| && Nullish([x][i]);
    var ids := seq(|[x]|, i requires 0 <= i < |[x]| => IdOf([x][i]));
    assert ids == [IdOf(x)];
    assert ids[1..] == [];
    assert ItemIds([x]) == Ok(TruthyOnly(ids));
    assert TruthyOnly(ids) == (if Truthy(ids[0]) then [ids[0]] else []) + TruthyOnly(ids[1..]);
    assert ids[0] == IdOf(x);
    assert TruthyOnly(ids[1..]) == [];
    assert TruthyOnly(ids) == (if Truthy(IdOf(x)) then [IdOf(x)] else []);
  }

  /** Non-empty string ids are sent as they are, in order. */
  lemma ItemIdsOfStrings(items: seq<Val>)
    requires forall k :: 0 <= k < |items| ==> items[k].Str? && items[k].s != ""
    ensures ItemIds(items) == Ok(items)
  {
    var ids := seq(|items|, i requires 0 <= i < |items| => IdOf(items[i]));
    assert ids == items;
    TruthyOnlyKeepsAll(items);
  }

  // ---------------------------------------------------------------------------
  // Hidden filters
  // ---------------------------------------------------------------------------

  /** `config.hideFilters?.[name] || (config.hideFilters?.all && config.hideFilters?.[name] !== false)` */
  function FilterDisabled(hideFilters: Val, name: string): Val {
    Or(Prop(hideFilters, name), And(Prop(hideFilters, "all"), Bool(Prop(hideFilters, name) != Bool(false))))
  }

  /** `isFilterDisabled(name)` as the spreads test it. */
  predicate IsFilterDisabled(hideFilters: Val, name: string) {
    Truthy(FilterDisabled(hideFilters, name))
  }

  /** A filter is hidden when hidden by name, or when all are hidden and it is not explicitly kept. */
  lemma FilterDisabledRule(hideFilters: Val, name: string)
    ensures IsFilterDisabled(hideFilters, name) <==>
            Truthy(Prop(hideFilters, name)) ||
            (Truthy(Prop(hideFilters, "all")) && Prop(hideFilters, name) != Bool(false))
  {
  }

  /** `hideFilters: {all: true, name: false}` keeps that one filter; no `hideFilters` hides none. */
  lemma FilterDisabledExamples(name: string)
    requires name != "all"
    ensures !IsFilterDisabled(Obj(map["all" := Bool(true), name := Bool(false)]), name)
    ensures IsFilterDisabled(Obj(map["all" := Bool(true)]), name)
    ensures !IsFilterDisabled(Undefined, name)
  {
    assert Prop(Obj(map["all" := Bool(true), name := Bool(false)]), name) == Bool(false);
  }

  /** `...(cond && { key: undefined })` */
  function Entry(cond: bool, key: string): Record {
    if cond then map[key := Undefined] else map[]
  }

  /** `...(isFilterDisabled(name) && { key: undefined })` */
  function Hide(hideFilters: Val, name: string, key: string): Record {
    Entry(IsFilterDisabled(hideFilters, name), key)
  }

  /** The hidden-filter overlay; the `last_seen` entry only on the branch without filters. */
  function Overlay(hideFilters: Val, withLastSeen: bool): Record {
    Hide(hideFilters, "stale", "staleFilter")
    + (if withLastSeen then Hide(hideFilters, "last_seen", "lastSeenFilter") else map[])
    + Hide(hideFilters, "registeredWith", "registeredWithFilter")
    + Hide(hideFilters, "operating_system", "osFilter")
    + Hide(hideFilters, "host_group", "hostGroupFilter")
  }

  /** `filters.reduce(filtersReducer, init)` with the reducer of the api module as a parameter. */
  function FoldFilters(reducer: (Record, ActiveFilters.Filter) -> Record, init: Record, filters: seq<ActiveFilters.Filter>): Record
    decreases |filters|
  {
    if filters == [] then init
    else reducer(FoldFilters(reducer, init, filters[..|filters| - 1]), filters[|filters| - 1])
  }

  /** `updatedFilters` */
  function UpdatedFilters(filters: Option<seq<ActiveFilters.Filter>>, hideFilters: Val,
                          reducer: (Record, ActiveFilters.Filter) -> Record): Record {
    match filters
    case None => Overlay(hideFilters, true)
    case Some(fs) =>
      var init := (if |fs| == 0 then map["registeredWithFilter" := Arr([])] else map[]) + Overlay(hideFilters, false);
      FoldFilters(reducer, init, fs)
  }

  /** One more `...(cond && { key: undefined })`: the key joins exactly when `cond` holds, as `undefined`. */
  lemma EntryStep(m: Record, cond: bool, key: string)
    requires forall k :: k in m ==> m[k] == Undefined
    ensures forall k :: k in m + Entry(cond, key) ==> (m + Entry(cond, key))[k] == Undefined
    ensures forall k :: k in m + Entry(cond, key) <==> k in m || (cond && k == key)
  {
  }

  /** Five entries in a row: their keys are those whose condition holds, each `undefined`. */
  lemma FiveEntries(pa: bool, pb: bool, pc: bool, pd: bool, pe: bool,
                    ka: string, kb: string, kc: string, kd: string, ke: string)
    ensures var r := Entry(pa, ka) + Entry(pb, kb) + Entry(pc, kc) + Entry(pd, kd) + Entry(pe, ke);
      && (forall k :: k in r ==> r[k] == Undefined)
      && (forall k :: k in r <==> (pa && k == ka) || (pb && k == kb) || (pc && k == kc) || (pd && k == kd) || (pe && k == ke))
  {
    var m0: Record := map[];
    EntryStep(m0, pa, ka);
    assert m0 + Entry(pa, ka) == Entry(pa, ka);
    var m1 := Entry(pa, ka);
    EntryStep(m1, pb, kb);
    var m2 := m1 + Entry(pb, kb);
    EntryStep(m2, pc, kc);
    var m3 := m2 + Entry(pc, kc);
    EntryStep(m3, pd, kd);
    var m4 := m3 + Entry(pd, kd);
    EntryStep(m4, pe, ke);
  }

  /** With five keys of different lengths, each key is present exactly when its condition holds. */
  lemma DistinctEntries(pa: bool, pb: bool, pc: bool, pd: bool, pe: bool,
                        ka: string, kb: string, kc: string, kd: string, ke: string)
    requires |ka| != |kb| && |ka| != |kc| && |ka| != |kd| && |ka| != |ke|
    requires |kb| != |kc| && |kb| != |kd| && |kb| != |ke| && |kc| != |kd| && |kc| != |ke| && |kd| != |ke|
    ensures var r := Entry(pa, ka) + Entry(pb, kb) + Entry(pc, kc) + Entry(pd, kd) + Entry(pe, ke);
      && (forall k :: k in r ==> r[k] == Undefined)
      && (ka in r <==> pa) && (kb in r <==> pb) && (kc in r <==> pc) && (kd in r <==> pd) && (ke in r <==> pe)
      && (forall k :: k in r ==> k == ka || k == kb || k == kc || k == kd || k == ke)
  {
    FiveEntries(pa, pb, pc, pd, pe, ka, kb, kc, kd, ke);
    assert ka != kb && ka != kc && ka != kd && ka != ke && kb != kc && kb != kd && kb != ke && kc != kd && kc != ke && kd != ke;
  }

  /** The overlay's keys are those of the hidden categories, each `undefined`. */
  lemma OverlayShape(hideFilters: Val, withLastSeen: bool)
    ensures var r := Overlay(hideFilters, withLastSeen);
      && (forall k :: k in r ==> r[k] == Undefined)
      && ("staleFilter" in r <==> IsFilterDisabled(hideFilters, "stale"))
      && ("lastSeenFilter" in r <==> withLastSeen && IsFilterDisabled(hideFilters, "last_seen"))
      && ("registeredWithFilter" in r <==> IsFilterDisabled(hideFilters, "registeredWith"))
      && ("osFilter" in r <==> IsFilterDisabled(hideFilters, "operating_system"))
      && ("hostGroupFilter" in r <==> IsFilterDisabled(hideFilters, "host_group"))
      && (forall k :: k in r ==> k in {"staleFilter", "lastSeenFilter", "registeredWithFilter", "osFilter", "hostGroupFilter"})
  {
    var pa, pc := IsFilterDisabled(hideFilters, "stale"), IsFilterDisabled(hideFilters, "registeredWith");
    var pd, pe := IsFilterDisabled(hideFilters, "operating_system"), IsFilterDisabled(hideFilters, "host_group");
    var pb := withLastSeen && IsFilterDisabled(hideFilters, "last_seen");
    assert (if withLastSeen then Hide(hideFilters, "last_seen", "lastSeenFilter") else map[]) == Entry(pb, "lastSeenFilter");
    DistinctEntries(pa, pb, pc, pd, pe, "staleFilter", "lastSeenFilter", "registeredWithFilter", "osFilter", "hostGroupFilter");
  }

  /**
   * Without filters the request filters are exactly the hidden ones, each
   * forced to `undefined`, and nothing else.
   */
  lemma NoFiltersOverlay(hideFilters: Val, reducer: (Record, ActiveFilters.Filter) -> Record)
    ensures var r := UpdatedFilters(None, hideFilters, reducer);
      && (forall k :: k in r ==> r[k] == Undefined)
      && ("staleFilter" in r <==> IsFilterDisabled(hideFilters, "stale"))
      && ("lastSeenFilter" in r <==> IsFilterDisabled(hideFilters, "last_seen"))
      && ("registeredWithFilter" in r <==> IsFilterDisabled(hideFilters, "registeredWith"))
      && ("osFilter" in r <==> IsFilterDisabled(hideFilters, "operating_system"))
      && ("hostGroupFilter" in r <==> IsFilterDisabled(hideFilters, "host_group"))
      && (forall k :: k in r ==> k in {"staleFilter", "lastSeenFilter", "registeredWithFilter", "osFilter", "hostGroupFilter"})
  {
    OverlayShape(hideFilters, true);
  }

  /**
   * An empty filter list starts the reduction from `registeredWithFilter: []`
   * unless that filter is hidden, in which case it starts `undefined`.
   */
  lemma EmptyFiltersStart(hideFilters: Val, reducer: (Record, ActiveFilters.Filter) -> Record)
    ensures var r := UpdatedFilters(Some([]), hideFilters, reducer);
      && "registeredWithFilter" in r
      && (!IsFilterDisabled(hideFilters, "registeredWith") ==> r["registeredWithFilter"] == Arr([]))
      && (IsFilterDisabled(hideFilters, "registeredWith") ==> r["registeredWithFilter"] == Undefined)
      && "lastSeenFilter" !in r
  {
    OverlayShape(hideFilters, false);
    var o := Overlay(hideFilters, false);
    var init: Record := map["registeredWithFilter" := Arr([])];
    assert UpdatedFilters(Some([]), hideFilters, reducer) == init + o;
  }

  // ---------------------------------------------------------------------------
  // Sort defaults
  // ---------------------------------------------------------------------------

  /** `config.orderBy || 'updated'` */
  function OrderBy(orderBy: Option<string>): (r: string)
    ensures r != ""
    ensures orderBy.Some? && orderBy.value != "" ==> r == orderBy.value
    ensures orderBy.None? || orderBy.value == "" ==> r == "updated"
  {
    if orderBy.Some? && orderBy.value != "" then orderBy.value else "updated"
  }

  /** `config.orderDirection?.toUpperCase() || 'DESC'` */
  function OrderDirection(orderDirection: Option<string>): (r: string)
    ensures r != ""
    ensures forall i :: 0 <= i < |r| ==> !('a' <= r[i] <= 'z')
    ensures orderDirection.None? || orderDirection.value == "" ==> r == "DESC"
  {
    if orderDirection.Some? && orderDirection.value != "" then ToUpper(orderDirection.value) else "DESC"
  }

  /** The `sortBy` the fulfilled payload reports: the order key and the lower-cased direction. */
  function ReportedSort(config: Config): SortBy {
    SortBy(OrderBy(config.orderBy), ToLower(OrderDirection(config.orderDirection)))
  }

  /** The reported direction is the caller's, lower-cased, or `desc`; its case never matters. */
  lemma ReportedDirection(config: Config)
    ensures config.orderDirection.Some? && config.orderDirection.value != "" ==>
              ReportedSort(config).direction == ToLower(config.orderDirection.value)
    ensures config.orderDirection.None? || config.orderDirection.value == "" ==>
              ReportedSort(config).direction == "desc"
  {
    if config.orderDirection.Some? && config.orderDirection.value != "" {
      LowerOfUpper(config.orderDirection.value);
    }
  }

  // ---------------------------------------------------------------------------
  // The request
  // ---------------------------------------------------------------------------

  /**
   * The second argument of `loadEntities` apart from the keys it passes
   * through to `getEntities` untouched.
   */
  datatype Config = Config(
    filters: Option<seq<ActiveFilters.Filter>>,
    hideFilters: Val,
    orderBy: Option<string>,
    orderDirection: Option<string>,
    page: Val,
    perPage: Val,
    controller: Option<Controller>)

  /** What `getEntities` is called with. */
  datatype Request = Request(ids: seq<Val>, filters: Record, orderBy: string, orderDirection: string, showTags: Val)

  /** The synchronous part of `loadEntities`: the request and the action's meta, `now` standing for `Date.now()`. */
  function LoadEntities(items: seq<Val>, config: Config, showTags: Val, now: int,
                        reducer: (Record, ActiveFilters.Filter) -> Record): (r: Result<(Request, LoadMeta), JsError>)
    ensures r.Err? <==> exists i :: 0 <= i < |items| && Nullish(items[i])
    ensures r.Ok? ==> r.value.1 == LoadMeta(showTags, Num(now), config.controller)
    ensures r.Ok? ==> r.value.0.ids == ItemIds(items).value
  {
    match ItemIds(items)
    case Err(e) => Err(e)
    case Ok(ids) =>
      Ok((Request(ids, UpdatedFilters(config.filters, config.hideFilters, reducer),
                  OrderBy(config.orderBy), OrderDirection(config.orderDirection), showTags),
          LoadMeta(showTags, Num(now), config.controller)))
  }

  // ---------------------------------------------------------------------------
  // The fulfilled response
  // ---------------------------------------------------------------------------

  /** The resolved value of `getEntities`: its results and the keys the store reads. */
  datatype ServerData = ServerData(results: seq<Record>, page: Val, perPage: Val, count: Val, total: Val, loaded: Val)

  /** `results.find(({id}) => id === item || id === item.id)` */
  function FindMatch(results: seq<Record>, item: Val): (r: Option<Record>)
    ensures r.Some? ==> r.value in results
    ensures r.Some? ==> StrictEq(Get(r.value, "id"), item) || StrictEq(Get(r.value, "id"), Prop(item, "id"))
    ensures r.None? ==> forall rec :: rec in results ==>
              !StrictEq(Get(rec, "id"), item) && !StrictEq(Get(rec, "id"), Prop(item, "id"))
  {
    if results == [] then None
    else if StrictEq(Get(results[0], "id"), item) || StrictEq(Get(results[0], "id"), Prop(item, "id")) then Some(results[0])
    else FindMatch(results[1..], item)
  }

  /** `item.id ? item : { id: item }` */
  function Base(item: Val): Record {
    if Truthy(Prop(item, "id")) then item.props else map["id" := item]
  }

  /** One merged record: the item, with the matching server record spread over it. */
  function MergeOne(results: seq<Record>, item: Val): Record {
    Base(item) + match FindMatch(results, item) case None => map[] case Some(rec) => rec
  }

  /** The `results` of the payload: one record per requested item, or the server's results when none was. */
  function MergeResults(items: seq<Val>, results: seq<Record>): (r: seq<Record>)
    ensures |items| > 0 ==> |r| == |items|
    ensures |items| == 0 ==> r == results
  {
    if |items| > 0 then seq(|items|, i requires 0 <= i < |items| => MergeOne(results, items[i]))
    else results
  }

  /** A parsed server record: an `id` it carries is never `undefined`. */
  predicate WellFormedRecord(rec: Record) {
    "id" in rec ==> rec["id"] != Undefined
  }

  /** The id a requested item stands for. */
  function RequestedId(item: Val): Val {
    if Truthy(Prop(item, "id")) then Prop(item, "id") else item
  }

  /**
   * Each merged record carries its item's id, has every field of the
   * matching server record, and keeps the item's own fields the server
   * record does not have.
   */
  lemma MergeOneFields(results: seq<Record>, item: Val)
    requires forall rec :: rec in results ==> WellFormedRecord(rec)
    requires item.Str? || Truthy(Prop(item, "id"))
    ensures Get(MergeOne(results, item), "id") == RequestedId(item)
    ensures FindMatch(results, item).Some? ==>
              forall k :: k in FindMatch(results, item).value ==> MergeOne(results, item)[k] == FindMatch(results, item).value[k]
    ensures forall k :: k in Base(item) && (FindMatch(results, item).None? || k !in FindMatch(results, item).value) ==>
              MergeOne(results, item)[k] == Base(item)[k]
  {
    var base := Base(item);
    assert Get(base, "id") == RequestedId(item);
    match FindMatch(results, item)
    case None =>
    case Some(rec) =>
      if "id" in rec {
        assert rec["id"] != Undefined;
      }
  }

  /** The positional merge: the i-th record answers the i-th item. */
  lemma MergeResultsPositional(items: seq<Val>, results: seq<Record>)
    requires |items| > 0
    requires forall rec :: rec in results ==> WellFormedRecord(rec)
    requires forall i :: 0 <= i < |items| ==> items[i].Str? || Truthy(Prop(items[i], "id"))
    ensures forall i :: 0 <= i < |items| ==> Get(MergeResults(items, results)[i], "id") == RequestedId(items[i])
  {
    forall i | 0 <= i < |items| ensures Get(MergeResults(items, results)[i], "id") == RequestedId(items[i]) {
      MergeOneFields(results, items[i]);
    }
  }

  /** The store payload the `.then` builds: config pagination over the server's, and the reported sort. */
  function FulfilledPayload(items: seq<Val>, config: Config, data: ServerData): (p: Payload)
    ensures p.results == Some(MergeResults(items, data.results))
    ensures p.filters == config.filters && p.sortBy == Some(ReportedSort(config))
    ensures Truthy(config.page) ==> p.page == config.page
    ensures !Truthy(config.page) ==> p.page == data.page
    ensures Truthy(config.perPage) ==> p.perPage == config.perPage
    ensures !Truthy(config.perPage) ==> p.perPage == data.perPage
  {
    Payload(Some(MergeResults(items, data.results)), Or(config.perPage, data.perPage), Or(config.page, data.page),
            data.count, data.total, data.loaded, config.filters, Some(ReportedSort(config)))
  }

  /**
   * A fulfilled load is dropped as malformed exactly when the server sent no
   * `loaded` and neither the config nor the server supplied one of the page
   * and the page size.
   */
  lemma FulfilledMalformed(items: seq<Val>, config: Config, data: ServerData)
    ensures Entities.Malformed(FulfilledPayload(items, config, data)) <==>
            data.loaded == Undefined &&
            ((!Truthy(config.page) && data.page == Undefined) || (!Truthy(config.perPage) && data.perPage == Undefined))
  {
  }

  /** `{ ...error, type: 'LOAD_ENTITIES' }` */
  function TagError(error: Record): (r: Record)
    ensures Get(r, "type") == Str("LOAD_ENTITIES")
    ensures forall k :: k in error && k != "type" ==> k in r && r[k] == error[k]
    ensures r.Keys == error.Keys + {"type"}
  {
    error["type" := Str("LOAD_ENTITIES")]
  }

  // ---------------------------------------------------------------------------
  // The small creators
  // ---------------------------------------------------------------------------

  /** `updateEntities(items)` */
  function UpdateEntities(items: seq<Record>): Action {
    Action.UpdateEntities(Payload(Some(items), Undefined, Undefined, Undefined, Undefined, Undefined, None, None))
  }

  /** `selectEntity(id, selected)` */
  function SelectEntity(id: Val, selected: Val): (a: Action)
    ensures a.SelectEntity? && a.rowSelection == RowSelection.SelectPayload(id, selected)
  {
    Action.SelectEntity(RowSelection.SelectPayload(id, selected))
  }

  /** `filterSelect(selectedItem)` */
  function FilterSelect(selectedItem: FilterSelection): (a: Action)
    ensures a.FilterSelect? && a.filterSelection == selectedItem
  {
    Action.FilterSelect(selectedItem)
  }

  /** `changeSort(data)` */
  function ChangeSort(data: SortBy): (a: Action)
    ensures a.ChangeSort? && a.key == data.key && a.direction == data.direction
  {
    Action.ChangeSort(data.key, data.direction)
  }

  /** `clearFilters()` */
  function ClearFilters(): (a: Action)
    ensures a.ClearFilters?
  {
    Action.ClearFilters
  }

  /** An `updateEntities(items)` action throws as written, and with the meta read as `meta?.` leaves the store as it was. */
  lemma UpdateEntitiesDropped(s: Entities.State, items: seq<Record>, f: Entities.Foreign)
    ensures Entities.Reduce(s, UpdateEntities(items), f).Err?
    ensures Entities.ReduceFixed(s, UpdateEntities(items), f) == Ok(s)
  {
    Entities.UpdateEntitiesIgnored(s, items, f);
  }

  /**
   * `selectEntity(id, selected)` through the reducer: it throws while no rows
   * are loaded and otherwise changes only the rows; a single id that a row has
   * sets the flag of the first such row alone, and a single id that no row has
   * sets the flag of every row.
   */
  lemma SelectEntityReduces(s: Entities.State, id: Val, selected: Val, f: Entities.Foreign)
    ensures s.rows.None? ==> Entities.Reduce(s, SelectEntity(id, selected), f).Err?
    ensures s.rows.Some? ==> Entities.Reduce(s, SelectEntity(id, selected), f).Ok?
    ensures s.rows.Some? ==> Entities.Reduce(s, SelectEntity(id, selected), f).value.(rows := s.rows) == s
    ensures s.rows.Some? && !id.Arr? && RowSelection.FindIndex(s.rows.value, id).Some? ==>
              var i := RowSelection.FindIndex(s.rows.value, id).value;
              Entities.Reduce(s, SelectEntity(id, selected), f).value.rows ==
                Some(s.rows.value[i := RowSelection.WithSelected(s.rows.value[i], selected)])
    ensures s.rows.Some? && !id.Arr? && RowSelection.FindIndex(s.rows.value, id).None? ==>
              var rows := Entities.Reduce(s, SelectEntity(id, selected), f).value.rows.value;
              |rows| == |s.rows.value| && forall k :: 0 <= k < |rows| ==> Get(rows[k], "selected") == selected
  {
    if s.rows.Some? && !id.Arr? {
      var t := RowSelection.Target(id, selected);
      assert RowSelection.ToSelect(RowSelection.SelectPayload(id, selected)) == [t];
      assert [t][..0] == [];
      assert RowSelection.ApplyTargets(s.rows.value, [t]) == RowSelection.ApplyTarget(s.rows.value, t);
      match RowSelection.FindIndex(s.rows.value, id)
      case Some(i) => RowSelection.SelectPresentId(s.rows.value, id, selected, i);
      case None => RowSelection.SelectMissingId(s.rows.value, id, selected);
    }
  }

  /**
   * `filterSelect(selectedItem)` through the reducer: it never throws and
   * changes only the active filters. A truthy `selected` leaves pairwise
   * distinct values in which every active value, the item's and its
   * sub-items' are present; a falsy one takes out at most one term for the
   * item and one for each sub-item, and adds none.
   */
  lemma FilterSelectReduces(s: Entities.State, sel: FilterSelection, f: Entities.Foreign)
    ensures Entities.Reduce(s, FilterSelect(sel), f).Ok?
    ensures var r := Entities.Reduce(s, FilterSelect(sel), f).value;
      var active := if s.activeFilters.Some? then s.activeFilters.value else [];
      && r.(activeFilters := s.activeFilters) == s
      && r.activeFilters.Some?
      && (Truthy(sel.selected) ==>
            && ActiveFilters.DistinctValues(r.activeFilters.value)
            && forall x :: x in active + [sel.item] + ActiveFilters.SubItems(sel.items) ==>
                 ActiveFilters.HasValue(r.activeFilters.value, x.value))
      && (!Truthy(sel.selected) ==>
            && multiset(r.activeFilters.value) <= multiset(active)
            && |r.activeFilters.value| + 1 + |ActiveFilters.SubItems(sel.items)| >= |active|)
  {
    var active := if s.activeFilters.Some? then s.activeFilters.value else [];
    ActiveFilters.AddFilterDeduplicates(active, sel.item, sel.items);
    ActiveFilters.RemoveFilterBound(active, sel.item, sel.items);
  }

  /** A `clearFilters()` then `changeSort(data)` leaves no active filter and the new sort, rows untouched. */
  lemma ClearThenSort(s: Entities.State, data: SortBy, f: Entities.Foreign)
    ensures Entities.Reduce(s, ClearFilters(), f).Ok?
    ensures var r := Entities.Reduce(Entities.Reduce(s, ClearFilters(), f).value, ChangeSort(data), f);
      r.Ok? && r.value.activeFilters == Some([]) && r.value.sortBy == data && r.value.rows == s.rows
  {
  }
}
