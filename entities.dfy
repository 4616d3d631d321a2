/**
 * The entities store: the list state of the inventory table (rows, loading
 * flag, pagination, sort, active filters, the timestamp of the latest
 * request, the last error) and the tag-filter state beside it, with the
 * reducers that move it on each action.
 */
module Entities {
  import opened JsValues
  import opened ActionTypes
  import RowSelection
  import ActiveFilters

  /** A table column; the render function and the header markup are left out. */
  datatype Column = Column(key: string, sortKey: Option<string>, title: string)

  /** The five default inventory columns, in table order. */
  const DefaultColumns: seq<Column> := [
    Column("display_name", Some("display_name"), "Name"),
    Column("groups", Some("group_name"), "Workspace"),
    Column("tags", None, "Tags"),
    Column("system_profile", Some("operating_system"), "OS"),
    Column("updated", Some("updated"), "Last seen")
  ]

  /** The tags of one namespace, as the tag filter lists them. */
  datatype TagGroup = TagGroup(name: string, tags: seq<TagEntry>)

  datatype Pagination = Pagination(perPage: Val, page: Val)

  /** The store. A property the JavaScript object does not have is `Undefined` or `None`. */
  datatype State = State(
    rows: Option<seq<Record>>,
    loaded: Val,
    page: Val,
    perPage: Val,
    count: Val,
    total: Val,
    sortBy: SortBy,
    activeFilters: Option<seq<ActiveFilters.Filter>>,
    lastDateRequest: Val,
    error: Val,
    columns: Option<seq<Column>>,
    tagsLoaded: Val,
    allTagsLoaded: Val,
    tagModalLoaded: Val,
    lastDateRequestTags: Val,
    allTags: Option<seq<TagGroup>>,
    allTagsPagination: Option<Pagination>,
    additionalTagsCount: Val,
    allTagsTotal: Val)

  /** `defaultState`: not loaded, sorted by `updated` descending, and nothing else set. */
  const DefaultState: State := State(
    None, Bool(false), Undefined, Undefined, Undefined, Undefined,
    SortBy("updated", "desc"), None, Undefined, Undefined, None,
    Bool(false), Bool(false), Undefined, Undefined, None, None, Undefined, Undefined)

  /**
   * The library helpers the reducers call, whose code is not part of this
   * model: `mergeArraysByKey` over rows (by id) and over columns (by key),
   * and lodash `groupBy` of tag entries by namespace (as its entries).
   */
  datatype Foreign = Foreign(
    mergeRows: (Option<seq<Record>>, Option<seq<Record>>) -> seq<Record>,
    mergeColumns: (seq<Column>, seq<Column>) -> seq<Column>,
    groupByNamespace: seq<TagEntry> -> seq<(string, seq<TagEntry>)>)

  // ---------------------------------------------------------------------------
  // LOAD_ENTITIES lifecycle
  // ---------------------------------------------------------------------------

  /** The default columns without `tags` unless tags are shown. */
  function PendingColumns(showTags: Val): (r: seq<Column>)
    ensures |r| == if Truthy(showTags) then 5 else 4
    ensures forall c :: c in r <==> c in DefaultColumns && (c.key != "tags" || Truthy(showTags))
  {
    if Truthy(showTags) then DefaultColumns
    else [DefaultColumns[0], DefaultColumns[1], DefaultColumns[3], DefaultColumns[4]]
  }

  /** LOAD_ENTITIES_PENDING */
  function EntitiesPending(s: State, meta: LoadMeta, f: Foreign): (r: State)
    ensures r.rows == Some([]) && r.loaded == Bool(false)
    ensures r.lastDateRequest == meta.lastDateRequest
    ensures r.columns.Some? <==> s.columns.Some?
    ensures r.(rows := s.rows, loaded := s.loaded, lastDateRequest := s.lastDateRequest, columns := s.columns) == s
  {
    s.(columns := match s.columns
                  case None => None
                  case Some(cs) => Some(f.mergeColumns(PendingColumns(meta.showTags), cs)),
       rows := Some([]),
       loaded := Bool(false),
       lastDateRequest := meta.lastDateRequest)
  }

  /** `meta.lastDateRequest < state.lastDateRequest`: the response belongs to a superseded request. */
  predicate Stale(meta: LoadMeta, s: State) {
    Less(meta.lastDateRequest, s.lastDateRequest)
  }

  /** `loaded === undefined && (page === undefined || perPage === undefined)` */
  predicate Malformed(p: Payload) {
    p.loaded == Undefined && (p.page == Undefined || p.perPage == Undefined)
  }

  /** `meta?.controller?.signal?.aborted === true` */
  predicate Aborted(meta: LoadMeta) {
    meta.controller.Some? && meta.controller.value.aborted
  }

  /** `v !== undefined ? v : previous` */
  function Keep(v: Val, previous: Val): Val {
    if v != Undefined then v else previous
  }

  /** `rows.filter((item) => item.created)` */
  function CreatedOnly(rows: seq<Record>): (r: seq<Record>)
    ensures |r| <= |rows|
    ensures forall row :: row in r <==> row in rows && Truthy(Get(row, "created"))
  {
    if rows == [] then []
    else (if Truthy(Get(rows[0], "created")) then [rows[0]] else []) + CreatedOnly(rows[1..])
  }

  /** The rows after a load: merged by id, and only the created ones when the payload says loaded. */
  function LoadedRows(merged: seq<Record>, loaded: Val): seq<Record> {
    if Truthy(loaded) then CreatedOnly(merged) else merged
  }

  /** LOAD_ENTITIES_FULFILLED: stale check, then malformed-payload guard, then abort reset, then the update. */
  function EntitiesLoaded(s: State, p: Payload, meta: LoadMeta, f: Foreign): (r: State)
    ensures Stale(meta, s) ==> r == s
    ensures !Stale(meta, s) && Malformed(p) ==> r == s
    ensures !Stale(meta, s) && !Malformed(p) && Aborted(meta) ==> r == DefaultState
    ensures !Stale(meta, s) && !Malformed(p) && !Aborted(meta) ==> r.lastDateRequest == s.lastDateRequest
  {
    if Stale(meta, s) then s
    else if Malformed(p) then s
    else if Aborted(meta) then DefaultState
    else s.(
      activeFilters := Some(match p.filters case None => [] case Some(fs) => fs),
      loaded := if p.loaded == Undefined then Bool(true) else p.loaded,
      rows := Some(LoadedRows(f.mergeRows(s.rows, p.results), p.loaded)),
      perPage := Keep(p.perPage, s.perPage),
      page := Keep(p.page, s.page),
      count := Keep(p.count, s.count),
      total := Keep(p.total, s.total),
      sortBy := match p.sortBy case None => s.sortBy case Some(sb) => sb)
  }

  /** The handler as written, for an action that may carry no meta: `meta.lastDateRequest` throws. */
  function EntitiesLoadedAsWritten(s: State, p: Payload, meta: Option<LoadMeta>, f: Foreign): Result<State, JsError> {
    match meta
    case None => Err(TypeError("Cannot read properties of undefined (reading 'lastDateRequest')"))
    case Some(m) => Ok(EntitiesLoaded(s, p, m, f))
  }

  /** SHOW_ENTITIES as written: the handler is called with `{payload}` only. */
  function ShowEntitiesAsWritten(s: State, p: Payload, f: Foreign): Result<State, JsError> {
    EntitiesLoadedAsWritten(s, p.(loaded := Bool(false)), None, f)
  }

  /** UPDATE_ENTITIES as written: the action has no meta. */
  function UpdateEntitiesAsWritten(s: State, p: Payload, f: Foreign): Result<State, JsError> {
    EntitiesLoadedAsWritten(s, p, None, f)
  }

  /** SHOW_ENTITIES with the meta read as `meta?.`: never stale, never aborted, `loaded` forced to false. */
  function ShowEntities(s: State, p: Payload, f: Foreign): State {
    EntitiesLoaded(s, p.(loaded := Bool(false)), NoMeta, f)
  }

  /** UPDATE_ENTITIES with the meta read as `meta?.`. */
  function UpdateEntitiesFixed(s: State, p: Payload, f: Foreign): State {
    EntitiesLoaded(s, p, NoMeta, f)
  }

  /** LOAD_ENTITIES_REJECTED and ALL_TAGS_REJECTED */
  function LoadingRejected(s: State, payload: Val): (r: State)
    ensures r.error == payload && r.(error := s.error) == s
  {
    s.(error := payload)
  }

  // ---------------------------------------------------------------------------
  // Selection, sort, filters
  // ---------------------------------------------------------------------------

  /** SELECT_ENTITY: `[...state.rows]` throws while the store has no rows. */
  function SelectEntity(s: State, p: RowSelection.SelectPayload): (r: Result<State, JsError>)
    ensures r.Err? <==> s.rows.None?
    ensures r.Ok? ==> r.value.(rows := s.rows) == s
    ensures r.Ok? ==> r.value.rows.Some? && |r.value.rows.value| == |s.rows.value|
  {
    match s.rows
    case None => Err(TypeError("state.rows is not iterable"))
    case Some(rows) =>
      RowSelection.ApplyTargetsKeepsRows(rows, RowSelection.ToSelect(p));
      Ok(s.(rows := Some(RowSelection.ApplyTargets(rows, RowSelection.ToSelect(p)))))
  }

  /** CHANGE_SORT */
  function ChangeSort(s: State, key: string, direction: string): (r: State)
    ensures r.sortBy == SortBy(key, direction) && r.(sortBy := s.sortBy) == s
  {
    s.(sortBy := SortBy(key, direction))
  }

  /** FILTER_SELECT */
  function SelectFilter(s: State, sel: FilterSelection): (r: State)
    ensures r.(activeFilters := s.activeFilters) == s
    ensures r.activeFilters.Some?
    ensures Truthy(sel.selected) ==> ActiveFilters.DistinctValues(r.activeFilters.value)
    ensures Truthy(sel.selected) ==> ActiveFilters.HasValue(r.activeFilters.value, sel.item.value)
    ensures !Truthy(sel.selected) && s.activeFilters.Some? ==> |r.activeFilters.value| <= |s.activeFilters.value|
  {
    var active := match s.activeFilters case None => [] case Some(fs) => fs;
    ActiveFilters.AddFilterDeduplicates(active, sel.item, sel.items);
    ActiveFilters.RemoveFilterBound(active, sel.item, sel.items);
    s.(activeFilters := Some(
      if Truthy(sel.selected) then ActiveFilters.AddFilter(active, sel.item, sel.items)
      else ActiveFilters.RemoveFilter(active, sel.item, sel.items)))
  }

  /** CLEAR_FILTERS */
  function ClearFilters(s: State): (r: State)
    ensures r.activeFilters == Some([]) && r.(activeFilters := s.activeFilters) == s
  {
    s.(activeFilters := Some([]))
  }

  /** CLEAR_ENTITIES: back to `defaultState`, whatever the store held. */
  function ClearEntities(s: State): (r: State)
    ensures r == DefaultState
    ensures r.rows.None? && r.loaded == Bool(false) && r.sortBy == SortBy("updated", "desc")
    ensures r.activeFilters.None? && r.lastDateRequest == Undefined && r.error == Undefined
  {
    DefaultState
  }

  /** ENTITIES_LOADING */
  function EntitiesLoading(s: State, isLoading: Val): (r: State)
    ensures r.loaded.Bool? && (r.loaded.b <==> !Truthy(isLoading))
    ensures r.(loaded := s.loaded) == s
  {
    s.(loaded := Bool(!Truthy(isLoading)))
  }

  /** CLEAR_ERRORS */
  function ClearErrors(s: State): (r: State)
    ensures r.error == Null && r.(error := s.error) == s
  {
    s.(error := Null)
  }

  // ---------------------------------------------------------------------------
  // ALL_TAGS lifecycle
  // ---------------------------------------------------------------------------

  /**
   * `total > perPage ? total - perPage : 0`. Unless both operands are text,
   * the count is never negative: a missing or non-numeric operand gives 0, and
   * `null` counts as 0.
   */
  function AdditionalTagsCount(total: Val, perPage: Val): (r: Val)
    ensures r.Num? || r.NaN?
    ensures !BothStrings(total, perPage) ==> r.Num? && r.n >= 0
    ensures !BothStrings(total, perPage) && ToNumber(total).Some? && ToNumber(perPage).Some? ==>
              var t, pp := ToNumber(total).value, ToNumber(perPage).value; r.n == if t > pp then t - pp else 0
    ensures !BothStrings(total, perPage) && (ToNumber(total).None? || ToNumber(perPage).None?) ==> r == Num(0)
    ensures total.Num? && perPage.Num? ==> r == Num(if total.n > perPage.n then total.n - perPage.n else 0)
  {
    if Less(perPage, total) then Minus(total, perPage) else Num(0)
  }

  /** The entries of the grouping, as `{name, tags}` records. */
  function TagGroups(entries: seq<(string, seq<TagEntry>)>): (r: seq<TagGroup>)
    ensures |r| == |entries|
    ensures forall i :: 0 <= i < |r| ==> r[i] == TagGroup(entries[i].0, entries[i].1)
  {
    seq(|entries|, i requires 0 <= i < |entries| => TagGroup(entries[i].0, entries[i].1))
  }

  /** The `[name, tags]` entries a list of tag groups came from. */
  function GroupEntries(groups: seq<TagGroup>): (r: seq<(string, seq<TagEntry>)>)
    ensures |r| == |groups|
  {
    seq(|groups|, i requires 0 <= i < |groups| => (groups[i].name, groups[i].tags))
  }

  /** Building the groups loses nothing: the entries and the groups determine each other, in order. */
  lemma TagGroupsRoundTrip(entries: seq<(string, seq<TagEntry>)>, groups: seq<TagGroup>)
    ensures GroupEntries(TagGroups(entries)) == entries
    ensures TagGroups(GroupEntries(groups)) == groups
  {
  }

  /** ALL_TAGS_PENDING */
  function AllTagsPending(s: State, lastDateRequestTags: Val): (r: State)
    ensures r.allTagsLoaded == Bool(false) && r.tagModalLoaded == Bool(false)
    ensures r.lastDateRequestTags == lastDateRequestTags
    ensures r.(allTagsLoaded := s.allTagsLoaded, tagModalLoaded := s.tagModalLoaded,
               lastDateRequestTags := s.lastDateRequestTags) == s
  {
    s.(allTagsLoaded := Bool(false), tagModalLoaded := Bool(false), lastDateRequestTags := lastDateRequestTags)
  }

  /** ALL_TAGS_FULFILLED: dropped when an older request answers; otherwise the grouped tags and their pagination. */
  function AllTags(s: State, p: TagsPayload, lastDateRequestTags: Val, f: Foreign): (r: State)
    ensures Less(lastDateRequestTags, s.lastDateRequestTags) ==> r == s
    ensures !Less(lastDateRequestTags, s.lastDateRequestTags) ==>
              r.allTagsLoaded == Bool(true) && r.tagModalLoaded == Bool(true) && r.allTagsTotal == p.total &&
              (!BothStrings(p.total, p.perPage) ==> r.additionalTagsCount.Num? && r.additionalTagsCount.n >= 0) &&
              r.allTags.Some? && |r.allTags.value| == |f.groupByNamespace(p.results)| &&
              r.(allTags := s.allTags, allTagsPagination := s.allTagsPagination,
                 additionalTagsCount := s.additionalTagsCount, allTagsTotal := s.allTagsTotal,
                 allTagsLoaded := s.allTagsLoaded, tagModalLoaded := s.tagModalLoaded) == s
  {
    if Less(lastDateRequestTags, s.lastDateRequestTags) then s
    else s.(
      allTags := Some(TagGroups(f.groupByNamespace(p.results))),
      allTagsPagination := Some(Pagination(p.perPage, p.page)),
      additionalTagsCount := AdditionalTagsCount(p.total, p.perPage),
      allTagsTotal := p.total,
      allTagsLoaded := Bool(true),
      tagModalLoaded := Bool(true))
  }

  // ---------------------------------------------------------------------------
  // The reducer table
  // ---------------------------------------------------------------------------

  /**
   * The default export: one handler per action type. It throws where
   * `[...state.rows]` meets a store without rows, and on every SHOW_ENTITIES
   * and UPDATE_ENTITIES, whose handlers read a meta those actions lack.
   */
  function Reduce(s: State, a: Action, f: Foreign): (r: Result<State, JsError>)
    ensures r.Err? <==> (a.SelectEntity? && s.rows.None?) || a.ShowEntities? || a.UpdateEntities?
  {
    match a
    case AllTagsFulfilled(p, ts) => Ok(AllTags(s, p, ts, f))
    case AllTagsPending(ts) => Ok(AllTagsPending(s, ts))
    case LoadEntitiesPending(meta) => Ok(EntitiesPending(s, meta, f))
    case LoadEntitiesFulfilled(p, meta) => Ok(EntitiesLoaded(s, p, meta, f))
    case LoadEntitiesRejected(e) => Ok(LoadingRejected(s, e))
    case AllTagsRejected(e) => Ok(LoadingRejected(s, e))
    case UpdateEntities(p) => UpdateEntitiesAsWritten(s, p, f)
    case ShowEntities(p) => ShowEntitiesAsWritten(s, p, f)
    case FilterSelect(sel) => Ok(SelectFilter(s, sel))
    case SelectEntity(p) => SelectEntity(s, p)
    case ChangeSort(key, direction) => Ok(ChangeSort(s, key, direction))
    case ClearFilters => Ok(ClearFilters(s))
    case EntitiesLoading(isLoading) => Ok(EntitiesLoading(s, isLoading))
    case ClearEntities => Ok(ClearEntities(s))
    case ClearErrors => Ok(ClearErrors(s))
  }

  /**
   * The reducer table with SHOW_ENTITIES and UPDATE_ENTITIES reading the meta
   * as `meta?.`: it throws only where `[...state.rows]` meets a store without
   * rows, and every other action is handled as before.
   */
  function ReduceFixed(s: State, a: Action, f: Foreign): (r: Result<State, JsError>)
    ensures r.Err? <==> a.SelectEntity? && s.rows.None?
    ensures !a.ShowEntities? && !a.UpdateEntities? ==> r == Reduce(s, a, f)
  {
    match a
    case ShowEntities(p) => Ok(ShowEntities(s, p, f))
    case UpdateEntities(p) => Ok(UpdateEntitiesFixed(s, p, f))
    case _ => Reduce(s, a, f)
  }

  // ---------------------------------------------------------------------------
  // What the reducers promise
  // ---------------------------------------------------------------------------

  /** `v !== undefined ? v : previous` as a relation: the payload's value if defined, else the old one. */
  predicate TakesOrKeeps(v: Val, previous: Val, now: Val) {
    (v != Undefined ==> now == v) && (v == Undefined ==> now == previous)
  }

  /**
   * A response that passes the three guards: the counters and the sort take
   * the payload's value when present and keep theirs otherwise, the active
   * filters become the payload's (or none), `loaded` is true unless the
   * payload says otherwise, the rows are the merged rows, only the created
   * ones when the payload says loaded, and nothing else changes.
   */
  lemma LoadSuccess(s: State, p: Payload, meta: LoadMeta, f: Foreign)
    requires !Stale(meta, s) && !Malformed(p) && !Aborted(meta)
    ensures var r := EntitiesLoaded(s, p, meta, f);
      && TakesOrKeeps(p.perPage, s.perPage, r.perPage)
      && TakesOrKeeps(p.page, s.page, r.page)
      && TakesOrKeeps(p.count, s.count, r.count)
      && TakesOrKeeps(p.total, s.total, r.total)
      && (p.sortBy.Some? ==> r.sortBy == p.sortBy.value)
      && (p.sortBy.None? ==> r.sortBy == s.sortBy)
      && r.activeFilters == Some(if p.filters.Some? then p.filters.value else [])
      && (Truthy(r.loaded) <==> p.loaded == Undefined || Truthy(p.loaded))
      && r.rows.Some?
      && r.(rows := s.rows, loaded := s.loaded, perPage := s.perPage, page := s.page, count := s.count,
            total := s.total, sortBy := s.sortBy, activeFilters := s.activeFilters) == s
  {
  }

  /** When the payload says loaded, exactly the merged rows that are created survive; otherwise none is dropped. */
  lemma {:induction false} LoadedRowsFilter(merged: seq<Record>, loaded: Val)
    ensures Truthy(loaded) ==> forall row :: row in LoadedRows(merged, loaded) <==> row in merged && Truthy(Get(row, "created"))
    ensures !Truthy(loaded) ==> LoadedRows(merged, loaded) == merged
    ensures |LoadedRows(merged, loaded)| <= |merged|
  {
  }

  /** The `created` rule for a whole load: after a truthy `loaded` every row is created. */
  lemma LoadedRowsAreCreated(s: State, p: Payload, meta: LoadMeta, f: Foreign)
    requires !Stale(meta, s) && !Malformed(p) && !Aborted(meta) && Truthy(p.loaded)
    ensures forall row :: row in EntitiesLoaded(s, p, meta, f).rows.value ==> Truthy(Get(row, "created"))
  {
    LoadedRowsFilter(f.mergeRows(s.rows, p.results), p.loaded);
  }

  /**
   * Last request wins. Two loads start at `t1 < t2`; whichever order their
   * responses arrive in, the response to the older one leaves the store as it
   * was, and the newer one's timestamp stays recorded.
   */
  lemma LastRequestWins(s: State, m1: LoadMeta, m2: LoadMeta, p1: Payload, p2: Payload, f: Foreign)
    requires Less(m1.lastDateRequest, m2.lastDateRequest)
    requires !Malformed(p2) && !Aborted(m2)
    ensures var s2 := EntitiesPending(EntitiesPending(s, m1, f), m2, f);
      && EntitiesLoaded(s2, p1, m1, f) == s2
      && var s3 := EntitiesLoaded(s2, p2, m2, f);
      && s3.lastDateRequest == m2.lastDateRequest
      && EntitiesLoaded(s3, p1, m1, f) == s3
  {
  }

  /**
   * An abort check fires only on a response that passed the stale and
   * malformed checks: an aborted, superseded response changes nothing.
   */
  lemma StaleBeforeAbort(s: State, p: Payload, meta: LoadMeta, f: Foreign)
    requires Aborted(meta) && (Stale(meta, s) || Malformed(p))
    ensures EntitiesLoaded(s, p, meta, f) == s
  {
  }

  /**
   * The abort reset forgets the request timestamp, so any later response that
   * is well formed and not aborted is applied, however old its request.
   */
  lemma AbortForgetsTimestamp(s: State, pa: Payload, ma: LoadMeta, p: Payload, meta: LoadMeta, f: Foreign)
    requires !Stale(ma, s) && !Malformed(pa) && Aborted(ma)
    requires !Malformed(p) && !Aborted(meta)
    ensures var r := EntitiesLoaded(s, pa, ma, f);
      r == DefaultState && !Stale(meta, r) && EntitiesLoaded(r, p, meta, f).rows.Some?
  {
  }

  /** The corrected table handles every action on a store with rows, and every action but SELECT_ENTITY on one without. */
  lemma ReduceTotalExceptSelect(s: State, a: Action, f: Foreign)
    requires s.rows.Some? || !a.SelectEntity?
    ensures ReduceFixed(s, a, f).Ok?
  {
  }

  /**
   * CLEAR_ENTITIES forgets everything, the request timestamp included: the
   * store is the same whatever it held, and the next well-formed, unaborted
   * response is applied, however old its request.
   */
  lemma ClearEntitiesResets(s1: State, s2: State, p: Payload, meta: LoadMeta, f: Foreign)
    requires !Malformed(p) && !Aborted(meta)
    ensures Reduce(s1, Action.ClearEntities, f) == Reduce(s2, Action.ClearEntities, f) == Ok(DefaultState)
    ensures !Stale(meta, DefaultState)
    ensures EntitiesLoaded(DefaultState, p, meta, f).rows.Some?
    ensures Truthy(EntitiesLoaded(DefaultState, p, meta, f).loaded) <==> p.loaded == Undefined || Truthy(p.loaded)
  {
  }

  /** `selectEntity(-1, false)` on loaded rows none of which has id -1 clears every flag. */
  lemma {:induction false} ClearSelection(s: State)
    requires s.rows.Some?
    requires forall k :: 0 <= k < |s.rows.value| ==> RowSelection.RowId(s.rows.value[k]) != Num(-1)
    ensures SelectEntity(s, RowSelection.SelectPayload(Num(-1), Bool(false))).Ok?
    ensures var rows := SelectEntity(s, RowSelection.SelectPayload(Num(-1), Bool(false))).value.rows.value;
      |rows| == |s.rows.value| && forall k :: 0 <= k < |rows| ==> Get(rows[k], "selected") == Bool(false)
  {
    var t := RowSelection.Target(Num(-1), Bool(false));
    assert RowSelection.ToSelect(RowSelection.SelectPayload(Num(-1), Bool(false))) == [t];
    assert [t][..0] == [];
    assert RowSelection.ApplyTargets(s.rows.value, [t]) == RowSelection.ApplyTarget(s.rows.value, t);
    RowSelection.SelectMissingId(s.rows.value, Num(-1), Bool(false));
  }

  // ---------------------------------------------------------------------------
  // SHOW_ENTITIES and UPDATE_ENTITIES
  // ---------------------------------------------------------------------------

  /** As written, both handlers throw on every action: neither action carries a meta. */
  lemma AsWrittenAlwaysThrows(s: State, p: Payload, f: Foreign)
    ensures ShowEntitiesAsWritten(s, p, f).Err?
    ensures UpdateEntitiesAsWritten(s, p, f).Err?
  {
  }

  /** Corrected SHOW_ENTITIES: applied whatever the stored timestamp, `loaded` false and no merged row dropped. */
  lemma ShowEntitiesApplies(s: State, p: Payload, f: Foreign)
    ensures ReduceFixed(s, Action.ShowEntities(p), f) == Ok(ShowEntities(s, p, f))
    ensures ShowEntities(s, p, f).loaded == Bool(false)
    ensures ShowEntities(s, p, f).rows == Some(f.mergeRows(s.rows, p.results))
    ensures TakesOrKeeps(p.page, s.page, ShowEntities(s, p, f).page)
  {
    LoadedRowsFilter(f.mergeRows(s.rows, p.results), Bool(false));
  }

  /**
   * Corrected UPDATE_ENTITIES: the action its own creator builds carries only
   * results, so the malformed-payload guard drops it and the store is unchanged.
   */
  lemma UpdateEntitiesIgnored(s: State, results: seq<Record>, f: Foreign)
    ensures UpdateEntitiesFixed(s, Payload(Some(results), Undefined, Undefined, Undefined, Undefined, Undefined, None, None), f) == s
  {
  }
}
