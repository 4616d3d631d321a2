/**
 * The actions the entities store reacts to, with the payload and meta shapes
 * its reducers read.
 */
module ActionTypes {
  import opened JsValues
  import RowSelection
  import ActiveFilters

  datatype SortBy = SortBy(key: string, direction: string)

  /** `meta.controller`: the request's AbortController, of which only `signal.aborted` is read. */
  datatype Controller = Controller(aborted: bool)

  /** The meta of a load request: `{showTags, lastDateRequest, controller}`. */
  datatype LoadMeta = LoadMeta(showTags: Val, lastDateRequest: Val, controller: Option<Controller>)

  /** The meta that `meta?.x` reads when an action carries none: every property `undefined`. */
  const NoMeta: LoadMeta := LoadMeta(Undefined, Undefined, None)

  /**
   * The payload of a fulfilled load: `{results, per_page, page, count, total,
   * loaded, filters, sortBy}`; an absent property is `Undefined` or `None`.
   */
  datatype Payload = Payload(
    results: Option<seq<Record>>,
    perPage: Val,
    page: Val,
    count: Val,
    total: Val,
    loaded: Val,
    filters: Option<seq<ActiveFilters.Filter>>,
    sortBy: Option<SortBy>)

  /** The FILTER_SELECT payload `{item: {items, ...item}, selected}`. */
  datatype FilterSelection = FilterSelection(
    item: ActiveFilters.Filter,
    items: Option<seq<ActiveFilters.Filter>>,
    selected: Val)

  /** One entry of the tags endpoint's results: `{tag: {namespace, key, value}, count}`. */
  datatype TagEntry = TagEntry(tag: Record, count: Val)

  /** The ALL_TAGS_FULFILLED payload `{results, total, page, per_page}`. */
  datatype TagsPayload = TagsPayload(results: seq<TagEntry>, total: Val, page: Val, perPage: Val)

  /** The action types handled by the entities reducer table, each with what its handler reads. */
  datatype Action =
    | AllTagsFulfilled(tags: TagsPayload, lastDateRequestTags: Val)
    | AllTagsPending(lastDateRequestTags: Val)
    | LoadEntitiesPending(meta: LoadMeta)
    | LoadEntitiesFulfilled(payload: Payload, meta: LoadMeta)
    | LoadEntitiesRejected(error: Val)
    | AllTagsRejected(error: Val)
    | UpdateEntities(payload: Payload)
    | ShowEntities(payload: Payload)
    | FilterSelect(filterSelection: FilterSelection)
    | SelectEntity(rowSelection: RowSelection.SelectPayload)
    | ChangeSort(key: string, direction: string)
    | ClearFilters
    | EntitiesLoading(isLoading: Val)
    | ClearEntities
    | ClearErrors
}
