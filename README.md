# Inventory list state, in Dafny

This project models the client-side list state of the Insights inventory
frontend and the small rules around it, and proves properties of that model.

- **The entities store** (`Entities`, `RowSelection`, `ActiveFilters`, `ActionTypes`).
  - The reducers in `src/store/entities.js` move the inventory table's state: rows, loading flag, pagination, sort, active filters, request timestamp, error, and the tag-filter state.
  - A load that started earlier than the last recorded one is ignored (last request wins).
  - A malformed payload is ignored. An aborted request resets the store.
  - Selecting rows works in place on the copied row array, modelled as an `array` method proved against a function.
  - The remove branch of FILTER_SELECT splices the active-filter array in place, modelled as a class with a `seq` field.
- **Load-request shaping** (`InventoryActions`): the pure parts of `loadEntities` in `src/store/inventory-actions.js`.
  - the ids sent;
  - the rule that hides filters, and the overlay forcing hidden filters to `undefined`;
  - the sort defaults and the request meta;
  - the merge of the server's records into one record per requested item;
  - config-over-server pagination;
  - the error tag;
  - the small action creators.
- **The "Add systems" modal** (`AddSystemsModal`): the values derived from the selection, and the flow between the selection modal and the confirmation modal. The flow is a class whose methods flip the two modal flags and record what is dispatched.
- **The workspace delete modal** (`DeleteGroupModal`): the gate that allows a delete only when every fetched workspace has no host, the three-way render decision, and the titles and messages.
- **Column selection** (`Columns`): which default columns are enabled, and the precedence between a caller's columns, the store's and the defaults.
- **Row actions** (`TableActions`): when "Add to workspace" and "Remove from workspace" are disabled, and the order and permissions of the four row actions.

JavaScript values are the datatype `JsValues.Val`. JavaScript truthiness, `||`, `&&`, `===` (as `StrictEq`), optional property access, template-literal text and JSX text are written out. So are `NaN` and the conversions that `<` and `-` apply: text against text compares as text, and anything else is compared as numbers.

A JavaScript expression that throws becomes an `Err` result. This happens when:
- rows are selected before any are loaded;
- an item to load is `null`;
- a row without `groups` reaches the row actions;
- a load handler is reached without a meta.

The helpers whose code is not part of this model are parameters of the functions that call them:
- `mergeArraysByKey`;
- lodash `groupBy`;
- the api module's `filtersReducer`;
- `Date.now()`.

Where the documented behaviour of the store differs from its code, the code is followed:
- The malformed-payload guard ignores a payload without `loaded` when *either* `page` or `per_page` is missing, not only when both are.
- The abort reset is checked after the stale and malformed checks, not before them.

## Model

| member | source | states |
|---|---|---|
| RowSelection.ToSelect | src/store/entities.js:226-236 | an array id gives one target per id with the payload's `selected`; a single id gives one target |
| RowSelection.FindIndex | src/store/entities.js:239 | the index found holds the id and is the first that does; no index means no row has the id |
| RowSelection.SelectAll | src/store/entities.js:243 | every row gets the flag, the length is kept |
| RowSelection.FindRow | src/store/entities.js:239 | the array search stops at the first row with the id, or at the end exactly when no row has it, as `FindIndex` says |
| RowSelection.SelectAllInPlace | src/store/entities.js:243 | the in-place `forEach` leaves every row with the flag set, as `SelectAll` says |
| RowSelection.SelectInPlace | src/store/entities.js:225-245 | the in-place loop over the copied array leaves exactly `ApplyTargets` of the old rows |
| RowSelection.ApplyTargetsKeepsRows | src/store/entities.js:238-245 | selection keeps the number, the order and the ids of the rows, and every field but `selected` |
| RowSelection.SelectPresentId | src/store/entities.js:239-241 | an id that a row has sets the flag on the first such row only |
| RowSelection.SelectMissingId | src/store/entities.js:242-243 | an id that no row has sets the flag on every row |
| RowSelection.FindIndexAfterTargets | src/store/entities.js:238-245 | setting flags never changes which row an id finds |
| RowSelection.SelectManyPresent | src/store/entities.js:227-245 | with an array of known ids, every row one of them finds gets the flag and every other row keeps its own |
| ActiveFilters.Values | src/store/entities.js:274 | the values, position by position |
| ActiveFilters.IndexOf | src/store/entities.js:280 | `indexOf`: the first position with the value, or -1 when there is none |
| ActiveFilters.LastIndexOf | src/store/entities.js:276 | `lastIndexOf`: the last position with the value, or -1 when there is none |
| ActiveFilters.KeepLastFromSound | src/store/entities.js:275-277 | every kept term is the last term with its value |
| ActiveFilters.KeepLastFromDistinct | src/store/entities.js:275-277 | the kept terms have pairwise distinct values |
| ActiveFilters.KeepLastFromComplete | src/store/entities.js:275-277 | every value of the input survives the de-duplication |
| ActiveFilters.AddFilterDeduplicates | src/store/entities.js:272-277 | after an add the values are distinct; the item's value and every previous or sub-item value are present; each kept term is the last of its value in active + item + sub-items |
| ActiveFilters.AddFilterKeepsItem | src/store/entities.js:273-277 | without a sub-item of the same value, the item itself is kept |
| ActiveFilters.AddSameValueTwice | src/store/entities.js:273-277 | adding a term with an active value replaces the old term with the new one |
| ActiveFilters.Splice1 | src/store/entities.js:279-282 | `splice(start, 1)` under JavaScript's rules for a negative, too small or too large start |
| ActiveFilters.FilterArray.SpliceOne | src/store/entities.js:279-282 | the in-place splice leaves `Splice1` of the old array |
| ActiveFilters.FilterArray.Remove | src/store/entities.js:278-290 | the in-place remove branch (the item's splice, then one per sub-item) leaves `RemoveFilter` of the old array |
| ActiveFilters.RemovePresentValue | src/store/entities.js:279-282 | removing an active value takes out exactly its first term and keeps the rest in order |
| ActiveFilters.RemoveAbsentValue | src/store/entities.js:279-282 | removing a value that is not active takes out the last term (`indexOf` gives -1) |
| ActiveFilters.RemoveFilterBound | src/store/entities.js:278-290 | a remove takes out at most one term per splice and never adds one |
| ActiveFilters.SpliceShrinks | src/store/entities.js:279-282 | one splice removes at most one term and adds none |
| ActiveFilters.RemoveEachBound | src/store/entities.js:283-290 | the sub-item splices remove at most one term each and add none |
| Entities.PendingColumns | src/store/entities.js:147 | the default columns without `tags` unless tags are shown |
| Entities.EntitiesPending | src/store/entities.js:141-158 | rows become empty, `loaded` false, the request time is recorded, columns are merged only where the store has columns, nothing else changes |
| Entities.CreatedOnly | src/store/entities.js:206-208 | exactly the rows with a truthy `created` survive |
| Entities.EntitiesLoaded | src/store/entities.js:171-215 | a stale response changes nothing; then a malformed payload changes nothing; then an abort gives `defaultState`; otherwise the request time is kept |
| Entities.LoadSuccess | src/store/entities.js:201-214 | in a response that passes the guards, each counter and the sort take the payload's value or keep theirs; the filters are the payload's or none; `loaded` is `loaded === undefined \|\| loaded`; nothing else changes |
| Entities.LoadedRowsFilter | src/store/entities.js:206-208 | a truthy `loaded` keeps exactly the created merged rows; otherwise no merged row is dropped |
| Entities.LoadedRowsAreCreated | src/store/entities.js:206-208 | after a load with truthy `loaded`, every row is created |
| Entities.LastRequestWins | src/store/entities.js:188-190 | of two loads started in order, the older response changes nothing, whether it arrives before or after the newer one |
| Entities.StaleBeforeAbort | src/store/entities.js:188-199 | an aborted response that is stale or malformed changes nothing: the abort reset comes last |
| Entities.AbortForgetsTimestamp | src/store/entities.js:197-199 | the abort reset drops the request time, so a later well-formed response is applied whatever its time |
| Entities.LoadingRejected | src/store/entities.js:217-222 | `error` becomes the payload and nothing else changes |
| Entities.SelectEntity | src/store/entities.js:224-250 | throws exactly when the store has no rows; otherwise only the rows change and their number is kept |
| Entities.ClearSelection | src/components/InventoryGroups/Modals/AddSystemsToGroupModal.js:111 | `selectEntity(-1, false)` on rows without id -1 unsets every row's flag |
| Entities.ChangeSort | src/store/entities.js:252-260 | `sortBy` is replaced wholesale and nothing else changes |
| Entities.SelectFilter | src/store/entities.js:262-297 | only the active filters change; after an add they are distinct and contain the item's value; a remove never grows them |
| Entities.ClearFilters | src/store/entities.js:160-165 | the active filters become empty and nothing else changes |
| Entities.ClearEntities | src/store/entities.js:167-169 | the store is `defaultState`, whatever it held: no rows, not loaded, sorted by `updated` descending, nothing else set |
| Entities.ClearEntitiesResets | src/store/entities.js:167-169 | CLEAR_ENTITIES gives the same store from any store, forgets the request time, and the next well-formed, unaborted response is applied |
| Entities.EntitiesLoading | src/store/entities.js:408-411 | `loaded` becomes `!isLoading` and nothing else changes |
| Entities.ClearErrors | src/store/entities.js:414 | `error` becomes `null` and nothing else changes |
| Entities.AdditionalTagsCount | src/store/entities.js:375 | unless both operands are text: never negative, `total - perPage` of their numeric values when that is positive, else 0, and 0 when either is not a number (`null` counts as 0) |
| Entities.TagGroupsRoundTrip | src/store/entities.js:365-370 | the `{name, tags}` groups and the namespace entries determine each other, in order: nothing is lost or reordered |
| Entities.AllTagsPending | src/store/entities.js:384-389 | both tag flags false, the tag request time recorded, nothing else changes |
| Entities.AllTags | src/store/entities.js:351-380 | an older tag response changes nothing; otherwise the tag flags are set, the count is non-negative unless both operands are text, one group per namespace, and only the tag fields change |
| Entities.Reduce | src/store/entities.js:382-415 | the reducer table as written throws exactly on SELECT_ENTITY with no rows loaded and on every SHOW_ENTITIES and UPDATE_ENTITIES |
| Entities.ReduceFixed | src/store/entities.js:382-415 | with both handlers reading the meta as optional, the table throws only on SELECT_ENTITY with no rows, and handles every other action as written |
| Entities.ReduceTotalExceptSelect | src/store/entities.js:382-415 | with the corrected handlers, every action succeeds on a store with rows, and every action but SELECT_ENTITY on one without |
| Entities.AsWrittenAlwaysThrows | src/store/entities.js:396-403 | as written, SHOW_ENTITIES and UPDATE_ENTITIES throw on every action |
| Entities.ShowEntitiesApplies | src/store/entities.js:397-403 | the corrected table applies SHOW_ENTITIES whatever the stored request time: `loaded` false, all merged rows kept, the page taken or kept |
| Entities.UpdateEntitiesIgnored | src/store/entities.js:396 | corrected UPDATE_ENTITIES with the payload its creator builds leaves the store unchanged |
| InventoryActions.TruthyOnly | src/store/inventory-actions.js:42 | `filter(Boolean)` keeps exactly the truthy values |
| InventoryActions.ItemIds | src/store/inventory-actions.js:34-42 | throws exactly on a nullish item; otherwise the ids are exactly the truthy ids of the items |
| InventoryActions.TruthyOnlyAppend | src/store/inventory-actions.js:42 | the filter works element by element, so it keeps the order |
| InventoryActions.ItemIdsAppend | src/store/inventory-actions.js:34-42 | the ids of two runs of items are the first run's ids followed by the second's |
| InventoryActions.ItemIdsOne | src/store/inventory-actions.js:38 | one item gives its id when that is truthy, nothing otherwise |
| InventoryActions.ItemIdsOfStrings | src/store/inventory-actions.js:34-42 | non-empty string items are sent as they are, in order |
| InventoryActions.FilterDisabledRule | src/store/inventory-actions.js:44-46 | hidden iff hidden by name, or all are hidden and the name is not explicitly `false` |
| InventoryActions.FilterDisabledExamples | src/store/inventory-actions.js:44-46 | `{all: true, name: false}` keeps that filter, `{all: true}` hides it, no `hideFilters` hides none |
| InventoryActions.NoFiltersOverlay | src/store/inventory-actions.js:58-66 | without filters, a key is set to `undefined` exactly for each hidden category, and there is no other key |
| InventoryActions.EmptyFiltersStart | src/store/inventory-actions.js:49-57 | an empty filter list starts from `registeredWithFilter: []`, or `undefined` when that filter is hidden |
| InventoryActions.OrderBy | src/store/inventory-actions.js:68 | the caller's key when it is non-empty, `updated` when it is missing or empty |
| InventoryActions.OrderDirection | src/store/inventory-actions.js:69 | upper case, and `DESC` when none is given |
| InventoryActions.ReportedDirection | src/store/inventory-actions.js:89 | the reported direction is the caller's in lower case, or `desc` |
| InventoryActions.LoadEntities | src/store/inventory-actions.js:28-114 | throws exactly on a nullish item; the meta is `{showTags, lastDateRequest: now, controller}`; the request carries the item ids |
| InventoryActions.FindMatch | src/store/inventory-actions.js:94 | the record found is a server record whose id is the item or the item's id; no record found means none is |
| InventoryActions.MergeResults | src/store/inventory-actions.js:90-97 | one record per requested item; the server's results unchanged when no item was requested |
| InventoryActions.MergeOneFields | src/store/inventory-actions.js:92-96 | a merged record carries the item's id, every field of the matching server record, and the item's other fields |
| InventoryActions.MergeResultsPositional | src/store/inventory-actions.js:90-97 | the i-th merged record carries the i-th item's id |
| InventoryActions.FulfilledPayload | src/store/inventory-actions.js:86-102 | the merged results, the caller's filters and sort, and a truthy config page or page size over the server's |
| InventoryActions.FulfilledMalformed | src/store/inventory-actions.js:98-100 | the store drops a fulfilled load exactly when the server sent no `loaded` and neither the config nor the server gave the page or the page size |
| InventoryActions.TagError | src/store/inventory-actions.js:106 | the error's properties plus `type: 'LOAD_ENTITIES'` |
| InventoryActions.SelectEntityReduces | src/store/inventory-actions.js:136-139 | `selectEntity(id, selected)` through the reducer throws without rows; otherwise only the rows change; a single id that a row has sets the flag of the first such row alone; one no row has sets every row's flag |
| InventoryActions.FilterSelectReduces | src/store/inventory-actions.js:123-126 | `filterSelect(item)` through the reducer never throws and changes only the active filters; a truthy `selected` leaves distinct values including every active, item and sub-item value; a falsy one removes at most one term per value and adds none |
| InventoryActions.ChangeSort | src/store/inventory-actions.js:141-144 | a CHANGE_SORT action with the given key and direction |
| InventoryActions.ClearFilters | src/store/inventory-actions.js:156-158 | a CLEAR_FILTERS action |
| InventoryActions.UpdateEntitiesDropped | src/store/inventory-actions.js:116-121 | an `updateEntities` action throws in the table as written, and leaves the store unchanged in the corrected table |
| InventoryActions.ClearThenSort | src/store/inventory-actions.js:141-158 | clearing filters, then sorting: no active filter, the new sort, the rows untouched |
| AddSystemsModal.Difference | src/components/InventoryGroups/Modals/AddSystemsToGroupModal.js:57 | the ids of the page that are not selected |
| AddSystemsModal.PageSelected | src/components/InventoryGroups/Modals/AddSystemsToGroupModal.js:55-57 | true iff every displayed row id is a selected key |
| AddSystemsModal.EmptyPageSelected | src/components/InventoryGroups/Modals/AddSystemsToGroupModal.js:55-57 | an empty page counts as selected |
| AddSystemsModal.AlreadyHasGroup | src/components/InventoryGroups/Modals/AddSystemsToGroupModal.js:67-75 | exactly the selected entries whose first group's name is defined and not empty |
| AddSystemsModal.DevicesWithGroup | src/components/InventoryGroups/Modals/AddSystemsToGroupModal.js:138-140 | exactly the immutable devices with a non-empty `deviceGroups` |
| AddSystemsModal.OverallSelectedKeys | src/components/InventoryGroups/Modals/AddSystemsToGroupModal.js:129-134 | the conventional keys followed by the immutable device ids |
| AddSystemsModal.NoneSelectedRule | src/components/InventoryGroups/Modals/AddSystemsToGroupModal.js:134-136 | nothing is selected iff neither kind of system is |
| AddSystemsModal.ShowWarningRule | src/components/InventoryGroups/Modals/AddSystemsToGroupModal.js:138-143 | the warning shows iff some selected system of either kind already has a group |
| AddSystemsModal.NoWarningWhenNoneSelected | src/components/InventoryGroups/Modals/AddSystemsToGroupModal.js:136-143 | no warning for an empty selection |
| AddSystemsModal.OverallSelectedText | src/components/InventoryGroups/Modals/AddSystemsToGroupModal.js:156-161 | no text for 0, `1 system selected`, `N systems selected` |
| AddSystemsModal.SelectionText | src/components/InventoryGroups/Modals/AddSystemsToGroupModal.js:129-161 | the text counts the conventional systems and the immutable devices together: none iff neither is selected, `1 system selected`, else `N systems selected` |
| AddSystemsModal.SelectedTextShowsCount | src/components/InventoryGroups/Modals/AddSystemsToGroupModal.js:156-161 | the digits before the first space read back as the count |
| AddSystemsModal.InitialTabIsATab | src/components/InventoryGroups/Modals/AddSystemsToGroupModal.js:146-150 | the starting tab is a tab's key or the conventional tab's key; an `activeTab` that names no tab counts as none; with each tab's key its own name, starting again from the chosen tab keeps it |
| AddSystemsModal.AddToastsNameWorkspace | src/components/InventoryGroups/Modals/AddSystemsToGroupModal.js:80-96 | both toasts end with the workspace's name, or its id when the name is empty, and say "systems" exactly when more than one host was added |
| AddSystemsModal.CloseDispatches | src/components/InventoryGroups/Modals/AddSystemsToGroupModal.js:109-115 | `selectEntity(-1, false)` only when something is selected, then always `clearFilters()` |
| AddSystemsModal.AddSystemsFlow.constructor | src/components/InventoryGroups/Modals/AddSystemsToGroupModal.js:47-48 | the selection modal shown, the confirmation hidden, nothing sent |
| AddSystemsModal.AddSystemsFlow.Close | src/components/InventoryGroups/Modals/AddSystemsToGroupModal.js:109-115 | the close dispatches are sent and the modal closes; nothing else changes |
| AddSystemsModal.AddSystemsFlow.OnAdd | src/components/InventoryGroups/Modals/AddSystemsToGroupModal.js:233-242 | with the warning: switch to the confirmation modal; without: add the selected keys, reload the workspace, close |
| AddSystemsModal.AddSystemsFlow.PressAdd | src/components/InventoryGroups/Modals/AddSystemsToGroupModal.js:233-243 | a press on the disabled button changes nothing; an enabled press adds and closes |
| AddSystemsModal.AddSystemsFlow.Back | src/components/InventoryGroups/Modals/AddSystemsToGroupModal.js:189-192 | back from the confirmation modal to the selection modal |
| AddSystemsModal.AddSystemsFlow.Submit | src/components/InventoryGroups/Modals/AddSystemsToGroupModal.js:185-188 | add the selected keys and close, with no dispatch |
| AddSystemsModal.RunFromMount | src/components/InventoryGroups/Modals/AddSystemsToGroupModal.js:233-243 | from a fresh modal, no run of presses, closes and backs opens the confirmation modal, because the warning disables the button |
| DeleteGroupModal.FlattenAppend | src/components/InventoryGroups/Modals/DeleteGroupModal.js:84 | the fetched workspaces are the batches' results in batch order |
| DeleteGroupModal.FlattenMembers | src/components/InventoryGroups/Modals/DeleteGroupModal.js:84 | every workspace of every batch is fetched, and nothing else |
| DeleteGroupModal.GroupsAreEmpty | src/components/InventoryGroups/Modals/DeleteGroupModal.js:70-72 | true iff every fetched workspace has host count 0; true when nothing was fetched |
| DeleteGroupModal.MissingCountBlocks | src/components/GroupsTable/GroupsTable.cy.js:360-371 | one workspace whose host count is missing or not 0 blocks the delete |
| DeleteGroupModal.ContentShowsCount | src/components/InventoryGroups/Modals/DeleteGroupModal.js:24-60 | the title is plural exactly for several workspaces; the warning for several starts with a count that reads back as their number; the warning for one starts with its name |
| DeleteGroupModal.BlockedTitle | src/components/InventoryGroups/Modals/DeleteGroupModal.js:130-134 | plural for more than one fetched workspace |
| DeleteGroupModal.BlockedTitlePlural | src/components/GroupsTable/GroupsTable.cy.js:394-407 | the blocked title is plural iff more than one workspace was fetched |
| DeleteGroupModal.Render | src/components/InventoryGroups/Modals/DeleteGroupModal.js:118-173 | a spinner iff loading; the blocked modal iff loaded and some workspace has hosts; otherwise the confirm modal with the content of the fetched workspaces |
| DeleteGroupModal.DeleteOnlyWhenEmpty | src/components/InventoryGroups/Modals/DeleteGroupModal.js:127-172 | when the confirm modal shows, every fetched workspace has host count 0 |
| DeleteGroupModal.SuccessDescription | src/components/InventoryGroups/Modals/DeleteGroupModal.js:101-105 | the count for several workspace ids, the fetched name for one |
| DeleteGroupModal.ErrorToastCount | src/components/InventoryGroups/Modals/DeleteGroupModal.js:107-113 | for several ids the error toast names a count that reads back as their number; for one it ends with the fetched workspace's name |
| DeleteGroupModal.PluralToastCount | src/components/InventoryGroups/Modals/DeleteGroupModal.js:103-104 | the plural success toast starts with the count, which reads back as the number of ids |
| Columns.ColumnEnabledRule | src/components/InventoryTable/hooks/useColumns.js:7-11 | the tags column follows `showTags`; another column is enabled iff it is not in the disabled list |
| Columns.NonArrayDisablesAll | src/components/InventoryTable/hooks/useColumns.js:9-11 | a `disableColumns` that is not an array disables every column but tags |
| Columns.DisabledColumns | src/components/InventoryTable/hooks/useColumns.js:23-25 | the array given, or none |
| Columns.FilterEnabledMembers | src/components/InventoryTable/hooks/useColumns.js:31-33 | the filter keeps exactly the enabled columns |
| Columns.FilterEnabledSubsequence | src/components/InventoryTable/hooks/useColumns.js:31-33 | the filter keeps the columns' order |
| Columns.DefaultColumnsFiltered | src/components/InventoryTable/hooks/useColumns.js:27-35 | `disableDefaultColumns === true` gives none; otherwise exactly the enabled default columns, in table order |
| Columns.DefaultsMatchPendingColumns | src/store/entities.js:42-139 | with nothing disabled, the hook's defaults are the columns a pending load writes to the store |
| Columns.UseColumns | src/components/InventoryTable/hooks/useColumns.js:37-46 | a function prop gets the unfiltered defaults; a column prop is merged with the filtered defaults; else the store's columns; else the filtered defaults |
| Columns.FunctionPropUnfiltered | src/components/InventoryTable/hooks/useColumns.js:38-39 | a function prop's columns do not depend on what is disabled, on tags or on the store |
| Columns.AllDefaultsDisabled | src/components/InventoryTable/hooks/useColumns.js:29-30 | with every default disabled and no other source, the table has no column |
| TableActions.FirstGroupId | src/components/InventoryTabs/ConventionalSystems/useTableActions.js:45 | no id for a row without workspaces |
| TableActions.AddDisabled | src/components/InventoryTabs/ConventionalSystems/useTableActions.js:22-27 | throws without `groups`; with Kessel, disabled unless the first workspace is the ungrouped one; otherwise disabled iff the row has a workspace |
| TableActions.RemoveDisabled | src/components/InventoryTabs/ConventionalSystems/useTableActions.js:28-33 | throws without `groups`; with Kessel, the first workspace's `ungrouped`; otherwise disabled iff the row has no workspace |
| TableActions.WorkspaceActionsComplementary | src/components/InventoryTabs/ConventionalSystems/useTableActions.js:22-33 | exactly one of the two workspace actions is enabled |
| TableActions.OrNullNeverUndefined | src/components/InventoryTabs/ConventionalSystems/useTableActions.js:45 | `?? null` never gives `undefined`, gives `null` exactly for a nullish value, and applying it twice is applying it once |
| TableActions.RowActions | src/components/InventoryTabs/ConventionalSystems/useTableActions.js:34-114 | four actions, in the order Add, Remove, Edit, Delete |
| TableActions.ActionPermissions | src/components/InventoryTabs/ConventionalSystems/useTableActions.js:43-106 | Add needs the general write permission and ignores resource definitions; Remove needs nothing and is overridden to allowed without a workspace id, otherwise it needs that workspace's permissions; Edit is scoped to the workspace id or `null`; Delete to the id as it is |
| TableActions.UngroupedRowScopes | src/components/InventoryTabs/ConventionalSystems/useTableActions.js:43-64 | for a row in no workspace, Edit is scoped to `null` and Delete to `undefined` |
| JsValues.ParseNatToString | src/components/InventoryGroups/Modals/AddSystemsToGroupModal.js:160 | a count printed in decimal reads back as itself |
| JsValues.LowerOfUpper | src/store/inventory-actions.js:69 | lower-casing an upper-cased text is lower-casing it |
| JsValues.LessAsymmetric | src/store/entities.js:188 | `<` never holds both ways, so of two request times at most one is stale against the other; on numbers it is the integer order |
| JsValues.LessConversions | src/store/entities.js:375 | `<` counts `null` as 0 and `true` as 1, is false against `undefined` and `NaN`, compares a number with numeric text as numbers, and compares two texts as text |

## Left out

- `mergeArraysByKey`, lodash `groupBy` and the api module's `filtersReducer` are parameters. Their code is not part of this model, and nothing is assumed of them beyond what is stated about their callers.
- `getEntities`, `fetchBatchedInline`, `getGroupsByIds`, `deleteGroupsById`, `addHostsToGroupById` and `apiWithToast` are network calls, not modelled. For `addHostsToGroupById`, the flow records which host lists would be sent.
- The promise chain of `loadEntities` is not modelled. The `.then` body is `FulfilledPayload`, and the `.catch` body is `TagError`.
- `Date.now()` is a parameter.
- The async effect of the delete modal is not modelled. The model covers its result (the flattened batches), but not its `ignore` flag or the missing error handling, where loading would stay true.
- React and Redux plumbing is not modelled: `useSelector`, `useMemo` dependencies, stale `useCallback` closures (the row actions' `[]` dependencies capture the first `isKesselEnabled`), feature flags, the edge-parity label, tab clicks and all rendering markup. Only the texts the modals show are kept.
- Object identity and aliasing are not modelled. `selectEntity` writes `selected` on row objects shared with the previous state, and the remove branch of FILTER_SELECT splices the previous state's array. The model updates a copy.
- Numbers are integers or `NaN`: there is no fraction, no infinity and no overflow. A sort direction that is not a string, on which `toUpperCase` would throw, is not modelled.
- Text converted to a number is read as an optionally signed run of decimal digits, and the empty text as 0. Text with surrounding white space, a fraction, an exponent, a hexadecimal prefix or `Infinity` is taken as `NaN`, where JavaScript reads a number.
- Two texts are compared character by character on Dafny's characters, not on UTF-16 code units. The two orders differ only outside the Basic Multilingual Plane.
- Entities.AdditionalTagsCount: when `total` and `per_page` are both text, the result is stated only to be a number or `NaN`. The text comparison and the subtraction are modelled, but no bound is claimed.
- Entities.AllTags: the count is claimed non-negative only when `total` and `per_page` are not both text, for the same reason.
- ActiveFilters.IndexOf: `indexOf` compares with `===`, but the model compares filter values by Dafny value equality. A `NaN` value is never found by `indexOf`, so `splice(-1, 1)` removes the last term, and two distinct objects with the same content are two values in JavaScript. The model finds the `NaN` and merges the objects. `RemovePresentValue`, `RemoveFilterBound`, `Entities.SelectFilter` and `InventoryActions.FilterSelectReduces` are stated under this equality.
- ActiveFilters.LastIndexOf: `lastIndexOf` compares with `===`, so in JavaScript a term whose value is `NaN` is never its value's last term and is always dropped by the de-duplication, and objects are told apart by reference. The model keeps such a term once. `KeepLastFromSound`, `KeepLastFromDistinct`, `KeepLastFromComplete`, `AddFilterDeduplicates`, `AddFilterKeepsItem`, `AddSameValueTwice`, `Entities.SelectFilter` and `InventoryActions.FilterSelectReduces` are stated under this equality. They hold in JavaScript for filter values that are strings, numbers other than `NaN`, booleans, `null` or `undefined`.
- AddSystemsModal.Difference: lodash `difference` compares with SameValueZero, so objects and arrays are told apart by reference. The model compares ids by value, so an object id equal in content to a selected key counts as selected.
- RowSelection.FindIndex: row ids are compared by value. JavaScript's `===` compares objects and arrays by reference and never matches `NaN`, so such an id can match a row here that it would not match in JavaScript.
- InventoryActions.OrderDirection: `toUpperCase` is modelled for ASCII letters only. Other characters are left as they are, where JavaScript also maps other scripts and can lengthen the text (`ß` becomes `SS`).
- InventoryActions.ReportedDirection: `toLowerCase` is modelled for ASCII letters only, for the same reason.
- Filter terms carry their `value` and their other properties. When filters are supplied, the model does not claim that hidden filters stay `undefined`, because `filtersReducer` runs over them.
- `Object.entries` key order in the grouping of tags is not modelled, nor how a namespace is printed as a key. The grouping is a parameter that returns its entries.
- `hideFilters` and the other caller keys that are copied into the fulfilled payload and into the request (`...data`, `...config`) are not modelled. Neither are `groups` and `invConfig` of `defaultState`, which no modelled reducer reads.
- The tag-modal reducers (`showTags`, `showTagsPending`, `getActiveSystemTag`, `toggleTagModalReducer`) and the maintenance of the store's `selected` Map are not modelled. The modal reads `selected` as its entries.
- A `groups` value that is not an array is not modelled. Neither are JSX children other than strings and numbers, nor inherited properties of `hybridInventoryTabKeys`.
- InventoryActions.MergeOneFields: the id is stated only for an item that is a string or has a truthy `id`, and only for server records whose `id` is never `undefined`. Otherwise a server record could override the id.
- InventoryActions.MergeResultsPositional: the same restriction as `MergeOneFields`.
- TableActions.RowActions: the permission constants are symbolic. `ModifyGroup(id)` stands for the list `REQUIRED_PERMISSIONS_TO_MODIFY_GROUP(id)` returns, whose code is not part of this model.
- Entities.AllTags: the contents of each tag group are those of the grouping parameter.
- ActiveFilters.AddFilterDeduplicates: does not state that the kept terms keep the order of the concatenation, only which terms are kept.

## Findings

| source | as written | input that shows it | evidently intended | confidence | as-written member | corrected member |
|---|---|---|---|---|---|---|
| src/store/entities.js:397-403 | SHOW_ENTITIES calls `entitiesLoaded` with a payload and no meta, and its first line reads `meta.lastDateRequest`, which throws | any SHOW_ENTITIES action, e.g. one whose payload is `{results: []}` | read the meta as optional, as the abort check at line 197 already does with `meta?.`: never stale, never aborted, rows merged with `loaded` false; the corrected table `Entities.ReduceFixed` uses this handler | not executed; high | Entities.AsWrittenAlwaysThrows | Entities.ShowEntitiesApplies |
| src/store/entities.js:396 | UPDATE_ENTITIES is handled by `entitiesLoaded`, but `updateEntities` (src/store/inventory-actions.js:116-121) builds an action without meta, so reading `meta.lastDateRequest` throws | `updateEntities([])` | read the meta as optional; the corrected handler then drops the payload `{results}` as malformed and leaves the store unchanged, in `Entities.ReduceFixed` too | not executed; medium | Entities.AsWrittenAlwaysThrows | Entities.UpdateEntitiesIgnored |
