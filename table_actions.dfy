/**
 * The per-row actions of the conventional systems table: the two workspace
 * actions, which are enabled according to the row's workspaces, and the two
 * host actions, with the permissions each one asks for.
 */
module TableActions {
  import opened JsValues

  /** A table row as the actions read it: its id and its `groups` array, which may be missing. */
  datatype Row = Row(id: Val, groups: Option<seq<Val>>)

  /** `row.groups[0]`, for a row that has a `groups` array. */
  function FirstGroup(groups: seq<Val>): Val {
    if |groups| > 0 then groups[0] else Undefined
  }

  /** `row?.groups?.[0]?.id` */
  function FirstGroupId(row: Row): (r: Val)
    ensures row.groups.None? || row.groups.value == [] ==> r == Undefined
  {
    match row.groups
    case None => Undefined
    case Some(gs) => Prop(FirstGroup(gs), "id")
  }

  /** The error of reading a missing `row.groups`: `row.groups[0]` with Kessel, `row.groups.length` without. */
  function GroupsMissing(kessel: Val): JsError {
    if Truthy(kessel) then TypeError("Cannot read properties of undefined (reading '0')")
    else TypeError("Cannot read properties of undefined (reading 'length')")
  }

  /** `isAddtoWorkspaceDisabled(row)`; reading `row.groups` of a row without it throws. */
  function AddDisabled(kessel: Val, row: Row): (r: Result<Val, JsError>)
    ensures r.Err? <==> row.groups.None?
    ensures r.Ok? && !Truthy(kessel) ==> r.value == Bool(|row.groups.value| > 0)
    ensures r.Ok? && Truthy(kessel) ==> r.value == Bool(!Truthy(Prop(FirstGroup(row.groups.value), "ungrouped")))
  {
    match row.groups
    case None => Err(GroupsMissing(kessel))
    case Some(gs) =>
      if Truthy(kessel) then Ok(Bool(!Truthy(Prop(FirstGroup(gs), "ungrouped"))))
      else Ok(Bool(|gs| > 0))
  }

  /** `isRemoveFromWorkspaceDisabled(row)` */
  function RemoveDisabled(kessel: Val, row: Row): (r: Result<Val, JsError>)
    ensures r.Err? <==> row.groups.None?
    ensures r.Ok? && !Truthy(kessel) ==> r.value == Bool(|row.groups.value| == 0)
    ensures r.Ok? && Truthy(kessel) ==> r.value == Prop(FirstGroup(row.groups.value), "ungrouped")
  {
    match row.groups
    case None => Err(GroupsMissing(kessel))
    case Some(gs) =>
      if Truthy(kessel) then Ok(Prop(FirstGroup(gs), "ungrouped"))
      else Ok(Bool(|gs| == 0))
  }

  /**
   * Exactly one of the two workspace actions is enabled: without Kessel by
   * whether the row has a workspace; with Kessel by whether its first
   * workspace is the ungrouped one.
   */
  lemma WorkspaceActionsComplementary(kessel: Val, row: Row)
    requires row.groups.Some?
    ensures Truthy(AddDisabled(kessel, row).value) <==> !Truthy(RemoveDisabled(kessel, row).value)
    ensures !Truthy(kessel) ==> (Truthy(AddDisabled(kessel, row).value) <==> |row.groups.value| > 0)
  {
  }

  /** The permissions an action asks for. */
  datatype Permission =
    | GeneralGroupsWrite
    | ModifyHostInGroup(groupId: Val)
    /** the list `REQUIRED_PERMISSIONS_TO_MODIFY_GROUP(groupId)` returns */
    | ModifyGroup(groupId: Val)

  datatype ActionKind = AddToWorkspace | RemoveFromWorkspace | Edit | Delete

  /** One dropdown item: what it does, what it requires, and its extra props (`undefined` when not given). */
  datatype TableAction = TableAction(
    kind: ActionKind,
    requiredPermissions: seq<Permission>,
    isAriaDisabled: Val,
    ignoreResourceDefinitions: bool,
    override: Val)

  /** `x ?? null` */
  function OrNull(v: Val): (r: Val)
    ensures v == Undefined || v == Null ==> r == Null
    ensures v != Undefined && v != Null ==> r == v
  {
    if v == Undefined || v == Null then Null else v
  }

  /** `?? null` never gives `undefined`, gives `null` exactly for a nullish value, and a second `?? null` changes nothing. */
  lemma OrNullNeverUndefined(v: Val)
    ensures OrNull(v) != Undefined
    ensures OrNull(v) == Null <==> v == Undefined || v == Null
    ensures OrNull(OrNull(v)) == OrNull(v)
  {
  }

  /** The actions for one row: the workspace actions, then the host actions. */
  function RowActions(kessel: Val, row: Row): (r: Result<seq<TableAction>, JsError>)
    ensures r.Err? <==> row.groups.None?
    ensures r.Ok? ==> |r.value| == 4
    ensures r.Ok? ==> r.value[0].kind == AddToWorkspace && r.value[1].kind == RemoveFromWorkspace
    ensures r.Ok? ==> r.value[2].kind == Edit && r.value[3].kind == Delete
  {
    match row.groups
    case None => Err(GroupsMissing(kessel))
    case Some(gs) =>
      var id := FirstGroupId(row);
      var groupActions := [
        TableAction(AddToWorkspace, [GeneralGroupsWrite], AddDisabled(kessel, row).value, true, Undefined),
        TableAction(RemoveFromWorkspace, if id != Undefined then [ModifyGroup(id)] else [],
                    RemoveDisabled(kessel, row).value, false, if id == Undefined then Bool(true) else Undefined)
      ];
      var hostActions := [
        TableAction(Edit, [ModifyHostInGroup(OrNull(id))], Undefined, false, Undefined),
        TableAction(Delete, [ModifyHostInGroup(id)], Undefined, false, Undefined)
      ];
      Ok(groupActions + hostActions)
  }

  /**
   * The permission wiring: adding needs only the general write permission
   * and ignores resource definitions; removing from no workspace needs
   * nothing and is overridden to allowed, otherwise it needs the workspace's
   * permissions; editing is scoped to the first workspace or to `null`, and
   * deleting to the first workspace id as it is.
   */
  lemma ActionPermissions(kessel: Val, row: Row)
    requires row.groups.Some?
    ensures var acts := RowActions(kessel, row).value;
      var id := FirstGroupId(row);
      && acts[0].requiredPermissions == [GeneralGroupsWrite] && acts[0].ignoreResourceDefinitions
      && acts[0].isAriaDisabled == AddDisabled(kessel, row).value
      && acts[1].isAriaDisabled == RemoveDisabled(kessel, row).value
      && (id == Undefined ==> acts[1].requiredPermissions == [] && acts[1].override == Bool(true))
      && (id != Undefined ==> acts[1].requiredPermissions == [ModifyGroup(id)] && acts[1].override == Undefined)
      && acts[2].requiredPermissions == [ModifyHostInGroup(if id == Undefined || id == Null then Null else id)]
      && acts[3].requiredPermissions == [ModifyHostInGroup(id)]
  {
  }

  /** A row in no workspace: Edit is scoped to `null` while Delete is scoped to `undefined`. */
  lemma UngroupedRowScopes(kessel: Val, rowId: Val)
    ensures var acts := RowActions(kessel, Row(rowId, Some([]))).value;
      acts[2].requiredPermissions == [ModifyHostInGroup(Null)] &&
      acts[3].requiredPermissions == [ModifyHostInGroup(Undefined)]
  {
  }
}
