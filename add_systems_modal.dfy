/**
 * The "Add systems" modal of a workspace: the values it derives from the
 * store's selection and the immutable devices picked in its second tab, and
 * the flow between the selection modal and the confirmation modal.
 */
module AddSystemsModal {
  import opened JsValues
  import opened ActionTypes
  import RowSelection
  import InventoryActions

  /** The store's `selected` Map, as its entries in insertion order, and the immutable devices picked. */
  datatype Selection = Selection(entries: seq<(Val, Val)>, immutableDevices: seq<Record>)

  // ---------------------------------------------------------------------------
  // Values derived from the selection
  // ---------------------------------------------------------------------------

  /** lodash `difference(xs, ys)`: the elements of `xs` not in `ys`, in order. */
  function Difference(xs: seq<Val>, ys: seq<Val>): (r: seq<Val>)
    ensures forall v :: v in r <==> v in xs && v !in ys
  {
    if xs == [] then []
    else (if xs[0] in ys then [] else [xs[0]]) + Difference(xs[1..], ys)
  }

  /** `[...selected.keys()]` */
  function Keys(entries: seq<(Val, Val)>): (ks: seq<Val>)
    ensures |ks| == |entries|
    ensures forall i :: 0 <= i < |entries| ==> ks[i] == entries[i].0
  {
    seq(|entries|, i requires 0 <= i < |entries| => entries[i].0)
  }

  /** The ids of the displayed rows, `map(rows, 'id')`. */
  function DisplayedIds(rows: seq<Record>): (ids: seq<Val>)
    ensures |ids| == |rows|
    ensures forall i :: 0 <= i < |rows| ==> ids[i] == Get(rows[i], "id")
  {
    seq(|rows|, i requires 0 <= i < |rows| => Get(rows[i], "id"))
  }

  /** `pageSelected`: no displayed id is missing from the selection. */
  function PageSelected(rows: seq<Record>, sel: Selection): (r: bool)
    ensures r <==> forall i :: 0 <= i < |rows| ==> Get(rows[i], "id") in Keys(sel.entries)
  {
    var missing := Difference(DisplayedIds(rows), Keys(sel.entries));
    assert (forall i :: 0 <= i < |rows| ==> Get(rows[i], "id") in Keys(sel.entries)) ==> missing == [] by {
      if missing != [] {
        assert missing[0] in DisplayedIds(rows);
      }
    }
    |missing| == 0
  }

  /** An empty page is fully selected. */
  lemma EmptyPageSelected(sel: Selection)
    ensures PageSelected([], sel)
  {
  }

  /** `v?.[0]` */
  function First(v: Val): Val {
    match v
    case Arr(elems) => if |elems| > 0 then elems[0] else Undefined
    case Str(s) => if |s| > 0 then Str([s[0]]) else Undefined
    case Obj(props) => Get(props, "0")
    case _ => Undefined
  }

  /** `entry[1]?.groups?.[0]?.name` */
  function GroupName(entry: (Val, Val)): Val {
    Prop(First(Prop(entry.1, "groups")), "name")
  }

  /** The entry's system already belongs to a group. */
  predicate HasGroup(entry: (Val, Val)) {
    GroupName(entry) != Undefined && GroupName(entry) != Str("")
  }

  /** `alreadyHasGroup` */
  function AlreadyHasGroup(entries: seq<(Val, Val)>): (r: seq<(Val, Val)>)
    ensures |r| <= |entries|
    ensures forall e :: e in r <==> e in entries && HasGroup(e)
  {
    if entries == [] then []
    else (if HasGroup(entries[0]) then [entries[0]] else []) + AlreadyHasGroup(entries[1..])
  }

  /** `v?.length > 0` */
  predicate LengthPositive(v: Val) {
    match v
    case Arr(elems) => |elems| > 0
    case Str(s) => |s| > 0
    case Obj(props) => Less(Num(0), Get(props, "length"))
    case _ => false
  }

  /** `immutableDevicesAlreadyHasGroup` */
  function DevicesWithGroup(devices: seq<Record>): (r: seq<Record>)
    ensures |r| <= |devices|
    ensures forall d :: d in r <==> d in devices && LengthPositive(Get(d, "deviceGroups"))
  {
    if devices == [] then []
    else (if LengthPositive(Get(devices[0], "deviceGroups")) then [devices[0]] else []) + DevicesWithGroup(devices[1..])
  }

  /** `overallSelectedKeys`: the conventional keys, then the immutable device ids. */
  function OverallSelectedKeys(sel: Selection): (ks: seq<Val>)
    ensures |ks| == |sel.entries| + |sel.immutableDevices|
    ensures ks[..|sel.entries|] == Keys(sel.entries)
    ensures forall j :: 0 <= j < |sel.immutableDevices| ==> ks[|sel.entries| + j] == Get(sel.immutableDevices[j], "id")
  {
    Keys(sel.entries) + seq(|sel.immutableDevices|, j requires 0 <= j < |sel.immutableDevices| => Get(sel.immutableDevices[j], "id"))
  }

  /** `noneSelected` */
  predicate NoneSelected(sel: Selection) {
    |OverallSelectedKeys(sel)| == 0
  }

  /** `showWarning` */
  predicate ShowWarning(sel: Selection) {
    |AlreadyHasGroup(sel.entries)| > 0 || |DevicesWithGroup(sel.immutableDevices)| > 0
  }

  /** Nothing is selected exactly when neither kind of system is. */
  lemma NoneSelectedRule(sel: Selection)
    ensures NoneSelected(sel) <==> sel.entries == [] && sel.immutableDevices == []
  {
  }

  /** The warning shows exactly when some selected system of either kind already has a group. */
  lemma ShowWarningRule(sel: Selection)
    ensures ShowWarning(sel) <==>
            (exists e :: e in sel.entries && HasGroup(e)) ||
            (exists d :: d in sel.immutableDevices && LengthPositive(Get(d, "deviceGroups")))
  {
    if ShowWarning(sel) {
      if |AlreadyHasGroup(sel.entries)| > 0 {
        assert AlreadyHasGroup(sel.entries)[0] in AlreadyHasGroup(sel.entries);
      } else {
        assert DevicesWithGroup(sel.immutableDevices)[0] in DevicesWithGroup(sel.immutableDevices);
      }
    }
  }

  /** The warning is never shown for an empty selection. */
  lemma NoWarningWhenNoneSelected(sel: Selection)
    requires NoneSelected(sel)
    ensures !ShowWarning(sel)
  {
  }

  /** `overallSelectedText`: nothing for no system, then `1 system selected` or `N systems selected`. */
  function OverallSelectedText(n: nat): (r: Option<string>)
    ensures r.None? <==> n == 0
    ensures n == 1 ==> r == Some("1 system selected")
    ensures n > 1 ==> r == Some(NatToString(n) + " systems selected")
  {
    if n == 1 then Some("1 system selected")
    else if n > 1 then Some(NatToString(n) + " systems selected")
    else None
  }

  /** `overallSelectedText` for a selection: it counts the conventional systems and the immutable devices together. */
  function SelectionText(sel: Selection): (r: Option<string>)
    ensures r.None? <==> sel.entries == [] && sel.immutableDevices == []
    ensures |sel.entries| + |sel.immutableDevices| == 1 ==> r == Some("1 system selected")
    ensures |sel.entries| + |sel.immutableDevices| > 1 ==>
              r == Some(NatToString(|sel.entries| + |sel.immutableDevices|) + " systems selected")
  {
    OverallSelectedText(|OverallSelectedKeys(sel)|)
  }

  /** The count shown can be read back from the text: the digits before the first space are the count. */
  lemma {:induction false} SelectedTextShowsCount(n: nat)
    requires n > 0
    ensures var t := OverallSelectedText(n).value;
      exists k :: 0 < k < |t| && t[k] == ' ' && (forall i :: 0 <= i < k ==> IsDigit(t[i])) && ParseDecimal(t[..k]) == n
  {
    var t := OverallSelectedText(n).value;
    var d := NatToString(n);
    if n == 1 {
      assert t[..1] == "1";
      assert ParseDecimal(t[..1]) == 1;
      assert t[1] == ' ';
    } else {
      assert t[..|d|] == d;
      ParseNatToString(n);
      assert t[|d|] == ' ';
    }
  }

  /** The Add button: disabled when nothing is selected or the warning shows. */
  predicate AddDisabled(sel: Selection) {
    NoneSelected(sel) || ShowWarning(sel)
  }

  /** The initial tab: `activeTab` when it names a tab, the conventional tab's key otherwise. */
  function InitialTab(tabKeys: map<string, string>, activeTab: Option<string>): (r: string)
    requires "conventional" in tabKeys
    ensures activeTab.Some? && activeTab.value in tabKeys ==> r == activeTab.value
    ensures activeTab.None? || activeTab.value !in tabKeys ==> r == tabKeys["conventional"]
  {
    if activeTab.Some? && activeTab.value in tabKeys then activeTab.value else tabKeys["conventional"]
  }

  /**
   * The starting tab is always a tab's key or the conventional tab's key; an
   * `activeTab` that names no tab counts as none; and when every tab's key is
   * its own name, as with the inventory's two tabs, starting again from the
   * chosen tab keeps it.
   */
  lemma InitialTabIsATab(tabKeys: map<string, string>, activeTab: Option<string>, other: string)
    requires "conventional" in tabKeys
    ensures InitialTab(tabKeys, activeTab) in tabKeys || InitialTab(tabKeys, activeTab) == tabKeys["conventional"]
    ensures other !in tabKeys ==> InitialTab(tabKeys, Some(other)) == InitialTab(tabKeys, None)
    ensures (forall k :: k in tabKeys ==> tabKeys[k] == k) ==>
              InitialTab(tabKeys, activeTab) in tabKeys &&
              InitialTab(tabKeys, Some(InitialTab(tabKeys, activeTab))) == InitialTab(tabKeys, activeTab)
  {
  }

  /** `groupName || groupId` */
  function GroupLabel(groupName: string, groupId: string): string {
    if groupName != "" then groupName else groupId
  }

  /** The success toast: `System(s) added to <group>`. */
  function SuccessDescription(hostCount: nat, groupName: string, groupId: string): (r: string)
    ensures hostCount > 1 ==> r == "Systems added to " + GroupLabel(groupName, groupId)
    ensures hostCount <= 1 ==> r == "System added to " + GroupLabel(groupName, groupId)
  {
    (if hostCount > 1 then "Systems" else "System") + " added to " + GroupLabel(groupName, groupId)
  }

  /** The error toast: `Failed to add system(s) to <group>`. */
  function ErrorDescription(hostCount: nat, groupName: string, groupId: string): (r: string)
    ensures hostCount > 1 ==> r == "Failed to add systems to " + GroupLabel(groupName, groupId)
    ensures hostCount <= 1 ==> r == "Failed to add system to " + GroupLabel(groupName, groupId)
  {
    "Failed to add " + (if hostCount > 1 then "systems" else "system") + " to " + GroupLabel(groupName, groupId)
  }

  /**
   * Both toasts end with the workspace's name, or with its id when it has no
   * name, and both say "systems" exactly when more than one host was added.
   */
  lemma AddToastsNameWorkspace(hostCount: nat, groupName: string, groupId: string)
    ensures var shown := if groupName != "" then groupName else groupId;
      var ok := SuccessDescription(hostCount, groupName, groupId);
      var err := ErrorDescription(hostCount, groupName, groupId);
      && |shown| < |ok| && ok[|ok| - |shown|..] == shown
      && |shown| < |err| && err[|err| - |shown|..] == shown
      && (ok[..7] == "Systems" <==> hostCount > 1)
      && (err[..21] == "Failed to add systems" <==> hostCount > 1)
  {
    var shown := if groupName != "" then groupName else groupId;
    var ok := SuccessDescription(hostCount, groupName, groupId);
    var err := ErrorDescription(hostCount, groupName, groupId);
    var okHead := if hostCount > 1 then "Systems added to " else "System added to ";
    var errHead := if hostCount > 1 then "Failed to add systems to " else "Failed to add system to ";
    assert ok == okHead + shown;
    assert err == errHead + shown;
    assert ok[|ok| - |shown|..] == shown;
    assert err[|err| - |shown|..] == shown;
    assert ok[..7] == okHead[..7] == if hostCount > 1 then "Systems" else "System ";
    assert err[..21] == errHead[..21] == if hostCount > 1 then "Failed to add systems" else "Failed to add system ";
  }

  // ---------------------------------------------------------------------------
  // The two-modal flow
  // ---------------------------------------------------------------------------

  /** What the modal dispatches: a store action, or the thunk that reloads the workspace. */
  datatype Dispatched = StoreAction(action: Action) | FetchGroupDetail(groupId: string)

  /** The dispatches of `handleModalClose` for a selection of the given size. */
  function CloseDispatches(selectedSize: nat): (r: seq<Dispatched>)
    ensures |r| == if selectedSize > 0 then 2 else 1
    ensures r[|r| - 1] == StoreAction(InventoryActions.ClearFilters())
    ensures selectedSize > 0 ==> r[0] == StoreAction(InventoryActions.SelectEntity(Num(-1), Bool(false)))
  {
    (if selectedSize > 0 then [StoreAction(InventoryActions.SelectEntity(Num(-1), Bool(false)))] else [])
    + [StoreAction(InventoryActions.ClearFilters())]
  }

  /**
   * The modal's own state (`confirmationModalOpen`, `systemsSelectModalOpen`),
   * the parent's `isModalOpen` it sets through `setIsModalOpen`, and what it
   * has sent out: the dispatches and the host lists passed to the add call.
   */
  class AddSystemsFlow {
    var modalOpen: bool
    var confirmationOpen: bool
    var selectOpen: bool
    var dispatched: seq<Dispatched>
    var additions: seq<seq<Val>>

    /** The modal as it mounts: the selection modal shown, the confirmation hidden. */
    constructor ()
      ensures modalOpen && selectOpen && !confirmationOpen
      ensures dispatched == [] && additions == []
    {
      modalOpen := true;
      confirmationOpen := false;
      selectOpen := true;
      dispatched := [];
      additions := [];
    }

    /** `handleModalClose`: unselect all if anything is selected, clear the filters, close. */
    method Close(sel: Selection)
      modifies this
      ensures dispatched == old(dispatched) + CloseDispatches(|sel.entries|)
      ensures !modalOpen
      ensures confirmationOpen == old(confirmationOpen) && selectOpen == old(selectOpen) && additions == old(additions)
    {
      if |sel.entries| > 0 {
        dispatched := dispatched + [StoreAction(InventoryActions.SelectEntity(Num(-1), Bool(false)))];
      }
      dispatched := dispatched + [StoreAction(InventoryActions.ClearFilters())];
      modalOpen := false;
    }

    /** The Add button's `onClick`. */
    method OnAdd(sel: Selection, groupId: string)
      modifies this
      ensures ShowWarning(sel) ==>
                !selectOpen && confirmationOpen &&
                modalOpen == old(modalOpen) && dispatched == old(dispatched) && additions == old(additions)
      ensures !ShowWarning(sel) ==>
                additions == old(additions) + [OverallSelectedKeys(sel)] &&
                dispatched == old(dispatched) + [FetchGroupDetail(groupId)] + CloseDispatches(|sel.entries|) &&
                !modalOpen && confirmationOpen == old(confirmationOpen) && selectOpen == old(selectOpen)
    {
      if ShowWarning(sel) {
        selectOpen := false;
        confirmationOpen := true;
      } else {
        additions := additions + [OverallSelectedKeys(sel)];
        dispatched := dispatched + [FetchGroupDetail(groupId)];
        Close(sel);
      }
    }

    /** A press on the Add button: nothing happens while it is disabled. */
    method PressAdd(sel: Selection, groupId: string)
      modifies this
      ensures confirmationOpen == old(confirmationOpen) && selectOpen == old(selectOpen)
      ensures AddDisabled(sel) ==> modalOpen == old(modalOpen) && dispatched == old(dispatched) && additions == old(additions)
      ensures !AddDisabled(sel) ==>
                additions == old(additions) + [OverallSelectedKeys(sel)] && !modalOpen &&
                dispatched == old(dispatched) + [FetchGroupDetail(groupId)] + CloseDispatches(|sel.entries|)
    {
      if !AddDisabled(sel) {
        OnAdd(sel, groupId);
      }
    }

    /** The confirmation modal's `onBack`: back to the selection modal. */
    method Back()
      modifies this
      ensures !confirmationOpen && selectOpen
      ensures modalOpen == old(modalOpen) && dispatched == old(dispatched) && additions == old(additions)
    {
      confirmationOpen := false;
      selectOpen := true;
    }

    /** The confirmation modal's `onSubmit`: add the selected systems and close, without clearing anything. */
    method Submit(sel: Selection)
      modifies this
      ensures additions == old(additions) + [OverallSelectedKeys(sel)] && !modalOpen
      ensures confirmationOpen == old(confirmationOpen) && selectOpen == old(selectOpen) && dispatched == old(dispatched)
    {
      additions := additions + [OverallSelectedKeys(sel)];
      modalOpen := false;
    }
  }

  /** Which user event reaches the flow. */
  datatype Event = PressAddEvent(sel: Selection, groupId: string) | CloseEvent(sel: Selection) | BackEvent

  /**
   * Any run of button presses, closes and backs from a fresh modal never
   * opens the confirmation modal: the only branch that opens it needs the
   * warning, and the warning disables the button.
   */
  method RunFromMount(events: seq<Event>) returns (flow: AddSystemsFlow)
    ensures !flow.confirmationOpen && flow.selectOpen
  {
    flow := new AddSystemsFlow();
    var i := 0;
    while i < |events|
      invariant 0 <= i <= |events|
      invariant !flow.confirmationOpen && flow.selectOpen
    {
      match events[i] {
        case PressAddEvent(sel, g) => flow.PressAdd(sel, g);
        case CloseEvent(sel) => flow.Close(sel);
        case BackEvent => flow.Back();
      }
      i := i + 1;
    }
  }
}
