/**
 * The workspace delete modal: the gate that lets a delete through only when
 * every workspace to delete is empty, and the titles and messages it shows.
 */
module DeleteGroupModal {
  import opened JsValues

  /** A fetched workspace, as far as the modal reads it. */
  datatype Group = Group(name: Val, hostCount: Val)

  /** One page of `getGroupsByIds` results. */
  datatype Batch = Batch(results: seq<Group>)

  /** `batches.flatMap(({results}) => results)` */
  function Flatten(batches: seq<Batch>): seq<Group>
    decreases |batches|
  {
    if batches == [] then [] else Flatten(batches[..|batches| - 1]) + batches[|batches| - 1].results
  }

  /** The fetched workspaces are the batches' results one after another, in batch order. */
  lemma {:induction false} FlattenAppend(a: seq<Batch>, b: seq<Batch>)
    ensures Flatten(a + b) == Flatten(a) + Flatten(b)
    decreases |b|
  {
    if b == [] {
      assert a + b == a;
    } else {
      var n := |b| - 1;
      assert (a + b)[..|a + b| - 1] == a + b[..n];
      FlattenAppend(a, b[..n]);
    }
  }

  /** Every workspace of every batch is fetched, and nothing else. */
  lemma {:induction false} FlattenMembers(batches: seq<Batch>)
    ensures forall g :: g in Flatten(batches) <==> exists i :: 0 <= i < |batches| && g in batches[i].results
    decreases |batches|
  {
    if batches != [] {
      var n := |batches| - 1;
      FlattenMembers(batches[..n]);
      forall g | (exists i :: 0 <= i < |batches| && g in batches[i].results) ensures g in Flatten(batches) {
        var i :| 0 <= i < |batches| && g in batches[i].results;
        if i < n {
          assert batches[..n][i] == batches[i];
        }
      }
      forall g | g in Flatten(batches) ensures exists i :: 0 <= i < |batches| && g in batches[i].results {
        if g in Flatten(batches[..n]) {
          var i :| 0 <= i < n && g in batches[..n][i].results;
          assert batches[i] == batches[..n][i];
        }
      }
    }
  }

  /** `({host_count}) => host_count === 0` */
  predicate IsEmptyGroup(g: Group) {
    g.hostCount == Num(0)
  }

  /** `(fetchedGroups || []).every(...)`: every fetched workspace has no host. */
  function GroupsAreEmpty(fetched: Option<seq<Group>>): (r: bool)
    ensures r <==> fetched.None? || forall i :: 0 <= i < |fetched.value| ==> IsEmptyGroup(fetched.value[i])
  {
    match fetched
    case None => true
    case Some(gs) => Every(gs)
  }

  function Every(gs: seq<Group>): (r: bool)
    ensures r <==> forall i :: 0 <= i < |gs| ==> IsEmptyGroup(gs[i])
  {
    if gs == [] then true else IsEmptyGroup(gs[0]) && Every(gs[1..])
  }

  /** One workspace whose host count is missing (or not the number 0) blocks the delete. */
  lemma MissingCountBlocks(fetched: seq<Group>, i: nat)
    requires i < |fetched| && fetched[i].hostCount != Num(0)
    ensures !GroupsAreEmpty(Some(fetched))
  {
  }

  /** How JSX prints a child: strings and numbers as text, `undefined`, `null` and booleans as nothing. */
  function JsxText(v: Val): string {
    match v
    case Str(s) => s
    case Num(n) => IntToString(n)
    case NaN => "NaN"
    case _ => ""
  }

  /** `groups[0]?.name`, `undefined` for no workspace. */
  function FirstName(groups: seq<Group>): (r: Val)
    ensures groups == [] ==> r == Undefined
    ensures groups != [] ==> r == groups[0].name
  {
    if groups == [] then Undefined else groups[0].name
  }

  /** The confirm modal's content: the title and the warning line the schema holds. */
  datatype Content = Content(title: string, warning: string)

  /** `generateContent(groups)` */
  function GenerateContent(groups: seq<Group>): (c: Content)
    ensures c.title == (if |groups| > 1 then "Delete workspaces?" else "Delete workspace?")
    ensures |groups| > 1 ==> c.warning == NatToString(|groups|) + " workspaces and all their data will be deleted."
    ensures |groups| <= 1 ==> c.warning == JsxText(FirstName(groups)) + " and all its data will be deleted."
  {
    Content(
      if |groups| > 1 then "Delete workspaces?" else "Delete workspace?",
      if |groups| > 1 then NatToString(|groups|) + " workspaces and all their data will be deleted."
      else JsxText(FirstName(groups)) + " and all its data will be deleted.")
  }

  /**
   * The title is plural exactly for several workspaces; the warning for
   * several starts with their count, which reads back as their number, and
   * the warning for one starts with its name.
   */
  lemma {:induction false} ContentShowsCount(groups: seq<Group>)
    ensures GenerateContent(groups).title == "Delete workspaces?" <==> |groups| > 1
    ensures |groups| > 1 ==>
              var w := GenerateContent(groups).warning;
              var d := NatToString(|groups|);
              |d| < |w| && w[..|d|] == d && ParseDecimal(w[..|d|]) == |groups|
    ensures |groups| == 1 && groups[0].name.Str? ==>
              var w := GenerateContent(groups).warning;
              |groups[0].name.s| < |w| && w[..|groups[0].name.s|] == groups[0].name.s
  {
    var w := GenerateContent(groups).warning;
    if |groups| > 1 {
      var d := NatToString(|groups|);
      assert w[..|d|] == d;
      ParseNatToString(|groups|);
    } else if |groups| == 1 && groups[0].name.Str? {
      assert w[..|groups[0].name.s|] == groups[0].name.s;
    }
  }

  /** What the modal renders. */
  datatype View =
    | Spinner
    | Blocked(title: string, message: string)
    | Confirm(content: Content)

  /** The blocked modal's title: plural for several fetched workspaces. */
  function BlockedTitle(count: nat): (t: string)
    ensures count > 1 ==> t == "Cannot delete workspaces at this time"
    ensures count <= 1 ==> t == "Cannot delete workspace at this time"
  {
    if count > 1 then "Cannot delete workspaces at this time" else "Cannot delete workspace at this time"
  }

  /** The blocked modal's text: the one workspace is named; several are not. */
  function BlockedMessage(gs: seq<Group>): string
    requires |gs| > 0
  {
    if |gs| > 1 then
      "Workspaces containing systems cannot be deleted. To delete workspaces, first remove all of the systems from them."
    else
      "Workspaces containing systems cannot be deleted. To delete " + JsxText(gs[0].name) + ", first remove all of the systems from it."
  }

  /** The workspaces the confirm modal is built from: `generateContent(fetchedGroups)` defaults to none. */
  function FetchedOrNone(fetched: Option<seq<Group>>): seq<Group> {
    match fetched
    case None => []
    case Some(gs) => gs
  }

  /**
   * The render decision: a spinner while loading, the blocked modal when some
   * fetched workspace has hosts, the confirm modal otherwise.
   */
  function Render(isLoading: bool, fetched: Option<seq<Group>>): (v: View)
    ensures isLoading <==> v.Spinner?
    ensures v.Blocked? <==> !isLoading && !GroupsAreEmpty(fetched)
    ensures v.Confirm? ==> v.content == GenerateContent(FetchedOrNone(fetched)) && GroupsAreEmpty(fetched)
    ensures v.Blocked? ==> fetched.Some? && |fetched.value| > 0
    ensures v.Blocked? ==> v.title == BlockedTitle(|fetched.value|) && v.message == BlockedMessage(fetched.value)
  {
    if isLoading then Spinner
    else if !GroupsAreEmpty(fetched) then
      var gs := fetched.value;
      Blocked(BlockedTitle(|gs|), BlockedMessage(gs))
    else Confirm(GenerateContent(FetchedOrNone(fetched)))
  }

  /** The blocked view's title names several workspaces exactly when more than one was fetched. */
  lemma BlockedTitlePlural(count: nat)
    ensures BlockedTitle(count) == "Cannot delete workspaces at this time" <==> count > 1
  {
  }

  /** The delete can be submitted only when every fetched workspace is empty. */
  lemma DeleteOnlyWhenEmpty(isLoading: bool, fetched: Option<seq<Group>>, i: nat)
    requires Render(isLoading, fetched).Confirm?
    requires fetched.Some? && i < |fetched.value|
    ensures fetched.value[i].hostCount == Num(0)
  {
  }

  /** `fetchedGroups?.[0]?.name` */
  function FetchedName(fetched: Option<seq<Group>>): Val {
    match fetched
    case None => Undefined
    case Some(gs) => FirstName(gs)
  }

  /** The success toast of `handleDeleteGroup`. */
  function SuccessDescription(groupIds: seq<string>, fetched: Option<seq<Group>>): (r: string)
    ensures |groupIds| > 1 ==> r == NatToString(|groupIds|) + " workspaces deleted"
    ensures |groupIds| <= 1 ==> r == TemplateString(FetchedName(fetched)) + " has been removed successfully"
  {
    if |groupIds| > 1 then NatToString(|groupIds|) + " workspaces deleted"
    else TemplateString(FetchedName(fetched)) + " has been removed successfully"
  }

  /** The error toast of `handleDeleteGroup`. */
  function ErrorDescription(groupIds: seq<string>, fetched: Option<seq<Group>>): (r: string)
    ensures |groupIds| > 1 ==> r == "Failed to delete " + NatToString(|groupIds|) + " workspaces"
    ensures |groupIds| <= 1 ==> r == "Failed to delete workspace " + TemplateString(FetchedName(fetched))
  {
    if |groupIds| > 1 then "Failed to delete " + NatToString(|groupIds|) + " workspaces"
    else "Failed to delete workspace " + TemplateString(FetchedName(fetched))
  }

  /** The plural toasts name the number of workspaces: it can be read back from the text. */
  lemma {:induction false} PluralToastCount(groupIds: seq<string>, fetched: Option<seq<Group>>)
    requires |groupIds| > 1
    ensures var t := SuccessDescription(groupIds, fetched);
      var d := NatToString(|groupIds|);
      |d| < |t| && t[..|d|] == d && ParseDecimal(t[..|d|]) == |groupIds|
  {
    var t := SuccessDescription(groupIds, fetched);
    var d := NatToString(|groupIds|);
    assert t[..|d|] == d;
    ParseNatToString(|groupIds|);
  }

  /**
   * The error toast for several workspaces names their count after
   * "Failed to delete ", and it reads back as the number of ids; for one it
   * ends with the fetched workspace's name.
   */
  lemma {:induction false} ErrorToastCount(groupIds: seq<string>, fetched: Option<seq<Group>>)
    ensures |groupIds| > 1 ==>
              var t := ErrorDescription(groupIds, fetched);
              var d := NatToString(|groupIds|);
              17 + |d| < |t| && t[17..17 + |d|] == d && ParseDecimal(t[17..17 + |d|]) == |groupIds|
    ensures |groupIds| <= 1 ==>
              var t := ErrorDescription(groupIds, fetched);
              |t| >= 27 && t[27..] == TemplateString(FetchedName(fetched))
  {
    var t := ErrorDescription(groupIds, fetched);
    if |groupIds| > 1 {
      var d := NatToString(|groupIds|);
      assert t[17..17 + |d|] == d;
      ParseNatToString(|groupIds|);
    } else {
      assert t[27..] == TemplateString(FetchedName(fetched));
    }
  }
}
