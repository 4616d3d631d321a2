/**
 * The SELECT_ENTITY reducer of the entities store: setting the `selected`
 * flag of loaded rows, by id or, when the id matches no row, on every row.
 */
module RowSelection {
  import opened JsValues

  /** The SELECT_ENTITY payload `{id, selected}`; `id` is one id or an array of ids. */
  datatype SelectPayload = SelectPayload(id: Val, selected: Val)

  /** One `{id, selected}` target of the reducer's loop. */
  datatype Target = Target(id: Val, selected: Val)

  /** The `toSelect` list the reducer builds from its payload. */
  function ToSelect(p: SelectPayload): (ts: seq<Target>)
    ensures !p.id.Arr? ==> ts == [Target(p.id, p.selected)]
    ensures p.id.Arr? ==> |ts| == |p.id.elems|
    ensures p.id.Arr? ==> forall k :: 0 <= k < |ts| ==> ts[k] == Target(p.id.elems[k], p.selected)
  {
    match p.id
    case Arr(ids) => seq(|ids|, k requires 0 <= k < |ids| => Target(ids[k], p.selected))
    case _ => [Target(p.id, p.selected)]
  }

  function RowId(row: Record): Val { Get(row, "id") }

  /** `entity.selected = v` */
  function WithSelected(row: Record, v: Val): Record { row["selected" := v] }

  /** `rows.find((entity) => entity.id === id)`, as the index of the row found. */
  function FindIndex(rows: seq<Record>, id: Val): (r: Option<nat>)
    ensures r.Some? ==> r.value < |rows| && RowId(rows[r.value]) == id
    ensures r.Some? ==> forall k :: 0 <= k < r.value ==> RowId(rows[k]) != id
    ensures r.None? ==> forall k :: 0 <= k < |rows| ==> RowId(rows[k]) != id
  {
    if rows == [] then None
    else if RowId(rows[0]) == id then Some(0)
    else match FindIndex(rows[1..], id)
      case None => None
      case Some(i) => Some(i + 1)
  }

  /** `rows.forEach((item) => (item.selected = v))` */
  function SelectAll(rows: seq<Record>, v: Val): (r: seq<Record>)
    ensures |r| == |rows|
    ensures forall k :: 0 <= k < |rows| ==> r[k] == WithSelected(rows[k], v)
  {
    seq(|rows|, k requires 0 <= k < |rows| => WithSelected(rows[k], v))
  }

  /** One turn of the reducer's loop. */
  function ApplyTarget(rows: seq<Record>, t: Target): seq<Record> {
    match FindIndex(rows, t.id)
    case Some(i) => rows[i := WithSelected(rows[i], t.selected)]
    case None => SelectAll(rows, t.selected)
  }

  /** The whole loop: the targets applied in order. */
  function ApplyTargets(rows: seq<Record>, ts: seq<Target>): seq<Record>
    decreases |ts|
  {
    if ts == [] then rows else ApplyTarget(ApplyTargets(rows, ts[..|ts| - 1]), ts[|ts| - 1])
  }

  /** `rows.find((entity) => entity.id === id)` over the array: the index found, or `rows.Length` for none. */
  method FindRow(rows: array<Record>, id: Val) returns (j: nat)
    ensures j <= rows.Length
    ensures FindIndex(rows[..], id) == if j < rows.Length then Some(j) else None
  {
    j := 0;
    while j < rows.Length && RowId(rows[j]) != id
      invariant 0 <= j <= rows.Length
      invariant forall k :: 0 <= k < j ==> RowId(rows[k]) != id
    {
      j := j + 1;
    }
  }

  /** `rows.forEach((item) => (item.selected = v))` over the array. */
  method SelectAllInPlace(rows: array<Record>, v: Val)
    modifies rows
    ensures rows[..] == SelectAll(old(rows[..]), v)
  {
    var k := 0;
    while k < rows.Length
      invariant 0 <= k <= rows.Length
      invariant forall m :: 0 <= m < k ==> rows[m] == WithSelected(old(rows[m]), v)
      invariant forall m :: k <= m < rows.Length ==> rows[m] == old(rows[m])
    {
      rows[k] := WithSelected(rows[k], v);
      k := k + 1;
    }
  }

  /**
   * The reducer's loop, run in place on the copied row array: for each target,
   * find the first row with that id and set its flag, or set the flag on every
   * row when none has it.
   */
  method SelectInPlace(rows: array<Record>, ts: seq<Target>)
    modifies rows
    ensures rows[..] == ApplyTargets(old(rows[..]), ts)
  {
    var i := 0;
    while i < |ts|
      invariant 0 <= i <= |ts|
      invariant rows[..] == ApplyTargets(old(rows[..]), ts[..i])
    {
      var t := ts[i];
      ghost var before := rows[..];
      var j := FindRow(rows, t.id);
      if j < rows.Length {
        rows[j] := WithSelected(rows[j], t.selected);
      } else {
        SelectAllInPlace(rows, t.selected);
      }
      assert rows[..] == ApplyTarget(before, t);
      assert ts[..i + 1][..i] == ts[..i];
      i := i + 1;
    }
    assert ts[..i] == ts;
  }

  // ---------------------------------------------------------------------------
  // What the reducer promises
  // ---------------------------------------------------------------------------

  /** Setting a flag keeps the number, the order and the ids of the rows, and every other field. */
  lemma {:induction false} ApplyTargetsKeepsRows(rows: seq<Record>, ts: seq<Target>)
    ensures |ApplyTargets(rows, ts)| == |rows|
    ensures forall k :: 0 <= k < |rows| ==> RowId(ApplyTargets(rows, ts)[k]) == RowId(rows[k])
    ensures forall k, f :: 0 <= k < |rows| && f != "selected" ==>
              Get(ApplyTargets(rows, ts)[k], f) == Get(rows[k], f)
    decreases |ts|
  {
    if ts != [] {
      ApplyTargetsKeepsRows(rows, ts[..|ts| - 1]);
    }
  }

  /** An id that a row has: the first row with it gets the flag, and nothing else changes. */
  lemma SelectPresentId(rows: seq<Record>, id: Val, v: Val, i: nat)
    requires i < |rows| && RowId(rows[i]) == id
    requires forall k :: 0 <= k < i ==> RowId(rows[k]) != id
    ensures ApplyTarget(rows, Target(id, v)) == rows[i := WithSelected(rows[i], v)]
    ensures Get(ApplyTarget(rows, Target(id, v))[i], "selected") == v
  {
  }

  /** An id that no row has (as `selectEntity(-1, false)` is used): every row gets the flag. */
  lemma SelectMissingId(rows: seq<Record>, id: Val, v: Val)
    requires forall k :: 0 <= k < |rows| ==> RowId(rows[k]) != id
    ensures |ApplyTarget(rows, Target(id, v))| == |rows|
    ensures forall k :: 0 <= k < |rows| ==> Get(ApplyTarget(rows, Target(id, v))[k], "selected") == v
  {
  }

  /** Setting flags does not change which row an id finds first. */
  lemma {:induction false} FindIndexAfterTargets(rows: seq<Record>, ts: seq<Target>, id: Val)
    ensures FindIndex(ApplyTargets(rows, ts), id) == FindIndex(rows, id)
  {
    ApplyTargetsKeepsRows(rows, ts);
    FindIndexSameIds(ApplyTargets(rows, ts), rows, id);
  }

  /** `find` by id only looks at the ids: rows with the same ids in the same order find the same index. */
  lemma {:induction false} FindIndexSameIds(a: seq<Record>, b: seq<Record>, id: Val)
    requires |a| == |b| && forall k :: 0 <= k < |a| ==> RowId(a[k]) == RowId(b[k])
    ensures FindIndex(a, id) == FindIndex(b, id)
  {
    if a != [] {
      FindIndexSameIds(a[1..], b[1..], id);
    }
  }

  /** Some id of `ids` finds row `k` first. */
  predicate Targeted(rows: seq<Record>, ids: seq<Val>, k: nat) {
    exists m :: 0 <= m < |ids| && FindIndex(rows, ids[m]) == Some(k)
  }

  lemma TargetedSnoc(rows: seq<Record>, ids: seq<Val>, k: nat)
    requires ids != []
    ensures Targeted(rows, ids, k) <==>
            Targeted(rows, ids[..|ids| - 1], k) || FindIndex(rows, ids[|ids| - 1]) == Some(k)
  {
    var n := |ids| - 1;
    if Targeted(rows, ids, k) {
      var m :| 0 <= m < |ids| && FindIndex(rows, ids[m]) == Some(k);
      if m < n { assert ids[..n][m] == ids[m]; }
    }
    if Targeted(rows, ids[..n], k) {
      var m :| 0 <= m < n && FindIndex(rows, ids[..n][m]) == Some(k);
      assert ids[m] == ids[..n][m];
    }
  }

  /**
   * An array of ids that all belong to loaded rows: every row that one of the
   * ids finds first ends with the payload's flag, and every other row keeps
   * its flag.
   */
  lemma {:induction false} SelectManyPresent(rows: seq<Record>, ids: seq<Val>, v: Val)
    requires forall m :: 0 <= m < |ids| ==> FindIndex(rows, ids[m]).Some?
    ensures |ApplyTargets(rows, ToSelect(SelectPayload(Arr(ids), v)))| == |rows|
    ensures forall k :: 0 <= k < |rows| && Targeted(rows, ids, k) ==>
              Get(ApplyTargets(rows, ToSelect(SelectPayload(Arr(ids), v)))[k], "selected") == v
    ensures forall k :: 0 <= k < |rows| && !Targeted(rows, ids, k) ==>
              Get(ApplyTargets(rows, ToSelect(SelectPayload(Arr(ids), v)))[k], "selected") ==
              Get(rows[k], "selected")
    decreases |ids|
  {
    var ts := ToSelect(SelectPayload(Arr(ids), v));
    ApplyTargetsKeepsRows(rows, ts);
    if ids != [] {
      var n := |ids| - 1;
      var init := ids[..n];
      SelectManyPresent(rows, init, v);
      var tsInit := ToSelect(SelectPayload(Arr(init), v));
      assert ts[..n] == tsInit;
      var mid := ApplyTargets(rows, tsInit);
      ApplyTargetsKeepsRows(rows, tsInit);
      FindIndexAfterTargets(rows, tsInit, ids[n]);
      var i := FindIndex(rows, ids[n]).value;
      assert ApplyTargets(rows, ts) == mid[i := WithSelected(mid[i], v)];
      forall k | 0 <= k < |rows| {
        TargetedSnoc(rows, ids, k);
      }
    } else {
      assert forall k :: !Targeted(rows, ids, k);
    }
  }
}
