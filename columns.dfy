/**
 * Which columns the inventory table shows: the enabled default columns and
 * the precedence between a caller's columns, the store's and the defaults.
 */
module Columns {
  import opened JsValues
  import Entities

  /** `isColumnEnabled(key, disableColumns, showTags)`, as the filter tests it. */
  predicate IsColumnEnabled(key: string, disableColumns: Val, showTags: Val) {
    (key == "tags" && Truthy(showTags)) ||
    (key != "tags" && disableColumns.Arr? && Str(key) !in disableColumns.elems)
  }

  /** The tags column follows `showTags` alone; any other column is enabled when not listed as disabled. */
  lemma ColumnEnabledRule(key: string, disabled: seq<Val>, showTags: Val)
    ensures IsColumnEnabled("tags", Arr(disabled), showTags) <==> Truthy(showTags)
    ensures key != "tags" ==> (IsColumnEnabled(key, Arr(disabled), showTags) <==> Str(key) !in disabled)
  {
  }

  /** A `disableColumns` that is not an array disables every column but tags. */
  lemma NonArrayDisablesAll(key: string, disableColumns: Val, showTags: Val)
    requires key != "tags" && !disableColumns.Arr?
    ensures !IsColumnEnabled(key, disableColumns, showTags)
  {
  }

  /** `disabledColumns`: the `disableDefaultColumns` array, or none. */
  function DisabledColumns(disableDefaultColumns: Val): (r: seq<Val>)
    ensures disableDefaultColumns.Arr? ==> r == disableDefaultColumns.elems
    ensures !disableDefaultColumns.Arr? ==> r == []
  {
    if disableDefaultColumns.Arr? then disableDefaultColumns.elems else []
  }

  /** `cols.filter(({key}) => isColumnEnabled(key, disabled, showTags))` */
  function FilterEnabled(cols: seq<Entities.Column>, disabled: seq<Val>, showTags: Val): seq<Entities.Column> {
    if cols == [] then []
    else (if IsColumnEnabled(cols[0].key, Arr(disabled), showTags) then [cols[0]] else []) + FilterEnabled(cols[1..], disabled, showTags)
  }

  /** The filter keeps exactly the enabled columns. */
  lemma {:induction false} FilterEnabledMembers(cols: seq<Entities.Column>, disabled: seq<Val>, showTags: Val)
    ensures forall c :: c in FilterEnabled(cols, disabled, showTags) <==> c in cols && IsColumnEnabled(c.key, Arr(disabled), showTags)
  {
    if cols != [] {
      FilterEnabledMembers(cols[1..], disabled, showTags);
      assert forall c :: c in cols <==> c == cols[0] || c in cols[1..];
    }
  }

  /** The filter keeps the order of what it keeps. */
  lemma {:induction false} FilterEnabledSubsequence(cols: seq<Entities.Column>, disabled: seq<Val>, showTags: Val)
    ensures IsSubsequence(FilterEnabled(cols, disabled, showTags), cols)
  {
    if cols != [] {
      var rest := FilterEnabled(cols[1..], disabled, showTags);
      FilterEnabledSubsequence(cols[1..], disabled, showTags);
      if IsColumnEnabled(cols[0].key, Arr(disabled), showTags) {
        assert ([cols[0]] + rest)[1..] == rest;
      } else {
        assert FilterEnabled(cols, disabled, showTags) == rest;
        SubsequenceSkip(rest, cols[1..], cols[0]);
        assert [cols[0]] + cols[1..] == cols;
      }
    }
  }

  /** `xs` is `ys` with some elements left out, the rest in their order. */
  predicate IsSubsequence(xs: seq<Entities.Column>, ys: seq<Entities.Column>)
    decreases |ys|
  {
    if xs == [] then true
    else if ys == [] then false
    else if xs[0] == ys[0] then IsSubsequence(xs[1..], ys[1..])
    else IsSubsequence(xs, ys[1..])
  }

  /** Putting an element in front keeps a subsequence one. */
  lemma {:induction false} SubsequenceSkip(xs: seq<Entities.Column>, ys: seq<Entities.Column>, y: Entities.Column)
    requires IsSubsequence(xs, ys)
    ensures IsSubsequence(xs, [y] + ys)
    decreases |ys|, 1
  {
    assert ([y] + ys)[1..] == ys;
    if xs != [] && xs[0] == y {
      SubsequenceHead(xs, ys);
    }
  }

  /** Dropping the first element of `xs` keeps it a subsequence. */
  lemma {:induction false} SubsequenceHead(xs: seq<Entities.Column>, ys: seq<Entities.Column>)
    requires xs != [] && IsSubsequence(xs, ys)
    ensures IsSubsequence(xs[1..], ys)
    decreases |ys|, 0
  {
    assert ys != [];
    assert [ys[0]] + ys[1..] == ys;
    if xs[0] == ys[0] {
      SubsequenceSkip(xs[1..], ys[1..], ys[0]);
    } else {
      SubsequenceHead(xs, ys[1..]);
      SubsequenceSkip(xs[1..], ys[1..], ys[0]);
    }
  }

  /** `defaultColumnsFiltered` */
  function DefaultColumnsFiltered(disableDefaultColumns: Val, showTags: Val): (r: seq<Entities.Column>)
    ensures disableDefaultColumns == Bool(true) ==> r == []
    ensures IsSubsequence(r, Entities.DefaultColumns)
    ensures disableDefaultColumns != Bool(true) ==>
              forall c :: c in r <==> c in Entities.DefaultColumns &&
                                      IsColumnEnabled(c.key, Arr(DisabledColumns(disableDefaultColumns)), showTags)
  {
    if disableDefaultColumns == Bool(true) then []
    else
      FilterEnabledSubsequence(Entities.DefaultColumns, DisabledColumns(disableDefaultColumns), showTags);
      FilterEnabledMembers(Entities.DefaultColumns, DisabledColumns(disableDefaultColumns), showTags);
      FilterEnabled(Entities.DefaultColumns, DisabledColumns(disableDefaultColumns), showTags)
  }

  /** One step of the filter over nothing disabled. */
  lemma FilterCons(c: Entities.Column, rest: seq<Entities.Column>, showTags: Val)
    ensures FilterEnabled([c] + rest, [], showTags) ==
            (if IsColumnEnabled(c.key, Arr([]), showTags) then [c] else []) + FilterEnabled(rest, [], showTags)
  {
    assert ([c] + rest)[1..] == rest;
  }

  /** Five columns of which only the third is `tags`, with nothing disabled. */
  lemma FilterFive(a: Entities.Column, b: Entities.Column, c: Entities.Column, e: Entities.Column, g: Entities.Column, showTags: Val)
    requires a.key != "tags" && b.key != "tags" && c.key == "tags" && e.key != "tags" && g.key != "tags"
    ensures FilterEnabled([a, b, c, e, g], [], showTags) == if Truthy(showTags) then [a, b, c, e, g] else [a, b, e, g]
  {
    FilterCons(g, [], showTags);
    FilterCons(e, [g], showTags);
    FilterCons(c, [e, g], showTags);
    FilterCons(b, [c, e, g], showTags);
    FilterCons(a, [b, c, e, g], showTags);
    assert [a] + [b, c, e, g] == [a, b, c, e, g];
    assert [b] + [c, e, g] == [b, c, e, g];
    assert [c] + [e, g] == [c, e, g];
    assert [e] + [g] == [e, g];
    assert [g] + [] == [g];
  }

  /**
   * With nothing disabled, the default columns the hook shows are the ones a
   * pending load puts in the store: all five, without tags unless tags are shown.
   */
  lemma DefaultsMatchPendingColumns(showTags: Val)
    ensures DefaultColumnsFiltered(Undefined, showTags) == Entities.PendingColumns(showTags)
  {
    var d := Entities.DefaultColumns;
    assert d == [d[0], d[1], d[2], d[3], d[4]];
    FilterFive(d[0], d[1], d[2], d[3], d[4], showTags);
    assert DisabledColumns(Undefined) == [];
  }

  /** The `columns` prop: a function of the default columns, some columns, or nothing (falsy). */
  datatype ColumnsProp =
    | FnProp(f: seq<Entities.Column> -> seq<Entities.Column>)
    | ValueProp(columns: seq<Entities.Column>)
    | NoProp

  /** The columns the hook returns, with `mergeArraysByKey` by `key` as a parameter. */
  function UseColumns(prop: ColumnsProp, disableDefaultColumns: Val, showTags: Val,
                      columnsRedux: Option<seq<Entities.Column>>,
                      mergeByKey: (seq<Entities.Column>, seq<Entities.Column>) -> seq<Entities.Column>): (r: seq<Entities.Column>)
    ensures prop.FnProp? ==> r == prop.f(Entities.DefaultColumns)
    ensures prop.ValueProp? ==> r == mergeByKey(DefaultColumnsFiltered(disableDefaultColumns, showTags), prop.columns)
    ensures prop.NoProp? && columnsRedux.Some? ==> r == columnsRedux.value
    ensures prop.NoProp? && columnsRedux.None? ==> r == DefaultColumnsFiltered(disableDefaultColumns, showTags)
  {
    match prop
    case FnProp(f) => f(Entities.DefaultColumns)
    case ValueProp(cols) => mergeByKey(DefaultColumnsFiltered(disableDefaultColumns, showTags), cols)
    case NoProp =>
      match columnsRedux
      case Some(cols) => cols
      case None => DefaultColumnsFiltered(disableDefaultColumns, showTags)
  }

  /**
   * A function prop sees every default column whatever is disabled; only the
   * other sources see the filtered defaults.
   */
  lemma FunctionPropUnfiltered(f: seq<Entities.Column> -> seq<Entities.Column>, ddc1: Val, ddc2: Val, showTags1: Val, showTags2: Val,
                               redux1: Option<seq<Entities.Column>>, redux2: Option<seq<Entities.Column>>,
                               merge: (seq<Entities.Column>, seq<Entities.Column>) -> seq<Entities.Column>)
    ensures UseColumns(FnProp(f), ddc1, showTags1, redux1, merge) == UseColumns(FnProp(f), ddc2, showTags2, redux2, merge)
  {
  }

  /** With every default disabled and no other source, the table has no column. */
  lemma AllDefaultsDisabled(showTags: Val, merge: (seq<Entities.Column>, seq<Entities.Column>) -> seq<Entities.Column>)
    ensures UseColumns(NoProp, Bool(true), showTags, None, merge) == []
  {
  }
}
