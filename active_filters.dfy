/**
 * The FILTER_SELECT reducer of the entities store: adding a filter term (with
 * its grouped sub-items) keeps one term per `value`, the last one; removing a
 * term splices out the first term with its `value`, then one per sub-item.
 */
module ActiveFilters {
  import opened JsValues

  /** A filter term `{key, value, label, ...}`; `fields` holds everything but `value`. */
  datatype Filter = Filter(value: Val, fields: Record)

  /** `items ? items : []` */
  function SubItems(items: Option<seq<Filter>>): seq<Filter> {
    match items
    case None => []
    case Some(s) => s
  }

  /** `filters.map((active) => active.value)` */
  function Values(s: seq<Filter>): (vs: seq<Val>)
    ensures |vs| == |s|
    ensures forall i :: 0 <= i < |s| ==> vs[i] == s[i].value
  {
    seq(|s|, i requires 0 <= i < |s| => s[i].value)
  }

  /** `vs.indexOf(v)`: the first index holding `v`, or -1. */
  function IndexOf(vs: seq<Val>, v: Val): (r: int)
    ensures -1 <= r < |vs|
    ensures r >= 0 ==> vs[r] == v && forall k :: 0 <= k < r ==> vs[k] != v
    ensures r == -1 ==> forall k :: 0 <= k < |vs| ==> vs[k] != v
  {
    if vs == [] then -1
    else if vs[0] == v then 0
    else var i := IndexOf(vs[1..], v); if i == -1 then -1 else i + 1
  }

  /** `vs.lastIndexOf(v)`: the last index holding `v`, or -1. */
  function LastIndexOf(vs: seq<Val>, v: Val): (r: int)
    ensures -1 <= r < |vs|
    ensures r >= 0 ==> vs[r] == v && forall k :: r < k < |vs| ==> vs[k] != v
    ensures r == -1 ==> forall k :: 0 <= k < |vs| ==> vs[k] != v
  {
    if vs == [] then -1
    else if vs[|vs| - 1] == v then |vs| - 1
    else LastIndexOf(vs[..|vs| - 1], v)
  }

  /** No term after position `m` of `s` has the value of `s[m]`. */
  ghost predicate IsLastAt(s: seq<Filter>, m: int)
    requires 0 <= m < |s|
  {
    forall q :: m < q < |s| ==> s[q].value != s[m].value
  }

  /** The values of `s` are pairwise distinct. */
  ghost predicate DistinctValues(s: seq<Filter>) {
    forall i, j :: 0 <= i < j < |s| ==> s[i].value != s[j].value
  }

  /**
   * `s.filter((filter, key) => values.lastIndexOf(filter.value) === key)` over
   * the positions from `k` on, where `vs` is `values`.
   */
  function KeepLastFrom(s: seq<Filter>, vs: seq<Val>, k: nat): seq<Filter>
    requires k <= |s|
    decreases |s| - k
  {
    if k == |s| then []
    else (if LastIndexOf(vs, s[k].value) == k then [s[k]] else []) + KeepLastFrom(s, vs, k + 1)
  }

  /** `lastIndexOf` finds a position exactly when no later term shares its value. */
  lemma LastIndexOfAt(s: seq<Filter>, m: nat)
    requires m < |s|
    ensures LastIndexOf(Values(s), s[m].value) >= m
    ensures LastIndexOf(Values(s), s[m].value) == m <==> IsLastAt(s, m)
  {
  }

  /** `f` is a term of `s` at some position from `k` on, the last with its value. */
  ghost predicate KeptFrom(s: seq<Filter>, f: Filter, k: nat) {
    exists m :: k <= m < |s| && f == s[m] && IsLastAt(s, m)
  }

  /** Some term of `r` has value `v`. */
  ghost predicate HasValue(r: seq<Filter>, v: Val) {
    exists j :: 0 <= j < |r| && r[j].value == v
  }

  /** Every kept term is a term of `s[k..]` that is the last with its value. */
  lemma {:induction false} KeepLastFromSound(s: seq<Filter>, k: nat)
    requires k <= |s|
    ensures forall f :: f in KeepLastFrom(s, Values(s), k) ==> KeptFrom(s, f, k)
    decreases |s| - k
  {
    if k < |s| {
      KeepLastFromSound(s, k + 1);
      LastIndexOfAt(s, k);
      var rest := KeepLastFrom(s, Values(s), k + 1);
      var r := KeepLastFrom(s, Values(s), k);
      forall f | f in rest ensures KeptFrom(s, f, k) {
        var m :| k + 1 <= m < |s| && f == s[m] && IsLastAt(s, m);
      }
      if IsLastAt(s, k) {
        assert r == [s[k]] + rest;
        assert KeptFrom(s, s[k], k);
      } else {
        assert r == rest;
      }
    }
  }

  /** A term whose value no term of `rest` has keeps the values distinct when put in front. */
  lemma ConsDistinct(x: Filter, rest: seq<Filter>)
    requires DistinctValues(rest)
    requires !HasValue(rest, x.value)
    ensures DistinctValues([x] + rest)
  {
    var r := [x] + rest;
    forall i, j | 0 <= i < j < |r| ensures r[i].value != r[j].value {
      assert r[j] == rest[j - 1];
      if i > 0 {
        assert r[i] == rest[i - 1];
      }
    }
  }

  /** Terms that are each the last with their value among positions after `k` do not share the value of `s[k]` when it is last too. */
  lemma LaterLastDiffer(s: seq<Filter>, k: nat, rest: seq<Filter>)
    requires k < |s| && IsLastAt(s, k)
    requires forall f :: f in rest ==> KeptFrom(s, f, k + 1)
    ensures !HasValue(rest, s[k].value)
  {
    forall j | 0 <= j < |rest| ensures rest[j].value != s[k].value {
      assert rest[j] in rest;
      var m :| k + 1 <= m < |s| && rest[j] == s[m] && IsLastAt(s, m);
    }
  }

  /** The kept terms have pairwise distinct values. */
  lemma {:induction false} KeepLastFromDistinct(s: seq<Filter>, k: nat)
    requires k <= |s|
    ensures DistinctValues(KeepLastFrom(s, Values(s), k))
    decreases |s| - k
  {
    if k < |s| {
      KeepLastFromDistinct(s, k + 1);
      LastIndexOfAt(s, k);
      if IsLastAt(s, k) {
        KeepLastFromSound(s, k + 1);
        LaterLastDiffer(s, k, KeepLastFrom(s, Values(s), k + 1));
        ConsDistinct(s[k], KeepLastFrom(s, Values(s), k + 1));
      }
    }
  }

  /** Putting a term in front keeps every value and adds its own. */
  lemma HasValueCons(x: Filter, rest: seq<Filter>)
    ensures HasValue([x] + rest, x.value)
    ensures forall v :: HasValue(rest, v) ==> HasValue([x] + rest, v)
  {
    assert ([x] + rest)[0] == x;
    forall v | HasValue(rest, v) ensures HasValue([x] + rest, v) {
      var j :| 0 <= j < |rest| && rest[j].value == v;
      assert ([x] + rest)[j + 1] == rest[j];
    }
  }

  /** Every value of `s[k..]` survives, at its last occurrence. */
  lemma {:induction false} KeepLastFromComplete(s: seq<Filter>, k: nat)
    requires k <= |s|
    ensures forall m :: k <= m < |s| ==> HasValue(KeepLastFrom(s, Values(s), k), s[m].value)
    decreases |s| - k
  {
    if k < |s| {
      KeepLastFromComplete(s, k + 1);
      LastIndexOfAt(s, k);
      var rest := KeepLastFrom(s, Values(s), k + 1);
      var r := KeepLastFrom(s, Values(s), k);
      if IsLastAt(s, k) {
        assert r == [s[k]] + rest;
        HasValueCons(s[k], rest);
      } else {
        assert r == rest;
        var last := LastIndexOf(Values(s), s[k].value);
        assert k < last && s[last].value == s[k].value;
        assert HasValue(rest, s[last].value);
      }
      forall m | k <= m < |s| ensures HasValue(r, s[m].value) {
        if m > k {
          assert HasValue(rest, s[m].value);
        }
      }
    }
  }

  /** The de-duplication of the add branch: each value once, at its last occurrence. */
  function KeepLast(s: seq<Filter>): seq<Filter> {
    KeepLastFrom(s, Values(s), 0)
  }

  /** The add branch: `[...activeFilters, item, ...items]`, then de-duplicated by `value`. */
  function AddFilter(active: seq<Filter>, item: Filter, items: Option<seq<Filter>>): seq<Filter> {
    KeepLast(active + [item] + SubItems(items))
  }

  /** Where `splice(start, 1)` on an array of length `len` starts: a negative start counts from the end, clamped to the array. */
  function SpliceStart(len: nat, start: int): (st: nat)
    ensures st <= len
    ensures 0 <= start < len ==> st == start
    ensures start < 0 && len + start >= 0 ==> st == len + start
    ensures len + start < 0 ==> st == 0
    ensures start >= len ==> st == len
  {
    if start < 0 then (if len + start < 0 then 0 else len + start)
    else (if start < len then start else len)
  }

  /** The array that `s.splice(start, 1)` leaves behind (JavaScript's rules for a negative or too large start). */
  function Splice1(s: seq<Filter>, start: int): (r: seq<Filter>)
    ensures 0 <= start < |s| ==> r == s[..start] + s[start + 1..]
    ensures -|s| <= start < 0 ==> r == s[..|s| + start] + s[|s| + start + 1..]
    ensures start < -|s| && s != [] ==> r == s[1..]
    ensures start >= |s| || s == [] ==> r == s
  {
    var st := SpliceStart(|s|, start);
    if st < |s| then s[..st] + s[st + 1..] else s
  }

  /** `s.splice(s.map((active) => active.value).indexOf(v), 1)` */
  function RemoveByValue(s: seq<Filter>, v: Val): seq<Filter> {
    Splice1(s, IndexOf(Values(s), v))
  }

  /** The sub-item loop of the remove branch, as a fold over the sub-items. */
  function RemoveEach(s: seq<Filter>, subs: seq<Filter>): seq<Filter>
    decreases |subs|
  {
    if subs == [] then s else RemoveByValue(RemoveEach(s, subs[..|subs| - 1]), subs[|subs| - 1].value)
  }

  /** One more turn of the sub-item loop removes one more sub-item's value. */
  lemma RemoveEachStep(s: seq<Filter>, subs: seq<Filter>, i: nat)
    requires i < |subs|
    ensures RemoveEach(s, subs[..i + 1]) == RemoveByValue(RemoveEach(s, subs[..i]), subs[i].value)
  {
    assert subs[..i + 1][..i] == subs[..i] && subs[..i + 1][i] == subs[i];
  }

  /** The remove branch: the item's value first, then each sub-item's. */
  function RemoveFilter(active: seq<Filter>, item: Filter, items: Option<seq<Filter>>): seq<Filter> {
    RemoveEach(RemoveByValue(active, item.value), SubItems(items))
  }

  /** The `activeFilters` array, which the remove branch splices in place. */
  class FilterArray {
    var filters: seq<Filter>

    constructor (initial: seq<Filter>)
      ensures filters == initial
    {
      filters := initial;
    }

    /** `activeFilters.splice(start, 1)` */
    method SpliceOne(start: int)
      modifies this
      ensures filters == Splice1(old(filters), start)
    {
      var st := start;
      if st < 0 {
        st := |filters| + st;
        if st < 0 { st := 0; }
      } else if st > |filters| {
        st := |filters|;
      }
      if st < |filters| {
        filters := filters[..st] + filters[st + 1..];
      }
    }

    /** The remove branch of the reducer, run on this array. */
    method Remove(item: Filter, items: Option<seq<Filter>>)
      modifies this
      ensures filters == RemoveFilter(old(filters), item, items)
    {
      SpliceOne(IndexOf(Values(filters), item.value));
      var subs := SubItems(items);
      ghost var first := filters;
      assert first == RemoveByValue(old(filters), item.value);
      var i := 0;
      while i < |subs|
        invariant 0 <= i <= |subs|
        invariant filters == RemoveEach(first, subs[..i])
      {
        SpliceOne(IndexOf(Values(filters), subs[i].value));
        RemoveEachStep(first, subs, i);
        i := i + 1;
      }
      assert subs[..i] == subs;
    }
  }

  // ---------------------------------------------------------------------------
  // What the reducer promises
  // ---------------------------------------------------------------------------

  /**
   * After an add, the values are pairwise distinct, the item's value is
   * present, every value that was active or added is present, and each kept
   * term is the last term with its value in the concatenation.
   */
  lemma AddFilterDeduplicates(active: seq<Filter>, item: Filter, items: Option<seq<Filter>>)
    ensures DistinctValues(AddFilter(active, item, items))
    ensures HasValue(AddFilter(active, item, items), item.value)
    ensures forall f :: f in active + SubItems(items) ==> HasValue(AddFilter(active, item, items), f.value)
    ensures forall f :: f in AddFilter(active, item, items) ==> KeptFrom(active + [item] + SubItems(items), f, 0)
  {
    var all := active + [item] + SubItems(items);
    KeepLastFromDistinct(all, 0);
    KeepLastFromSound(all, 0);
    KeepLastFromComplete(all, 0);
    assert all[|active|] == item;
    forall f | f in active + SubItems(items) ensures HasValue(AddFilter(active, item, items), f.value) {
      if f in active {
        var m :| 0 <= m < |active| && active[m] == f;
        assert all[m] == f;
      } else {
        var m :| 0 <= m < |SubItems(items)| && SubItems(items)[m] == f;
        assert all[|active| + 1 + m] == f;
      }
    }
  }

  /** The term added last wins: with no sub-item sharing its value, the item itself is kept. */
  lemma AddFilterKeepsItem(active: seq<Filter>, item: Filter, items: Option<seq<Filter>>)
    requires forall q :: 0 <= q < |SubItems(items)| ==> SubItems(items)[q].value != item.value
    ensures item in AddFilter(active, item, items)
  {
    var all := active + [item] + SubItems(items);
    var r := AddFilter(active, item, items);
    var m := |active|;
    assert all[m] == item;
    AddFilterDeduplicates(active, item, items);
    var j :| 0 <= j < |r| && r[j].value == item.value;
    assert r[j] in r;
    var m' :| 0 <= m' < |all| && r[j] == all[m'] && IsLastAt(all, m');
    assert m' == m;
  }

  /** Adding a term whose value is already active replaces it: one term, the new one (ignoring labels). */
  lemma AddSameValueTwice(a: Filter, b: Filter)
    requires a.value == b.value
    ensures AddFilter(AddFilter([], a, None), b, None) == [b]
  {
    var first := AddFilter([], a, None);
    assert [] + [a] + [] == [a];
    assert LastIndexOf(Values([a]), a.value) == 0;
    assert KeepLastFrom([a], Values([a]), 1) == [];
    assert first == [a];
    var all := [a] + [b] + [];
    assert all == [a, b];
    var vs := Values(all);
    assert LastIndexOf(vs, a.value) == 1;
    assert KeepLastFrom(all, vs, 2) == [];
    assert KeepLastFrom(all, vs, 1) == [b];
  }

  /** Taking out the term at `j` leaves one term fewer and loses exactly that term. */
  lemma DropOne(s: seq<Filter>, j: nat)
    requires j < |s|
    ensures |s[..j] + s[j + 1..]| == |s| - 1
    ensures multiset(s[..j] + s[j + 1..]) + multiset{s[j]} == multiset(s)
  {
    assert s == s[..j] + [s[j]] + s[j + 1..];
  }

  /** Removing a value that is active takes out exactly its first term and keeps the order of the rest. */
  lemma RemovePresentValue(s: seq<Filter>, v: Val, i: nat)
    requires i < |s| && s[i].value == v
    requires forall k :: 0 <= k < i ==> s[k].value != v
    ensures RemoveByValue(s, v) == s[..i] + s[i + 1..]
    ensures |RemoveByValue(s, v)| == |s| - 1
    ensures multiset(RemoveByValue(s, v)) + multiset{s[i]} == multiset(s)
  {
    var vs := Values(s);
    assert vs[i] == v;
    assert IndexOf(vs, v) == i;
    DropOne(s, i);
  }

  /** Removing a value that is not active: `indexOf` gives -1, and the LAST term is removed. */
  lemma RemoveAbsentValue(s: seq<Filter>, v: Val)
    requires forall k :: 0 <= k < |s| ==> s[k].value != v
    ensures s != [] ==> RemoveByValue(s, v) == s[..|s| - 1]
    ensures s == [] ==> RemoveByValue(s, v) == []
  {
    assert IndexOf(Values(s), v) == -1;
    if s != [] {
      assert s[|s| - 1 + 1..] == [];
    }
  }

  /** Each splice takes at most one term: the remove branch shrinks the list by at most 1 + the sub-items. */
  lemma {:induction false} RemoveFilterBound(active: seq<Filter>, item: Filter, items: Option<seq<Filter>>)
    ensures |RemoveFilter(active, item, items)| <= |active|
    ensures |RemoveFilter(active, item, items)| + 1 + |SubItems(items)| >= |active|
    ensures multiset(RemoveFilter(active, item, items)) <= multiset(active)
  {
    RemoveEachBound(RemoveByValue(active, item.value), SubItems(items));
    SpliceShrinks(active, IndexOf(Values(active), item.value));
  }

  lemma SpliceShrinks(s: seq<Filter>, start: int)
    ensures |s| - 1 <= |Splice1(s, start)| <= |s|
    ensures multiset(Splice1(s, start)) <= multiset(s)
  {
    var st := SpliceStart(|s|, start);
    if st < |s| {
      DropOne(s, st);
    }
  }

  lemma {:induction false} RemoveEachBound(s: seq<Filter>, subs: seq<Filter>)
    ensures |s| - |subs| <= |RemoveEach(s, subs)| <= |s|
    ensures multiset(RemoveEach(s, subs)) <= multiset(s)
    decreases |subs|
  {
    if subs != [] {
      var prev := RemoveEach(s, subs[..|subs| - 1]);
      RemoveEachBound(s, subs[..|subs| - 1]);
      SpliceShrinks(prev, IndexOf(Values(prev), subs[|subs| - 1].value));
    }
  }
}
