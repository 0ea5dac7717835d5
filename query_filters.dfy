/** The dynamic filter and ORDER BY builder: a field-to-value map becomes a chain of
    `where`/`andWhere` calls on a query builder, and `order_by_<column>` entries become
    `orderBy` calls. The query builder is modelled by the calls it receives, in order. */
module QueryFilters {
  import opened Common
  import opened Text

  /** The comparison operators a filter field may use (`FilterTypes`). */
  datatype FilterType = Like | Eq | Lt | Gt | Le | Ge

  function OperatorText(t: FilterType): string {
    match t
    case Like => "LIKE"
    case Eq => "="
    case Lt => "<"
    case Gt => ">"
    case Le => "<="
    case Ge => ">="
  }

  /** A filter value that is not null or undefined. */
  datatype Value = Str(s: string) | Num(n: int) | Date(epochMillis: int) | Bool(b: bool)

  /** One entry of `Object.entries(filters)`: a field name and its possibly missing value. */
  datatype Entry = Entry(field: string, value: Maybe<Value>)

  /** JavaScript truthiness of an entry value. */
  predicate Truthy(v: Maybe<Value>) {
    match v
    case Null => false
    case Undefined => false
    case Present(Str(s)) => s != ""
    case Present(Num(n)) => n != 0
    case Present(Bool(b)) => b
    case Present(Date(_)) => true
  }

  /** A call received by the query builder. */
  datatype Call =
    | Where(condition: string, params: map<string, Value>)
    | AndWhere(condition: string, params: map<string, Value>)
    | OrderBy(sort: string, order: Value)

  /** The query builder, reduced to the sequence of calls it has received. Replacing or
      appending semantics of `where` and `orderBy` are the ORM's and are not modelled. */
  class QueryBuilder {
    var calls: seq<Call>

    constructor()
      ensures calls == []
    {
      calls := [];
    }

    method Where(condition: string, params: map<string, Value>)
      modifies this
      ensures calls == old(calls) + [Call.Where(condition, params)]
    {
      calls := calls + [Call.Where(condition, params)];
    }

    method AndWhere(condition: string, params: map<string, Value>)
      modifies this
      ensures calls == old(calls) + [Call.AndWhere(condition, params)]
    {
      calls := calls + [Call.AndWhere(condition, params)];
    }

    method OrderBy(sort: string, order: Value)
      modifies this
      ensures calls == old(calls) + [Call.OrderBy(sort, order)]
    {
      calls := calls + [Call.OrderBy(sort, order)];
    }
  }

  /** How one of the builder functions finished: returned `undefined`, returned the
      builder, or threw an `Error` with the given message. */
  datatype Completion = ReturnsUndefined | ReturnsBuilder | Throws(message: string)

  // ---------------------------------------------------------------------------
  // applyQueryFilters

  /** The name of the parameter bound by the clause with index `k` (`<field>_<k>`). */
  function ParamName(field: string, k: nat): string {
    field + "_" + NatToString(k)
  }

  /** The clause text: the qualified column, case-folded for LIKE, the operator, and the
      named parameter. */
  function Condition(alias: string, field: string, t: FilterType, k: nat): string {
    var column := alias + "." + field;
    (if t == Like then "LOWER(" + column + ")" else column) + " " + OperatorText(t) + " :" + ParamName(field, k)
  }

  /** The value bound to the parameter: wrapped in `%` wildcards for LIKE on a string,
      otherwise the raw value. */
  function Bound(t: FilterType, v: Value): Value {
    if t == Like && v.Str? then Str("%" + v.s + "%") else v
  }

  /** The call issued for the clause with index `k`: `where` for the first, `andWhere` after. */
  function Clause(alias: string, field: string, t: FilterType, v: Value, k: nat): Call {
    var params := map[ParamName(field, k) := Bound(t, v)];
    if k == 0 then Where(Condition(alias, field, t, k), params)
    else AndWhere(Condition(alias, field, t, k), params)
  }

  function InvalidFilterMessage(field: string): string {
    "Invalid filter type provided for filter: " + field
  }

  /** What a run over some entries has emitted, and the message of the error that stopped
      it, if any. */
  datatype Run = Run(calls: seq<Call>, failure: Option<string>)

  /** The effect of `applyQueryFilters` on a non-empty entry list, entry by entry: nullish
      values are skipped, a field without an operator stops the run with an error, every
      other entry adds the clause whose index is the number of clauses so far. */
  function RunFilters(alias: string, entries: seq<Entry>, types: map<string, FilterType>): Run
  {
    if |entries| == 0 then Run([], None)
    else
      var prev := RunFilters(alias, entries[..|entries| - 1], types);
      var e := entries[|entries| - 1];
      if prev.failure.Some? || e.value.IsNullish() then prev
      else if e.field !in types then Run(prev.calls, Some(InvalidFilterMessage(e.field)))
      else Run(prev.calls + [Clause(alias, e.field, types[e.field], e.value.value, |prev.calls|)], None)
  }

  /** `applyQueryFilters(alias, queryBuilder, filters, filters_types)`. */
  method ApplyQueryFilters(alias: string, qb: QueryBuilder, filters: seq<Entry>, types: map<string, FilterType>)
    returns (r: Completion)
    modifies qb
    ensures |filters| == 0 ==> r == ReturnsUndefined && qb.calls == old(qb.calls)
    ensures |filters| > 0 ==>
      var run := RunFilters(alias, filters, types);
      qb.calls == old(qb.calls) + run.calls &&
      r == (if run.failure.Some? then Throws(run.failure.value) else ReturnsBuilder)
  {
    if |filters| == 0 {
      return ReturnsUndefined;
    }
    var index: nat := 0;
    var i := 0;
    while i < |filters|
      invariant 0 <= i <= |filters|
      invariant RunFilters(alias, filters[..i], types).failure.None?
      invariant qb.calls == old(qb.calls) + RunFilters(alias, filters[..i], types).calls
      invariant index == |RunFilters(alias, filters[..i], types).calls|
    {
      var filter, value := filters[i].field, filters[i].value;
      ghost var prev := RunFilters(alias, filters[..i], types);
      RunFiltersStep(alias, filters, types, i);
      if value.IsNullish() {
        i := i + 1;
        continue;
      }
      var parameterKey := filter + "_" + NatToString(index);
      var aliasWithFilter := alias + "." + filter;
      if filter !in types {
        FilterFailureSticks(alias, filters, types, i + 1);
        return Throws("Invalid filter type provided for filter: " + filter);
      }
      var filterType := types[filter];
      var condition := (if filterType == Like then "LOWER(" + aliasWithFilter + ")" else aliasWithFilter)
        + " " + OperatorText(filterType) + " :" + parameterKey;
      var bound := if filterType == Like && value.value.Str? then Str("%" + value.value.s + "%") else value.value;
      assert parameterKey == ParamName(filter, index);
      assert condition == Condition(alias, filter, filterType, index);
      if index == 0 {
        qb.Where(condition, map[parameterKey := bound]);
      } else {
        qb.AndWhere(condition, map[parameterKey := bound]);
      }
      index := index + 1;
      i := i + 1;
    }
    assert filters[..i] == filters;
    return ReturnsBuilder;
  }

  /** One more entry after an error-free prefix. */
  lemma RunFiltersStep(alias: string, entries: seq<Entry>, types: map<string, FilterType>, i: nat)
    requires i < |entries|
    requires RunFilters(alias, entries[..i], types).failure.None?
    ensures var prev := RunFilters(alias, entries[..i], types);
            var e := entries[i];
            RunFilters(alias, entries[..i + 1], types) ==
              if e.value.IsNullish() then prev
              else if e.field !in types then Run(prev.calls, Some(InvalidFilterMessage(e.field)))
              else Run(prev.calls + [Clause(alias, e.field, types[e.field], e.value.value, |prev.calls|)], None)
  {
    assert entries[..i + 1][..i] == entries[..i];
  }

  /** The entries a run does not skip, with their values unwrapped. */
  function NonNullish(entries: seq<Entry>): (r: seq<(string, Value)>)
    ensures |r| <= |entries|
  {
    if |entries| == 0 then []
    else
      var e := entries[|entries| - 1];
      NonNullish(entries[..|entries| - 1]) + (if e.value.IsNullish() then [] else [(e.field, e.value.value)])
  }

  /** The position of the first non-nullish entry whose field has no operator, or the
      number of entries when there is none. */
  function FirstUntyped(entries: seq<Entry>, types: map<string, FilterType>): (j: nat)
    ensures j <= |entries|
    ensures j < |entries| ==> !entries[j].value.IsNullish() && entries[j].field !in types
    ensures forall i :: 0 <= i < j ==> entries[i].value.IsNullish() || entries[i].field in types
  {
    if |entries| == 0 then 0
    else
      var p := FirstUntyped(entries[..|entries| - 1], types);
      var e := entries[|entries| - 1];
      if p < |entries| - 1 then p
      else if !e.value.IsNullish() && e.field !in types then |entries| - 1
      else |entries|
  }

  /** A run that has failed on a prefix of the entries ignores the rest. */
  lemma {:induction false} FilterFailureSticks(alias: string, entries: seq<Entry>, types: map<string, FilterType>, m: nat)
    requires m <= |entries|
    requires RunFilters(alias, entries[..m], types).failure.Some?
    ensures RunFilters(alias, entries, types) == RunFilters(alias, entries[..m], types)
  {
    if m < |entries| {
      var n := |entries| - 1;
      assert entries[..n][..m] == entries[..m];
      FilterFailureSticks(alias, entries[..n], types, m);
    } else {
      assert entries[..m] == entries;
    }
  }

  /** `calls` are exactly the clauses for the non-nullish entries `nn`, the k-th with index k. */
  ghost predicate ClausesFor(alias: string, nn: seq<(string, Value)>, types: map<string, FilterType>, calls: seq<Call>) {
    && |calls| == |nn|
    && forall k :: 0 <= k < |nn| ==>
         nn[k].0 in types && calls[k] == Clause(alias, nn[k].0, types[nn[k].0], nn[k].1, k)
  }

  lemma ClausesForSnoc(alias: string, nn: seq<(string, Value)>, types: map<string, FilterType>, calls: seq<Call>, f: string, v: Value)
    requires ClausesFor(alias, nn, types, calls)
    requires f in types
    ensures ClausesFor(alias, nn + [(f, v)], types, calls + [Clause(alias, f, types[f], v, |calls|)])
  {
  }

  /** What `RunFiltersCharacterized` states about `entries`. */
  ghost predicate Characterizes(alias: string, entries: seq<Entry>, types: map<string, FilterType>) {
    var j := FirstUntyped(entries, types);
    && ClausesFor(alias, NonNullish(entries[..j]), types, RunFilters(alias, entries, types).calls)
    && RunFilters(alias, entries, types).failure ==
       if j < |entries| then Some(InvalidFilterMessage(entries[j].field)) else None
  }

  /** The run, stated outright: it emits, for the k-th non-nullish entry before the first
      untyped one, the clause with index k, and fails exactly when an untyped non-nullish
      entry exists, naming its field. */
  lemma {:induction false} RunFiltersCharacterized(alias: string, entries: seq<Entry>, types: map<string, FilterType>)
    ensures ClausesFor(alias, NonNullish(entries[..FirstUntyped(entries, types)]), types, RunFilters(alias, entries, types).calls)
    ensures RunFilters(alias, entries, types).failure ==
            if FirstUntyped(entries, types) < |entries|
            then Some(InvalidFilterMessage(entries[FirstUntyped(entries, types)].field))
            else None
  {
    if |entries| == 0 {
      return;
    }
    var n := |entries| - 1;
    RunFiltersCharacterized(alias, entries[..n], types);
    var p := FirstUntyped(entries[..n], types);
    if p < n {
      CharacterizedPastFailure(alias, entries, types);
    } else if FirstUntyped(entries, types) == n {
      CharacterizedAtFailure(alias, entries, types);
    } else {
      CharacterizedExtended(alias, entries, types);
    }
  }

  /** Once a prefix has failed, a further entry changes neither the run nor the point of
      failure. */
  lemma CharacterizedPastFailure(alias: string, entries: seq<Entry>, types: map<string, FilterType>)
    requires |entries| > 0
    requires Characterizes(alias, entries[..|entries| - 1], types)
    requires FirstUntyped(entries[..|entries| - 1], types) < |entries| - 1
    ensures Characterizes(alias, entries, types)
  {
    var init := entries[..|entries| - 1];
    var p := FirstUntyped(init, types);
    assert FirstUntyped(entries, types) == p;
    assert init[..p] == entries[..p];
    assert RunFilters(alias, entries, types) == RunFilters(alias, init, types);
  }

  /** The last entry is the first untyped one: the run fails on it, with the clauses of
      the prefix. */
  lemma CharacterizedAtFailure(alias: string, entries: seq<Entry>, types: map<string, FilterType>)
    requires |entries| > 0
    requires Characterizes(alias, entries[..|entries| - 1], types)
    requires FirstUntyped(entries[..|entries| - 1], types) == |entries| - 1
    requires FirstUntyped(entries, types) == |entries| - 1
    ensures Characterizes(alias, entries, types)
  {
    var n := |entries| - 1;
    var init := entries[..n];
    assert init[..n] == init && entries[..n] == init;
    var prev := RunFilters(alias, init, types);
    assert RunFilters(alias, entries, types) == Run(prev.calls, Some(InvalidFilterMessage(entries[n].field)));
  }

  /** No entry is untyped: the last one is skipped when nullish and adds the next clause
      otherwise. */
  lemma CharacterizedExtended(alias: string, entries: seq<Entry>, types: map<string, FilterType>)
    requires |entries| > 0
    requires Characterizes(alias, entries[..|entries| - 1], types)
    requires FirstUntyped(entries[..|entries| - 1], types) == |entries| - 1
    requires FirstUntyped(entries, types) == |entries|
    ensures Characterizes(alias, entries, types)
  {
    if entries[|entries| - 1].value.IsNullish() {
      CharacterizedSkip(alias, entries, types);
    } else {
      CharacterizedClause(alias, entries, types);
    }
  }

  lemma CharacterizedSkip(alias: string, entries: seq<Entry>, types: map<string, FilterType>)
    requires |entries| > 0 && entries[|entries| - 1].value.IsNullish()
    requires Characterizes(alias, entries[..|entries| - 1], types)
    requires FirstUntyped(entries[..|entries| - 1], types) == |entries| - 1
    requires FirstUntyped(entries, types) == |entries|
    ensures Characterizes(alias, entries, types)
  {
    var init := entries[..|entries| - 1];
    assert init[..|init|] == init && entries[..|entries|] == entries;
    assert RunFilters(alias, entries, types) == RunFilters(alias, init, types);
    assert NonNullish(entries) == NonNullish(init);
  }

  lemma CharacterizedClause(alias: string, entries: seq<Entry>, types: map<string, FilterType>)
    requires |entries| > 0 && !entries[|entries| - 1].value.IsNullish()
    requires Characterizes(alias, entries[..|entries| - 1], types)
    requires FirstUntyped(entries[..|entries| - 1], types) == |entries| - 1
    requires FirstUntyped(entries, types) == |entries|
    ensures Characterizes(alias, entries, types)
  {
    var init := entries[..|entries| - 1];
    var e := entries[|entries| - 1];
    assert init[..|init|] == init && entries[..|entries|] == entries;
    var prev := RunFilters(alias, init, types);
    assert e.field in types;
    assert RunFilters(alias, entries, types) ==
           Run(prev.calls + [Clause(alias, e.field, types[e.field], e.value.value, |prev.calls|)], None);
    assert NonNullish(entries) == NonNullish(init) + [(e.field, e.value.value)];
    ClausesForSnoc(alias, NonNullish(init), types, prev.calls, e.field, e.value.value);
  }

  /** The candidate filters without a value impose nothing: the run emits no call and
      cannot fail. */
  lemma AllNullishEmitsNothing(alias: string, entries: seq<Entry>, types: map<string, FilterType>)
    requires forall i :: 0 <= i < |entries| ==> entries[i].value.IsNullish()
    ensures RunFilters(alias, entries, types) == Run([], None)
  {
    RunFiltersCharacterized(alias, entries, types);
    NonNullishOfNullish(entries[..FirstUntyped(entries, types)]);
  }

  lemma {:induction false} NonNullishOfNullish(entries: seq<Entry>)
    requires forall i :: 0 <= i < |entries| ==> entries[i].value.IsNullish()
    ensures NonNullish(entries) == []
  {
    if |entries| > 0 {
      NonNullishOfNullish(entries[..|entries| - 1]);
    }
  }

  /** When every non-nullish field has an operator the run succeeds with one clause per
      non-nullish entry, the first a `where` and every later one an `andWhere`. */
  lemma WellTypedRun(alias: string, entries: seq<Entry>, types: map<string, FilterType>)
    requires forall i :: 0 <= i < |entries| && !entries[i].value.IsNullish() ==> entries[i].field in types
    ensures var run := RunFilters(alias, entries, types);
            && run.failure.None?
            && |run.calls| == |NonNullish(entries)|
            && (forall k :: 0 <= k < |run.calls| ==> (run.calls[k].Where? <==> k == 0))
            && (forall k :: 0 <= k < |run.calls| ==> run.calls[k].Where? || run.calls[k].AndWhere?)
  {
    RunFiltersCharacterized(alias, entries, types);
    assert FirstUntyped(entries, types) == |entries|;
    assert entries[..|entries|] == entries;
  }

  /** Parameter names of different clauses never collide, whatever their fields. */
  lemma ParamNamesDistinct(f1: string, k1: nat, f2: string, k2: nat)
    requires k1 != k2
    ensures ParamName(f1, k1) != ParamName(f2, k2)
  {
    if ParamName(f1, k1) == ParamName(f2, k2) {
      DigitsHaveNoUnderscore(NatToString(k1));
      DigitsHaveNoUnderscore(NatToString(k2));
      assert f1 + "_" + NatToString(k1) == f1 + ['_'] + NatToString(k1);
      assert f2 + "_" + NatToString(k2) == f2 + ['_'] + NatToString(k2);
      SeparatedTailUnique(f1, NatToString(k1), f2, NatToString(k2), '_');
      NatToStringInjective(k1, k2);
    }
  }

  lemma DigitsHaveNoUnderscore(s: string)
    requires forall k :: 0 <= k < |s| ==> IsDigit(s[k])
    ensures '_' !in s
  {
    forall k | 0 <= k < |s|
      ensures s[k] != '_'
    {
      assert IsDigit(s[k]);
    }
  }

  /** Within one run, the clauses bind pairwise different parameter names. */
  lemma RunParamNamesDistinct(alias: string, entries: seq<Entry>, types: map<string, FilterType>, k1: nat, k2: nat)
    requires var run := RunFilters(alias, entries, types); k1 < k2 < |run.calls|
    ensures var run := RunFilters(alias, entries, types);
            && (run.calls[k1].Where? || run.calls[k1].AndWhere?)
            && (run.calls[k2].Where? || run.calls[k2].AndWhere?)
            && run.calls[k1].params.Keys !! run.calls[k2].params.Keys
  {
    RunFiltersCharacterized(alias, entries, types);
    var nn := NonNullish(entries[..FirstUntyped(entries, types)]);
    ParamNamesDistinct(nn[k1].0, k1, nn[k2].0, k2);
  }

  /** A LIKE clause on a string folds the column to lower case and binds `%value%`; any
      other operator compares the bare column with the raw value. */
  lemma LikeWrapsStrings(alias: string, field: string, t: FilterType, v: Value, k: nat)
    ensures var c := Clause(alias, field, t, v, k);
            && c.params == map[ParamName(field, k) := if t == Like && v.Str? then Str("%" + v.s + "%") else v]
            && (t == Like ==> StartsWith(c.condition, "LOWER(" + alias + "." + field + ") LIKE "))
            && (t != Like ==> StartsWith(c.condition, alias + "." + field + " " + OperatorText(t) + " "))
  {
    var column := alias + "." + field;
    if t == Like {
      assert Condition(alias, field, t, k) == ("LOWER(" + column + ") LIKE ") + (":" + ParamName(field, k));
    } else {
      assert Condition(alias, field, t, k) == (column + " " + OperatorText(t) + " ") + (":" + ParamName(field, k));
    }
  }

  // ---------------------------------------------------------------------------
  // applyOrderByFilters

  const OrderByPrefix: string := "order_by_"

  /** The effect of `applyOrderByFilters` once some value is truthy, entry by entry: a key
      without the `order_by_` prefix stops the run with an empty error message, a truthy
      value orders by the column the key names, a falsy one does nothing. */
  function RunOrderBy(alias: string, entries: seq<Entry>): Run
  {
    if |entries| == 0 then Run([], None)
    else
      var prev := RunOrderBy(alias, entries[..|entries| - 1]);
      var e := entries[|entries| - 1];
      if prev.failure.Some? then prev
      else if !StartsWith(e.field, OrderByPrefix) then Run(prev.calls, Some(""))
      else if Truthy(e.value) then
        Run(prev.calls + [OrderBy(alias + "." + ReplaceFirst(e.field, OrderByPrefix, ""), e.value.value)], None)
      else prev
  }

  /** `applyOrderByFilters(alias, queryBuilder, filters)`. */
  method ApplyOrderByFilters(alias: string, qb: QueryBuilder, filters: seq<Entry>) returns (r: Completion)
    modifies qb
    ensures (forall i :: 0 <= i < |filters| ==> !Truthy(filters[i].value)) ==>
      r == ReturnsUndefined && qb.calls == old(qb.calls)
    ensures (exists i :: 0 <= i < |filters| && Truthy(filters[i].value)) ==>
      var run := RunOrderBy(alias, filters);
      qb.calls == old(qb.calls) + run.calls &&
      r == (if run.failure.Some? then Throws(run.failure.value) else ReturnsBuilder)
  {
    var allFalsy := true;
    var j := 0;
    while j < |filters|
      invariant 0 <= j <= |filters|
      invariant allFalsy <==> forall i :: 0 <= i < j ==> !Truthy(filters[i].value)
    {
      if Truthy(filters[j].value) {
        allFalsy := false;
      }
      j := j + 1;
    }
    if allFalsy {
      return ReturnsUndefined;
    }
    var i := 0;
    while i < |filters|
      invariant 0 <= i <= |filters|
      invariant RunOrderBy(alias, filters[..i]).failure.None?
      invariant qb.calls == old(qb.calls) + RunOrderBy(alias, filters[..i]).calls
    {
      var key, value := filters[i].field, filters[i].value;
      assert filters[..i + 1][..i] == filters[..i];
      if !StartsWith(key, "order_by_") {
        OrderByFailureSticks(alias, filters, i + 1);
        return Throws("");
      }
      var column := ReplaceFirst(key, "order_by_", "");
      if Truthy(value) {
        qb.OrderBy(alias + "." + column, value.value);
      }
      i := i + 1;
    }
    assert filters[..i] == filters;
    return ReturnsBuilder;
  }

  /** A run that has failed on a prefix of the entries ignores the rest. */
  lemma {:induction false} OrderByFailureSticks(alias: string, entries: seq<Entry>, m: nat)
    requires m <= |entries|
    requires RunOrderBy(alias, entries[..m]).failure.Some?
    ensures RunOrderBy(alias, entries) == RunOrderBy(alias, entries[..m])
  {
    if m < |entries| {
      var n := |entries| - 1;
      assert entries[..n][..m] == entries[..m];
      OrderByFailureSticks(alias, entries[..n], m);
    } else {
      assert entries[..m] == entries;
    }
  }

  /** The truthy entries, as (column, value) pairs with the `order_by_` prefix removed. */
  function TruthyOrders(entries: seq<Entry>): seq<(string, Value)>
    requires forall i :: 0 <= i < |entries| ==> StartsWith(entries[i].field, OrderByPrefix)
  {
    if |entries| == 0 then []
    else
      var e := entries[|entries| - 1];
      assert StartsWith(e.field, OrderByPrefix);
      TruthyOrders(entries[..|entries| - 1])
        + (if Truthy(e.value) then [(e.field[|OrderByPrefix|..], e.value.value)] else [])
  }

  /** The position of the first key without the `order_by_` prefix, or the number of
      entries when there is none. */
  function FirstBadKey(entries: seq<Entry>): (j: nat)
    ensures j <= |entries|
    ensures j < |entries| ==> !StartsWith(entries[j].field, OrderByPrefix)
    ensures forall i :: 0 <= i < j ==> StartsWith(entries[i].field, OrderByPrefix)
  {
    if |entries| == 0 then 0
    else
      var p := FirstBadKey(entries[..|entries| - 1]);
      if p < |entries| - 1 then p
      else if !StartsWith(entries[|entries| - 1].field, OrderByPrefix) then |entries| - 1
      else |entries|
  }

  /** `calls` are exactly one `orderBy(<alias>.<column>, value)` per pair of `orders`. */
  ghost predicate OrdersFor(alias: string, orders: seq<(string, Value)>, calls: seq<Call>) {
    && |calls| == |orders|
    && forall k :: 0 <= k < |orders| ==> calls[k] == OrderBy(alias + "." + orders[k].0, orders[k].1)
  }

  /** The order-by run, stated outright: one `orderBy(<alias>.<column>, value)` per truthy
      entry before the first key without the prefix, in entry order, and an error exactly
      when such a key exists. */
  lemma {:induction false} RunOrderByCharacterized(alias: string, entries: seq<Entry>)
    ensures var j := FirstBadKey(entries);
            OrdersFor(alias, TruthyOrders(entries[..j]), RunOrderBy(alias, entries).calls)
    ensures RunOrderBy(alias, entries).failure == if FirstBadKey(entries) < |entries| then Some("") else None
  {
    if |entries| == 0 {
      return;
    }
    var n := |entries| - 1;
    var init := entries[..n];
    var e := entries[n];
    RunOrderByCharacterized(alias, init);
    var p := FirstBadKey(init);
    var j := FirstBadKey(entries);
    assert init[..p] == entries[..p];
    if p < n {
      assert j == p;
      return;
    }
    assert init[..p] == init;
    if j == n {
      assert entries[..j] == init;
      return;
    }
    assert entries[..j] == entries;
    assert entries[..n] == init;
    ReplacePrefixDrops(e.field, OrderByPrefix);
  }
}
