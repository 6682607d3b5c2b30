/** Reading from the in-memory database: filter, sort, paginate, select, count. */
module Query {
  import opened Basics
  import opened StableSort
  import opened Filters

  type Table = map<string, Record>

  datatype QueryParams = QueryParams(filters: map<string, Json>, select: seq<string>, orderBy: Option<string>,
                                     orderDesc: bool, offset: Option<nat>, limit: Option<nat>)

  /** The order in which a hash map happens to iterate; fixed while the map is not modified. */
  ghost predicate Enumerates(order: seq<string>, table: Table) {
    NoDup(order) && Elems(order) == table.Keys
  }

  function Rows(table: Table, order: seq<string>): (rows: seq<Record>)
    requires forall id :: id in order ==> id in table
    ensures |rows| == |order|
  {
    seq(|order|, i requires 0 <= i < |order| => table[order[i]])
  }

  ghost function Matching(env: Env, rows: seq<Record>, filters: map<string, Json>): seq<Record> {
    if rows == [] then [] else
    Matching(env, rows[..|rows| - 1], filters)
    + if MatchesFilters(env, rows[|rows| - 1], filters) then [rows[|rows| - 1]] else []
  }

  ghost function Arranged(env: Env, rows: seq<Record>, params: QueryParams): seq<Record> {
    if params.orderBy.None? then rows
    else SortBy(Comparator(env, params.orderBy.value, params.orderDesc), rows)
  }

  ghost function Window(rows: seq<Record>, offset: Option<nat>, limit: Option<nat>): seq<Record> {
    var rest := if offset.None? then rows else if offset.value < |rows| then rows[offset.value..] else [];
    if limit.Some? && limit.value < |rest| then rest[..limit.value] else rest
  }

  ghost function Selected(record: Record, select: seq<string>): Record {
    if select == [] then record else map f | f in select && f in record :: record[f]
  }

  ghost function Project(rows: seq<Record>, select: seq<string>): (r: seq<Record>)
    ensures |r| == |rows|
  {
    seq(|rows|, i requires 0 <= i < |rows| => Selected(rows[i], select))
  }

  ghost function QueryRows(env: Env, rows: seq<Record>, params: QueryParams): seq<Record> {
    Project(Window(Arranged(env, Matching(env, rows, params.filters), params), params.offset, params.limit),
            params.select)
  }

  // ---- The operations -------------------------------------------------------------------------

  method ApplyPagination(env: Env, records: seq<Record>, params: QueryParams) returns (page: seq<Record>)
    ensures page == Window(Arranged(env, records, params), params.offset, params.limit)
  {
    page := records;
    if params.orderBy.Some? {
      page := SortBy(Comparator(env, params.orderBy.value, params.orderDesc), page);
    }
    if params.offset.Some? {
      if params.offset.value < |page| {
        page := page[params.offset.value..];
      } else {
        page := [];
      }
    }
    if params.limit.Some? && params.limit.value < |page| {
      page := page[..params.limit.value];
    }
  }

  method SelectFields(record: Record, select: seq<string>) returns (result: Record)
    ensures result == Selected(record, select)
  {
    if select == [] {
      return record;
    }
    result := map[];
    for i := 0 to |select|
      invariant result == map f | f in select[..i] && f in record :: record[f]
    {
      assert select[..i + 1] == select[..i] + [select[i]];
      if select[i] in record {
        result := result[select[i] := record[select[i]]];
      }
    }
    assert select[..|select|] == select;
  }

  method QueryTable(env: Env, table: Table, params: QueryParams, order: seq<string>) returns (records: seq<Record>)
    requires forall id :: id in order ==> id in table
    ensures records == QueryRows(env, Rows(table, order), params)
  {
    var rows, filtered := Rows(table, order), [];
    for i := 0 to |rows|
      invariant filtered == Matching(env, rows[..i], params.filters)
    {
      assert rows[..i + 1][..i] == rows[..i];
      if MatchesFilters(env, rows[i], params.filters) {
        filtered := filtered + [rows[i]];
      }
    }
    assert rows[..|rows|] == rows;
    var page := ApplyPagination(env, filtered, params);
    records := [];
    for i := 0 to |page|
      invariant records == Project(page[..i], params.select)
    {
      var record := SelectFields(page[i], params.select);
      records := records + [record];
    }
    assert page[..|page|] == page;
  }

  method CountTable(env: Env, table: Table, params: QueryParams, order: seq<string>) returns (count: nat)
    requires forall id :: id in order ==> id in table
    ensures count == |Matching(env, Rows(table, order), params.filters)|
  {
    var rows := Rows(table, order);
    count := 0;
    for i := 0 to |rows|
      invariant count == |Matching(env, rows[..i], params.filters)|
    {
      assert rows[..i + 1][..i] == rows[..i];
      if MatchesFilters(env, rows[i], params.filters) {
        count := count + 1;
      }
    }
    assert rows[..|rows|] == rows;
  }

  // ---- The whole result -------------------------------------------------------------------------

  lemma {:induction false} MatchingMembers(env: Env, rows: seq<Record>, filters: map<string, Json>)
    ensures forall r :: r in Matching(env, rows, filters) <==> r in rows && MatchesFilters(env, r, filters)
  {
    if rows != [] {
      assert rows == rows[..|rows| - 1] + [rows[|rows| - 1]];
      MatchingMembers(env, rows[..|rows| - 1], filters);
    }
  }

  /** The matching records come in iteration order, each as often as it is there. */
  lemma {:induction false} MatchingConcat(env: Env, a: seq<Record>, b: seq<Record>, filters: map<string, Json>)
    ensures Matching(env, a + b, filters) == Matching(env, a, filters) + Matching(env, b, filters)
    ensures |b| == 1 ==> Matching(env, b, filters) == if MatchesFilters(env, b[0], filters) then b else []
  {
    if b == [] {
      assert a + b == a;
    } else {
      assert (a + b)[..|a + b| - 1] == a + b[..|b| - 1];
      MatchingConcat(env, a, b[..|b| - 1], filters);
    }
  }

  /** r has the selected fields of another record, or all of them when none is selected. */
  ghost predicate Picked(r: Record, from: Record, select: seq<string>) {
    forall f :: Field(r, f) == if select == [] || f in select then Field(from, f) else None
  }

  lemma WindowAt(rows: seq<Record>, offset: Option<nat>, limit: Option<nat>)
    ensures var r, start := Window(rows, offset, limit), if offset.Some? then offset.value else 0;
            && (start >= |rows| ==> r == [])
            && (start < |rows| ==> |r| == if limit.Some? && limit.value < |rows| - start then limit.value
                                          else |rows| - start)
            && forall i :: 0 <= i < |r| ==> start + i < |rows| && r[i] == rows[start + i]
  {
  }

  lemma SelectedIsPicked(record: Record, select: seq<string>)
    ensures Picked(Selected(record, select), record, select)
  {
  }

  /** Offset, limit and selection, each given or not: the records of the result are those of the whole result from the
      offset on, as many as there are up to the limit, reduced to the selected fields; without an order the whole result
      is the matching records in iteration order. */
  lemma ResultIsWindow(env: Env, rows: seq<Record>, params: QueryParams)
    ensures var whole := QueryRows(env, rows, params.(offset := None, limit := None, select := []));
            var r, start := QueryRows(env, rows, params), if params.offset.Some? then params.offset.value else 0;
            && (params.orderBy.None? ==> whole == Matching(env, rows, params.filters))
            && (start >= |whole| ==> r == [])
            && (start < |whole| ==> |r| == if params.limit.Some? && params.limit.value < |whole| - start
                                           then params.limit.value else |whole| - start)
            && forall i :: 0 <= i < |r| ==> start + i < |whole| && Picked(r[i], whole[start + i], params.select)
  {
    var all := Arranged(env, Matching(env, rows, params.filters), params);
    WholeIsArranged(env, rows, params);
    WindowAt(all, params.offset, params.limit);
    var r := QueryRows(env, rows, params);
    forall i | 0 <= i < |r| ensures Picked(r[i], Window(all, params.offset, params.limit)[i], params.select) {
      SelectedIsPicked(Window(all, params.offset, params.limit)[i], params.select);
    }
  }

  lemma WholeIsArranged(env: Env, rows: seq<Record>, params: QueryParams)
    ensures QueryRows(env, rows, params.(offset := None, limit := None, select := []))
            == Arranged(env, Matching(env, rows, params.filters), params)
  {
    ProjectAll(Arranged(env, Matching(env, rows, params.filters), params));
  }

  ghost predicate NullsLast(rows: seq<Record>, field: string) {
    forall i, j :: 0 <= i < j < |rows| && IsNull(Field(rows[i], field)) ==> IsNull(Field(rows[j], field))
  }

  /** The column's non-null values climb, or descend. */
  ghost predicate Ranked(env: Env, rows: seq<Record>, field: string, desc: bool) {
    forall i, j :: 0 <= i < j < |rows| && !IsNull(Field(rows[i], field)) && !IsNull(Field(rows[j], field)) ==>
                     var a, b := Field(rows[i], field).value, Field(rows[j], field).value;
                     if desc then MayPrecede(env, b, a) else MayPrecede(env, a, b)
  }

  lemma OrderedIsRanked(env: Env, rows: seq<Record>, field: string, desc: bool)
    requires Ordered(Comparator(env, field, desc), rows)
    ensures Ranked(env, rows, field, desc) && NullsLast(rows, field)
  {
    forall i, j | 0 <= i < j < |rows|
      ensures IsNull(Field(rows[i], field)) ==> IsNull(Field(rows[j], field))
      ensures !IsNull(Field(rows[i], field)) && !IsNull(Field(rows[j], field)) ==>
                var a, b := Field(rows[i], field).value, Field(rows[j], field).value;
                if desc then MayPrecede(env, b, a) else MayPrecede(env, a, b)
    {
      assert Leq(Comparator(env, field, desc), rows[i], rows[j]);
      if !IsNull(Field(rows[i], field)) && !IsNull(Field(rows[j], field)) {
        CompareMeansPrecede(env, Field(rows[i], field).value, Field(rows[j], field).value);
      }
    }
  }

  /** When the comparator is a total preorder on them, the unpaginated result is an ordered permutation of the
      matching records, nulls last in both directions, ties in iteration order; and any result with these
      properties is this one. */
  lemma OrderedResult(env: Env, rows: seq<Record>, params: QueryParams)
    requires params.orderBy.Some? && params.offset.None? && params.limit.None? && params.select == []
    requires TextsAgree(env, params.orderBy.value, Elems(Matching(env, rows, params.filters)))
    ensures var field, cmp := params.orderBy.value, Comparator(env, params.orderBy.value, params.orderDesc);
            var matching, r := Matching(env, rows, params.filters), QueryRows(env, rows, params);
            && multiset(r) == multiset(matching) && Ordered(cmp, r)
            && Ranked(env, r, field, params.orderDesc) && NullsLast(r, field)
            && SameTies(cmp, r, matching, Elems(matching))
            && forall other: seq<Record> ::
                 (multiset(other) == multiset(matching) && Ordered(cmp, other)
                  && SameTies(cmp, other, matching, Elems(matching))) ==> other == r
  {
    var field, cmp := params.orderBy.value, Comparator(env, params.orderBy.value, params.orderDesc);
    var matching, r := Matching(env, rows, params.filters), QueryRows(env, rows, params);
    var dom := Elems(matching);
    assert r == SortBy(cmp, matching) by { ProjectAll(SortBy(cmp, matching)); }
    ComparatorIsPreorderIff(env, field, params.orderDesc, dom);
    SortOrders(cmp, matching, dom);
    SortKeepsTies(cmp, matching, dom);
    SameElements(r, matching);
    OrderedIsRanked(env, r, field, params.orderDesc);
    forall other: seq<Record> | multiset(other) == multiset(matching) && Ordered(cmp, other)
                                && SameTies(cmp, other, matching, dom)
      ensures other == r
    {
      SameElements(other, matching);
      StableSortUnique(cmp, other, r, dom);
    }
  }

  lemma ProjectAll(rows: seq<Record>)
    ensures Project(rows, []) == rows
  {
  }

  // ---- Pages ------------------------------------------------------------------------------------

  ghost function PageParams(params: QueryParams, offset: nat, limit: nat): QueryParams {
    params.(offset := Some(offset), limit := Some(limit))
  }

  /** The first m pages of k records each, one after the other. */
  ghost function Pages(env: Env, rows: seq<Record>, params: QueryParams, k: nat, m: nat): seq<Record> {
    if m == 0 then [] else
    Pages(env, rows, params, k, m - 1) + QueryRows(env, rows, PageParams(params, (m - 1) * k, k))
  }

  /** Whatever the order and selection, the first m pages are the first m * k records of the whole result. */
  lemma {:induction false} PagesArePrefix(env: Env, rows: seq<Record>, params: QueryParams, k: nat, m: nat)
    requires params.offset.None? && params.limit.None?
    ensures var whole := QueryRows(env, rows, params);
            Pages(env, rows, params, k, m) == Upto(whole, m * k)
  {
    if m == 0 {
      assert m * k == 0;
    } else {
      var all, start := Arranged(env, Matching(env, rows, params.filters), params), (m - 1) * k;
      assert m * k == start + k;
      PagesArePrefix(env, rows, params, k, m - 1);
      OnePageMore(all, params.select, start, k);
      WholeIsProjection(env, rows, params, start, k);
    }
  }

  lemma WholeIsProjection(env: Env, rows: seq<Record>, params: QueryParams, start: nat, k: nat)
    requires params.offset.None? && params.limit.None?
    ensures var all := Arranged(env, Matching(env, rows, params.filters), params);
            && QueryRows(env, rows, params) == Project(all, params.select)
            && QueryRows(env, rows, PageParams(params, start, k))
               == Project(Window(all, Some(start), Some(k)), params.select)
  {
  }

  ghost function Upto(rows: seq<Record>, n: nat): seq<Record> {
    if n < |rows| then rows[..n] else rows
  }

  lemma OnePageMore(all: seq<Record>, select: seq<string>, start: nat, k: nat)
    ensures var whole := Project(all, select);
            Upto(whole, start) + Project(Window(all, Some(start), Some(k)), select) == Upto(whole, start + k)
  {
    var whole, page := Project(all, select), Project(Window(all, Some(start), Some(k)), select);
    if start >= |all| {
      assert page == [];
    } else if start + k < |all| {
      assert page == whole[start..start + k];
    } else {
      assert page == whole[start..];
    }
  }

  /** The pages at offsets 0, k, 2k, ... concatenate to exactly the unpaginated result, for every k > 0. */
  lemma PagesConcatenate(env: Env, rows: seq<Record>, params: QueryParams, k: nat, m: nat)
    requires params.offset.None? && params.limit.None?
    requires k > 0 && m * k >= |QueryRows(env, rows, params)|
    ensures Pages(env, rows, params, k, m) == QueryRows(env, rows, params)
  {
    PagesArePrefix(env, rows, params, k, m);
  }

  // ---- Complementary filters ----------------------------------------------------------------------

  /** How many records match the base filters and have the field, present and not null. */
  ghost function CountPresent(env: Env, rows: seq<Record>, base: map<string, Json>, field: string): nat {
    if rows == [] then 0 else
    var r := rows[|rows| - 1];
    CountPresent(env, rows[..|rows| - 1], base, field)
    + if MatchesFilters(env, r, base) && !IsNull(Field(r, field)) then 1 else 0
  }

  /** The counts for lt and gte (and for gt and lte) add up to the records that have the field. */
  lemma {:induction false} ComplementCounts(env: Env, rows: seq<Record>, base: map<string, Json>, field: string,
                                            filter: Json, op: string, other: string)
    requires Complements(op, other)
    requires field + "__" + op !in base && field + "__" + other !in base
    ensures |Matching(env, rows, base[field + "__" + op := filter])|
            + |Matching(env, rows, base[field + "__" + other := filter])|
            == CountPresent(env, rows, base, field)
  {
    if rows != [] {
      ComplementCounts(env, rows[..|rows| - 1], base, field, filter, op, other);
      ComplementsSplit(env, rows[|rows| - 1], base, field, filter, op, other);
    }
  }
}
