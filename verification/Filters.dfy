/** JSON values, their comparison, and the filter language of the in-memory database. */
module Filters {
  import opened Basics
  import opened StableSort
  import NameOrder
  import Text

  datatype Number = Int(i: int) | Float(r: real) {
    /** `as_f64`, without rounding. */
    function Value(): real {
      match this
      case Int(i) => i as real
      case Float(r) => r
    }
  }

  datatype Json =
    | Null
    | Bool(b: bool)
    | Num(n: Number)
    | Str(s: string)
    | Arr(items: seq<Json>)
    | Obj(fields: map<string, Json>)

  type Record = map<string, Json>

  /** Foreign text functions: JSON printing and Unicode lower-casing. */
  datatype Env = Env(display: Json -> string, lower: string -> string)

  function Field(record: Record, field: string): Option<Json> {
    if field in record then Some(record[field]) else None
  }

  predicate IsNull(v: Option<Json>) {
    v.None? || v.value.Null?
  }

  // ---- Comparison -----------------------------------------------------------------------------

  function CompareReals(a: real, b: real): Ordering {
    if a < b then Less else if a == b then Equal else Greater
  }

  function CompareStrings(a: string, b: string): Ordering {
    if a == b then Equal else if NameOrder.Le(a, b) then Less else Greater
  }

  function TextOf(env: Env, v: Json): string {
    if v.Str? then v.s else env.display(v)
  }

  function CompareValues(env: Env, a: Option<Json>, b: Option<Json>): Ordering {
    if IsNull(a) && IsNull(b) then Equal
    else if IsNull(a) then Greater
    else if IsNull(b) then Less
    else if a.value.Num? && b.value.Num? then CompareReals(a.value.n.Value(), b.value.n.Value())
    else CompareStrings(TextOf(env, a.value), TextOf(env, b.value))
  }

  /** The comparator of a query: nulls last in both directions. */
  function CompareOn(env: Env, field: string, desc: bool, a: Record, b: Record): Ordering {
    var av, bv := Field(a, field), Field(b, field);
    match (IsNull(av), IsNull(bv))
    case (true, true) => Equal
    case (true, false) => Greater
    case (false, true) => Less
    case (false, false) =>
      var cmp := CompareValues(env, av, bv);
      if desc then cmp.Reverse() else cmp
  }

  function Comparator(env: Env, field: string, desc: bool): Comparison<Record> {
    (a: Record, b: Record) => CompareOn(env, field, desc, a, b)
  }

  lemma CompareStringsLaws(a: string, b: string, c: string)
    ensures CompareStrings(b, a) == CompareStrings(a, b).Reverse()
    ensures CompareStrings(a, b) != Greater <==> NameOrder.Le(a, b)
    ensures CompareStrings(a, b) == Equal <==> NameOrder.Le(a, b) && NameOrder.Le(b, a)
    ensures NameOrder.Le(a, b) && NameOrder.Le(b, c) ==> NameOrder.Le(a, c)
  {
    NameOrder.LeTotal(a, b);
    NameOrder.LeTotal(a, a);
    if NameOrder.Le(a, b) && NameOrder.Le(b, a) {
      NameOrder.LeAntisymmetric(a, b);
    }
    if NameOrder.Le(a, b) && NameOrder.Le(b, c) {
      NameOrder.LeTransitive(a, b, c);
    }
  }

  /** One value may stand before another in a sorted column: by number, or else by text. */
  ghost predicate MayPrecede(env: Env, a: Json, b: Json) {
    if a.Num? && b.Num? then a.n.Value() <= b.n.Value() else NameOrder.Le(TextOf(env, a), TextOf(env, b))
  }

  lemma CompareMeansPrecede(env: Env, a: Json, b: Json)
    requires !a.Null? && !b.Null?
    ensures CompareValues(env, Some(a), Some(b)) != Greater <==> MayPrecede(env, a, b)
    ensures CompareValues(env, Some(a), Some(b)) != Less <==> MayPrecede(env, b, a)
    ensures CompareValues(env, Some(b), Some(a)) == CompareValues(env, Some(a), Some(b)).Reverse()
  {
    CompareStringsLaws(TextOf(env, a), TextOf(env, b), TextOf(env, b));
    CompareStringsLaws(TextOf(env, b), TextOf(env, a), TextOf(env, a));
  }

  /** A text that stands between the texts of two numbers agrees with the order of the numbers. */
  ghost predicate TextAgrees(env: Env, a: Json, b: Json, c: Json)
    requires a.Num? && b.Num?
  {
    var ta, tb, tc := TextOf(env, a), TextOf(env, b), TextOf(env, c);
    NameOrder.Le(ta, tc) && NameOrder.Le(tc, tb) ==>
      a.n.Value() <= b.n.Value() && (a.n.Value() == b.n.Value() ==> ta == tc == tb)
  }

  /** For every two numbers of the column and every other non-null value of it. */
  ghost predicate TextsAgree(env: Env, field: string, records: set<Record>) {
    forall a, b, c {:trigger Field(a, field), Field(b, field), Field(c, field)} ::
      && a in records && b in records && c in records
      && IsNumber(Field(a, field)) && IsNumber(Field(b, field))
      && !IsNull(Field(c, field)) && !IsNumber(Field(c, field)) ==>
        TextAgrees(env, Field(a, field).value, Field(b, field).value, Field(c, field).value)
  }

  predicate IsNumber(v: Option<Json>) {
    v.Some? && v.value.Num?
  }

  /** On any three values, MayPrecede is transitive when the texts among them agree with the numbers. */
  lemma PrecedeTransitive(env: Env, a: Json, b: Json, c: Json)
    requires MayPrecede(env, a, b) && MayPrecede(env, b, c)
    requires a.Num? && c.Num? && !b.Num? ==> TextAgrees(env, a, c, b)
    requires a.Num? && b.Num? && !c.Num? ==> TextAgrees(env, b, a, c)
    requires b.Num? && c.Num? && !a.Num? ==> TextAgrees(env, c, b, a)
    ensures MayPrecede(env, a, c)
  {
    var ta, tb, tc := TextOf(env, a), TextOf(env, b), TextOf(env, c);
    CompareStringsLaws(ta, tb, tc);
    NameOrder.LeTotal(ta, tc);
  }

  lemma LeqOnValues(env: Env, field: string, desc: bool, a: Record, b: Record)
    requires !IsNull(Field(a, field)) && !IsNull(Field(b, field))
    ensures var cmp, av, bv := Comparator(env, field, desc), Field(a, field).value, Field(b, field).value;
            && (Leq(cmp, a, b) <==> if desc then MayPrecede(env, bv, av) else MayPrecede(env, av, bv))
            && cmp(b, a) == cmp(a, b).Reverse()
  {
    CompareMeansPrecede(env, Field(a, field).value, Field(b, field).value);
  }

  lemma AgreeingIsPreorder(env: Env, field: string, desc: bool, records: set<Record>)
    requires TextsAgree(env, field, records)
    ensures Preorder(Comparator(env, field, desc), records)
  {
    var cmp := Comparator(env, field, desc);
    forall a, b | a in records && b in records ensures cmp(b, a) == cmp(a, b).Reverse() {
      if !IsNull(Field(a, field)) && !IsNull(Field(b, field)) {
        LeqOnValues(env, field, desc, a, b);
      }
    }
    forall a, b, c | a in records && b in records && c in records && Leq(cmp, a, b) && Leq(cmp, b, c)
      ensures Leq(cmp, a, c)
    {
      if !IsNull(Field(a, field)) && !IsNull(Field(b, field)) && !IsNull(Field(c, field)) {
        var av, bv, cv := Field(a, field).value, Field(b, field).value, Field(c, field).value;
        LeqOnValues(env, field, desc, a, b);
        LeqOnValues(env, field, desc, b, c);
        LeqOnValues(env, field, desc, a, c);
        if desc {
          PrecedeTransitive(env, cv, bv, av);
        } else {
          PrecedeTransitive(env, av, bv, cv);
        }
      }
    }
  }

  lemma PreorderAgrees(env: Env, field: string, desc: bool, records: set<Record>, a: Record, b: Record, c: Record)
    requires Preorder(Comparator(env, field, desc), records) && a in records && b in records && c in records
    requires IsNumber(Field(a, field)) && IsNumber(Field(b, field))
    requires !IsNull(Field(c, field)) && !IsNumber(Field(c, field))
    ensures TextAgrees(env, Field(a, field).value, Field(b, field).value, Field(c, field).value)
  {
    var cmp := Comparator(env, field, desc);
    LeqOnValues(env, field, desc, a, b);
    LeqOnValues(env, field, desc, b, a);
    LeqOnValues(env, field, desc, a, c);
    LeqOnValues(env, field, desc, c, a);
    LeqOnValues(env, field, desc, b, c);
    LeqOnValues(env, field, desc, c, b);
    var ta, tb, tc := TextOf(env, Field(a, field).value), TextOf(env, Field(b, field).value),
                      TextOf(env, Field(c, field).value);
    CompareStringsLaws(ta, tc, tc);
    CompareStringsLaws(tb, tc, tc);
  }

  /** Exactly when the query comparator is a total preorder, ascending or descending: when the texts of the
      column's other values agree with its numbers. */
  lemma ComparatorIsPreorderIff(env: Env, field: string, desc: bool, records: set<Record>)
    ensures Preorder(Comparator(env, field, desc), records) <==> TextsAgree(env, field, records)
  {
    if TextsAgree(env, field, records) {
      AgreeingIsPreorder(env, field, desc, records);
    }
    if Preorder(Comparator(env, field, desc), records) {
      forall a, b, c | && a in records && b in records && c in records
                       && IsNumber(Field(a, field)) && IsNumber(Field(b, field))
                       && !IsNull(Field(c, field)) && !IsNumber(Field(c, field))
        ensures TextAgrees(env, Field(a, field).value, Field(b, field).value, Field(c, field).value)
      {
        PreorderAgrees(env, field, desc, records, a, b, c);
      }
    }
  }

  /** The column's non-null values are all numbers, or none of them is. */
  ghost predicate UniformColumn(field: string, records: set<Record>) {
    || (forall r :: r in records && !IsNull(Field(r, field)) ==> IsNumber(Field(r, field)))
    || (forall r :: r in records && !IsNull(Field(r, field)) ==> !IsNumber(Field(r, field)))
  }

  /** Uniform columns meet the condition. */
  lemma ComparatorIsPreorder(env: Env, field: string, desc: bool, records: set<Record>)
    requires UniformColumn(field, records)
    ensures Preorder(Comparator(env, field, desc), records)
  {
    ComparatorIsPreorderIff(env, field, desc, records);
  }

  /** A column that does not meet it: 9 < 10 as numbers, but "10" < "5" < "9" as text. */
  lemma MixedColumnCycle(env: Env)
    requires env.display(Num(Int(9))) == "9" && env.display(Num(Int(10))) == "10"
    ensures var nine, ten, five := map["k" := Num(Int(9))], map["k" := Num(Int(10))], map["k" := Str("5")];
            && CompareOn(env, "k", false, nine, ten) == Less
            && CompareOn(env, "k", false, ten, five) == Less
            && CompareOn(env, "k", false, five, nine) == Less
  {
    var nine, ten, five: Record := map["k" := Num(Int(9))], map["k" := Num(Int(10))], map["k" := Str("5")];
    assert Field(nine, "k") == Some(Num(Int(9))) && Field(ten, "k") == Some(Num(Int(10)));
    assert Field(five, "k") == Some(Str("5"));
    assert "10"[0] == '1' && "5"[0] == '5' && "9"[0] == '9';
    assert NameOrder.Le("10", "5") && NameOrder.Le("5", "9");
  }

  // ---- Filter keys ------------------------------------------------------------------------------

  /** `strip_suffix`. */
  function StripSuffix(key: string, suffix: string): Option<string> {
    if |suffix| <= |key| && key[|key| - |suffix|..] == suffix then Some(key[..|key| - |suffix|]) else None
  }

  const SUFFIXES: seq<string> := ["__gte", "__lte", "__gt", "__lt", "__like", "__in"]

  /** The first suffix, from the i-th on, that the key ends with. */
  function ParseFrom(key: string, i: nat): (string, string)
    decreases |SUFFIXES| - i
  {
    if i >= |SUFFIXES| then (key, "eq")
    else if StripSuffix(key, SUFFIXES[i]).Some? then (StripSuffix(key, SUFFIXES[i]).value, SUFFIXES[i][2..])
    else ParseFrom(key, i + 1)
  }

  function ParseFilterKey(key: string): (string, string) {
    ParseFrom(key, 0)
  }

  const OPERATORS: set<string> := {"gte", "lte", "gt", "lt", "like", "in"}

  /** The six suffixes differ in their last three characters, so none is a suffix of another. */
  lemma SuffixEndsDiffer(i: nat, j: nat)
    requires i < |SUFFIXES| && j < |SUFFIXES| && i != j
    ensures var a, b := SUFFIXES[i], SUFFIXES[j];
            |a| >= 4 && |b| >= 4
            && (a[|a| - 1] != b[|b| - 1] || a[|a| - 2] != b[|b| - 2] || a[|a| - 3] != b[|b| - 3])
  {
  }

  lemma NoOtherSuffix(field: string, i: nat, j: nat)
    requires i < |SUFFIXES| && j < |SUFFIXES| && i != j
    ensures StripSuffix(field + SUFFIXES[i], SUFFIXES[j]) == None
  {
    var key, a, b := field + SUFFIXES[i], SUFFIXES[i], SUFFIXES[j];
    SuffixEndsDiffer(i, j);
    assert key[|key| - 1] == a[|a| - 1] && key[|key| - 2] == a[|a| - 2] && key[|key| - 3] == a[|a| - 3];
    if |b| <= |key| {
      var tail := key[|key| - |b|..];
      assert tail[|b| - 1] == key[|key| - 1] && tail[|b| - 2] == key[|key| - 2] && tail[|b| - 3] == key[|key| - 3];
    }
  }

  lemma {:induction false} ParseFromSuffix(field: string, i: nat, j: nat)
    requires j <= i < |SUFFIXES|
    ensures ParseFrom(field + SUFFIXES[i], j) == (field, SUFFIXES[i][2..])
    decreases i - j
  {
    var key := field + SUFFIXES[i];
    if j < i {
      NoOtherSuffix(field, i, j);
      ParseFromSuffix(field, i, j + 1);
    } else {
      assert key[|key| - |SUFFIXES[i]|..] == SUFFIXES[i] && key[..|field|] == field;
    }
  }

  /** Key parsing is unambiguous: for every field name, a suffixed key parses back to field and operator. */
  lemma ParseRoundTrip(field: string, op: string)
    requires op in OPERATORS
    ensures ParseFilterKey(field + "__" + op) == (field, op)
  {
    var i := if op == "gte" then 0 else if op == "lte" then 1 else if op == "gt" then 2
             else if op == "lt" then 3 else if op == "like" then 4 else 5;
    assert SUFFIXES[i] == "__" + op && SUFFIXES[i][2..] == op;
    assert field + "__" + op == field + SUFFIXES[i];
    ParseFromSuffix(field, i, 0);
  }

  // ---- Filters ------------------------------------------------------------------------------------

  predicate MatchesCondition(env: Env, v: Option<Json>, op: string, filter: Json) {
    match op
    case "eq" => v == Some(filter)
    case "like" =>
      v.Some? && v.value.Str? && filter.Str? && Text.Contains(env.lower(v.value.s), env.lower(filter.s))
    case "in" =>
      v.Some? && if filter.Arr? then v.value in filter.items else v.value == filter
    case _ =>
      if op !in {"gt", "lt", "gte", "lte"} || IsNull(v) then false else
      var ord := CompareValues(env, v, Some(filter));
      match op
      case "gt" => ord == Greater
      case "lt" => ord == Less
      case "gte" => ord != Less
      case _ => ord != Greater
  }

  predicate MatchesKey(env: Env, record: Record, key: string, filter: Json) {
    var (field, op) := ParseFilterKey(key);
    MatchesCondition(env, Field(record, field), op, filter)
  }

  predicate MatchesFilters(env: Env, record: Record, filters: map<string, Json>) {
    forall key :: key in filters ==> MatchesKey(env, record, key, filters[key])
  }

  lemma OneMoreFilter(env: Env, record: Record, base: map<string, Json>, field: string, op: string, filter: Json)
    requires op in OPERATORS && field + "__" + op !in base
    ensures MatchesFilters(env, record, base[field + "__" + op := filter])
            <==> MatchesFilters(env, record, base) && MatchesCondition(env, Field(record, field), op, filter)
  {
    var key := field + "__" + op;
    ParseRoundTrip(field, op);
    assert forall k :: k in base ==> k != key && base[key := filter][k] == base[k];
    assert MatchesKey(env, record, key, filter) <==> MatchesCondition(env, Field(record, field), op, filter);
    assert key in base[key := filter];
  }

  /** lt and gte, like gt and lte, are complements. */
  ghost predicate Complements(op: string, other: string) {
    (op == "lt" && other == "gte") || (op == "gt" && other == "lte")
  }

  lemma ComplementsDecide(env: Env, v: Option<Json>, op: string, other: string, filter: Json)
    requires Complements(op, other)
    ensures op in OPERATORS && other in OPERATORS
    ensures var one, two := MatchesCondition(env, v, op, filter), MatchesCondition(env, v, other, filter);
            !(one && two) && (one || two <==> !IsNull(v))
  {
    if op == "lt" {
    } else {
    }
  }

  /** An operator and its complement split the records whose field is present and not null. */
  lemma ComplementsSplit(env: Env, record: Record, base: map<string, Json>, field: string, filter: Json,
                         op: string, other: string)
    requires Complements(op, other)
    requires field + "__" + op !in base && field + "__" + other !in base
    ensures var one := MatchesFilters(env, record, base[field + "__" + op := filter]);
            var two := MatchesFilters(env, record, base[field + "__" + other := filter]);
            && !(one && two)
            && (one || two <==> MatchesFilters(env, record, base) && !IsNull(Field(record, field)))
  {
    ComplementsDecide(env, Field(record, field), op, other, filter);
    OneMoreFilter(env, record, base, field, op, filter);
    OneMoreFilter(env, record, base, field, other, filter);
  }

  /** The order operators say what their names say, on any two non-null values. */
  lemma OrderOperators(env: Env, v: Json, filter: Json)
    requires !v.Null? && !filter.Null?
    ensures MatchesCondition(env, Some(v), "lte", filter) <==> MayPrecede(env, v, filter)
    ensures MatchesCondition(env, Some(v), "gte", filter) <==> MayPrecede(env, filter, v)
    ensures MatchesCondition(env, Some(v), "lt", filter) <==> !MayPrecede(env, filter, v)
    ensures MatchesCondition(env, Some(v), "gt", filter) <==> !MayPrecede(env, v, filter)
  {
    CompareMeansPrecede(env, v, filter);
  }

  /** Against null, every value that is not null comes first. */
  lemma OrderAgainstNull(env: Env, v: Json)
    requires !v.Null?
    ensures MatchesCondition(env, Some(v), "lt", Null) && MatchesCondition(env, Some(v), "lte", Null)
    ensures !MatchesCondition(env, Some(v), "gt", Null) && !MatchesCondition(env, Some(v), "gte", Null)
  {
  }

  /** A membership filter asks for equality with one of its items, or with itself when it is no list. */
  lemma InIsSomeEquality(env: Env, v: Option<Json>, filter: Json)
    ensures MatchesCondition(env, v, "in", filter)
            <==> if filter.Arr?
                 then exists i :: 0 <= i < |filter.items| && MatchesCondition(env, v, "eq", filter.items[i])
                 else MatchesCondition(env, v, "eq", filter)
    ensures MatchesCondition(env, v, "eq", filter) <==> v == Some(filter)
  {
    if filter.Arr? && v.Some? && v.value in filter.items {
      var i :| 0 <= i < |filter.items| && filter.items[i] == v.value;
      assert MatchesCondition(env, v, "eq", filter.items[i]);
    }
  }

  /** A pattern matches a text that it is a part of, both in lower case; it matches nothing else. */
  lemma LikeFindsPart(env: Env, v: Option<Json>, filter: Json)
    ensures MatchesCondition(env, v, "like", filter)
            <==> exists s, pattern, a, b ::
                   v == Some(Str(s)) && filter == Str(pattern) && env.lower(s) == a + env.lower(pattern) + b
  {
    if v.Some? && v.value.Str? && filter.Str? {
      Text.ContainsMeans(env.lower(v.value.s), env.lower(filter.s));
    }
  }

  ghost predicate Suffixed(key: string) {
    exists field, op :: op in OPERATORS && key == field + "__" + op
  }

  lemma StrippedIsSuffixed(key: string, i: nat)
    requires i < |SUFFIXES| && StripSuffix(key, SUFFIXES[i]).Some?
    ensures Suffixed(key)
  {
    var suffix, field := SUFFIXES[i], key[..|key| - |SUFFIXES[i]|];
    assert suffix == "__" + suffix[2..] && suffix[2..] in OPERATORS;
    assert key == field + suffix == field + "__" + suffix[2..];
  }

  lemma {:induction false} ParseFromUnsuffixed(key: string, i: nat)
    requires !Suffixed(key) && i <= |SUFFIXES|
    ensures ParseFrom(key, i) == (key, "eq")
    decreases |SUFFIXES| - i
  {
    if i < |SUFFIXES| {
      if StripSuffix(key, SUFFIXES[i]).Some? {
        StrippedIsSuffixed(key, i);
      }
      ParseFromUnsuffixed(key, i + 1);
    }
  }

  /** Any other key asks for equality of the field it names. */
  lemma UnsuffixedIsEquality(env: Env, record: Record, base: map<string, Json>, field: string, filter: Json)
    requires !Suffixed(field) && field !in base
    ensures ParseFilterKey(field) == (field, "eq")
    ensures MatchesFilters(env, record, base[field := filter])
            <==> MatchesFilters(env, record, base) && Field(record, field) == Some(filter)
    ensures MatchesFilters(env, record, map[])
  {
    ParseFromUnsuffixed(field, 0);
    assert forall k :: k in base ==> k != field && base[field := filter][k] == base[k];
    assert MatchesKey(env, record, field, filter) <==> Field(record, field) == Some(filter);
    assert field in base[field := filter];
  }
}
