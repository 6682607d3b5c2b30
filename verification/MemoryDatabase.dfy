/** The in-memory database's tables, its writes, and every interleaving of their lock sections. */
module MemoryDatabase {
  import opened Basics
  import opened Filters
  import opened Query

  type Tables = map<string, Table>

  datatype WriteResult = WriteResult(rowsAffected: nat, insertedId: Option<string>)

  /** LookupPanicked stands for the failing unwrap of a table lookup that follows ensure_table. */
  datatype DbError = Conflict(id: string) | TableNotFound | RecordNotFound | LookupPanicked

  type Outcome = Result<WriteResult, DbError>

  /** A record offered for insertion, with the identifier to use when it brings none. */
  datatype Offer = Offer(record: Record, fallback: string) {
    /** `extract_id`: the text under "id", else under "_id", else a generated identifier. */
    function Id(): string {
      if "id" in record && record["id"].Str? then record["id"].s
      else if "_id" in record && record["_id"].Str? then record["_id"].s
      else fallback
    }

    function Stored(): Record {
      record["id" := Str(Id())]
    }
  }

  datatype Write =
    | Insert(table: string, offer: Offer)
    | BatchInsert(table: string, offers: seq<Offer>)
    | Update(table: string, id: string, updates: Record)
    | Delete(table: string, id: string)
    | UpdateWhere(table: string, filters: map<string, Json>, updates: Record)
    | DeleteWhere(table: string, filters: map<string, Json>)
  {
    predicate TakesTwoSections() {
      Insert? || BatchInsert?
    }
  }

  // ---- What each lock section does --------------------------------------------------------------

  function EnsureTable(tables: Tables, table: string): Tables {
    if table in tables then tables else tables[table := map[]]
  }

  function BatchTable(rows: Table, offers: seq<Offer>): Table {
    if offers == [] then rows else
    var was, o := BatchTable(rows, offers[..|offers| - 1]), offers[|offers| - 1];
    if o.Id() in was then was else was[o.Id() := o.Stored()]
  }

  function BatchCount(rows: Table, offers: seq<Offer>): nat {
    if offers == [] then 0 else
    BatchCount(rows, offers[..|offers| - 1])
    + if offers[|offers| - 1].Id() in BatchTable(rows, offers[..|offers| - 1]) then 0 else 1
  }

  function MatchingIds(env: Env, rows: Table, filters: map<string, Json>): set<string> {
    set id | id in rows && MatchesFilters(env, rows[id], filters)
  }

  function UpdatedTable(env: Env, rows: Table, filters: map<string, Json>, updates: Record): Table {
    map id | id in rows :: if MatchesFilters(env, rows[id], filters) then rows[id] + updates else rows[id]
  }

  function Affected(n: nat): Outcome {
    Ok(WriteResult(n, None))
  }

  /** The rows of a table after a write that finds the table. */
  ghost function RowsAfter(env: Env, rows: Table, w: Write): Table {
    match w
    case Insert(_, offer) => if offer.Id() in rows then rows else rows[offer.Id() := offer.Stored()]
    case BatchInsert(_, offers) => BatchTable(rows, offers)
    case Update(_, id, updates) => if id in rows then rows[id := rows[id] + updates] else rows
    case Delete(_, id) => rows - {id}
    case UpdateWhere(_, filters, updates) => UpdatedTable(env, rows, filters, updates)
    case DeleteWhere(_, filters) => rows - MatchingIds(env, rows, filters)
  }

  /** What such a write reports. */
  ghost function Report(env: Env, rows: Table, w: Write): Outcome {
    match w
    case Insert(_, offer) =>
      if offer.Id() in rows then Err(Conflict(offer.Id())) else Ok(WriteResult(1, Some(offer.Id())))
    case BatchInsert(_, offers) => Affected(BatchCount(rows, offers))
    case Update(_, id, _) => if id in rows then Affected(1) else Err(RecordNotFound)
    case Delete(_, id) => Affected(if id in rows then 1 else 0)
    case UpdateWhere(_, filters, _) => Affected(|MatchingIds(env, rows, filters)|)
    case DeleteWhere(_, filters) => Affected(|MatchingIds(env, rows, filters)|)
  }

  /** The section that looks the table up and acts on it. */
  ghost function Section(env: Env, tables: Tables, w: Write): (Tables, Outcome) {
    if w.table !in tables then (tables, Err(if w.TakesTwoSections() then LookupPanicked else TableNotFound))
    else (tables[w.table := RowsAfter(env, tables[w.table], w)], Report(env, tables[w.table], w))
  }

  // ---- The operations -----------------------------------------------------------------------------

  /** Each method is one client's call with no other client in between. */
  class Database {
    var tables: Tables

    constructor (names: seq<string>)
      ensures tables == map n | n in names :: map[]
    {
      tables := map n | n in names :: map[];
    }

    method Ensure(table: string)
      modifies this
      ensures tables == EnsureTable(old(tables), table)
    {
      if table !in tables {
        tables := tables[table := map[]];
      }
    }

    method InsertRecord(env: Env, table: string, offer: Offer) returns (r: Outcome)
      modifies this
      ensures (tables, r) == Section(env, EnsureTable(old(tables), table), Insert(table, offer))
    {
      Ensure(table);
      var id, rows := offer.Id(), tables[table];
      if id in rows {
        assert tables == tables[table := rows];
        return Err(Conflict(id));
      }
      tables := tables[table := rows[id := offer.record["id" := Str(id)]]];
      return Ok(WriteResult(1, Some(id)));
    }

    method BatchInsertRecords(env: Env, table: string, offers: seq<Offer>) returns (r: Outcome)
      modifies this
      ensures (tables, r) == Section(env, EnsureTable(old(tables), table), BatchInsert(table, offers))
    {
      Ensure(table);
      var before, rows, count := tables[table], tables[table], 0;
      for i := 0 to |offers|
        invariant rows == BatchTable(before, offers[..i]) && count == BatchCount(before, offers[..i])
        invariant tables == EnsureTable(old(tables), table)
      {
        assert offers[..i + 1][..i] == offers[..i];
        var id := offers[i].Id();
        if id !in rows {
          rows := rows[id := offers[i].record["id" := Str(id)]];
          count := count + 1;
        }
      }
      assert offers[..|offers|] == offers;
      tables := tables[table := rows];
      return Ok(WriteResult(count, None));
    }

    method UpdateRecord(env: Env, table: string, id: string, updates: Record) returns (r: Outcome)
      modifies this
      ensures (tables, r) == Section(env, old(tables), Update(table, id, updates))
    {
      if table !in tables {
        return Err(TableNotFound);
      }
      var rows := tables[table];
      if id !in rows {
        assert tables == tables[table := rows];
        return Err(RecordNotFound);
      }
      var existing := Merge(rows[id], updates);
      tables := tables[table := rows[id := existing]];
      return Ok(WriteResult(1, None));
    }

    method DeleteRecord(env: Env, table: string, id: string) returns (r: Outcome)
      modifies this
      ensures (tables, r) == Section(env, old(tables), Delete(table, id))
    {
      if table !in tables {
        return Err(TableNotFound);
      }
      var rows := tables[table];
      tables := tables[table := rows - {id}];
      return Ok(WriteResult(if id in rows then 1 else 0, None));
    }

    method UpdateRecordsWhere(env: Env, table: string, filters: map<string, Json>, updates: Record)
      returns (r: Outcome)
      modifies this
      ensures (tables, r) == Section(env, old(tables), UpdateWhere(table, filters, updates))
    {
      if table !in tables {
        return Err(TableNotFound);
      }
      var rows, count := UpdateMatching(env, tables[table], filters, updates);
      tables := tables[table := rows];
      return Ok(WriteResult(count, None));
    }

    method DeleteRecordsWhere(env: Env, table: string, filters: map<string, Json>) returns (r: Outcome)
      modifies this
      ensures (tables, r) == Section(env, old(tables), DeleteWhere(table, filters))
    {
      if table !in tables {
        return Err(TableNotFound);
      }
      var before := tables[table];
      var idsToDelete := MatchingIds(env, before, filters);
      var rows, left := before, idsToDelete;
      while left != {}
        invariant left <= idsToDelete && rows == before - (idsToDelete - left) && tables == old(tables)
      {
        var id :| id in left;
        rows := rows - {id};
        left := left - {id};
      }
      assert rows == before - idsToDelete;
      tables := tables[table := rows];
      return Ok(WriteResult(|idsToDelete|, None));
    }

    method QueryRecords(env: Env, table: string, params: QueryParams, order: seq<string>) returns (r: seq<Record>)
      requires table in tables ==> Enumerates(order, tables[table])
      ensures table !in tables ==> r == []
      ensures table in tables ==>
                (forall id :: id in order ==> id in tables[table])
                && r == QueryRows(env, Rows(tables[table], order), params)
    {
      if table !in tables {
        return [];
      }
      assert forall id :: id in order ==> id in Elems(order);
      r := QueryTable(env, tables[table], params, order);
    }

    method CountRecords(env: Env, table: string, params: QueryParams, order: seq<string>) returns (n: nat)
      requires table in tables ==> Enumerates(order, tables[table])
      ensures n == if table in tables then |MatchingIds(env, tables[table], params.filters)| else 0
    {
      if table !in tables {
        return 0;
      }
      assert forall id :: id in order ==> id in Elems(order);
      n := CountTable(env, tables[table], params, order);
      MatchingCount(env, tables[table], order, params.filters);
    }
  }

  /** Overwrite the fields of a record, one by one. */
  method Merge(record: Record, updates: Record) returns (merged: Record)
    ensures merged == record + updates
  {
    merged := record;
    var left := updates.Keys;
    while left != {}
      invariant left <= updates.Keys
      invariant merged == record + (updates - left)
    {
      var key :| key in left;
      merged := merged[key := updates[key]];
      left := left - {key};
    }
    assert updates - {} == updates;
  }

  /** The rows among ids that still have to be, or have been, looked at and that match. */
  ghost function MatchingAmong(env: Env, rows: Table, ids: set<string>, filters: map<string, Json>): set<string> {
    set id | id in ids && id in rows && MatchesFilters(env, rows[id], filters)
  }

  lemma AmongOneMore(env: Env, rows: Table, ids: set<string>, id: string, filters: map<string, Json>)
    requires id in rows && id !in ids
    ensures |MatchingAmong(env, rows, ids + {id}, filters)|
            == |MatchingAmong(env, rows, ids, filters)| + if MatchesFilters(env, rows[id], filters) then 1 else 0
  {
    var was := MatchingAmong(env, rows, ids, filters);
    assert MatchingAmong(env, rows, ids + {id}, filters)
           == if MatchesFilters(env, rows[id], filters) then was + {id} else was;
  }

  /** The loop of update_where, over the rows in whatever order they come. */
  method UpdateMatching(env: Env, before: Table, filters: map<string, Json>, updates: Record)
    returns (rows: Table, count: nat)
    ensures rows == UpdatedTable(env, before, filters, updates) && count == |MatchingIds(env, before, filters)|
  {
    rows, count := before, 0;
    var unseen := before.Keys;
    while unseen != {}
      invariant unseen <= before.Keys && rows.Keys == before.Keys
      invariant count == |MatchingAmong(env, before, before.Keys - unseen, filters)|
      invariant forall id :: id in before ==>
                  rows[id] == if id !in unseen && MatchesFilters(env, before[id], filters) then before[id] + updates
                              else before[id]
    {
      var id :| id in unseen;
      AmongOneMore(env, before, before.Keys - unseen, id, filters);
      assert before.Keys - (unseen - {id}) == before.Keys - unseen + {id};
      if MatchesFilters(env, rows[id], filters) {
        var record := Merge(rows[id], updates);
        rows := rows[id := record];
        count := count + 1;
      }
      unseen := unseen - {id};
    }
    assert MatchingAmong(env, before, before.Keys - unseen, filters) == MatchingIds(env, before, filters);
  }

  /** Counting rows in iteration order counts the matching identifiers. */
  lemma {:induction false} CountInOrder(env: Env, table: Table, order: seq<string>, filters: map<string, Json>)
    requires NoDup(order) && forall id :: id in order ==> id in table
    ensures |Matching(env, Rows(table, order), filters)| == |MatchingAmong(env, table, Elems(order), filters)|
  {
    if order == [] {
      assert MatchingAmong(env, table, Elems(order), filters) == {};
    } else {
      var front, last := order[..|order| - 1], order[|order| - 1];
      assert order == front + [last];
      CountInOrder(env, table, front, filters);
      assert Rows(table, order)[..|front|] == Rows(table, front);
      assert last !in Elems(front);
      assert Elems(order) == Elems(front) + {last};
      AmongOneMore(env, table, Elems(front), last, filters);
    }
  }

  lemma MatchingCount(env: Env, table: Table, order: seq<string>, filters: map<string, Json>)
    requires Enumerates(order, table) && forall id :: id in order ==> id in table
    ensures |Matching(env, Rows(table, order), filters)| == |MatchingIds(env, table, filters)|
  {
    CountInOrder(env, table, order, filters);
    assert MatchingAmong(env, table, Elems(order), filters) == MatchingIds(env, table, filters);
  }

  // ---- What each write does, said of the rows -----------------------------------------------------

  ghost predicate HasText(record: Record, field: string) {
    field in record && record[field].Str?
  }

  /** The text under "id", else under "_id", else the generated identifier. */
  ghost predicate Identifies(offer: Offer, id: string) {
    && (HasText(offer.record, "id") ==> offer.record["id"] == Str(id))
    && (!HasText(offer.record, "id") && HasText(offer.record, "_id") ==> offer.record["_id"] == Str(id))
    && (!HasText(offer.record, "id") && !HasText(offer.record, "_id") ==> id == offer.fallback)
  }

  /** The row is the offered record under its identifier. */
  ghost predicate Keeps(row: Record, id: string, record: Record) {
    Field(row, "id") == Some(Str(id)) && forall f :: f != "id" ==> Field(row, f) == Field(record, f)
  }

  /** The row is the old one, overwritten by the updates. */
  ghost predicate Overwritten(row: Record, was: Record, updates: Record) {
    forall f :: Field(row, f) == if f in updates then Some(updates[f]) else Field(was, f)
  }

  ghost function RowAt(tables: Tables, t: string, x: string): Option<Record> {
    if t in tables && x in tables[t] then Some(tables[t][x]) else None
  }

  /** Nothing but rows of one table is different, and no table is gone or new. */
  ghost predicate OnlyIn(before: Tables, after: Tables, t: string) {
    before.Keys == after.Keys && forall u, x :: u != t ==> RowAt(after, u, x) == RowAt(before, u, x)
  }

  /** The offer is the first that brings this identifier. */
  ghost predicate BringsFirst(offers: seq<Offer>, i: nat, x: string) {
    i < |offers| && Identifies(offers[i], x) && forall j :: 0 <= j < i ==> !Identifies(offers[j], x)
  }

  /** An absent row that some offer brings is the first such offer's record; all other rows are as they were. */
  ghost predicate Merged(before: Option<Record>, after: Option<Record>, offers: seq<Offer>, x: string) {
    if before.Some? || forall i :: 0 <= i < |offers| ==> !Identifies(offers[i], x) then after == before
    else after.Some? && exists i: nat :: BringsFirst(offers, i, x) && Keeps(after.value, x, offers[i].record)
  }

  ghost predicate Counted(outcome: Outcome) {
    outcome.Ok? && outcome.value.insertedId == None
  }

  /** Row x of the table after a write that finds the table, and what the write reports. */
  ghost predicate Performed(env: Env, before: Tables, after: Tables, w: Write, outcome: Outcome, x: string) {
    var was, now := RowAt(before, w.table, x), RowAt(after, w.table, x);
    match w
    case Insert(_, offer) =>
      if !Identifies(offer, x) then now == was
      else if was.Some? then now == was && outcome == Err(Conflict(x))
      else now.Some? && Keeps(now.value, x, offer.record) && outcome == Ok(WriteResult(1, Some(x)))
    case BatchInsert(t, offers) => Merged(was, now, offers, x) && Counted(outcome)
    case Update(_, id, updates) =>
      if x != id then now == was
      else if was.None? then now == None && outcome == Err(RecordNotFound)
      else now.Some? && Overwritten(now.value, was.value, updates) && outcome == Affected(1)
    case Delete(_, id) =>
      if x != id then now == was else now == None && outcome == Affected(if was.Some? then 1 else 0)
    case UpdateWhere(_, filters, updates) =>
      Counted(outcome) && if was.Some? && MatchesFilters(env, was.value, filters)
                          then now.Some? && Overwritten(now.value, was.value, updates) else now == was
    case DeleteWhere(_, filters) =>
      Counted(outcome) && now == if was.Some? && MatchesFilters(env, was.value, filters) then None else was
  }

  lemma IdIdentifies(offer: Offer)
    ensures forall x :: Identifies(offer, x) <==> x == offer.Id()
  {
  }

  lemma StoredKeeps(offer: Offer)
    ensures Keeps(offer.Stored(), offer.Id(), offer.record)
  {
  }

  /** In a batch the first offer of an absent identifier is stored. */
  lemma {:induction false} FirstIsStored(rows: Table, offers: seq<Offer>, x: string) returns (first: Option<nat>)
    ensures x in rows ==> x in BatchTable(rows, offers) && BatchTable(rows, offers)[x] == rows[x]
    ensures x !in rows ==>
              match first
              case None => x !in BatchTable(rows, offers) && forall i :: 0 <= i < |offers| ==> offers[i].Id() != x
              case Some(i) =>
                && i < |offers| && offers[i].Id() == x && (forall j :: 0 <= j < i ==> offers[j].Id() != x)
                && x in BatchTable(rows, offers) && BatchTable(rows, offers)[x] == offers[i].Stored()
  {
    first := None;
    if offers != [] {
      first := FirstIsStored(rows, offers[..|offers| - 1], x);
      if first.None? && offers[|offers| - 1].Id() == x {
        first := Some(|offers| - 1);
      }
    }
  }

  lemma BatchMerges(rows: Table, offers: seq<Offer>, x: string)
    ensures Merged(if x in rows then Some(rows[x]) else None,
                   if x in BatchTable(rows, offers) then Some(BatchTable(rows, offers)[x]) else None, offers, x)
  {
    var first := FirstIsStored(rows, offers, x);
    forall i | 0 <= i < |offers| ensures Identifies(offers[i], x) <==> x == offers[i].Id() {
      IdIdentifies(offers[i]);
    }
    if x !in rows && first.Some? {
      StoredKeeps(offers[first.value]);
      assert BringsFirst(offers, first.value, x);
    }
  }

  /** Every write, on every row: which rows it changes, what they hold afterwards, and what it reports. */
  lemma SectionMeans(env: Env, tables: Tables, w: Write, x: string)
    requires w.table in tables
    ensures var (tables', outcome) := Section(env, tables, w);
            && OnlyIn(tables, tables', w.table) && Performed(env, tables, tables', w, outcome, x)
            && (w.UpdateWhere? ==>
                  outcome == Affected(|set y | y in tables[w.table]
                                             && MatchesFilters(env, tables[w.table][y], w.filters)|))
  {
    match w
    case Insert(_, offer) =>
      IdIdentifies(offer);
      StoredKeeps(offer);
    case BatchInsert(_, offers) => BatchMerges(tables[w.table], offers, x);
    case _ =>
  }

  /** Without the table, an update or a delete changes nothing and says so; an insert makes it first, empty. */
  lemma MissingTable(env: Env, tables: Tables, w: Write)
    requires w.table !in tables
    ensures !w.TakesTwoSections() ==> Section(env, tables, w) == (tables, Err(TableNotFound))
    ensures EnsureTable(tables, w.table).Keys == tables.Keys + {w.table}
    ensures forall u, y :: RowAt(EnsureTable(tables, w.table), u, y) == RowAt(tables, u, y)
  {
  }
}
