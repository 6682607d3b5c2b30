/** Clients of the in-memory database, interleaved at the granularity of its lock sections. */
module DatabaseRuns {
  import opened Basics
  import opened Filters
  import opened Query
  import opened MemoryDatabase

  /** Ensured: the first section of an insert is over, its second is still to come. */
  datatype Client = Idle | Ensured(w: Write)

  /** A completed write, what it reported, and the identifiers that it put into its table or took out of it. */
  datatype Entry = Entry(w: Write, outcome: Outcome, added: set<string>, removed: set<string>)

  datatype State = State(tables: Tables, clients: seq<Client>, log: seq<Entry>)

  datatype Turn = Turn(client: nat, w: Write)

  ghost function Offered(offers: seq<Offer>): set<string> {
    if offers == [] then {} else Offered(offers[..|offers| - 1]) + {offers[|offers| - 1].Id()}
  }

  ghost function Added(rows: Table, w: Write): set<string> {
    match w
    case Insert(_, offer) => {offer.Id()} - rows.Keys
    case BatchInsert(_, offers) => Offered(offers) - rows.Keys
    case _ => {}
  }

  ghost function Removed(env: Env, rows: Table, w: Write): set<string> {
    match w
    case Delete(_, id) => rows.Keys * {id}
    case DeleteWhere(_, filters) => MatchingIds(env, rows, filters)
    case _ => {}
  }

  ghost function EntryOf(env: Env, tables: Tables, w: Write): Entry {
    var rows: Table := if w.table in tables then tables[w.table] else map[];
    Entry(w, Section(env, tables, w).1, if w.table in tables then Added(rows, w) else {}, Removed(env, rows, w))
  }

  ghost function Act(env: Env, s: State, c: nat, w: Write): State
    requires c < |s.clients|
  {
    State(Section(env, s.tables, w).0, s.clients[c := Idle], s.log + [EntryOf(env, s.tables, w)])
  }

  /** One lock section of one client; an idle client starts the write that the schedule gives it. */
  ghost function Step(env: Env, s: State, c: nat, w: Write): State
    requires c < |s.clients|
  {
    match s.clients[c]
    case Ensured(pending) => Act(env, s, c, pending)
    case Idle =>
      if w.TakesTwoSections() then s.(tables := EnsureTable(s.tables, w.table), clients := s.clients[c := Ensured(w)])
      else Act(env, s, c, w)
  }

  ghost function Start(names: seq<string>, clients: nat): State {
    State(map n | n in names :: map[], seq(clients, _ => Idle), [])
  }

  ghost function Run(env: Env, names: seq<string>, clients: nat, schedule: seq<Turn>): (s: State)
    ensures |s.clients| == clients
  {
    if schedule == [] then Start(names, clients) else
    var s, turn := Run(env, names, clients, schedule[..|schedule| - 1]), schedule[|schedule| - 1];
    if turn.client < clients then Step(env, s, turn.client, turn.w) else s
  }

  // ---- The lookup after ensure_table ------------------------------------------------------------

  ghost predicate PendingFound(s: State) {
    forall c :: 0 <= c < |s.clients| && s.clients[c].Ensured? ==>
                  s.clients[c].w.TakesTwoSections() && s.clients[c].w.table in s.tables
  }

  ghost predicate NoPanic(log: seq<Entry>) {
    forall i :: 0 <= i < |log| ==> log[i].outcome != Err(LookupPanicked)
  }

  lemma SectionKeepsTables(env: Env, tables: Tables, w: Write)
    ensures Section(env, tables, w).0.Keys == tables.Keys
    ensures Section(env, tables, w).1 == Err(LookupPanicked) ==> w.TakesTwoSections() && w.table !in tables
  {
  }

  /** Over every interleaving, the table lookup of an insert's second section never fails. */
  lemma {:induction false} LookupNeverFails(env: Env, names: seq<string>, clients: nat, schedule: seq<Turn>)
    ensures var s := Run(env, names, clients, schedule); PendingFound(s) && NoPanic(s.log)
  {
    if schedule != [] {
      var front, turn := schedule[..|schedule| - 1], schedule[|schedule| - 1];
      var s := Run(env, names, clients, front);
      LookupNeverFails(env, names, clients, front);
      if turn.client < clients {
        var client := s.clients[turn.client];
        SectionKeepsTables(env, s.tables, if client.Ensured? then client.w else turn.w);
      }
    }
  }

  // ---- Conservation of rows ---------------------------------------------------------------------

  ghost function SizeOf(tables: Tables, t: string): nat {
    if t in tables then |tables[t]| else 0
  }

  /** What an operation reports that it added to the table, less what it reports that it removed. */
  ghost function Net(e: Entry, t: string): int {
    if e.w.table != t || e.outcome.Err? then 0
    else if e.w.Insert? || e.w.BatchInsert? then e.outcome.value.rowsAffected
    else if e.w.Delete? || e.w.DeleteWhere? then 0 - e.outcome.value.rowsAffected
    else 0
  }

  ghost function TotalNet(log: seq<Entry>, t: string): int {
    if log == [] then 0 else TotalNet(log[..|log| - 1], t) + Net(log[|log| - 1], t)
  }

  lemma {:induction false} BatchKeys(rows: Table, offers: seq<Offer>)
    ensures BatchTable(rows, offers).Keys == rows.Keys + Offered(offers)
  {
    if offers != [] {
      BatchKeys(rows, offers[..|offers| - 1]);
    }
  }

  lemma {:induction false} BatchSize(rows: Table, offers: seq<Offer>)
    ensures |BatchTable(rows, offers)| == |rows| + BatchCount(rows, offers)
  {
    if offers != [] {
      BatchSize(rows, offers[..|offers| - 1]);
    }
  }

  lemma BatchCounts(rows: Table, offers: seq<Offer>)
    ensures BatchCount(rows, offers) == |Offered(offers) - rows.Keys|
  {
    BatchSize(rows, offers);
    BatchKeys(rows, offers);
    var keys, offered, after := rows.Keys, Offered(offers), BatchTable(rows, offers);
    assert |after.Keys| == |after| && |keys| == |rows|;
    assert after.Keys == keys + (offered - keys);
  }

  /** A write adds only identifiers that are absent and removes only ones that are present. */
  lemma RowsKeys(env: Env, rows: Table, w: Write)
    ensures RowsAfter(env, rows, w).Keys == rows.Keys + Added(rows, w) - Removed(env, rows, w)
    ensures Added(rows, w) !! rows.Keys && Removed(env, rows, w) <= rows.Keys
  {
    match w
    case BatchInsert(_, offers) => BatchKeys(rows, offers);
    case _ =>
  }

  /** It reports how many. */
  lemma ReportCounts(env: Env, rows: Table, w: Write)
    ensures var e := Entry(w, Report(env, rows, w), Added(rows, w), Removed(env, rows, w));
            Net(e, w.table) == |e.added| - |e.removed|
  {
    match w
    case Insert(_, offer) => OneOrNone(offer.Id(), rows.Keys);
    case BatchInsert(_, offers) => BatchCounts(rows, offers);
    case Delete(_, id) => OneOrNone(id, rows.Keys);
    case _ =>
  }

  lemma OneOrNone(x: string, s: set<string>)
    ensures |{x} - s| == (if x in s then 0 else 1) && |s * {x}| == if x in s then 1 else 0
  {
    assert {x} - s == (if x in s then {} else {x}) && s * {x} == if x in s then {x} else {};
  }

  lemma SectionElsewhere(env: Env, tables: Tables, w: Write, t: string)
    requires w.table != t || t !in tables
    ensures var tables' := Section(env, tables, w).0;
            && (t in tables <==> t in tables') && (t in tables ==> tables'[t] == tables[t])
            && Net(EntryOf(env, tables, w), t) == 0
            && (w.table == t ==> EntryOf(env, tables, w).added == EntryOf(env, tables, w).removed == {})
  {
  }

  lemma SectionNet(env: Env, tables: Tables, w: Write, t: string)
    ensures SizeOf(Section(env, tables, w).0, t) == SizeOf(tables, t) + Net(EntryOf(env, tables, w), t)
  {
    if w.table == t && t in tables {
      var rows, rows', e := tables[t], Section(env, tables, w).0[t], EntryOf(env, tables, w);
      RowsKeys(env, rows, w);
      ReportCounts(env, rows, w);
      assert |rows| == |rows.Keys| && |rows'| == |rows'.Keys|;
      assert |rows.Keys + e.added| == |rows.Keys| + |e.added|;
      assert e.removed <= rows.Keys + e.added;
    } else {
      SectionElsewhere(env, tables, w, t);
    }
  }

  /** In every reachable state a table holds as many rows as inserts and batch inserts reported, less the rows
      that deletes reported. */
  lemma {:induction false} RowsAreConserved(env: Env, names: seq<string>, clients: nat, schedule: seq<Turn>, t: string)
    ensures var s := Run(env, names, clients, schedule); SizeOf(s.tables, t) == TotalNet(s.log, t)
  {
    if schedule != [] {
      var front, turn := schedule[..|schedule| - 1], schedule[|schedule| - 1];
      var s := Run(env, names, clients, front);
      RowsAreConserved(env, names, clients, front, t);
      if turn.client < clients {
        var client := s.clients[turn.client];
        var w := if client.Ensured? then client.w else turn.w;
        SectionNet(env, s.tables, w, t);
        var e := EntryOf(env, s.tables, w);
        assert (s.log + [e])[..|s.log|] == s.log;
      }
    }
  }

  // ---- Each identifier's ledger -------------------------------------------------------------------

  ghost predicate Present(tables: Tables, t: string, x: string) {
    t in tables && x in tables[t]
  }

  ghost predicate Adds(e: Entry, t: string, x: string) {
    e.w.table == t && x in e.added
  }

  ghost predicate Removes(e: Entry, t: string, x: string) {
    e.w.table == t && x in e.removed
  }

  ghost function Share(e: Entry, t: string, x: string): int {
    (if Adds(e, t, x) then 1 else 0) - (if Removes(e, t, x) then 1 else 0)
  }

  /** How often a completed write put the row x into the table, less how often one took it out. */
  ghost function Balance(log: seq<Entry>, t: string, x: string): int {
    if log == [] then 0 else Balance(log[..|log| - 1], t, x) + Share(log[|log| - 1], t, x)
  }

  ghost predicate Attempts(w: Write, t: string, x: string) {
    w.Insert? && w.table == t && w.offer.Id() == x
  }

  /** What a write may do to the row x and report of it, given the balance before: it adds when there is no row and
      removes when there is one, and an insert succeeds exactly when there is none, and then adds it. */
  ghost predicate Explained(e: Entry, balance: int, t: string, x: string) {
    && (Adds(e, t, x) ==> balance == 0 && !Removes(e, t, x) && (e.w.BatchInsert? || Attempts(e.w, t, x)))
    && (Removes(e, t, x) ==> balance == 1)
    && (Attempts(e.w, t, x) ==> (Adds(e, t, x) <==> balance == 0) && (e.outcome.Ok? <==> balance == 0)
                                && (balance != 0 ==> e.outcome == Err(Conflict(x))))
  }

  /** In every run, deletes and batches included, additions less removals of an identifier are one while its row is
      there and zero while it is not. */
  lemma {:induction false} LedgerBalances(env: Env, names: seq<string>, clients: nat, schedule: seq<Turn>,
                                          t: string, x: string)
    ensures var s := Run(env, names, clients, schedule);
            Balance(s.log, t, x) == if Present(s.tables, t, x) then 1 else 0
  {
    if schedule != [] {
      var front, turn := schedule[..|schedule| - 1], schedule[|schedule| - 1];
      var s := Run(env, names, clients, front);
      LedgerBalances(env, names, clients, front, t, x);
      if turn.client < clients {
        var w := if s.clients[turn.client].Ensured? then s.clients[turn.client].w else turn.w;
        var e := EntryOf(env, s.tables, w);
        assert (s.log + [e])[..|s.log|] == s.log;
        if w.table == t && t in s.tables {
          RowsKeys(env, s.tables[t], w);
        } else {
          SectionElsewhere(env, s.tables, w, t);
        }
      }
    }
  }

  lemma EntryExplained(env: Env, tables: Tables, w: Write, t: string, x: string)
    requires w.TakesTwoSections() ==> w.table in tables
    ensures Explained(EntryOf(env, tables, w), if Present(tables, t, x) then 1 else 0, t, x)
  {
    if w.table == t && t in tables {
      RowsKeys(env, tables[t], w);
    } else {
      SectionElsewhere(env, tables, w, t);
    }
  }

  ghost predicate AllExplained(log: seq<Entry>, t: string, x: string) {
    forall i :: 0 <= i < |log| ==> Explained(log[i], Balance(log[..i], t, x), t, x)
  }

  /** In every run, the log before each completed write explains what the write did and reported: each insert
      succeeded exactly when additions and removals so far had left no row, and conflicted otherwise. */
  lemma {:induction false} OutcomesExplained(env: Env, names: seq<string>, clients: nat, schedule: seq<Turn>,
                                             t: string, x: string)
    ensures AllExplained(Run(env, names, clients, schedule).log, t, x)
  {
    if schedule != [] {
      var front, turn := schedule[..|schedule| - 1], schedule[|schedule| - 1];
      var s, s' := Run(env, names, clients, front), Run(env, names, clients, schedule);
      OutcomesExplained(env, names, clients, front, t, x);
      if turn.client < clients && (s.clients[turn.client].Ensured? || !turn.w.TakesTwoSections()) {
        var w := if s.clients[turn.client].Ensured? then s.clients[turn.client].w else turn.w;
        LookupNeverFails(env, names, clients, front);
        LedgerBalances(env, names, clients, front, t, x);
        EntryExplained(env, s.tables, w, t, x);
        ExplainedOneMore(s.log, EntryOf(env, s.tables, w), t, x);
      }
    }
  }

  lemma ExplainedOneMore(log: seq<Entry>, e: Entry, t: string, x: string)
    requires AllExplained(log, t, x) && Explained(e, Balance(log, t, x), t, x)
    ensures AllExplained(log + [e], t, x)
  {
    var longer := log + [e];
    assert longer[..|log|] == log;
    assert forall i :: 0 <= i < |log| ==> longer[i] == log[i] && longer[..i] == log[..i];
  }

  // ---- What clients are told --------------------------------------------------------------------

  /** How often an insert of x was told that it succeeded. */
  ghost function Wins(log: seq<Entry>, t: string, x: string): nat {
    if log == [] then 0 else
    var e := log[|log| - 1];
    Wins(log[..|log| - 1], t, x) + if Attempts(e.w, t, x) && e.outcome.Ok? then 1 else 0
  }

  /** Batches that added x, less writes that removed it. */
  ghost function Others(log: seq<Entry>, t: string, x: string): int {
    if log == [] then 0 else
    var e := log[|log| - 1];
    Others(log[..|log| - 1], t, x)
    + (if Adds(e, t, x) && e.w.BatchInsert? then 1 else 0) - (if Removes(e, t, x) then 1 else 0)
  }

  lemma {:induction false} WinsInBalance(log: seq<Entry>, t: string, x: string)
    requires AllExplained(log, t, x)
    ensures Wins(log, t, x) + Others(log, t, x) == Balance(log, t, x)
  {
    if log != [] {
      var front, e := log[..|log| - 1], log[|log| - 1];
      assert forall i :: 0 <= i < |front| ==> front[i] == log[i] && front[..i] == log[..i];
      WinsInBalance(front, t, x);
      assert Explained(e, Balance(front, t, x), t, x);
    }
  }

  /** In every run, the successful inserts of an identifier and the batches that added it, less the writes that
      removed it, are one while its row is there and zero while it is not. */
  lemma OutcomesBalance(env: Env, names: seq<string>, clients: nat, schedule: seq<Turn>, t: string, x: string)
    ensures var s := Run(env, names, clients, schedule);
            Wins(s.log, t, x) + Others(s.log, t, x) == if Present(s.tables, t, x) then 1 else 0
  {
    OutcomesExplained(env, names, clients, schedule, t, x);
    LedgerBalances(env, names, clients, schedule, t, x);
    WinsInBalance(Run(env, names, clients, schedule).log, t, x);
  }

  /** Without an addition in between a balance does not grow, without a removal it does not shrink. */
  lemma {:induction false} BalanceBetween(log: seq<Entry>, t: string, x: string, i: nat, j: nat)
    requires i <= j <= |log|
    ensures (forall k :: i <= k < j ==> !Adds(log[k], t, x)) ==> Balance(log[..j], t, x) <= Balance(log[..i], t, x)
    ensures (forall k :: i <= k < j ==> !Removes(log[k], t, x)) ==> Balance(log[..j], t, x) >= Balance(log[..i], t, x)
  {
    if i < j {
      BalanceBetween(log, t, x, i, j - 1);
      BalanceNext(log, t, x, j - 1);
    }
  }

  lemma BalanceNext(log: seq<Entry>, t: string, x: string, i: nat)
    requires i < |log|
    ensures Balance(log[..i + 1], t, x) == Balance(log[..i], t, x) + Share(log[i], t, x)
  {
    assert log[..i + 1][..i] == log[..i];
  }

  /** In every run additions and removals of an identifier alternate: between two removals some write adds it, and
      between two additions some write removes it. */
  lemma WritesAlternate(env: Env, names: seq<string>, clients: nat, schedule: seq<Turn>, t: string, x: string,
                        i: nat, j: nat)
    requires i < j < |Run(env, names, clients, schedule).log|
    ensures var log := Run(env, names, clients, schedule).log;
            && (Removes(log[i], t, x) && Removes(log[j], t, x) ==> exists k :: i < k < j && Adds(log[k], t, x))
            && (Adds(log[i], t, x) && Adds(log[j], t, x) ==> exists k :: i < k < j && Removes(log[k], t, x))
  {
    var log := Run(env, names, clients, schedule).log;
    OutcomesExplained(env, names, clients, schedule, t, x);
    assert Explained(log[i], Balance(log[..i], t, x), t, x) && Explained(log[j], Balance(log[..j], t, x), t, x);
    BalanceNext(log, t, x, i);
    BalanceBetween(log, t, x, i + 1, j);
  }

  // ---- One winner -------------------------------------------------------------------------------

  /** No write has removed the row x, or put it in by a batch. */
  ghost predicate Undisturbed(log: seq<Entry>, t: string, x: string) {
    forall i :: 0 <= i < |log| ==> !Removes(log[i], t, x) && !(Adds(log[i], t, x) && log[i].w.BatchInsert?)
  }

  ghost predicate Attempted(log: seq<Entry>, t: string, x: string) {
    exists i :: 0 <= i < |log| && Attempts(log[i].w, t, x)
  }

  lemma {:induction false} OnlyWins(log: seq<Entry>, t: string, x: string)
    requires Undisturbed(log, t, x)
    ensures Others(log, t, x) == 0 && (Wins(log, t, x) > 0 ==> Attempted(log, t, x))
  {
    if log != [] {
      var front := log[..|log| - 1];
      OnlyWins(front, t, x);
      assert forall i :: 0 <= i < |front| ==> front[i] == log[i];
    }
  }

  /** Successful or not, an insert leaves the row there until a removal. */
  lemma AttemptRemains(log: seq<Entry>, t: string, x: string, i: nat)
    requires AllExplained(log, t, x) && i < |log| && Attempts(log[i].w, t, x)
    requires forall k :: i <= k < |log| ==> !Removes(log[k], t, x)
    ensures Balance(log, t, x) != 0
  {
    assert Explained(log[i], Balance(log[..i], t, x), t, x);
    ExplainedBalance(log, t, x, i);
    BalanceNext(log, t, x, i);
    BalanceBetween(log, t, x, i + 1, |log|);
    assert log[..|log|] == log;
  }

  lemma {:induction false} ExplainedBalance(log: seq<Entry>, t: string, x: string, i: nat)
    requires AllExplained(log, t, x) && i <= |log|
    ensures 0 <= Balance(log[..i], t, x) <= 1
  {
    if i > 0 {
      ExplainedBalance(log, t, x, i - 1);
      BalanceNext(log, t, x, i - 1);
      assert Explained(log[i - 1], Balance(log[..i - 1], t, x), t, x);
    }
  }

  /** As long as no write has removed the row or batched it in, exactly one of the completed inserts of one identifier
      has succeeded, however the clients interleave; and it is the one row of that identifier. */
  lemma OneWinner(env: Env, names: seq<string>, clients: nat, schedule: seq<Turn>, t: string, x: string)
    requires Undisturbed(Run(env, names, clients, schedule).log, t, x)
    ensures var s := Run(env, names, clients, schedule);
            && Wins(s.log, t, x) == (if Present(s.tables, t, x) then 1 else 0)
            && (Attempted(s.log, t, x) <==> Present(s.tables, t, x))
  {
    var log := Run(env, names, clients, schedule).log;
    OutcomesBalance(env, names, clients, schedule, t, x);
    OnlyWins(log, t, x);
    if i: nat :| i < |log| && Attempts(log[i].w, t, x) {
      OutcomesExplained(env, names, clients, schedule, t, x);
      LedgerBalances(env, names, clients, schedule, t, x);
      AttemptRemains(log, t, x, i);
    }
  }

  /** A client whose turns nobody interrupts gets the whole call done: ensure the table if the write inserts, then act
      on it, whatever the schedule offers for the second turn. */
  lemma TurnsMakeCall(env: Env, s: State, c: nat, w: Write, other: Write)
    requires c < |s.clients| && s.clients[c] == Idle
    ensures var tables := if w.Insert? || w.BatchInsert? then EnsureTable(s.tables, w.table) else s.tables;
            var first := Step(env, s, c, w);
            var done := if w.Insert? || w.BatchInsert? then Step(env, first, c, other) else first;
            && done.tables == Section(env, tables, w).0 && done.clients == s.clients
            && |done.log| == |s.log| + 1 && done.log[..|s.log|] == s.log
            && done.log[|s.log|].w == w && done.log[|s.log|].outcome == Section(env, tables, w).1
  {
    assert s.clients[c := Idle] == s.clients && s.clients[c := Ensured(w)][c := Idle] == s.clients;
  }

  /** Deleting the row that an insert reported undoes the insert. */
  lemma DeleteUndoesInsert(env: Env, tables: Tables, t: string, offer: Offer)
    requires t in tables
    ensures var (inserted, outcome) := Section(env, tables, Insert(t, offer));
            outcome.Ok? ==>
              outcome.value.insertedId == Some(offer.Id())
              && Section(env, inserted, Delete(t, offer.Id())) == (tables, Affected(1))
  {
    var rows, id := tables[t], offer.Id();
    if id !in rows {
      assert rows[id := offer.Stored()] - {id} == rows;
      assert tables[t := rows[id := offer.Stored()]][t := rows] == tables;
    }
  }
}
