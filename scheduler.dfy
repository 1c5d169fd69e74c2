/** The daily sweep over recurring debts: every record the SQL filter
    selects, whose columns parse, which `should_generate` admits and which
    has members, produces one shared debt with those members as
    participants, and its next generation date moves on one period. */
module Scheduler {
  import opened Common
  import opened Text
  import Decimals
  import opened Dates
  import opened RecurringModels
  import opened Schedule
  import opened Store
  import opened RecurringHandlers

  // ---------------------------------------------------------------------
  // Which records generate
  // ---------------------------------------------------------------------

  /** The SQL filter of the sweep, on TEXT columns compared as text: active,
      next generation date at most today, no end date or one at least
      today. */
  predicate SqlDue(row: RecurringRow, todayText: string) {
    && row.isActive
    && StrLe(row.nextGenerationDate, todayText)
    && (row.endDate.None? || StrLe(todayText, row.endDate.value))
  }

  /** A selected record generates when its columns parse, `should_generate`
      admits it and it has at least one member. */
  predicate Generates(row: RecurringRow, links: seq<Link>, today: Date)
    requires Valid(today)
  {
    && SqlDue(row, Format(today))
    && ParseRow(row).Some?
    && ShouldGenerate(ParseRow(row).value, today)
    && UsersOf(links, row.id) != []
  }

  /** The text comparison of the SQL filter and the date comparison of
      `should_generate` agree on every record whose columns parse, which
      here means canonical `YYYY-MM-DD` text: on such a record the second
      test never rejects what the first selected, and a record generates
      exactly when it parses, is eligible and has members. */
  lemma SqlFilterAgrees(row: RecurringRow, links: seq<Link>, today: Date)
    requires Valid(today) && ParseRow(row).Some?
    ensures SqlDue(row, Format(today)) <==> ShouldGenerate(ParseRow(row).value, today)
    ensures Generates(row, links, today) <==>
              ShouldGenerate(ParseRow(row).value, today) && UsersOf(links, row.id) != []
  {
    var p := ParseRow(row).value;
    TextOrder(p.nextGenerationDate, today);
    if p.endDate.Some? {
      TextOrder(today, p.endDate.value);
    }
  }

  // ---------------------------------------------------------------------
  // What one sweep writes
  // ---------------------------------------------------------------------

  /** A record moved on one period from its parsed next generation date;
      a record that does not parse is left as it is. */
  function Advance(row: RecurringRow): (r: RecurringRow)
    ensures r == row.(nextGenerationDate := r.nextGenerationDate)
  {
    match ParseRow(row)
    case None => row
    case Some(p) => Advanced(row, p.frequency, p.nextGenerationDate)
  }

  /** A record after the sweep: moved on one period when it generated,
      untouched otherwise. */
  function SweptRow(row: RecurringRow, links: seq<Link>, today: Date): (r: RecurringRow)
    requires Valid(today)
    ensures r == row.(nextGenerationDate := r.nextGenerationDate)
    ensures !Generates(row, links, today) ==> r == row
    ensures Generates(row, links, today) ==>
              var p := ParseRow(row).value;
              Dates.Parse(r.nextGenerationDate) == Some(NextOccurrence(p.nextGenerationDate, p.frequency))
  {
    if Generates(row, links, today) then Advance(row) else row
  }

  /** Which records of `rows` generate. */
  function DueMask(rows: seq<RecurringRow>, links: seq<Link>, today: Date): (due: seq<bool>)
    requires Valid(today)
    ensures |due| == |rows|
  {
    seq(|rows|, k requires 0 <= k < |rows| => Generates(rows[k], links, today))
  }

  /** The shared debts a sweep over `rows` inserts, in row order, numbered
      from `firstId`; `due` says which records generate. */
  function GeneratedFrom(rows: seq<RecurringRow>, due: seq<bool>, firstId: int): (g: seq<SharedDebtRow>)
    requires |due| == |rows|
    ensures |g| <= |rows|
    ensures forall k :: 0 <= k < |g| ==> g[k].id == firstId + k
    decreases |rows|
  {
    if rows == [] then []
    else
      var n := |rows| - 1;
      var prev := GeneratedFrom(rows[..n], due[..n], firstId);
      if due[n] then prev + [GeneratedDebt(rows[n], firstId + |prev|)] else prev
  }

  /** The participant rows a sweep over `rows` inserts: for each generated
      debt, the recurring debt's members in order. */
  function GeneratedLinks(rows: seq<RecurringRow>, due: seq<bool>, links: seq<Link>, firstId: int): (l: seq<Link>)
    requires |due| == |rows|
    decreases |rows|
  {
    if rows == [] then []
    else
      var n := |rows| - 1;
      GeneratedLinks(rows[..n], due[..n], links, firstId)
      + (if due[n] then LinksFor(firstId + |GeneratedFrom(rows[..n], due[..n], firstId)|, UsersOf(links, rows[n].id))
         else [])
  }

  /** The table once a sweep has handled its first `done` records; `due`
      says which records generate. */
  function Swept(rows: seq<RecurringRow>, due: seq<bool>, done: nat): (r: seq<RecurringRow>)
    requires |due| == |rows|
    ensures |r| == |rows|
  {
    seq(|rows|, k requires 0 <= k < |rows| => if k < done && due[k] then Advance(rows[k]) else rows[k])
  }

  /** After the whole sweep each record is the record after the sweep. */
  lemma SweptAt(rows: seq<RecurringRow>, links: seq<Link>, today: Date, k: nat)
    requires Valid(today) && k < |rows|
    ensures Swept(rows, DueMask(rows, links, today), |rows|)[k] == SweptRow(rows[k], links, today)
  {
  }

  /** One record of the sweep: the SQL filter, then each column's parse,
      `should_generate` and the member list, any failure skipping the
      record; on success, the frequency, the parsed next generation date
      and the members. Nothing is written. */
  method Examine(row: RecurringRow, links: seq<Link>, today: Date, todayText: string)
    returns (plan: Option<(Frequency, Date, seq<int>)>)
    requires Valid(today) && todayText == Format(today)
    ensures plan.Some? <==> Generates(row, links, today)
    ensures plan.Some? ==>
              var p := ParseRow(row).value;
              plan.value == (p.frequency, p.nextGenerationDate, UsersOf(links, row.id))
  {
    if !SqlDue(row, todayText) {
      return None;
    }
    var frequency := FromStr(row.frequency);
    if frequency.Err? {
      return None;
    }
    var next := Dates.Parse(row.nextGenerationDate);
    if next.None? {
      return None;
    }
    var end := ParseOptionalDate(row.endDate);
    if end.None? {
      return None;
    }
    var start := Dates.Parse(row.startDate);
    if start.None? {
      return None;
    }
    var amount := Decimals.Parse(row.amount);
    if amount.None? {
      return None;
    }
    var debt := RecurringDebt(row.id, row.groupId, row.createdBy, row.name, amount.value, frequency.value,
                              start.value, end.value, next.value, row.isActive);
    assert debt == ParseRow(row).value;
    if !ShouldGenerate(debt, today) {
      return None;
    }
    var memberIds := UsersOf(links, row.id);
    if memberIds == [] {
      return None;
    }
    return Some((frequency.value, next.value, memberIds));
  }

  /** One more record in the sweep: what it adds to the shared debts. */
  lemma GeneratedStep(rows: seq<RecurringRow>, due: seq<bool>, firstId: int, i: nat)
    requires |due| == |rows| && i < |rows|
    ensures !due[i] ==> GeneratedFrom(rows[..i + 1], due[..i + 1], firstId) == GeneratedFrom(rows[..i], due[..i], firstId)
    ensures due[i] ==>
              GeneratedFrom(rows[..i + 1], due[..i + 1], firstId)
              == GeneratedFrom(rows[..i], due[..i], firstId)
                 + [GeneratedDebt(rows[i], firstId + |GeneratedFrom(rows[..i], due[..i], firstId)|)]
  {
    assert rows[..i + 1][..i] == rows[..i];
    assert due[..i + 1][..i] == due[..i];
  }

  /** One more record in the sweep: what it adds to the participants. */
  lemma LinksStep(rows: seq<RecurringRow>, due: seq<bool>, links: seq<Link>, firstId: int, i: nat, newId: int)
    requires |due| == |rows| && i < |rows|
    requires newId == firstId + |GeneratedFrom(rows[..i], due[..i], firstId)|
    ensures GeneratedLinks(rows[..i + 1], due[..i + 1], links, firstId)
            == GeneratedLinks(rows[..i], due[..i], links, firstId)
               + (if due[i] then LinksFor(newId, UsersOf(links, rows[i].id)) else [])
  {
    LinksSnoc(rows[..i + 1], due[..i + 1], links, firstId, i);
    assert rows[..i + 1][..i] == rows[..i];
    assert due[..i + 1][..i] == due[..i];
  }

  /** `GeneratedLinks` on a non-empty table, by its last record `n`. */
  lemma LinksSnoc(rows: seq<RecurringRow>, due: seq<bool>, links: seq<Link>, firstId: int, n: nat)
    requires |due| == |rows| && n + 1 == |rows|
    ensures GeneratedLinks(rows, due, links, firstId)
            == GeneratedLinks(rows[..n], due[..n], links, firstId)
               + (if due[n] then LinksFor(firstId + |GeneratedFrom(rows[..n], due[..n], firstId)|, UsersOf(links, rows[n].id)) else [])
  {
  }

  lemma AppendAssoc<T>(a: seq<T>, b: seq<T>, c: seq<T>)
    ensures (a + b) + c == a + (b + c)
  {
  }

  /** One record of the sweep, with its writes: when it generates, a shared
      debt with the next rowid, one participant row per member and the
      advanced next generation date, all in one transaction. */
  method SweepOne(db: Database, i: nat, links: seq<Link>, today: Date, todayText: string,
                  ghost rows: seq<RecurringRow>, ghost due: seq<bool>, ghost newId: int) returns (generated: bool)
    requires db.Valid() && Valid(today) && todayText == Format(today)
    requires i < |db.recurringDebts| && db.recurringDebtUsers == links
    requires i < |rows| && rows[i] == db.recurringDebts[i] && due == DueMask(rows, links, today)
    requires newId == NextId(SharedDebtIds(db.sharedDebts))
    modifies db
    ensures db.Valid()
    ensures generated == due[i]
    ensures db.sharedDebts == old(db.sharedDebts) + (if generated then [GeneratedDebt(rows[i], newId)] else [])
    ensures db.sharedDebtUsers == old(db.sharedDebtUsers) + (if generated then LinksFor(newId, UsersOf(links, rows[i].id)) else [])
    ensures db.recurringDebts == old(db.recurringDebts)[i := if generated then Advance(rows[i]) else rows[i]]
    ensures db.recurringDebtUsers == links && db.transactions == old(db.transactions)
  {
    var row := db.recurringDebts[i];
    var plan := Examine(row, links, today, todayText);
    if plan.None? {
      assert db.recurringDebts[i := row] == db.recurringDebts;
      assert db.sharedDebts + [] == db.sharedDebts && db.sharedDebtUsers + [] == db.sharedDebtUsers;
      return false;
    }
    var (frequency, next, memberIds) := plan.value;
    Generate(db, i, frequency, next, memberIds, links, today, newId);
    return true;
  }

  /** The writes of one generation: the shared debt with the next rowid,
      one participant row per member, and the record's date moved on. */
  method Generate(db: Database, i: nat, frequency: Frequency, next: Date, memberIds: seq<int>,
                  ghost links: seq<Link>, ghost today: Date, ghost newId: int)
    requires db.Valid() && Valid(today) && i < |db.recurringDebts|
    requires Generates(db.recurringDebts[i], links, today)
    requires frequency == ParseRow(db.recurringDebts[i]).value.frequency
    requires next == ParseRow(db.recurringDebts[i]).value.nextGenerationDate
    requires memberIds == UsersOf(links, db.recurringDebts[i].id)
    requires newId == NextId(SharedDebtIds(db.sharedDebts))
    modifies db
    ensures db.Valid()
    ensures db.sharedDebts == old(db.sharedDebts) + [GeneratedDebt(old(db.recurringDebts[i]), newId)]
    ensures db.sharedDebtUsers == old(db.sharedDebtUsers) + LinksFor(newId, memberIds)
    ensures db.recurringDebts == old(db.recurringDebts)[i := Advance(old(db.recurringDebts[i]))]
    ensures db.recurringDebtUsers == old(db.recurringDebtUsers) && db.transactions == old(db.transactions)
  {
    var row := db.recurringDebts[i];
    var sharedDebtId := NextId(SharedDebtIds(db.sharedDebts));
    SharedDebtAppend(db.sharedDebts, GeneratedDebt(row, sharedDebtId));
    db.sharedDebts := db.sharedDebts + [GeneratedDebt(row, sharedDebtId)];
    db.InsertSharedDebtUsers(sharedDebtId, memberIds);
    MoveOn(db, i, frequency, next);
  }

  /** `UPDATE recurring_debts SET next_generation_date = …`: the record's
      date moved on one period, nothing else written. */
  method MoveOn(db: Database, i: nat, frequency: Frequency, next: Date)
    requires db.Valid() && i < |db.recurringDebts| && Valid(next)
    modifies db
    ensures db.Valid()
    ensures db.recurringDebts == old(db.recurringDebts)[i := Advanced(old(db.recurringDebts[i]), frequency, next)]
    ensures db.sharedDebts == old(db.sharedDebts) && db.sharedDebtUsers == old(db.sharedDebtUsers)
    ensures db.recurringDebtUsers == old(db.recurringDebtUsers) && db.transactions == old(db.transactions)
  {
    var advanced := Advanced(db.recurringDebts[i], frequency, next);
    RecurringRewrite(db.recurringDebts, i, advanced);
    db.recurringDebts := db.recurringDebts[i := advanced];
  }

  /** The tables after a sweep has handled its first `i` records, of which
      `count` generated: what was there before, then the generated debts
      and their participants; the records so far have moved on. */
  ghost predicate SweptSoFar(rows: seq<RecurringRow>, due: seq<bool>, links: seq<Link>, firstId: int, i: nat, count: nat,
                             oldShared: seq<SharedDebtRow>, oldUsers: seq<Link>,
                             shared: seq<SharedDebtRow>, users: seq<Link>, recs: seq<RecurringRow>)
    requires |due| == |rows| && i <= |rows|
  {
    && count == |GeneratedFrom(rows[..i], due[..i], firstId)|
    && shared == oldShared + GeneratedFrom(rows[..i], due[..i], firstId)
    && users == oldUsers + GeneratedLinks(rows[..i], due[..i], links, firstId)
    && recs == Swept(rows, due, i)
  }

  /** Before the sweep nothing has been generated. */
  lemma SweepStart(rows: seq<RecurringRow>, due: seq<bool>, links: seq<Link>, firstId: int,
                   oldShared: seq<SharedDebtRow>, oldUsers: seq<Link>)
    requires |due| == |rows|
    ensures SweptSoFar(rows, due, links, firstId, 0, 0, oldShared, oldUsers, oldShared, oldUsers, rows)
  {
    assert rows[..0] == [] && due[..0] == [];
    assert Swept(rows, due, 0) == rows;
  }

  /** After the last record the sweep is the sweep over the whole table. */
  lemma SweepEnd(rows: seq<RecurringRow>, due: seq<bool>, links: seq<Link>, firstId: int, count: nat,
                 oldShared: seq<SharedDebtRow>, oldUsers: seq<Link>,
                 shared: seq<SharedDebtRow>, users: seq<Link>, recs: seq<RecurringRow>)
    requires |due| == |rows|
    requires SweptSoFar(rows, due, links, firstId, |rows|, count, oldShared, oldUsers, shared, users, recs)
    ensures shared == oldShared + GeneratedFrom(rows, due, firstId)
    ensures users == oldUsers + GeneratedLinks(rows, due, links, firstId)
    ensures count == |GeneratedFrom(rows, due, firstId)|
    ensures recs == Swept(rows, due, |rows|)
  {
    assert rows[..|rows|] == rows && due[..|rows|] == due;
  }

  /** The loop's bookkeeping for one record: the shared debts, participant
      rows and records after it are those of the sweep one record further. */
  lemma SweepAdvance(rows: seq<RecurringRow>, due: seq<bool>, links: seq<Link>, firstId: int, i: nat, count: nat, newId: int,
                     generated: bool, oldShared: seq<SharedDebtRow>, shared0: seq<SharedDebtRow>, shared1: seq<SharedDebtRow>,
                     oldUsers: seq<Link>, users0: seq<Link>, users1: seq<Link>,
                     recs0: seq<RecurringRow>, recs1: seq<RecurringRow>)
    requires |due| == |rows| && i < |rows| && generated == due[i] && newId == firstId + count
    requires SweptSoFar(rows, due, links, firstId, i, count, oldShared, oldUsers, shared0, users0, recs0)
    requires shared1 == shared0 + (if generated then [GeneratedDebt(rows[i], newId)] else [])
    requires users1 == users0 + (if generated then LinksFor(newId, UsersOf(links, rows[i].id)) else [])
    requires recs1 == recs0[i := if generated then Advance(rows[i]) else rows[i]]
    ensures SweptSoFar(rows, due, links, firstId, i + 1, count + (if generated then 1 else 0), oldShared, oldUsers, shared1, users1, recs1)
  {
    SharedAdvance(rows, due, firstId, i, newId, oldShared, shared0, shared1);
    UsersAdvance(rows, due, links, firstId, i, newId, oldUsers, users0, users1);
    RecurringAdvance(rows, due, i, recs0, recs1);
  }

  /** The shared debts one record further into the sweep. */
  lemma SharedAdvance(rows: seq<RecurringRow>, due: seq<bool>, firstId: int, i: nat, newId: int,
                      oldShared: seq<SharedDebtRow>, shared0: seq<SharedDebtRow>, shared1: seq<SharedDebtRow>)
    requires |due| == |rows| && i < |rows|
    requires newId == firstId + |GeneratedFrom(rows[..i], due[..i], firstId)|
    requires shared0 == oldShared + GeneratedFrom(rows[..i], due[..i], firstId)
    requires shared1 == shared0 + (if due[i] then [GeneratedDebt(rows[i], newId)] else [])
    ensures shared1 == oldShared + GeneratedFrom(rows[..i + 1], due[..i + 1], firstId)
    ensures |GeneratedFrom(rows[..i + 1], due[..i + 1], firstId)| == |GeneratedFrom(rows[..i], due[..i], firstId)| + (if due[i] then 1 else 0)
  {
    GeneratedStep(rows, due, firstId, i);
    var prev := GeneratedFrom(rows[..i], due[..i], firstId);
    var added := if due[i] then [GeneratedDebt(rows[i], newId)] else [];
    if !due[i] {
      assert prev + added == prev;
    }
    AppendStep(oldShared, prev, GeneratedFrom(rows[..i + 1], due[..i + 1], firstId), added, shared0, shared1);
  }

  /** The participant rows one record further into the sweep. */
  lemma UsersAdvance(rows: seq<RecurringRow>, due: seq<bool>, links: seq<Link>, firstId: int, i: nat, newId: int,
                     oldUsers: seq<Link>, users0: seq<Link>, users1: seq<Link>)
    requires |due| == |rows| && i < |rows|
    requires newId == firstId + |GeneratedFrom(rows[..i], due[..i], firstId)|
    requires users0 == oldUsers + GeneratedLinks(rows[..i], due[..i], links, firstId)
    requires users1 == users0 + (if due[i] then LinksFor(newId, UsersOf(links, rows[i].id)) else [])
    ensures users1 == oldUsers + GeneratedLinks(rows[..i + 1], due[..i + 1], links, firstId)
  {
    LinksStep(rows, due, links, firstId, i, newId);
    AppendStep(oldUsers, GeneratedLinks(rows[..i], due[..i], links, firstId), GeneratedLinks(rows[..i + 1], due[..i + 1], links, firstId),
               if due[i] then LinksFor(newId, UsersOf(links, rows[i].id)) else [], users0, users1);
  }

  /** Appending to a table that extends `o` by `prev`: it now extends `o`
      by `prev` and what was appended. */
  lemma AppendStep<T>(o: seq<T>, prev: seq<T>, next: seq<T>, added: seq<T>, s0: seq<T>, s1: seq<T>)
    requires s0 == o + prev && s1 == s0 + added && next == prev + added
    ensures s1 == o + next
  {
    AppendAssoc(o, prev, added);
  }

  /** The records one record further into the sweep. */
  lemma RecurringAdvance(rows: seq<RecurringRow>, due: seq<bool>, i: nat, recs0: seq<RecurringRow>, recs1: seq<RecurringRow>)
    requires |due| == |rows| && i < |rows|
    requires recs0 == Swept(rows, due, i)
    requires recs1 == recs0[i := if due[i] then Advance(rows[i]) else rows[i]]
    ensures recs1 == Swept(rows, due, i + 1)
  {
  }

  /** One turn of the sweep's loop: the record's writes, then the
      bookkeeping that carries the loop's invariant one record further. */
  method SweepStep(db: Database, i: nat, count: nat, links: seq<Link>, today: Date, todayText: string,
                   ghost rows: seq<RecurringRow>, ghost due: seq<bool>, ghost firstId: int,
                   ghost oldShared: seq<SharedDebtRow>, ghost oldUsers: seq<Link>) returns (count': nat)
    requires db.Valid() && Valid(today) && todayText == Format(today)
    requires i < |rows| && due == DueMask(rows, links, today) && db.recurringDebtUsers == links
    requires SweptSoFar(rows, due, links, firstId, i, count, oldShared, oldUsers, db.sharedDebts, db.sharedDebtUsers, db.recurringDebts)
    requires NextId(SharedDebtIds(db.sharedDebts)) == firstId + count
    modifies db
    ensures db.Valid() && db.recurringDebtUsers == links && db.transactions == old(db.transactions)
    ensures SweptSoFar(rows, due, links, firstId, i + 1, count', oldShared, oldUsers, db.sharedDebts, db.sharedDebtUsers, db.recurringDebts)
    ensures NextId(SharedDebtIds(db.sharedDebts)) == firstId + count'
  {
    ghost var shared0, users0, recs0 := db.sharedDebts, db.sharedDebtUsers, db.recurringDebts;
    ghost var newId := firstId + count;
    var generated := SweepOne(db, i, links, today, todayText, rows, due, newId);
    SweepAdvance(rows, due, links, firstId, i, count, newId, generated, oldShared, shared0, db.sharedDebts,
                 oldUsers, users0, db.sharedDebtUsers, recs0, db.recurringDebts);
    count' := count;
    if generated {
      SharedDebtAppend(shared0, GeneratedDebt(rows[i], newId));
      count' := count + 1;
    }
  }

  /** `process_due_recurring_debts_internal`: one pass over the records as
      they stood when the sweep began, in rowid order; returns how many
      shared debts it created. */
  method ProcessDueRecurringDebts(db: Database, today: Date) returns (count: nat)
    requires db.Valid() && Valid(today)
    modifies db
    ensures db.Valid()
    ensures var firstId := NextId(SharedDebtIds(old(db.sharedDebts)));
      var due := DueMask(old(db.recurringDebts), old(db.recurringDebtUsers), today);
      && db.sharedDebts == old(db.sharedDebts) + GeneratedFrom(old(db.recurringDebts), due, firstId)
      && db.sharedDebtUsers == old(db.sharedDebtUsers) + GeneratedLinks(old(db.recurringDebts), due, old(db.recurringDebtUsers), firstId)
      && count == |GeneratedFrom(old(db.recurringDebts), due, firstId)|
    ensures db.recurringDebts == Swept(old(db.recurringDebts), DueMask(old(db.recurringDebts), old(db.recurringDebtUsers), today), |old(db.recurringDebts)|)
    ensures db.recurringDebtUsers == old(db.recurringDebtUsers) && db.transactions == old(db.transactions)
  {
    var todayText := Format(today);
    var rows := db.recurringDebts;
    var links := db.recurringDebtUsers;
    ghost var firstId := NextId(SharedDebtIds(db.sharedDebts));
    ghost var due := DueMask(rows, links, today);
    count := 0;
    SweepStart(rows, due, links, firstId, db.sharedDebts, db.sharedDebtUsers);
    for i := 0 to |rows|
      invariant db.Valid()
      invariant db.recurringDebtUsers == links && db.transactions == old(db.transactions)
      invariant SweptSoFar(rows, due, links, firstId, i, count, old(db.sharedDebts), old(db.sharedDebtUsers),
                           db.sharedDebts, db.sharedDebtUsers, db.recurringDebts)
      invariant NextId(SharedDebtIds(db.sharedDebts)) == firstId + count
    {
      count := SweepStep(db, i, count, links, today, todayText, rows, due, firstId, old(db.sharedDebts), old(db.sharedDebtUsers));
    }
    SweepEnd(rows, due, links, firstId, count, old(db.sharedDebts), old(db.sharedDebtUsers),
             db.sharedDebts, db.sharedDebtUsers, db.recurringDebts);
  }

  // ---------------------------------------------------------------------
  // Properties of a sweep
  // ---------------------------------------------------------------------

  /** Each record generates at most once per sweep: every generated debt
      points at a record of the sweep, and with ids increasing in rowid
      order they point at strictly increasing, hence distinct, records. */
  lemma {:induction false} AtMostOncePerSweep(rows: seq<RecurringRow>, due: seq<bool>, firstId: int)
    requires |due| == |rows| && IdsIncreasing(RecurringIds(rows))
    ensures forall k :: 0 <= k < |GeneratedFrom(rows, due, firstId)| ==>
              GeneratedFrom(rows, due, firstId)[k].recurringDebtId.Some?
              && GeneratedFrom(rows, due, firstId)[k].recurringDebtId.value in RecurringIds(rows)
    ensures forall a, b :: 0 <= a < b < |GeneratedFrom(rows, due, firstId)| ==>
              GeneratedFrom(rows, due, firstId)[a].recurringDebtId.value < GeneratedFrom(rows, due, firstId)[b].recurringDebtId.value
    decreases |rows|
  {
    if rows != [] {
      var n := |rows| - 1;
      var ids := RecurringIds(rows);
      assert RecurringIds(rows[..n]) == ids[..n];
      AtMostOncePerSweep(rows[..n], due[..n], firstId);
      var prev := GeneratedFrom(rows[..n], due[..n], firstId);
      forall k | 0 <= k < |prev| ensures prev[k].recurringDebtId.value < rows[n].id && prev[k].recurringDebtId.value in ids {
        NewerIdLarger(ids, prev[k].recurringDebtId.value);
      }
      assert ids[n] == rows[n].id;
    }
  }

  /** After generating, a record is due again in the same sweep's terms
      exactly when its advanced date has also come: a record behind by
      several periods catches up one period per sweep. At the horizon of
      the calendar the date does not move, so the record generates on
      every later sweep. */
  lemma CatchUpOnePerSweep(row: RecurringRow, links: seq<Link>, today: Date)
    requires Valid(today) && Generates(row, links, today)
    ensures var p := ParseRow(row).value;
      var next := NextOccurrence(p.nextGenerationDate, p.frequency);
      && ParseRow(SweptRow(row, links, today)) == Some(p.(nextGenerationDate := next))
      && (Generates(SweptRow(row, links, today), links, today) <==> !Before(today, next))
      && (AtHorizon(p.nextGenerationDate, p.frequency) ==> Generates(SweptRow(row, links, today), links, today))
  {
    var p := ParseRow(row).value;
    var next := NextOccurrence(p.nextGenerationDate, p.frequency);
    var swept := SweptRow(row, links, today);
    assert ParseRow(swept).value == p.(nextGenerationDate := next);
    SqlFilterAgrees(swept, links, today);
    NextOccurrenceLater(p.nextGenerationDate, p.frequency);
  }
}
