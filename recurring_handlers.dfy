/** The recurring-debt handlers that change the store: create, update, the
    pause/resume toggle and the manual "generate now". Each checks its
    guards in the source's order and then writes; `caller` is the signed-in
    user and `members` the `group_members` table. */
module RecurringHandlers {
  import opened Common
  import opened Text
  import Decimals
  import opened Dates
  import opened RecurringModels
  import opened Schedule
  import opened Store

  /** The text of a `time` parse error, which some messages quote. */
  const DateParseMessage := "the input does not match the YYYY-MM-DD format"

  // ---------------------------------------------------------------------
  // Reading a row
  // ---------------------------------------------------------------------

  /** An optional TEXT date column: None when present but unparsable. */
  function ParseOptionalDate(e: Option<string>): (r: Option<Option<Date>>)
    ensures r.None? <==> e.Some? && Dates.Parse(e.value).None?
    ensures r.Some? ==> (r.value.Some? <==> e.Some?)
    ensures r.Some? && r.value.Some? ==> Valid(r.value.value) && Format(r.value.value) == e.value
  {
    match e
    case None => Some(None)
    case Some(s) =>
      match Dates.Parse(s)
      case None => None
      case Some(d) => FormatParse(s); Some(Some(d))
  }

  /** A row with its TEXT columns parsed, or None when one fails to parse. */
  function ParseRow(row: RecurringRow): (r: Option<RecurringDebt>)
    ensures r.Some? <==>
              && Decimals.Parse(row.amount).Some?
              && FromStr(row.frequency).Ok?
              && Dates.Parse(row.startDate).Some?
              && ParseOptionalDate(row.endDate).Some?
              && Dates.Parse(row.nextGenerationDate).Some?
    ensures r.Some? ==>
              && DatesValid(r.value)
              && r.value.id == row.id && r.value.groupId == row.groupId
              && r.value.createdBy == row.createdBy && r.value.name == row.name
              && r.value.isActive == row.isActive
              && Decimals.Parse(row.amount) == Some(r.value.amount)
              && AsStr(r.value.frequency) == ToLower(row.frequency)
              && Format(r.value.startDate) == row.startDate
              && Format(r.value.nextGenerationDate) == row.nextGenerationDate
              && ParseOptionalDate(row.endDate) == Some(r.value.endDate)
  {
    var amount := Decimals.Parse(row.amount);
    var frequency := FromStr(row.frequency);
    var start := Dates.Parse(row.startDate);
    var end := ParseOptionalDate(row.endDate);
    var next := Dates.Parse(row.nextGenerationDate);
    if amount.None? || frequency.Err? || start.None? || end.None? || next.None? then None
    else
      FormatParse(row.startDate);
      FormatParse(row.nextGenerationDate);
      Some(RecurringDebt(row.id, row.groupId, row.createdBy, row.name, amount.value,
                         frequency.value, start.value, end.value, next.value, row.isActive))
  }

  // ---------------------------------------------------------------------
  // create_recurring_debt
  // ---------------------------------------------------------------------

  /** The checks of name, amount and frequency that open both
      `create_recurring_debt` and `update_recurring_debt`. */
  function FieldCheck(name: string, amount: string, frequency: string): (r: Result<Unit>)
    ensures r.Ok? <==>
              && Trim(name) != []
              && Decimals.Parse(amount).Some? && Decimals.IsPositive(Decimals.Parse(amount).value)
              && FromStr(frequency).Ok?
  {
    if Trim(name) == [] then Err("Name is required")
    else if Decimals.Parse(amount).None? then Err("Invalid amount")
    else if !Decimals.IsPositive(Decimals.Parse(amount).value) then Err("Amount must be greater than 0")
    else if FromStr(frequency).Err? then Err(FromStr(frequency).error)
    else Ok(Unit)
  }

  /** The date checks of `create_recurring_debt`: the start date is today
      or later, and an end date is after it. */
  function DateCheck(today: Date, startDate: string, endDate: Option<string>): (r: Result<Unit>)
    ensures r.Ok? <==>
              && Dates.Parse(startDate).Some? && !Before(Dates.Parse(startDate).value, today)
              && (endDate.Some? ==>
                    Dates.Parse(endDate.value).Some?
                    && Before(Dates.Parse(startDate).value, Dates.Parse(endDate.value).value))
  {
    if Dates.Parse(startDate).None? then Err("Invalid start date format (expected YYYY-MM-DD)")
    else if Before(Dates.Parse(startDate).value, today) then Err("Start date must be today or in the future")
    else if endDate.Some? && Dates.Parse(endDate.value).None? then
      Err("Invalid end date format (expected YYYY-MM-DD)")
    else if endDate.Some? && !Before(Dates.Parse(startDate).value, Dates.Parse(endDate.value).value) then
      Err("End date must be after start date")
    else Ok(Unit)
  }

  /** The membership checks shared by the handlers that take a member
      list: the caller first (when checked), then each listed member. */
  function MembersCheck(members: Membership, groupId: int, memberIds: seq<int>): (r: Result<Unit>)
    ensures r.Ok? <==> forall i :: 0 <= i < |memberIds| ==> (groupId, memberIds[i]) in members
  {
    match FirstNonMember(members, groupId, memberIds)
    case Some(m) => Err("User " + IntToString(m) + " is not a member of this group")
    case None => Ok(Unit)
  }

  /** The guards of `create_recurring_debt`, in order. */
  function CreateCheck(members: Membership, caller: int, today: Date, groupId: int, name: string,
                       amount: string, frequency: string, startDate: string, endDate: Option<string>,
                       memberIds: seq<int>): (r: Result<Unit>)
    ensures r.Ok? <==>
              && FieldCheck(name, amount, frequency).Ok?
              && DateCheck(today, startDate, endDate).Ok?
              && memberIds != []
              && (groupId, caller) in members
              && MembersCheck(members, groupId, memberIds).Ok?
  {
    if FieldCheck(name, amount, frequency).Err? then FieldCheck(name, amount, frequency)
    else if DateCheck(today, startDate, endDate).Err? then DateCheck(today, startDate, endDate)
    else if memberIds == [] then Err("At least one member must be selected")
    else if (groupId, caller) !in members then Err("Not authorized")
    else MembersCheck(members, groupId, memberIds)
  }

  /** The row `create_recurring_debt` inserts: the texts as given, active,
      first due on its start date. */
  function NewRecurringRow(id: int, groupId: int, caller: int, name: string, amount: string,
                           frequency: string, startDate: string, endDate: Option<string>): (row: RecurringRow)
    ensures row.isActive && row.nextGenerationDate == row.startDate == startDate
    ensures row.amount == amount && row.frequency == frequency && row.name == name && row.endDate == endDate
    ensures row.id == id && row.groupId == groupId && row.createdBy == caller
  {
    RecurringRow(id, groupId, caller, name, amount, frequency, startDate, endDate, startDate, true)
  }

  /** `create_recurring_debt`: the guards, then the record and one member
      row per listed member, in one transaction. */
  method CreateRecurringDebt(db: Database, members: Membership, caller: int, today: Date, groupId: int,
                             name: string, amount: string, frequency: string, startDate: string,
                             endDate: Option<string>, memberIds: seq<int>) returns (r: Result<int>)
    requires db.Valid()
    modifies db
    ensures db.Valid()
    ensures var check := CreateCheck(members, caller, today, groupId, name, amount, frequency, startDate, endDate, memberIds);
      check.Err? ==> r == Err(check.error) && unchanged(db)
    ensures var check := CreateCheck(members, caller, today, groupId, name, amount, frequency, startDate, endDate, memberIds);
      check.Ok? ==>
        && r == Ok(NextId(RecurringIds(old(db.recurringDebts))))
        && db.recurringDebts == old(db.recurringDebts)
                                + [NewRecurringRow(r.value, groupId, caller, name, amount, frequency, startDate, endDate)]
        && db.recurringDebtUsers == old(db.recurringDebtUsers) + LinksFor(r.value, memberIds)
        && db.sharedDebts == old(db.sharedDebts) && db.sharedDebtUsers == old(db.sharedDebtUsers)
        && db.transactions == old(db.transactions)
  {
    var fields := FieldCheck(name, amount, frequency);
    if fields.Err? {
      return Err(fields.error);
    }
    var dates := DateCheck(today, startDate, endDate);
    if dates.Err? {
      return Err(dates.error);
    }
    if memberIds == [] {
      return Err("At least one member must be selected");
    }
    if (groupId, caller) !in members {
      return Err("Not authorized");
    }
    var outsider := CheckMembers(members, groupId, memberIds);
    if outsider.Some? {
      return Err("User " + IntToString(outsider.value) + " is not a member of this group");
    }
    var id := NextId(RecurringIds(db.recurringDebts));
    var row := NewRecurringRow(id, groupId, caller, name, amount, frequency, startDate, endDate);
    RecurringAppend(db.recurringDebts, row);
    db.recurringDebts := db.recurringDebts + [row];
    db.InsertRecurringDebtUsers(id, memberIds);
    return Ok(id);
  }

  /** A record the guards admit reads back as an active debt first due on
      its start date, which is today or later and before any end date: it
      is generated on its start date and on no earlier day. */
  lemma CreatedRecordSchedule(members: Membership, caller: int, today: Date, groupId: int, name: string,
                              amount: string, frequency: string, startDate: string, endDate: Option<string>,
                              memberIds: seq<int>, id: int)
    requires Valid(today)
    requires CreateCheck(members, caller, today, groupId, name, amount, frequency, startDate, endDate, memberIds).Ok?
    ensures var p := ParseRow(NewRecurringRow(id, groupId, caller, name, amount, frequency, startDate, endDate));
      && p.Some?
      && p.value.isActive && p.value.nextGenerationDate == p.value.startDate
      && !Before(p.value.startDate, today)
      && (p.value.endDate.Some? ==> Before(p.value.startDate, p.value.endDate.value))
      && ShouldGenerate(p.value, p.value.startDate)
      && forall t :: Before(t, p.value.startDate) ==> !ShouldGenerate(p.value, t)
  {
    var row := NewRecurringRow(id, groupId, caller, name, amount, frequency, startDate, endDate);
    var p := ParseRow(row);
    assert p.Some?;
    var s := p.value.startDate;
    if endDate.Some? {
      assert p.value.endDate == Dates.Parse(endDate.value);
      assert !Before(p.value.endDate.value, s);
    }
    forall t | Before(t, s) ensures !ShouldGenerate(p.value, t) {
    }
  }

  // ---------------------------------------------------------------------
  // update_recurring_debt
  // ---------------------------------------------------------------------

  /** The checks `update_recurring_debt` makes before reading the store:
      name, amount and frequency, the end date's format and a non-empty
      member list; on success, the parsed end date. */
  function UpdateInputCheck(name: string, amount: string, frequency: string, endDate: Option<string>,
                            memberIds: seq<int>): (r: Result<Option<Date>>)
    ensures r.Ok? <==>
              && FieldCheck(name, amount, frequency).Ok?
              && (endDate.Some? ==> Dates.Parse(endDate.value).Some?)
              && memberIds != []
    ensures r.Ok? ==> (r.value.Some? <==> endDate.Some?)
    ensures r.Ok? && endDate.Some? ==> Dates.Parse(endDate.value) == r.value
  {
    if FieldCheck(name, amount, frequency).Err? then Err(FieldCheck(name, amount, frequency).error)
    else if endDate.Some? && Dates.Parse(endDate.value).None? then
      Err("Invalid end date format (expected YYYY-MM-DD)")
    else if memberIds == [] then Err("At least one member must be selected")
    else if endDate.Some? then Ok(Dates.Parse(endDate.value))
    else Ok(None)
  }

  /** The checks `update_recurring_debt` makes against the stored record:
      it exists, the caller created it, a new end date is after its stored
      start date, and the members belong to its group. */
  function UpdateRecordCheck(members: Membership, caller: int, rows: seq<RecurringRow>, id: int,
                             end: Option<Date>, memberIds: seq<int>): (r: Result<nat>)
    ensures r.Ok? <==>
              && Find(RecurringIds(rows), id).Some?
              && var row := rows[Find(RecurringIds(rows), id).value];
                 && row.createdBy == caller
                 && (end.Some? ==>
                       Dates.Parse(row.startDate).Some? && Before(Dates.Parse(row.startDate).value, end.value))
                 && MembersCheck(members, row.groupId, memberIds).Ok?
    ensures r.Ok? ==> r.value < |rows| && rows[r.value].id == id
  {
    match Find(RecurringIds(rows), id)
    case None => Err("Recurring debt not found")
    case Some(i) =>
      var row := rows[i];
      if row.createdBy != caller then Err("Only the creator can update this recurring debt")
      else if end.Some? && Dates.Parse(row.startDate).None? then
        Err("Invalid start date in database: " + DateParseMessage)
      else if end.Some? && !Before(Dates.Parse(row.startDate).value, end.value) then
        Err("End date must be after start date")
      else match MembersCheck(members, row.groupId, memberIds)
        case Err(e) => Err(e)
        case Ok(_) => Ok(i)
  }

  /** The guards of `update_recurring_debt`, in order; on success, the
      position of the record. The end date is checked against the stored
      start date only, and the caller's own membership is not checked. */
  function UpdateCheck(members: Membership, caller: int, rows: seq<RecurringRow>, id: int, name: string,
                       amount: string, frequency: string, endDate: Option<string>,
                       memberIds: seq<int>): (r: Result<nat>)
    ensures r.Ok? <==>
              && UpdateInputCheck(name, amount, frequency, endDate, memberIds).Ok?
              && UpdateRecordCheck(members, caller, rows, id,
                                   UpdateInputCheck(name, amount, frequency, endDate, memberIds).value, memberIds).Ok?
    ensures r.Ok? ==> r.value < |rows| && rows[r.value].id == id
  {
    match UpdateInputCheck(name, amount, frequency, endDate, memberIds)
    case Err(e) => Err(e)
    case Ok(end) => UpdateRecordCheck(members, caller, rows, id, end, memberIds)
  }

  /** The columns `update_recurring_debt` overwrites; the start date, the
      next generation date, the group and the creator are kept. */
  function UpdatedRow(row: RecurringRow, name: string, amount: string, frequency: string,
                      endDate: Option<string>, isActive: bool): (r: RecurringRow)
    ensures r.id == row.id && r.groupId == row.groupId && r.createdBy == row.createdBy
    ensures r.startDate == row.startDate && r.nextGenerationDate == row.nextGenerationDate
    ensures r.name == name && r.amount == amount && r.frequency == frequency
    ensures r.endDate == endDate && r.isActive == isActive
  {
    row.(name := name, amount := amount, frequency := frequency, endDate := endDate, isActive := isActive)
  }

  /** The lookups of `update_recurring_debt`: find the record, check its
      creator, the new end date against its stored start date, and the
      members against its group. Nothing is written. */
  method LocateForUpdate(db: Database, members: Membership, caller: int, id: int, end: Option<Date>,
                         memberIds: seq<int>) returns (r: Result<nat>)
    requires db.Valid()
    ensures r == UpdateRecordCheck(members, caller, db.recurringDebts, id, end, memberIds)
  {
    var found := db.FindRecurring(id);
    if found.None? {
      return Err("Recurring debt not found");
    }
    var i := found.value;
    var debt := db.recurringDebts[i];
    if debt.createdBy != caller {
      return Err("Only the creator can update this recurring debt");
    }
    if end.Some? {
      var start := Dates.Parse(debt.startDate);
      if start.None? {
        return Err("Invalid start date in database: " + DateParseMessage);
      }
      if !Before(start.value, end.value) {
        return Err("End date must be after start date");
      }
    }
    var outsider := CheckMembers(members, debt.groupId, memberIds);
    if outsider.Some? {
      return Err("User " + IntToString(outsider.value) + " is not a member of this group");
    }
    return Ok(i);
  }

  /** `update_recurring_debt`: the guards, then the record's columns and a
      wholesale replacement of its member rows, in one transaction. */
  method UpdateRecurringDebt(db: Database, members: Membership, caller: int, id: int, name: string,
                             amount: string, frequency: string, endDate: Option<string>, isActive: bool,
                             memberIds: seq<int>) returns (r: Result<Unit>)
    requires db.Valid()
    modifies db
    ensures db.Valid()
    ensures var check := UpdateCheck(members, caller, old(db.recurringDebts), id, name, amount, frequency, endDate, memberIds);
      check.Err? ==> r == Err(check.error) && unchanged(db)
    ensures var check := UpdateCheck(members, caller, old(db.recurringDebts), id, name, amount, frequency, endDate, memberIds);
      check.Ok? ==>
        && r == Ok(Unit)
        && db.recurringDebts == old(db.recurringDebts)[check.value :=
             UpdatedRow(old(db.recurringDebts)[check.value], name, amount, frequency, endDate, isActive)]
        && db.recurringDebtUsers == WithoutOwner(old(db.recurringDebtUsers), id) + LinksFor(id, memberIds)
        && db.sharedDebts == old(db.sharedDebts) && db.sharedDebtUsers == old(db.sharedDebtUsers)
        && db.transactions == old(db.transactions)
  {
    var input := UpdateInputCheck(name, amount, frequency, endDate, memberIds);
    if input.Err? {
      return Err(input.error);
    }
    var endParsed := input.value;
    var located := LocateForUpdate(db, members, caller, id, endParsed, memberIds);
    if located.Err? {
      return Err(located.error);
    }
    var i := located.value;
    var updated := UpdatedRow(db.recurringDebts[i], name, amount, frequency, endDate, isActive);
    RewriteRecurringDebt(db, i, id, updated, memberIds);
    return Ok(Unit);
  }

  /** The writes of `update_recurring_debt`: the record rewritten in place,
      then its members deleted and inserted afresh. */
  method RewriteRecurringDebt(db: Database, i: nat, id: int, updated: RecurringRow, memberIds: seq<int>)
    requires db.Valid() && i < |db.recurringDebts| && updated.id == db.recurringDebts[i].id
    modifies db
    ensures db.Valid()
    ensures db.recurringDebts == old(db.recurringDebts)[i := updated]
    ensures db.recurringDebtUsers == WithoutOwner(old(db.recurringDebtUsers), id) + LinksFor(id, memberIds)
    ensures db.sharedDebts == old(db.sharedDebts) && db.sharedDebtUsers == old(db.sharedDebtUsers)
    ensures db.transactions == old(db.transactions)
  {
    RecurringRewrite(db.recurringDebts, i, updated);
    db.recurringDebts := db.recurringDebts[i := updated];
    db.recurringDebtUsers := WithoutOwner(db.recurringDebtUsers, id);
    db.InsertRecurringDebtUsers(id, memberIds);
  }

  /** The update keeps the schedule but may end it early: an end date
      before the stored next generation date leaves a debt that is never
      generated again, whatever day it is. */
  lemma UpdateCanEndSchedule(row: RecurringRow, name: string, amount: string, frequency: string,
                             endDate: string, isActive: bool, today: Date)
    requires ParseRow(row).Some?
    requires var u := UpdatedRow(row, name, amount, frequency, Some(endDate), isActive);
      ParseRow(u).Some? && Before(ParseRow(u).value.endDate.value, ParseRow(u).value.nextGenerationDate)
    ensures var u := UpdatedRow(row, name, amount, frequency, Some(endDate), isActive);
      ParseRow(u).value.nextGenerationDate == ParseRow(row).value.nextGenerationDate
      && ParseRow(u).value.startDate == ParseRow(row).value.startDate
      && !ShouldGenerate(ParseRow(u).value, today)
  {
    var u := UpdatedRow(row, name, amount, frequency, Some(endDate), isActive);
    var p := ParseRow(u).value;
    var q := ParseRow(row).value;
    ParseFormat(p.nextGenerationDate);
    ParseFormat(q.nextGenerationDate);
    ParseFormat(p.startDate);
    ParseFormat(q.startDate);
    EndBeforeNextNeverDue(p, today);
  }

  // ---------------------------------------------------------------------
  // toggle_recurring_debt_active
  // ---------------------------------------------------------------------

  /** The guards of the toggle; on success, the position of the record. */
  function ToggleCheck(rows: seq<RecurringRow>, caller: int, id: int): (r: Result<nat>)
    ensures r.Ok? <==> Find(RecurringIds(rows), id).Some? && rows[Find(RecurringIds(rows), id).value].createdBy == caller
    ensures r.Ok? ==> r.value < |rows| && rows[r.value].id == id
    ensures Find(RecurringIds(rows), id).None? ==> r == Err("Recurring debt not found")
  {
    match Find(RecurringIds(rows), id)
    case None => Err("Recurring debt not found")
    case Some(i) =>
      if rows[i].createdBy != caller then Err("Only the creator can toggle this recurring debt")
      else Ok(i)
  }

  /** The table with the flag of one record negated. */
  function Toggled(rows: seq<RecurringRow>, i: nat): (r: seq<RecurringRow>)
    requires i < |rows|
    ensures |r| == |rows| && r[i].isActive == !rows[i].isActive
    ensures r[i] == rows[i].(isActive := r[i].isActive)
    ensures forall k :: 0 <= k < |rows| && k != i ==> r[k] == rows[k]
  {
    rows[i := rows[i].(isActive := !rows[i].isActive)]
  }

  /** `toggle_recurring_debt_active`: negates the flag and returns the new
      value; nothing else is written. */
  method ToggleRecurringDebtActive(db: Database, caller: int, id: int) returns (r: Result<bool>)
    requires db.Valid()
    modifies db
    ensures db.Valid()
    ensures var check := ToggleCheck(old(db.recurringDebts), caller, id);
      check.Err? ==> r == Err(check.error) && unchanged(db)
    ensures var check := ToggleCheck(old(db.recurringDebts), caller, id);
      check.Ok? ==>
        && r == Ok(!old(db.recurringDebts)[check.value].isActive)
        && db.recurringDebts == Toggled(old(db.recurringDebts), check.value)
        && db.recurringDebtUsers == old(db.recurringDebtUsers)
        && db.sharedDebts == old(db.sharedDebts) && db.sharedDebtUsers == old(db.sharedDebtUsers)
        && db.transactions == old(db.transactions)
  {
    var found := db.FindRecurring(id);
    if found.None? {
      return Err("Recurring debt not found");
    }
    var i := found.value;
    if db.recurringDebts[i].createdBy != caller {
      return Err("Only the creator can toggle this recurring debt");
    }
    var newStatus := !db.recurringDebts[i].isActive;
    RecurringRewrite(db.recurringDebts, i, db.recurringDebts[i].(isActive := newStatus));
    db.recurringDebts := db.recurringDebts[i := db.recurringDebts[i].(isActive := newStatus)];
    return Ok(newStatus);
  }

  /** Toggling twice restores the table. */
  lemma ToggleTwice(rows: seq<RecurringRow>, i: nat)
    requires i < |rows|
    ensures Toggled(Toggled(rows, i), i) == rows
  {
    assert Toggled(Toggled(rows, i), i)[i] == rows[i];
  }

  /** Resuming keeps the next generation date, so a debt paused over
      several periods is due again at once, for one generation per sweep. */
  lemma ResumeIsDueAtOnce(rows: seq<RecurringRow>, i: nat, today: Date)
    requires i < |rows| && !rows[i].isActive && ParseRow(rows[i]).Some?
    requires var p := ParseRow(rows[i]).value;
      !Before(today, p.nextGenerationDate) && (p.endDate.None? || !Before(p.endDate.value, today))
    ensures ParseRow(Toggled(rows, i)[i]).Some?
    ensures ParseRow(Toggled(rows, i)[i]).value.nextGenerationDate == ParseRow(rows[i]).value.nextGenerationDate
    ensures !ShouldGenerate(ParseRow(rows[i]).value, today)
    ensures ShouldGenerate(ParseRow(Toggled(rows, i)[i]).value, today)
  {
    var p := ParseRow(rows[i]).value;
    var q := ParseRow(Toggled(rows, i)[i]).value;
    ParseFormat(p.nextGenerationDate);
    ParseFormat(p.startDate);
  }

  // ---------------------------------------------------------------------
  // generate_now
  // ---------------------------------------------------------------------

  /** The guards of `generate_now`; on success, the record's position, its
      frequency and its next generation date. Neither the next generation
      date against today nor the end date is checked. */
  function GenerateCheck(rows: seq<RecurringRow>, links: seq<Link>, caller: int, id: int): (r: Result<(nat, Frequency, Date)>)
    ensures r.Ok? <==>
              && Find(RecurringIds(rows), id).Some?
              && var row := rows[Find(RecurringIds(rows), id).value];
                 && row.createdBy == caller && row.isActive
                 && FromStr(row.frequency).Ok?
                 && Dates.Parse(row.nextGenerationDate).Some?
                 && UsersOf(links, id) != []
    ensures r.Ok? ==>
              var (i, f, d) := r.value;
              && i < |rows| && rows[i].id == id
              && FromStr(rows[i].frequency) == Ok(f)
              && Dates.Parse(rows[i].nextGenerationDate) == Some(d) && Valid(d)
  {
    match Find(RecurringIds(rows), id)
    case None => Err("Recurring debt not found")
    case Some(i) =>
      var row := rows[i];
      if row.createdBy != caller then Err("Only the creator can manually generate debts")
      else if !row.isActive then Err("Cannot generate from an inactive recurring debt")
      else match FromStr(row.frequency)
        case Err(e) => Err(e)
        case Ok(f) =>
          match Dates.Parse(row.nextGenerationDate)
          case None => Err("Invalid next generation date: " + DateParseMessage)
          case Some(d) =>
            if UsersOf(links, id) == [] then Err("No members found for this recurring debt")
            else
              FormatParse(row.nextGenerationDate);
              Ok((i, f, d))
  }

  /** The shared debt generated from a recurring debt: group, creator, name
      and the amount text copied, pointing back at its source. */
  function GeneratedDebt(row: RecurringRow, newId: int): (d: SharedDebtRow)
    ensures d.id == newId && d.recurringDebtId == Some(row.id)
    ensures d.groupId == row.groupId && d.createdBy == row.createdBy
    ensures d.name == row.name && d.amount == row.amount
  {
    SharedDebtRow(newId, row.groupId, row.createdBy, row.name, row.amount, Some(row.id))
  }

  /** The record with its next generation date moved on one period. */
  function Advanced(row: RecurringRow, f: Frequency, d: Date): (r: RecurringRow)
    requires Valid(d)
    ensures r == row.(nextGenerationDate := r.nextGenerationDate)
    ensures Dates.Parse(r.nextGenerationDate) == Some(NextOccurrence(d, f))
  {
    ParseFormat(NextOccurrence(d, f));
    row.(nextGenerationDate := Format(NextOccurrence(d, f)))
  }

  /** A generation moves the stored date strictly later, except at the
      horizon of the calendar, where it stays put. */
  lemma AdvancedIsLater(row: RecurringRow, f: Frequency, d: Date)
    requires Valid(d) && Dates.Parse(row.nextGenerationDate) == Some(d)
    ensures var e := Dates.Parse(Advanced(row, f, d).nextGenerationDate).value;
      (AtHorizon(d, f) ==> e == d) && (!AtHorizon(d, f) ==> Before(d, e))
  {
    NextOccurrenceLater(d, f);
  }

  /** `generate_now`: the guards, then in one transaction a shared debt,
      its participants (the recurring debt's members, in order) and the
      advanced next generation date; returns the new debt's id. */
  method GenerateNow(db: Database, caller: int, id: int) returns (r: Result<int>)
    requires db.Valid()
    modifies db
    ensures db.Valid()
    ensures var check := GenerateCheck(old(db.recurringDebts), old(db.recurringDebtUsers), caller, id);
      check.Err? ==> r == Err(check.error) && unchanged(db)
    ensures var check := GenerateCheck(old(db.recurringDebts), old(db.recurringDebtUsers), caller, id);
      check.Ok? ==>
        var (i, f, d) := check.value;
        && r == Ok(NextId(SharedDebtIds(old(db.sharedDebts))))
        && db.sharedDebts == old(db.sharedDebts) + [GeneratedDebt(old(db.recurringDebts)[i], r.value)]
        && db.sharedDebtUsers == old(db.sharedDebtUsers) + LinksFor(r.value, UsersOf(old(db.recurringDebtUsers), id))
        && db.recurringDebts == old(db.recurringDebts)[i := Advanced(old(db.recurringDebts)[i], f, d)]
        && db.recurringDebtUsers == old(db.recurringDebtUsers)
        && db.transactions == old(db.transactions)
  {
    var found := db.FindRecurring(id);
    if found.None? {
      return Err("Recurring debt not found");
    }
    var i := found.value;
    var debt := db.recurringDebts[i];
    if debt.createdBy != caller {
      return Err("Only the creator can manually generate debts");
    }
    if !debt.isActive {
      return Err("Cannot generate from an inactive recurring debt");
    }
    var frequency := FromStr(debt.frequency);
    if frequency.Err? {
      return Err(frequency.error);
    }
    var next := Dates.Parse(debt.nextGenerationDate);
    if next.None? {
      return Err("Invalid next generation date: " + DateParseMessage);
    }
    FormatParse(debt.nextGenerationDate);
    var memberIds := UsersOf(db.recurringDebtUsers, id);
    if memberIds == [] {
      return Err("No members found for this recurring debt");
    }
    var sharedDebtId := NextId(SharedDebtIds(db.sharedDebts));
    SharedDebtAppend(db.sharedDebts, GeneratedDebt(debt, sharedDebtId));
    db.sharedDebts := db.sharedDebts + [GeneratedDebt(debt, sharedDebtId)];
    db.InsertSharedDebtUsers(sharedDebtId, memberIds);
    var advanced := Advanced(debt, frequency.value, next.value);
    RecurringRewrite(db.recurringDebts, i, advanced);
    db.recurringDebts := db.recurringDebts[i := advanced];
    return Ok(sharedDebtId);
  }
}
