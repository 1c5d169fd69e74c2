/** The read-only recurring-debt queries: one record with its details, and
    every record of a group, newest first. Both parse the stored TEXT
    columns and report the first column that fails. */
module RecurringQuery {
  import opened Common
  import Decimals
  import opened Dates
  import opened RecurringModels
  import opened Schedule
  import opened Store
  import opened RecurringHandlers

  /** The status shown beside a recurring debt. */
  datatype Status = Paused | Expired | Active

  /** A record as the queries return it: parsed, whether the caller created
      it, and its status on the day of the query. */
  datatype Details = Details(debt: RecurringDebt, isCreator: bool, status: Status)

  /** Paused when inactive; otherwise expired once today is past the end
      date, else active. */
  function StatusOf(isActive: bool, endDate: Option<Date>, today: Date): (s: Status)
    ensures s == Paused <==> !isActive
    ensures s == Expired <==> isActive && endDate.Some? && Before(endDate.value, today)
    ensures s == Active <==> isActive && (endDate.None? || !Before(endDate.value, today))
  {
    if !isActive then Paused
    else if endDate.Some? && Before(endDate.value, today) then Expired
    else Active
  }

  /** The status is the eligibility test of the scheduler without its "due"
      part: a debt is generated today exactly when it shows as active and
      its next generation date has come. */
  lemma ActiveStatusIsEligibility(p: RecurringDebt, today: Date)
    ensures ShouldGenerate(p, today) <==>
              StatusOf(p.isActive, p.endDate, today) == Active && !Before(today, p.nextGenerationDate)
    ensures StatusOf(p.isActive, p.endDate, today) != Active ==> !ShouldGenerate(p, today)
  {
  }

  /** One row read back: its columns parsed in the order amount, frequency,
      start, end, next generation date, the first failure reported. */
  function DetailsOf(row: RecurringRow, caller: int, today: Date): (r: Result<Details>)
    ensures r.Ok? <==> ParseRow(row).Some?
    ensures r.Ok? ==>
              && r.value.debt == ParseRow(row).value
              && r.value.isCreator == (row.createdBy == caller)
              && r.value.status == StatusOf(row.isActive, r.value.debt.endDate, today)
    ensures Decimals.Parse(row.amount).None? ==> r == Err("Invalid amount: " + Decimals.ParseErrorMessage)
  {
    if Decimals.Parse(row.amount).None? then Err("Invalid amount: " + Decimals.ParseErrorMessage)
    else if FromStr(row.frequency).Err? then Err(FromStr(row.frequency).error)
    else if Dates.Parse(row.startDate).None? then Err("Invalid start date: " + DateParseMessage)
    else if row.endDate.Some? && Dates.Parse(row.endDate.value).None? then
      Err("Invalid end date: " + DateParseMessage)
    else if Dates.Parse(row.nextGenerationDate).None? then
      Err("Invalid next generation date: " + DateParseMessage)
    else
      var p := ParseRow(row).value;
      Ok(Details(p, row.createdBy == caller, StatusOf(row.isActive, p.endDate, today)))
  }

  // ---------------------------------------------------------------------
  // get_recurring_debt
  // ---------------------------------------------------------------------

  /** `get_recurring_debt`: the record, joined with the caller's membership
      of its group; a record of another group reads as missing. */
  function GetRecurringDebt(rows: seq<RecurringRow>, members: Membership, caller: int, id: int,
                            today: Date): (r: Result<Details>)
    ensures Find(RecurringIds(rows), id).None? ==> r == Err("Recurring debt not found or access denied")
    ensures Find(RecurringIds(rows), id).Some? ==>
              var row := rows[Find(RecurringIds(rows), id).value];
              && ((row.groupId, caller) !in members ==> r == Err("Recurring debt not found or access denied"))
              && ((row.groupId, caller) in members ==> r == DetailsOf(row, caller, today))
    ensures r.Ok? ==> r.value.debt.id == id
  {
    match Find(RecurringIds(rows), id)
    case None => Err("Recurring debt not found or access denied")
    case Some(i) =>
      if (rows[i].groupId, caller) !in members then Err("Recurring debt not found or access denied")
      else DetailsOf(rows[i], caller, today)
  }

  /** A caller outside the group learns nothing: the answer is the same as
      for an id that does not exist. */
  lemma OutsiderSeesNothing(rows: seq<RecurringRow>, members: Membership, caller: int, id: int,
                            missing: int, today: Date)
    requires Find(RecurringIds(rows), id).Some?
    requires (rows[Find(RecurringIds(rows), id).value].groupId, caller) !in members
    requires forall k :: 0 <= k < |rows| ==> rows[k].id != missing
    ensures GetRecurringDebt(rows, members, caller, id, today) == GetRecurringDebt(rows, members, caller, missing, today)
  {
  }

  // ---------------------------------------------------------------------
  // get_recurring_debts
  // ---------------------------------------------------------------------

  /** An id of the rows after the first is an id of the rows. */
  lemma TailIds(rows: seq<RecurringRow>)
    requires rows != []
    ensures forall id :: id in RecurringIds(rows[1..]) ==> id in RecurringIds(rows)
  {
    assert RecurringIds(rows[1..]) == RecurringIds(rows)[1..];
  }

  /** The listing of a group's records, newest first: the rows after the
      first are newer and are read first, so an error among them wins;
      then the first row, which goes last. */
  function NewestFirst(rows: seq<RecurringRow>, groupId: int, caller: int, today: Date): (r: Result<seq<Details>>)
    ensures r.Ok? ==> |r.value| <= |rows|
    ensures r.Ok? ==> forall k :: 0 <= k < |r.value| ==> r.value[k].debt.groupId == groupId
    ensures r.Ok? ==> forall k :: 0 <= k < |r.value| ==> r.value[k].debt.id in RecurringIds(rows)
    decreases |rows|
  {
    if rows == [] then Ok([])
    else
      match NewestFirst(rows[1..], groupId, caller, today)
      case Err(e) => Err(e)
      case Ok(ds) =>
        TailIds(rows);
        if rows[0].groupId != groupId then Ok(ds)
        else
          match DetailsOf(rows[0], caller, today)
          case Err(e) => Err(e)
          case Ok(d) => Ok(ds + [d])
  }

  /** An error among newer rows is the answer however many older rows come
      before them. */
  lemma {:induction false} ErrorPersists(rows: seq<RecurringRow>, groupId: int, caller: int, today: Date, j: nat)
    requires j <= |rows| && NewestFirst(rows[j..], groupId, caller, today).Err?
    ensures NewestFirst(rows, groupId, caller, today) == NewestFirst(rows[j..], groupId, caller, today)
    decreases j
  {
    if j > 0 {
      assert rows[j - 1..][1..] == rows[j..];
      ErrorPersists(rows, groupId, caller, today, j - 1);
    }
  }

  /** With ids increasing in rowid order, the listing's ids strictly
      decrease: newest first. */
  lemma {:induction false} ListingIsNewestFirst(rows: seq<RecurringRow>, groupId: int, caller: int, today: Date)
    requires IdsIncreasing(RecurringIds(rows))
    requires NewestFirst(rows, groupId, caller, today).Ok?
    ensures var ds := NewestFirst(rows, groupId, caller, today).value;
      forall a, b :: 0 <= a < b < |ds| ==> ds[a].debt.id > ds[b].debt.id
    decreases |rows|
  {
    if rows != [] {
      var ids := RecurringIds(rows);
      var rest := rows[1..];
      assert RecurringIds(rest) == ids[1..];
      ListingIsNewestFirst(rest, groupId, caller, today);
      var ds := NewestFirst(rest, groupId, caller, today).value;
      forall k | 0 <= k < |ds| ensures rows[0].id < ds[k].debt.id {
        OlderIdSmaller(ids, ds[k].debt.id);
      }
    }
  }

  /** Every record of the group with readable columns is listed, and those
      of other groups are not. */
  lemma {:induction false} ListingIsComplete(rows: seq<RecurringRow>, groupId: int, caller: int, today: Date, k: nat)
    requires k < |rows| && NewestFirst(rows, groupId, caller, today).Ok?
    ensures rows[k].groupId == groupId ==>
              DetailsOf(rows[k], caller, today).Ok?
              && DetailsOf(rows[k], caller, today).value in NewestFirst(rows, groupId, caller, today).value
    decreases |rows|
  {
    ListingHead(rows, groupId, caller, today);
    if k > 0 {
      ListingIsComplete(rows[1..], groupId, caller, today, k - 1);
      assert rows[1..][k - 1] == rows[k];
    }
  }

  /** A successful listing holds the listing of the newer rows, and the
      first row's details when it is of the group. */
  lemma ListingHead(rows: seq<RecurringRow>, groupId: int, caller: int, today: Date)
    requires rows != [] && NewestFirst(rows, groupId, caller, today).Ok?
    ensures NewestFirst(rows[1..], groupId, caller, today).Ok?
    ensures forall x :: x in NewestFirst(rows[1..], groupId, caller, today).value ==> x in NewestFirst(rows, groupId, caller, today).value
    ensures rows[0].groupId == groupId ==>
              DetailsOf(rows[0], caller, today).Ok?
              && DetailsOf(rows[0], caller, today).value in NewestFirst(rows, groupId, caller, today).value
  {
  }

  /** One more, older, row in front of a listing that succeeded. */
  lemma ListingStep(rows: seq<RecurringRow>, groupId: int, caller: int, today: Date, i: nat, result: seq<Details>)
    requires 0 < i <= |rows| && NewestFirst(rows[i..], groupId, caller, today) == Ok(result)
    ensures rows[i - 1].groupId != groupId ==> NewestFirst(rows[i - 1..], groupId, caller, today) == Ok(result)
    ensures rows[i - 1].groupId == groupId && DetailsOf(rows[i - 1], caller, today).Ok? ==>
              NewestFirst(rows[i - 1..], groupId, caller, today) == Ok(result + [DetailsOf(rows[i - 1], caller, today).value])
    ensures rows[i - 1].groupId == groupId && DetailsOf(rows[i - 1], caller, today).Err? ==>
              NewestFirst(rows, groupId, caller, today) == Err(DetailsOf(rows[i - 1], caller, today).error)
  {
    assert rows[i - 1..][1..] == rows[i..];
    if rows[i - 1].groupId == groupId && DetailsOf(rows[i - 1], caller, today).Err? {
      ErrorPersists(rows, groupId, caller, today, i - 1);
    }
  }

  /** `get_recurring_debts`: the caller must belong to the group; then each
      of its records, newest first, is read back, and the first unreadable
      one aborts the listing. */
  method GetRecurringDebts(db: Database, members: Membership, caller: int, groupId: int, today: Date)
    returns (r: Result<seq<Details>>)
    ensures (groupId, caller) !in members ==> r == Err("Not authorized")
    ensures (groupId, caller) in members ==> r == NewestFirst(db.recurringDebts, groupId, caller, today)
  {
    if (groupId, caller) !in members {
      return Err("Not authorized");
    }
    var rows := db.recurringDebts;
    var result: seq<Details> := [];
    var i := |rows|;
    assert rows[i..] == [];
    while i > 0
      invariant 0 <= i <= |rows|
      invariant NewestFirst(rows[i..], groupId, caller, today) == Ok(result)
    {
      ListingStep(rows, groupId, caller, today, i, result);
      if rows[i - 1].groupId == groupId {
        var details := DetailsOf(rows[i - 1], caller, today);
        if details.Err? {
          return Err(details.error);
        }
        result := result + [details.value];
      }
      i := i - 1;
    }
    assert rows[0..] == rows;
    return Ok(result);
  }
}
