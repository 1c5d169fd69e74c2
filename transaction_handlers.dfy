/** The transaction handlers that change the store: create and update. A
    transaction records a payment from the payer, always the signed-in
    `caller`, to a recipient in the same group; the stored amount is the
    input rounded to two places. */
module TransactionHandlers {
  import opened Common
  import opened Decimals
  import opened Store

  /** The amount check both handlers make first: the raw text must parse
      as a decimal and be positive. */
  function AmountCheck(amount: string): (r: Result<Decimal>)
    ensures r.Ok? <==> Parse(amount).Some? && IsPositive(Parse(amount).value)
    ensures r.Ok? ==> Parse(amount) == Some(r.value) && Value(r.value) > 0.0
    ensures Parse(amount).None? ==> r == Err("Invalid amount format")
    ensures Parse(amount).Some? && !IsPositive(Parse(amount).value) ==> r == Err("Amount must be greater than 0")
  {
    match Parse(amount)
    case None => Err("Invalid amount format")
    case Some(d) =>
      if !IsPositive(d) then Err("Amount must be greater than 0")
      else
        IsPositiveValue(d);
        Ok(d)
  }

  /** The recipient checks both handlers share: a member of the group, and
      not the caller. */
  function RecipientCheck(members: Membership, caller: int, groupId: int, recipientId: int): (r: Result<Unit>)
    ensures r.Ok? <==> (groupId, recipientId) in members && recipientId != caller
    ensures (groupId, recipientId) !in members ==> r == Err("Recipient is not a member of this group")
  {
    if (groupId, recipientId) !in members then Err("Recipient is not a member of this group")
    else if caller == recipientId then Err("Cannot create transaction with yourself")
    else Ok(Unit)
  }

  // ---------------------------------------------------------------------
  // create_transaction
  // ---------------------------------------------------------------------

  /** The guards of `create_transaction`, in order: the amount before any
      membership check; on success, the parsed amount. */
  function CreateCheck(members: Membership, caller: int, groupId: int, recipientId: int, amount: string)
    : (r: Result<Decimal>)
    ensures r.Ok? <==>
              && AmountCheck(amount).Ok?
              && (groupId, caller) in members
              && (groupId, recipientId) in members
              && recipientId != caller
    ensures r.Ok? ==> r == AmountCheck(amount)
    ensures AmountCheck(amount).Err? ==> r == Err(AmountCheck(amount).error)
    ensures AmountCheck(amount).Ok? && (groupId, caller) !in members ==> r == Err("You are not a member of this group")
  {
    if AmountCheck(amount).Err? then Err(AmountCheck(amount).error)
    else if (groupId, caller) !in members then Err("You are not a member of this group")
    else if RecipientCheck(members, caller, groupId, recipientId).Err? then
      Err(RecipientCheck(members, caller, groupId, recipientId).error)
    else AmountCheck(amount)
  }

  /** The row `create_transaction` inserts: the caller pays, and the
      amount is written out after `round_dp(2)`. */
  function NewTransactionRow(id: int, groupId: int, caller: int, recipientId: int, amount: Decimal,
                             description: Option<string>): (row: TransactionRow)
    ensures row.id == id && row.groupId == groupId && row.payerId == caller && row.recipientId == recipientId
    ensures Parse(row.amount) == Some(RoundDp2(amount)) && row.description == description
  {
    ParseToString(RoundDp2(amount));
    TransactionRow(id, groupId, caller, recipientId, ToString(RoundDp2(amount)), description)
  }

  /** `create_transaction`: the guards, then one row; returns its id. */
  method CreateTransaction(db: Database, members: Membership, caller: int, groupId: int, recipientId: int,
                           amount: string, description: Option<string>) returns (r: Result<int>)
    requires db.Valid()
    modifies db
    ensures db.Valid()
    ensures var check := CreateCheck(members, caller, groupId, recipientId, amount);
      check.Err? ==> r == Err(check.error) && unchanged(db)
    ensures var check := CreateCheck(members, caller, groupId, recipientId, amount);
      check.Ok? ==>
        && r == Ok(NextId(TransactionIds(old(db.transactions))))
        && db.transactions == old(db.transactions)
                              + [NewTransactionRow(r.value, groupId, caller, recipientId, check.value, description)]
        && db.recurringDebts == old(db.recurringDebts) && db.recurringDebtUsers == old(db.recurringDebtUsers)
        && db.sharedDebts == old(db.sharedDebts) && db.sharedDebtUsers == old(db.sharedDebtUsers)
  {
    var parsed := AmountCheck(amount);
    if parsed.Err? {
      return Err(parsed.error);
    }
    if (groupId, caller) !in members {
      return Err("You are not a member of this group");
    }
    if (groupId, recipientId) !in members {
      return Err("Recipient is not a member of this group");
    }
    if caller == recipientId {
      return Err("Cannot create transaction with yourself");
    }
    var id := NextId(TransactionIds(db.transactions));
    var row := NewTransactionRow(id, groupId, caller, recipientId, parsed.value, description);
    TransactionAppend(db.transactions, row);
    db.transactions := db.transactions + [row];
    return Ok(id);
  }

  /** A payment that is stored is between two distinct members of its
      group, and its amount reads back with at most two places, within half
      a cent of the amount typed. */
  lemma CreatedTransactionReadsBack(members: Membership, caller: int, groupId: int, recipientId: int,
                                    amount: string, description: Option<string>, id: int)
    requires CreateCheck(members, caller, groupId, recipientId, amount).Ok?
    ensures var d := CreateCheck(members, caller, groupId, recipientId, amount).value;
      var row := NewTransactionRow(id, groupId, caller, recipientId, d, description);
      && (row.groupId, row.payerId) in members && (row.groupId, row.recipientId) in members
      && row.payerId != row.recipientId
      && Parse(row.amount).Some? && Parse(row.amount).value.scale <= 2
      && -1.0 / 200.0 <= Value(Parse(row.amount).value) - Value(Parse(amount).value) <= 1.0 / 200.0
  {
    var d := CreateCheck(members, caller, groupId, recipientId, amount).value;
    RoundDp2Close(d);
  }

  /** "0.001" passes the positivity check, which comes before rounding, and
      is stored as 0.00: a payment of nothing. */
  lemma TinyAmountStoredAsZero(members: Membership, caller: int, groupId: int, recipientId: int,
                               description: Option<string>, id: int)
    requires (groupId, caller) in members && (groupId, recipientId) in members && recipientId != caller
    ensures CreateCheck(members, caller, groupId, recipientId, "0.001") == Ok(Decimal(1, 3))
    ensures var row := NewTransactionRow(id, groupId, caller, recipientId, Decimal(1, 3), description);
      Parse(row.amount) == Some(Decimal(0, 2)) && Value(Parse(row.amount).value) == 0.0
  {
    TinyAmountAccepted();
    CreateCheckPasses(members, caller, groupId, recipientId, "0.001");
    var row := NewTransactionRow(id, groupId, caller, recipientId, Decimal(1, 3), description);
    RoundThousandth();
    assert Parse(row.amount) == Some(Decimal(0, 2));
    ZeroValue(2);
  }

  lemma CreateCheckPasses(members: Membership, caller: int, groupId: int, recipientId: int, amount: string)
    requires AmountCheck(amount).Ok?
    requires (groupId, caller) in members && (groupId, recipientId) in members && recipientId != caller
    ensures CreateCheck(members, caller, groupId, recipientId, amount) == AmountCheck(amount)
  {
  }

  lemma TinyAmountAccepted()
    ensures AmountCheck("0.001") == Ok(Decimal(1, 3))
  {
    ParseThousandth();
    RoundThousandth();
  }

  // ---------------------------------------------------------------------
  // update_transaction
  // ---------------------------------------------------------------------

  /** The lookups of `update_transaction`: the transaction must exist in
      this group and the caller must be its payer; on success, its
      position. The caller's own membership is not checked. */
  function LocateCheck(rows: seq<TransactionRow>, caller: int, groupId: int, id: int): (r: Result<nat>)
    ensures r.Ok? <==>
              && Find(TransactionIds(rows), id).Some?
              && rows[Find(TransactionIds(rows), id).value].groupId == groupId
              && rows[Find(TransactionIds(rows), id).value].payerId == caller
    ensures r.Ok? ==> r.value < |rows| && rows[r.value].id == id
    ensures Find(TransactionIds(rows), id).None? ==> r == Err("Transaction not found")
  {
    match Find(TransactionIds(rows), id)
    case None => Err("Transaction not found")
    case Some(i) =>
      if rows[i].groupId != groupId then Err("Transaction not found")
      else if rows[i].payerId != caller then Err("You can only edit your own transactions")
      else Ok(i)
  }

  /** All of `update_transaction`'s guards, in order; on success, the
      position of the row and the parsed amount. */
  function UpdateCheck(members: Membership, caller: int, rows: seq<TransactionRow>, groupId: int, id: int,
                       recipientId: int, amount: string): (r: Result<(nat, Decimal)>)
    ensures r.Ok? <==>
              && AmountCheck(amount).Ok?
              && LocateCheck(rows, caller, groupId, id).Ok?
              && RecipientCheck(members, caller, groupId, recipientId).Ok?
    ensures r.Ok? ==> r.value == (LocateCheck(rows, caller, groupId, id).value, AmountCheck(amount).value)
    ensures AmountCheck(amount).Err? ==> r == Err(AmountCheck(amount).error)
  {
    match AmountCheck(amount)
    case Err(e) => Err(e)
    case Ok(d) =>
      match LocateCheck(rows, caller, groupId, id)
      case Err(e) => Err(e)
      case Ok(i) =>
        if RecipientCheck(members, caller, groupId, recipientId).Err? then
          Err(RecipientCheck(members, caller, groupId, recipientId).error)
        else Ok((i, d))
  }

  /** The row after the update: recipient, rounded amount and description
      are replaced; id, group and payer are kept. */
  function UpdatedTransaction(row: TransactionRow, recipientId: int, amount: Decimal,
                              description: Option<string>): (r: TransactionRow)
    ensures r.id == row.id && r.groupId == row.groupId && r.payerId == row.payerId
    ensures r.recipientId == recipientId && r.description == description
    ensures Parse(r.amount) == Some(RoundDp2(amount))
  {
    ParseToString(RoundDp2(amount));
    row.(recipientId := recipientId, amount := ToString(RoundDp2(amount)), description := description)
  }

  /** The lookups of `update_transaction`, read-only. */
  method LocateTransaction(db: Database, caller: int, groupId: int, id: int) returns (r: Result<nat>)
    requires db.Valid()
    ensures r == LocateCheck(db.transactions, caller, groupId, id)
  {
    var found := db.FindTransaction(id);
    if found.None? || db.transactions[found.value].groupId != groupId {
      return Err("Transaction not found");
    }
    if db.transactions[found.value].payerId != caller {
      return Err("You can only edit your own transactions");
    }
    return Ok(found.value);
  }

  /** `update_transaction`: the guards, then the one row rewritten. */
  method UpdateTransaction(db: Database, members: Membership, caller: int, groupId: int, id: int,
                           recipientId: int, amount: string, description: Option<string>) returns (r: Result<Unit>)
    requires db.Valid()
    modifies db
    ensures db.Valid()
    ensures var check := UpdateCheck(members, caller, old(db.transactions), groupId, id, recipientId, amount);
      check.Err? ==> r == Err(check.error) && unchanged(db)
    ensures var check := UpdateCheck(members, caller, old(db.transactions), groupId, id, recipientId, amount);
      check.Ok? ==>
        && r == Ok(Unit)
        && db.transactions == old(db.transactions)[check.value.0 :=
             UpdatedTransaction(old(db.transactions)[check.value.0], recipientId, check.value.1, description)]
        && db.recurringDebts == old(db.recurringDebts) && db.recurringDebtUsers == old(db.recurringDebtUsers)
        && db.sharedDebts == old(db.sharedDebts) && db.sharedDebtUsers == old(db.sharedDebtUsers)
  {
    var parsed := AmountCheck(amount);
    if parsed.Err? {
      return Err(parsed.error);
    }
    var located := LocateTransaction(db, caller, groupId, id);
    if located.Err? {
      return Err(located.error);
    }
    if (groupId, recipientId) !in members {
      return Err("Recipient is not a member of this group");
    }
    if caller == recipientId {
      return Err("Cannot create transaction with yourself");
    }
    var i := located.value;
    var updated := UpdatedTransaction(db.transactions[i], recipientId, parsed.value, description);
    TransactionRewrite(db.transactions, i, updated);
    db.transactions := db.transactions[i := updated];
    return Ok(Unit);
  }

  /** No transaction pays its own payer: create never stores one, and an
      update keeps every row so. */
  predicate NoSelfPayments(rows: seq<TransactionRow>) {
    forall k :: 0 <= k < |rows| ==> rows[k].payerId != rows[k].recipientId
  }

  lemma UpdateKeepsNoSelfPayments(members: Membership, caller: int, rows: seq<TransactionRow>, groupId: int,
                                  id: int, recipientId: int, amount: string, description: Option<string>)
    requires NoSelfPayments(rows)
    requires UpdateCheck(members, caller, rows, groupId, id, recipientId, amount).Ok?
    ensures var v := UpdateCheck(members, caller, rows, groupId, id, recipientId, amount).value;
      NoSelfPayments(rows[v.0 := UpdatedTransaction(rows[v.0], recipientId, v.1, description)])
  {
  }

  lemma CreateKeepsNoSelfPayments(members: Membership, caller: int, rows: seq<TransactionRow>, groupId: int,
                                  recipientId: int, amount: string, description: Option<string>, id: int)
    requires NoSelfPayments(rows)
    requires CreateCheck(members, caller, groupId, recipientId, amount).Ok?
    ensures NoSelfPayments(rows + [NewTransactionRow(id, groupId, caller, recipientId,
                                                     CreateCheck(members, caller, groupId, recipientId, amount).value,
                                                     description)])
  {
  }
}
