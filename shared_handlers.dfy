/** The shared-debt handlers that change the store: create and update. A
    shared debt is an amount its creator paid for the participants; both
    handlers check their guards in the source's order and then write in one
    transaction. `caller` is the signed-in user and `members` the
    `group_members` table. */
module SharedHandlers {
  import opened Common
  import opened Text
  import opened Decimals
  import opened Validation
  import opened Financial
  import opened Store

  const NoMembersMessage := "At least one member must be selected to split the debt"
  const OutsiderMessage := "Some selected members are not part of this group"

  /** The membership loop over the selected participants. */
  function ParticipantsCheck(members: Membership, groupId: int, memberIds: seq<int>): (r: Result<Unit>)
    ensures r.Ok? <==> forall i :: 0 <= i < |memberIds| ==> (groupId, memberIds[i]) in members
    ensures r.Err? ==> r.error == OutsiderMessage
  {
    if FirstNonMember(members, groupId, memberIds).Some? then Err(OutsiderMessage) else Ok(Unit)
  }

  // ---------------------------------------------------------------------
  // create_shared_debt
  // ---------------------------------------------------------------------

  /** The guards of `create_shared_debt`, in order; on success, the
      sanitised name and the validated amount. */
  function CreateCheck(members: Membership, caller: int, groupId: int, name: string, amount: string,
                       memberIds: seq<int>): (r: Result<(string, Decimal)>)
    ensures r.Ok? <==>
              && ValidateName(name, 1, 255, "Debt name").Ok?
              && ValidateAmount(amount).Ok?
              && memberIds != []
              && (groupId, caller) in members
              && forall i :: 0 <= i < |memberIds| ==> (groupId, memberIds[i]) in members
    ensures r.Ok? ==> r.value == (ValidateName(name, 1, 255, "Debt name").value, ValidateAmount(amount).value)
    ensures ValidateName(name, 1, 255, "Debt name").Err? ==> r == Err(ValidateName(name, 1, 255, "Debt name").error)
    ensures ValidateName(name, 1, 255, "Debt name").Ok? && ValidateAmount(amount).Err? ==>
              r == Err(ValidateAmount(amount).error)
    ensures ValidateName(name, 1, 255, "Debt name").Ok? && ValidateAmount(amount).Ok? && memberIds == [] ==>
              r == Err(NoMembersMessage)
  {
    var validName := ValidateName(name, 1, 255, "Debt name");
    var validAmount := ValidateAmount(amount);
    if validName.Err? then Err(validName.error)
    else if validAmount.Err? then Err(validAmount.error)
    else if memberIds == [] then Err(NoMembersMessage)
    else if (groupId, caller) !in members then Err("You don't have permission to access this group")
    else if ParticipantsCheck(members, groupId, memberIds).Err? then Err(OutsiderMessage)
    else Ok((validName.value, validAmount.value))
  }

  /** The row `create_shared_debt` inserts: the sanitised name and the
      amount written back out with `Decimal::to_string`, not a recurring
      debt's instance. */
  function NewSharedRow(id: int, groupId: int, caller: int, name: string, amount: Decimal): (row: SharedDebtRow)
    ensures row.id == id && row.groupId == groupId && row.createdBy == caller
    ensures row.name == name && Parse(row.amount) == Some(amount) && row.recurringDebtId.None?
  {
    ParseToString(amount);
    SharedDebtRow(id, groupId, caller, name, ToString(amount), None)
  }

  /** `create_shared_debt`: the guards, then the debt and one participant
      row per selected member, in one transaction; returns the new id. */
  method CreateSharedDebt(db: Database, members: Membership, caller: int, groupId: int, name: string,
                          amount: string, memberIds: seq<int>) returns (r: Result<int>)
    requires db.Valid()
    modifies db
    ensures db.Valid()
    ensures var check := CreateCheck(members, caller, groupId, name, amount, memberIds);
      check.Err? ==> r == Err(check.error) && unchanged(db)
    ensures var check := CreateCheck(members, caller, groupId, name, amount, memberIds);
      check.Ok? ==>
        && r == Ok(NextId(SharedDebtIds(old(db.sharedDebts))))
        && db.sharedDebts == old(db.sharedDebts) + [NewSharedRow(r.value, groupId, caller, check.value.0, check.value.1)]
        && db.sharedDebtUsers == old(db.sharedDebtUsers) + LinksFor(r.value, memberIds)
        && db.recurringDebts == old(db.recurringDebts) && db.recurringDebtUsers == old(db.recurringDebtUsers)
        && db.transactions == old(db.transactions)
  {
    var validName := ValidateName(name, 1, 255, "Debt name");
    if validName.Err? {
      return Err(validName.error);
    }
    var validAmount := ValidateAmount(amount);
    if validAmount.Err? {
      return Err(validAmount.error);
    }
    if memberIds == [] {
      return Err(NoMembersMessage);
    }
    if (groupId, caller) !in members {
      return Err("You don't have permission to access this group");
    }
    var outsider := CheckMembers(members, groupId, memberIds);
    if outsider.Some? {
      return Err(OutsiderMessage);
    }
    var id := InsertSharedDebt(db, groupId, caller, validName.value, validAmount.value, memberIds);
    return Ok(id);
  }

  /** The writes of `create_shared_debt`: the debt with the next rowid,
      then one participant row per selected member. */
  method InsertSharedDebt(db: Database, groupId: int, caller: int, name: string, amount: Decimal,
                          memberIds: seq<int>) returns (id: int)
    requires db.Valid()
    modifies db
    ensures db.Valid()
    ensures id == NextId(SharedDebtIds(old(db.sharedDebts)))
    ensures db.sharedDebts == old(db.sharedDebts) + [NewSharedRow(id, groupId, caller, name, amount)]
    ensures db.sharedDebtUsers == old(db.sharedDebtUsers) + LinksFor(id, memberIds)
    ensures db.recurringDebts == old(db.recurringDebts) && db.recurringDebtUsers == old(db.recurringDebtUsers)
    ensures db.transactions == old(db.transactions)
  {
    id := NextId(SharedDebtIds(db.sharedDebts));
    var row := NewSharedRow(id, groupId, caller, name, amount);
    SharedDebtAppend(db.sharedDebts, row);
    db.sharedDebts := db.sharedDebts + [row];
    db.InsertSharedDebtUsers(id, memberIds);
  }

  /** A debt id no pivot row mentions has no participants. */
  lemma NoLinksNoUsers(links: seq<Link>, id: int)
    requires forall k :: 0 <= k < |links| ==> links[k].owner != id
    ensures UsersOf(links, id) == []
  {
    forall u ensures u !in UsersOf(links, id) {
      assert Link(id, u) !in links;
    }
  }

  /** What a created debt reads back as: a sanitised name of 1 to 255
      bytes and an amount that is positive, has at most two places and is
      at most `MaxAmount`; its participants are exactly the selected ids,
      which need not include the creator. */
  lemma CreatedDebtReadsBack(members: Membership, caller: int, groupId: int, name: string, amount: string,
                             memberIds: seq<int>, links: seq<Link>, id: int)
    requires CreateCheck(members, caller, groupId, name, amount, memberIds).Ok?
    requires forall k :: 0 <= k < |links| ==> links[k].owner != id
    ensures var v := CreateCheck(members, caller, groupId, name, amount, memberIds).value;
      var row := NewSharedRow(id, groupId, caller, v.0, v.1);
      && Sanitized(row.name) && 1 <= Utf8Len(row.name) <= 255
      && Parse(row.amount).Some?
      && 0.0 < Value(Parse(row.amount).value) <= MaxAmount as real
      && Parse(row.amount).value.scale <= 2
      && UsersOf(links + LinksFor(id, memberIds), id) == memberIds
  {
    UsersOfAppend(links, LinksFor(id, memberIds), id);
    UsersOfLinksFor(id, memberIds);
    NoLinksNoUsers(links, id);
  }

  // ---------------------------------------------------------------------
  // update_shared_debt
  // ---------------------------------------------------------------------

  /** The amount check of `update_shared_debt`: parse the raw text and
      require a positive value; no sanitising, scale or maximum. */
  function UpdateAmountCheck(amount: string): (r: Result<Decimal>)
    ensures r.Ok? <==> Parse(amount).Some? && IsPositive(Parse(amount).value)
    ensures r.Ok? ==> Parse(amount) == Some(r.value) && Value(r.value) > 0.0
    ensures Parse(amount).None? ==> r == Err("Invalid amount format")
  {
    match Parse(amount)
    case None => Err("Invalid amount format")
    case Some(d) =>
      if !IsPositive(d) then Err("Amount must be greater than zero")
      else
        IsPositiveValue(d);
        Ok(d)
  }

  /** The checks `update_shared_debt` makes before reading the store: the
      raw name (not sanitised), the amount and a non-empty member list. */
  function UpdateInputCheck(name: string, amount: string, memberIds: seq<int>): (r: Result<Decimal>)
    ensures r.Ok? <==>
              && (exists i :: 0 <= i < |name| && !IsWhitespace(name[i]))
              && Utf8Len(name) <= 255
              && UpdateAmountCheck(amount).Ok?
              && memberIds != []
    ensures r.Ok? ==> r == UpdateAmountCheck(amount)
    ensures (forall i :: 0 <= i < |name| ==> IsWhitespace(name[i])) ==> r == Err("Debt name is required")
  {
    TrimEmptyIff(name);
    if Trim(name) == [] then Err("Debt name is required")
    else if Utf8Len(name) > 255 then Err("Debt name must be 255 characters or less")
    else if UpdateAmountCheck(amount).Err? then Err(UpdateAmountCheck(amount).error)
    else if memberIds == [] then Err(NoMembersMessage)
    else UpdateAmountCheck(amount)
  }

  /** The lookups of `update_shared_debt`: the debt must exist, the caller
      must have created it, and every new participant must belong to its
      group; on success, the debt's position. */
  function UpdateRecordCheck(members: Membership, caller: int, rows: seq<SharedDebtRow>, id: int,
                             memberIds: seq<int>): (r: Result<nat>)
    ensures Find(SharedDebtIds(rows), id).None? ==> r == Err("Shared debt not found")
    ensures r.Ok? <==>
              && Find(SharedDebtIds(rows), id).Some?
              && rows[Find(SharedDebtIds(rows), id).value].createdBy == caller
              && forall k :: 0 <= k < |memberIds| ==>
                   (rows[Find(SharedDebtIds(rows), id).value].groupId, memberIds[k]) in members
    ensures r.Ok? ==> r.value < |rows| && rows[r.value].id == id
  {
    match Find(SharedDebtIds(rows), id)
    case None => Err("Shared debt not found")
    case Some(i) =>
      if rows[i].createdBy != caller then Err("Unauthorized: Only the creator can update this debt")
      else if ParticipantsCheck(members, rows[i].groupId, memberIds).Err? then Err(OutsiderMessage)
      else Ok(i)
  }

  /** All of `update_shared_debt`'s guards, in order. */
  function UpdateCheck(members: Membership, caller: int, rows: seq<SharedDebtRow>, id: int, name: string,
                       amount: string, memberIds: seq<int>): (r: Result<(nat, Decimal)>)
    ensures r.Ok? <==> UpdateInputCheck(name, amount, memberIds).Ok?
                       && UpdateRecordCheck(members, caller, rows, id, memberIds).Ok?
    ensures r.Ok? ==> r.value == (UpdateRecordCheck(members, caller, rows, id, memberIds).value,
                                  UpdateInputCheck(name, amount, memberIds).value)
    ensures UpdateInputCheck(name, amount, memberIds).Err? ==> r == Err(UpdateInputCheck(name, amount, memberIds).error)
  {
    match UpdateInputCheck(name, amount, memberIds)
    case Err(e) => Err(e)
    case Ok(d) =>
      match UpdateRecordCheck(members, caller, rows, id, memberIds)
      case Err(e) => Err(e)
      case Ok(i) => Ok((i, d))
  }

  /** The debt after the update: the name as given and the amount written
      out again; id, group, creator and origin are kept. */
  function UpdatedSharedRow(row: SharedDebtRow, name: string, amount: Decimal): (r: SharedDebtRow)
    ensures r.id == row.id && r.groupId == row.groupId && r.createdBy == row.createdBy
    ensures r.recurringDebtId == row.recurringDebtId
    ensures r.name == name && Parse(r.amount) == Some(amount)
  {
    ParseToString(amount);
    row.(name := name, amount := ToString(amount))
  }

  /** The lookups of `update_shared_debt`, read-only. */
  method LocateSharedDebt(db: Database, members: Membership, caller: int, id: int, memberIds: seq<int>)
    returns (r: Result<nat>)
    requires db.Valid()
    ensures r == UpdateRecordCheck(members, caller, db.sharedDebts, id, memberIds)
  {
    var found := db.FindSharedDebt(id);
    if found.None? {
      return Err("Shared debt not found");
    }
    var i := found.value;
    var debt := db.sharedDebts[i];
    if debt.createdBy != caller {
      return Err("Unauthorized: Only the creator can update this debt");
    }
    var outsider := CheckMembers(members, debt.groupId, memberIds);
    if outsider.Some? {
      return Err(OutsiderMessage);
    }
    return Ok(i);
  }

  /** `update_shared_debt`: the guards, then the name and amount and a
      wholesale replacement of the participant rows, in one transaction. */
  method UpdateSharedDebt(db: Database, members: Membership, caller: int, id: int, name: string,
                          amount: string, memberIds: seq<int>) returns (r: Result<Unit>)
    requires db.Valid()
    modifies db
    ensures db.Valid()
    ensures var check := UpdateCheck(members, caller, old(db.sharedDebts), id, name, amount, memberIds);
      check.Err? ==> r == Err(check.error) && unchanged(db)
    ensures var check := UpdateCheck(members, caller, old(db.sharedDebts), id, name, amount, memberIds);
      check.Ok? ==>
        && r == Ok(Unit)
        && db.sharedDebts == old(db.sharedDebts)[check.value.0 :=
             UpdatedSharedRow(old(db.sharedDebts)[check.value.0], name, check.value.1)]
        && db.sharedDebtUsers == WithoutOwner(old(db.sharedDebtUsers), id) + LinksFor(id, memberIds)
        && db.recurringDebts == old(db.recurringDebts) && db.recurringDebtUsers == old(db.recurringDebtUsers)
        && db.transactions == old(db.transactions)
  {
    var input := UpdateInputCheck(name, amount, memberIds);
    if input.Err? {
      return Err(input.error);
    }
    var located := LocateSharedDebt(db, members, caller, id, memberIds);
    if located.Err? {
      return Err(located.error);
    }
    var i := located.value;
    var updated := UpdatedSharedRow(db.sharedDebts[i], name, input.value);
    SharedDebtRewrite(db.sharedDebts, i, updated);
    db.sharedDebts := db.sharedDebts[i := updated];
    db.sharedDebtUsers := WithoutOwner(db.sharedDebtUsers, id);
    db.InsertSharedDebtUsers(id, memberIds);
    return Ok(Unit);
  }

  /** Update checks the amount more loosely than create: any positive
      decimal passes, while create also demands at most two places and at
      most `MaxAmount`; "10.500" is one that only update lets through. */
  lemma UpdateAmountLooserThanCreate(d: Decimal)
    requires IsPositive(d)
    ensures UpdateAmountCheck(ToString(d)) == Ok(d)
    ensures ValidateAmount(ToString(d)).Ok? <==> d.scale <= 2 && !GreaterThanInt(d, MaxAmount)
    ensures ValidateAmount(ToString(d)).Ok? ==> UpdateAmountCheck(ToString(d)) == ValidateAmount(ToString(d))
  {
    ParseToString(d);
    SanitizeDecimalText(d);
  }

  /** Update stores the name as typed: whitespace around a word is kept,
      where create stores the bare word. */
  lemma UpdateKeepsPadding(pre: string, w: string, post: string)
    requires forall i :: 0 <= i < |pre| ==> IsWhitespace(pre[i])
    requires forall i :: 0 <= i < |post| ==> IsWhitespace(post[i])
    requires IsWord(w) && NoControl(w) && 1 <= Utf8Len(w) && Utf8Len(pre + w + post) <= 255
    ensures ValidateName(pre + w + post, 1, 255, "Debt name") == Ok(w)
    ensures forall row, d :: UpdatedSharedRow(row, pre + w + post, d).name == pre + w + post
    ensures forall amount, ids :: UpdateInputCheck(pre + w + post, amount, ids).Ok? <==>
                                  UpdateAmountCheck(amount).Ok? && ids != []
  {
    var s := pre + w + post;
    Utf8LenAppend(pre, w);
    Utf8LenAppend(pre + w, post);
    ValidateNameTrims(pre, w, post, 1, 255, "Debt name");
    assert s[|pre|] == w[0];
    assert !IsWhitespace(s[|pre|]) by {
      assert w != [];
    }
  }
}
