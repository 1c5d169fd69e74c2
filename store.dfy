/** The SQLite tables the handlers read and write, held in memory. Each
    table is a sequence of rows in rowid order; a new row takes the rowid
    one past the last, as SQLite assigns it when no row has been deleted.
    Amounts, frequencies and dates are TEXT columns, exactly as stored. */
module Store {
  import opened Common

  /** A row of `recurring_debts`. */
  datatype RecurringRow = RecurringRow(
    id: int,
    groupId: int,
    createdBy: int,
    name: string,
    amount: string,
    frequency: string,
    startDate: string,
    endDate: Option<string>,
    nextGenerationDate: string,
    isActive: bool)

  /** A row of `shared_debts`; `recurringDebtId` is set for the debts a
      recurring debt generated. */
  datatype SharedDebtRow = SharedDebtRow(
    id: int,
    groupId: int,
    createdBy: int,
    name: string,
    amount: string,
    recurringDebtId: Option<int>)

  /** A row of `transactions`: a payment from payer to recipient. */
  datatype TransactionRow = TransactionRow(
    id: int,
    groupId: int,
    payerId: int,
    recipientId: int,
    amount: string,
    description: Option<string>)

  /** A row of a pivot table (`recurring_debt_user`, `shared_debt_user`):
      `owner` is the debt's id, `user` a participant. */
  datatype Link = Link(owner: int, user: int)

  /** Group membership, the `group_members` table: (group id, user id). */
  type Membership = set<(int, int)>

  // ---------------------------------------------------------------------
  // Row ids
  // ---------------------------------------------------------------------

  predicate IdsIncreasing(ids: seq<int>) {
    (forall i :: 0 <= i < |ids| ==> ids[i] >= 1)
    && forall i, j :: 0 <= i < j < |ids| ==> ids[i] < ids[j]
  }

  /** The first id is smaller than every later one. */
  lemma OlderIdSmaller(ids: seq<int>, x: int)
    requires IdsIncreasing(ids) && |ids| > 0 && x in ids[1..]
    ensures ids[0] < x
  {
    var j :| 0 <= j < |ids[1..]| && ids[1..][j] == x;
    assert ids[j + 1] == x;
  }

  /** The last id is larger than every earlier one. */
  lemma NewerIdLarger(ids: seq<int>, x: int)
    requires IdsIncreasing(ids) && |ids| > 0 && x in ids[..|ids| - 1]
    ensures x < ids[|ids| - 1]
  {
    var j :| 0 <= j < |ids| - 1 && ids[..|ids| - 1][j] == x;
    assert ids[j] == x;
  }

  function RecurringIds(rows: seq<RecurringRow>): (ids: seq<int>)
    ensures |ids| == |rows| && forall i :: 0 <= i < |rows| ==> ids[i] == rows[i].id
  {
    seq(|rows|, i requires 0 <= i < |rows| => rows[i].id)
  }

  function SharedDebtIds(rows: seq<SharedDebtRow>): (ids: seq<int>)
    ensures |ids| == |rows| && forall i :: 0 <= i < |rows| ==> ids[i] == rows[i].id
  {
    seq(|rows|, i requires 0 <= i < |rows| => rows[i].id)
  }

  function TransactionIds(rows: seq<TransactionRow>): (ids: seq<int>)
    ensures |ids| == |rows| && forall i :: 0 <= i < |rows| ==> ids[i] == rows[i].id
  {
    seq(|rows|, i requires 0 <= i < |rows| => rows[i].id)
  }

  /** The rowid SQLite gives the next insert: one past the largest. */
  function NextId(ids: seq<int>): (n: int)
    requires IdsIncreasing(ids)
    ensures n >= 1 && forall i :: 0 <= i < |ids| ==> ids[i] < n
  {
    if ids == [] then 1 else ids[|ids| - 1] + 1
  }

  /** Appending the next rowid keeps the ids increasing. */
  lemma AppendNextId(ids: seq<int>)
    requires IdsIncreasing(ids)
    ensures IdsIncreasing(ids + [NextId(ids)])
  {
  }

  /** Appending a row with the next rowid, or rewriting a row in place
      with its id kept, keeps a table's ids increasing. */
  lemma RecurringAppend(rows: seq<RecurringRow>, row: RecurringRow)
    requires IdsIncreasing(RecurringIds(rows)) && row.id == NextId(RecurringIds(rows))
    ensures IdsIncreasing(RecurringIds(rows + [row]))
  {
    assert RecurringIds(rows + [row]) == RecurringIds(rows) + [row.id];
    AppendNextId(RecurringIds(rows));
  }

  lemma RecurringRewrite(rows: seq<RecurringRow>, i: nat, row: RecurringRow)
    requires IdsIncreasing(RecurringIds(rows)) && i < |rows| && row.id == rows[i].id
    ensures IdsIncreasing(RecurringIds(rows[i := row]))
  {
    assert RecurringIds(rows[i := row]) == RecurringIds(rows);
  }

  lemma SharedDebtAppend(rows: seq<SharedDebtRow>, row: SharedDebtRow)
    requires IdsIncreasing(SharedDebtIds(rows)) && row.id == NextId(SharedDebtIds(rows))
    ensures IdsIncreasing(SharedDebtIds(rows + [row]))
    ensures NextId(SharedDebtIds(rows + [row])) == row.id + 1
  {
    assert SharedDebtIds(rows + [row]) == SharedDebtIds(rows) + [row.id];
    AppendNextId(SharedDebtIds(rows));
  }

  lemma SharedDebtRewrite(rows: seq<SharedDebtRow>, i: nat, row: SharedDebtRow)
    requires IdsIncreasing(SharedDebtIds(rows)) && i < |rows| && row.id == rows[i].id
    ensures IdsIncreasing(SharedDebtIds(rows[i := row]))
  {
    assert SharedDebtIds(rows[i := row]) == SharedDebtIds(rows);
  }

  lemma TransactionAppend(rows: seq<TransactionRow>, row: TransactionRow)
    requires IdsIncreasing(TransactionIds(rows)) && row.id == NextId(TransactionIds(rows))
    ensures IdsIncreasing(TransactionIds(rows + [row]))
  {
    assert TransactionIds(rows + [row]) == TransactionIds(rows) + [row.id];
    AppendNextId(TransactionIds(rows));
  }

  lemma TransactionRewrite(rows: seq<TransactionRow>, i: nat, row: TransactionRow)
    requires IdsIncreasing(TransactionIds(rows)) && i < |rows| && row.id == rows[i].id
    ensures IdsIncreasing(TransactionIds(rows[i := row]))
  {
    assert TransactionIds(rows[i := row]) == TransactionIds(rows);
  }

  /** The position of the row with a given id, if there is one. */
  function Find(ids: seq<int>, id: int): (r: Option<nat>)
    ensures r.Some? ==> r.value < |ids| && ids[r.value] == id
    ensures r.None? <==> forall i :: 0 <= i < |ids| ==> ids[i] != id
  {
    if ids == [] then None
    else if ids[0] == id then Some(0)
    else match Find(ids[1..], id)
      case None => None
      case Some(i) => Some(i + 1)
  }

  /** Ids are unique, so the row found is the only row with that id. */
  lemma FindUnique(ids: seq<int>, id: int, j: nat)
    requires IdsIncreasing(ids) && j < |ids| && ids[j] == id
    ensures Find(ids, id) == Some(j)
  {
  }

  // ---------------------------------------------------------------------
  // Pivot tables
  // ---------------------------------------------------------------------

  /** `SELECT user_id FROM … WHERE owner = ?`: the users linked to an
      owner, in rowid order. */
  function UsersOf(links: seq<Link>, owner: int): (users: seq<int>)
    ensures |users| <= |links|
    ensures forall u :: u in users <==> Link(owner, u) in links
  {
    if links == [] then []
    else
      var rest := UsersOf(links[1..], owner);
      assert forall u :: Link(owner, u) in links <==> links[0] == Link(owner, u) || Link(owner, u) in links[1..];
      if links[0].owner == owner then [links[0].user] + rest else rest
  }

  /** One pivot row per listed user, in list order. */
  function LinksFor(owner: int, users: seq<int>): (links: seq<Link>)
    ensures |links| == |users|
    ensures forall i :: 0 <= i < |users| ==> links[i] == Link(owner, users[i])
  {
    seq(|users|, i requires 0 <= i < |users| => Link(owner, users[i]))
  }

  /** `DELETE FROM … WHERE owner = ?`. */
  function WithoutOwner(links: seq<Link>, owner: int): (r: seq<Link>)
    ensures forall l :: l in r <==> l in links && l.owner != owner
    ensures |r| <= |links|
  {
    if links == [] then []
    else
      var rest := WithoutOwner(links[1..], owner);
      if links[0].owner == owner then rest else [links[0]] + rest
  }

  lemma {:induction false} UsersOfAppend(a: seq<Link>, b: seq<Link>, owner: int)
    ensures UsersOf(a + b, owner) == UsersOf(a, owner) + UsersOf(b, owner)
  {
    if a != [] {
      assert (a + b)[1..] == a[1..] + b;
      UsersOfAppend(a[1..], b, owner);
    } else {
      assert a + b == b;
    }
  }

  /** Reading back the rows written for a list gives the list. */
  lemma {:induction false} UsersOfLinksFor(owner: int, users: seq<int>)
    ensures UsersOf(LinksFor(owner, users), owner) == users
  {
    if users != [] {
      assert LinksFor(owner, users)[1..] == LinksFor(owner, users[1..]);
      UsersOfLinksFor(owner, users[1..]);
    }
  }

  /** Rows of other owners are not read back for this owner. */
  lemma {:induction false} UsersOfOther(owner: int, other: int, users: seq<int>)
    requires owner != other
    ensures UsersOf(LinksFor(other, users), owner) == []
  {
    if users != [] {
      assert LinksFor(other, users)[1..] == LinksFor(other, users[1..]);
      UsersOfOther(owner, other, users[1..]);
    }
  }

  lemma {:induction false} UsersOfWithout(links: seq<Link>, owner: int)
    ensures UsersOf(WithoutOwner(links, owner), owner) == []
  {
    if links != [] {
      UsersOfWithout(links[1..], owner);
    }
  }

  lemma {:induction false} UsersOfWithoutOther(links: seq<Link>, owner: int, other: int)
    requires owner != other
    ensures UsersOf(WithoutOwner(links, owner), other) == UsersOf(links, other)
  {
    if links != [] {
      UsersOfWithoutOther(links[1..], owner, other);
    }
  }

  /** Replacing an owner's rows wholesale: afterwards exactly the new list
      is read back for it, and every other owner reads what it did. */
  lemma ReplaceLinks(links: seq<Link>, owner: int, users: seq<int>, other: int)
    ensures UsersOf(WithoutOwner(links, owner) + LinksFor(owner, users), owner) == users
    ensures other != owner ==>
              UsersOf(WithoutOwner(links, owner) + LinksFor(owner, users), other) == UsersOf(links, other)
  {
    ReplacedOwner(links, owner, users);
    if other != owner {
      ReplacedOther(links, owner, users, other);
    }
  }

  lemma ReplacedOwner(links: seq<Link>, owner: int, users: seq<int>)
    ensures UsersOf(WithoutOwner(links, owner) + LinksFor(owner, users), owner) == users
  {
    UsersOfAppend(WithoutOwner(links, owner), LinksFor(owner, users), owner);
    UsersOfWithout(links, owner);
    UsersOfLinksFor(owner, users);
    assert [] + users == users;
  }

  lemma ReplacedOther(links: seq<Link>, owner: int, users: seq<int>, other: int)
    requires other != owner
    ensures UsersOf(WithoutOwner(links, owner) + LinksFor(owner, users), other) == UsersOf(links, other)
  {
    UsersOfAppend(WithoutOwner(links, owner), LinksFor(owner, users), other);
    UsersOfWithoutOther(links, owner, other);
    UsersOfOther(other, owner, users);
    assert UsersOf(links, other) + [] == UsersOf(links, other);
  }

  /** How many listed users in a row, from the start, are members of the
      group: the loop checking each selected member stops after them. */
  function MemberPrefix(members: Membership, groupId: int, users: seq<int>): (i: nat)
    ensures i <= |users|
    ensures forall k :: 0 <= k < i ==> (groupId, users[k]) in members
    ensures i < |users| ==> (groupId, users[i]) !in members
  {
    if users == [] || (groupId, users[0]) !in members then 0
    else 1 + MemberPrefix(members, groupId, users[1..])
  }

  /** The first listed user who is not a member of the group, if any. */
  function FirstNonMember(members: Membership, groupId: int, users: seq<int>): (r: Option<int>)
    ensures r.None? <==> forall i :: 0 <= i < |users| ==> (groupId, users[i]) in members
    ensures r.Some? ==> (groupId, r.value) !in members && r.value in users
  {
    var i := MemberPrefix(members, groupId, users);
    if i < |users| then Some(users[i]) else None
  }

  /** The in-memory database. */
  class Database {
    var recurringDebts: seq<RecurringRow>
    var recurringDebtUsers: seq<Link>
    var sharedDebts: seq<SharedDebtRow>
    var sharedDebtUsers: seq<Link>
    var transactions: seq<TransactionRow>

    /** Every table's rowids are positive and increasing. */
    predicate Valid()
      reads this
    {
      IdsIncreasing(RecurringIds(recurringDebts))
      && IdsIncreasing(SharedDebtIds(sharedDebts))
      && IdsIncreasing(TransactionIds(transactions))
    }

    /** An empty database. */
    constructor ()
      ensures Valid()
      ensures recurringDebts == [] && recurringDebtUsers == [] && sharedDebts == []
      ensures sharedDebtUsers == [] && transactions == []
    {
      recurringDebts := [];
      recurringDebtUsers := [];
      sharedDebts := [];
      sharedDebtUsers := [];
      transactions := [];
    }

    /** `SELECT … FROM recurring_debts WHERE id = ?`. */
    function FindRecurring(id: int): (r: Option<nat>)
      reads this
      ensures r.Some? ==> r.value < |recurringDebts| && recurringDebts[r.value].id == id
      ensures r.None? <==> forall i :: 0 <= i < |recurringDebts| ==> recurringDebts[i].id != id
    {
      Find(RecurringIds(recurringDebts), id)
    }

    function FindSharedDebt(id: int): (r: Option<nat>)
      reads this
      ensures r.Some? ==> r.value < |sharedDebts| && sharedDebts[r.value].id == id
      ensures r.None? <==> forall i :: 0 <= i < |sharedDebts| ==> sharedDebts[i].id != id
    {
      Find(SharedDebtIds(sharedDebts), id)
    }

    function FindTransaction(id: int): (r: Option<nat>)
      reads this
      ensures r.Some? ==> r.value < |transactions| && transactions[r.value].id == id
      ensures r.None? <==> forall i :: 0 <= i < |transactions| ==> transactions[i].id != id
    {
      Find(TransactionIds(transactions), id)
    }

    /** Inserts one `recurring_debt_user` row per listed user, in order. */
    method InsertRecurringDebtUsers(owner: int, users: seq<int>)
      modifies this
      ensures recurringDebtUsers == old(recurringDebtUsers) + LinksFor(owner, users)
      ensures recurringDebts == old(recurringDebts) && sharedDebts == old(sharedDebts)
      ensures sharedDebtUsers == old(sharedDebtUsers) && transactions == old(transactions)
    {
      var i := 0;
      while i < |users|
        invariant 0 <= i <= |users|
        invariant recurringDebtUsers == old(recurringDebtUsers) + LinksFor(owner, users[..i])
        invariant recurringDebts == old(recurringDebts) && sharedDebts == old(sharedDebts)
        invariant sharedDebtUsers == old(sharedDebtUsers) && transactions == old(transactions)
      {
        recurringDebtUsers := recurringDebtUsers + [Link(owner, users[i])];
        assert LinksFor(owner, users[..i + 1]) == LinksFor(owner, users[..i]) + [Link(owner, users[i])];
        i := i + 1;
      }
      assert users[..i] == users;
    }

    /** Inserts one `shared_debt_user` row per listed user, in order. */
    method InsertSharedDebtUsers(owner: int, users: seq<int>)
      modifies this
      ensures sharedDebtUsers == old(sharedDebtUsers) + LinksFor(owner, users)
      ensures recurringDebts == old(recurringDebts) && recurringDebtUsers == old(recurringDebtUsers)
      ensures sharedDebts == old(sharedDebts) && transactions == old(transactions)
    {
      var i := 0;
      while i < |users|
        invariant 0 <= i <= |users|
        invariant sharedDebtUsers == old(sharedDebtUsers) + LinksFor(owner, users[..i])
        invariant recurringDebts == old(recurringDebts) && recurringDebtUsers == old(recurringDebtUsers)
        invariant sharedDebts == old(sharedDebts) && transactions == old(transactions)
      {
        sharedDebtUsers := sharedDebtUsers + [Link(owner, users[i])];
        assert LinksFor(owner, users[..i + 1]) == LinksFor(owner, users[..i]) + [Link(owner, users[i])];
        i := i + 1;
      }
      assert users[..i] == users;
    }
  }

  /** The membership check loop: stops at the first user who is not a
      member of the group. */
  method CheckMembers(members: Membership, groupId: int, users: seq<int>) returns (r: Option<int>)
    ensures r == FirstNonMember(members, groupId, users)
  {
    var i := 0;
    while i < |users|
      invariant 0 <= i <= |users|
      invariant forall k :: 0 <= k < i ==> (groupId, users[k]) in members
    {
      if (groupId, users[i]) !in members {
        return Some(users[i]);
      }
      i := i + 1;
    }
    return None;
  }
}
