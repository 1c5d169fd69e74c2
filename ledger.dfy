/** The balance ledger of a group: a matrix of who owes whom, built from
    the group's shared debts and transactions, then folded into one balance
    per member. `debts[a][b] > 0` means a owes b that much; a negative entry
    means b owes a. Amounts in the matrix are exact rationals. */
module Ledger {
  import opened Common
  import Decimals
  import opened Store

  /** `HashMap<i64, HashMap<i64, Decimal>>`: one row per group member. */
  type Matrix = map<int, map<int, real>>

  /** The entry a row holds for another user; a missing entry reads as 0. */
  function Entry(m: Matrix, a: int, b: int): real {
    if a in m && b in m[a] then m[a][b] else 0.0
  }

  /** One in-place update: `if let Some(row) = debts.get_mut(&row) {
      *row.entry(col).or_insert(ZERO) += delta }`. */
  datatype Step = Step(row: int, col: int, delta: real)

  function Apply(m: Matrix, s: Step): (r: Matrix)
    ensures r.Keys == m.Keys
  {
    if s.row in m then m[s.row := m[s.row][s.col := Entry(m, s.row, s.col) + s.delta]] else m
  }

  /** An update changes one entry, by its delta, and only when its row
      exists. */
  lemma ApplyEntry(m: Matrix, s: Step, a: int, b: int)
    ensures Entry(Apply(m, s), a, b)
         == Entry(m, a, b) + (if a == s.row && b == s.col && a in m then s.delta else 0.0)
  {
  }

  /** The updates applied in order. */
  function ApplyAll(m: Matrix, steps: seq<Step>): (r: Matrix)
    ensures r.Keys == m.Keys
    decreases |steps|
  {
    if steps == [] then m else Apply(ApplyAll(m, steps[..|steps| - 1]), steps[|steps| - 1])
  }

  lemma ApplyAllSnoc(m: Matrix, steps: seq<Step>, s: Step)
    ensures ApplyAll(m, steps + [s]) == Apply(ApplyAll(m, steps), s)
  {
    assert (steps + [s])[..|steps|] == steps;
  }

  lemma {:induction false} ApplyAllAppend(m: Matrix, s: seq<Step>, t: seq<Step>)
    ensures ApplyAll(m, s + t) == ApplyAll(ApplyAll(m, s), t)
    decreases |t|
  {
    if t == [] {
      assert s + t == s;
    } else {
      var n := |t| - 1;
      assert s + t == (s + t[..n]) + [t[n]];
      assert t == t[..n] + [t[n]];
      ApplyAllSnoc(m, s + t[..n], t[n]);
      ApplyAllSnoc(ApplyAll(m, s), t[..n], t[n]);
      ApplyAllAppend(m, s, t[..n]);
    }
  }

  // ---------------------------------------------------------------------
  // What the group's debts and transactions contribute
  // ---------------------------------------------------------------------

  /** A shared debt as the contributions read it: creator, amount and the
      participant ids in the order the query returns them. */
  datatype SharedDebtEntry = SharedDebtEntry(creator: int, amount: real, participants: seq<int>)

  /** A transaction as the contributions read it. */
  datatype TransactionEntry = TransactionEntry(payer: int, recipient: int, amount: real)

  /** For each participant other than the creator: the participant owes
      the creator the share, and the creator is owed it. */
  function ShareSteps(creator: int, share: real, participants: seq<int>): (steps: seq<Step>)
    ensures |steps| <= 2 * |participants|
    decreases |participants|
  {
    if participants == [] then []
    else
      var n := |participants| - 1;
      var p := participants[n];
      ShareSteps(creator, share, participants[..n])
      + (if p == creator then [] else [Step(p, creator, share), Step(creator, p, -share)])
  }

  /** One more participant: the steps it adds. */
  lemma ShareStepsSnoc(creator: int, share: real, participants: seq<int>, j: nat)
    requires j < |participants|
    ensures ShareSteps(creator, share, participants[..j + 1])
            == ShareSteps(creator, share, participants[..j])
               + (if participants[j] == creator then [] else [Step(participants[j], creator, share), Step(creator, participants[j], -share)])
  {
    assert participants[..j + 1][..j] == participants[..j];
  }

  /** One more participant, applied: the creator changes nothing, anyone
      else moves the share both ways. */
  lemma ShareApplyStep(m: Matrix, creator: int, share: real, participants: seq<int>, j: nat)
    requires j < |participants|
    ensures var before := ApplyAll(m, ShareSteps(creator, share, participants[..j]));
            var p := participants[j];
            ApplyAll(m, ShareSteps(creator, share, participants[..j + 1]))
            == if p == creator then before else Apply(Apply(before, Step(p, creator, share)), Step(creator, p, -share))
  {
    var steps := ShareSteps(creator, share, participants[..j]);
    var p := participants[j];
    ShareStepsSnoc(creator, share, participants, j);
    if p == creator {
      assert steps + [] == steps;
    } else {
      ApplyAllSnoc(m, steps, Step(p, creator, share));
      ApplyAllSnoc(m, steps + [Step(p, creator, share)], Step(creator, p, -share));
      assert steps + [Step(p, creator, share)] + [Step(creator, p, -share)]
          == steps + [Step(p, creator, share), Step(creator, p, -share)];
    }
  }

  /** `amount / participants.len()`, unrounded. */
  function ShareOf(d: SharedDebtEntry): real
    requires d.participants != []
  {
    d.amount / |d.participants| as real
  }

  /** A debt with no participants contributes nothing. */
  function DebtSteps(d: SharedDebtEntry): seq<Step> {
    if d.participants == [] then [] else ShareSteps(d.creator, ShareOf(d), d.participants)
  }

  /** The updates of a list of entries, entry after entry. */
  function Concat<T>(xs: seq<T>, f: T -> seq<Step>): seq<Step>
    decreases |xs|
  {
    if xs == [] then [] else Concat(xs[..|xs| - 1], f) + f(xs[|xs| - 1])
  }

  function SharedSteps(ds: seq<SharedDebtEntry>): seq<Step> {
    Concat(ds, DebtSteps)
  }

  /** A payment lowers what the payer owes the recipient and raises what
      the recipient owes the payer. */
  function PaymentSteps(t: TransactionEntry): seq<Step> {
    [Step(t.payer, t.recipient, -t.amount), Step(t.recipient, t.payer, t.amount)]
  }

  function TransactionSteps(ts: seq<TransactionEntry>): seq<Step> {
    Concat(ts, PaymentSteps)
  }

  /** The matrix before any contribution: an empty row per member. */
  function EmptyRows(memberIds: seq<int>): (m: Matrix)
    ensures m.Keys == set i | 0 <= i < |memberIds| :: memberIds[i]
    ensures forall a :: a in m ==> m[a] == map[]
  {
    map i | i in memberIds :: map[]
  }

  /** The class the handler's `debts` map becomes: it is updated in place
      by the two contribution passes. */
  class DebtMatrix {
    var debts: Matrix

    /** `for member in &members { debts.insert(member.id, HashMap::new()) }` */
    constructor (memberIds: seq<int>)
      ensures debts == EmptyRows(memberIds)
    {
      debts := EmptyRows(memberIds);
    }

    method Add(s: Step)
      modifies this
      ensures debts == Apply(old(debts), s)
    {
      if s.row in debts {
        var row := debts[s.row];
        var current := if s.col in row then row[s.col] else 0.0;
        debts := debts[s.row := row[s.col := current + s.delta]];
      }
    }

    /** One shared debt: its share moved between each participant other
        than the creator and the creator. */
    method AddDebt(d: SharedDebtEntry)
      modifies this
      ensures debts == ApplyAll(old(debts), DebtSteps(d))
    {
      if d.participants == [] {
        return;
      }
      var share := d.amount / |d.participants| as real;
      for j := 0 to |d.participants|
        invariant debts == ApplyAll(old(debts), ShareSteps(d.creator, share, d.participants[..j]))
      {
        var p := d.participants[j];
        ShareApplyStep(old(debts), d.creator, share, d.participants, j);
        if p != d.creator {
          Add(Step(p, d.creator, share));
          Add(Step(d.creator, p, -share));
        }
      }
      assert d.participants[..|d.participants|] == d.participants;
    }

    /** `calculate_shared_debt_contributions`. */
    method AddSharedDebts(ds: seq<SharedDebtEntry>)
      modifies this
      ensures debts == ApplyAll(old(debts), SharedSteps(ds))
    {
      for i := 0 to |ds|
        invariant debts == ApplyAll(old(debts), SharedSteps(ds[..i]))
      {
        assert ds[..i + 1][..i] == ds[..i];
        AddDebt(ds[i]);
        ApplyAllAppend(old(debts), SharedSteps(ds[..i]), DebtSteps(ds[i]));
      }
      assert ds[..|ds|] == ds;
    }

    /** `calculate_transaction_contributions`. */
    method AddTransactions(ts: seq<TransactionEntry>)
      modifies this
      ensures debts == ApplyAll(old(debts), TransactionSteps(ts))
    {
      for i := 0 to |ts|
        invariant debts == ApplyAll(old(debts), TransactionSteps(ts[..i]))
      {
        assert ts[..i + 1][..i] == ts[..i];
        var t := ts[i];
        ghost var done := TransactionSteps(ts[..i]);
        Add(Step(t.payer, t.recipient, -t.amount));
        ApplyAllSnoc(old(debts), done, Step(t.payer, t.recipient, -t.amount));
        Add(Step(t.recipient, t.payer, t.amount));
        ApplyAllSnoc(old(debts), done + [Step(t.payer, t.recipient, -t.amount)], Step(t.recipient, t.payer, t.amount));
        assert done + [Step(t.payer, t.recipient, -t.amount)] + [Step(t.recipient, t.payer, t.amount)]
            == done + PaymentSteps(t);
      }
      assert ts[..|ts|] == ts;
    }
  }

  // ---------------------------------------------------------------------
  // Antisymmetry: what a owes b is what b is owed by a
  // ---------------------------------------------------------------------

  ghost predicate Antisymmetric(m: Matrix) {
    forall a, b :: Entry(m, a, b) == -Entry(m, b, a)
  }

  lemma ApplyTwo(m: Matrix, s: Step, t: Step)
    ensures ApplyAll(m, [s, t]) == Apply(Apply(m, s), t)
  {
    ApplyAllSnoc(m, [], s);
    ApplyAllSnoc(m, [s], t);
    assert [] + [s] == [s] && [s] + [t] == [s, t];
  }

  /** An update and its mirror image keep the matrix antisymmetric when
      both users have a row. */
  lemma MirroredKeepsAntisymmetric(m: Matrix, a: int, b: int, x: real, y: real)
    requires Antisymmetric(m) && a in m && b in m && y == -x
    ensures Antisymmetric(ApplyAll(m, [Step(a, b, x), Step(b, a, y)]))
  {
    ApplyTwo(m, Step(a, b, x), Step(b, a, y));
    var m1 := Apply(m, Step(a, b, x));
    var m2 := Apply(m1, Step(b, a, y));
    forall u, v
      ensures Entry(m2, u, v) == -Entry(m2, v, u)
    {
      assert Entry(m, u, v) == -Entry(m, v, u);
      ApplyEntry(m, Step(a, b, x), u, v);
      ApplyEntry(m, Step(a, b, x), v, u);
      ApplyEntry(m1, Step(b, a, y), u, v);
      ApplyEntry(m1, Step(b, a, y), v, u);
    }
  }

  /** Every creator and participant of the debts has a row. */
  predicate DebtsCovered(keys: set<int>, ds: seq<SharedDebtEntry>) {
    forall i :: 0 <= i < |ds| ==> ds[i].creator in keys && forall p :: p in ds[i].participants ==> p in keys
  }

  /** Every payer and recipient of the transactions has a row. */
  predicate TransactionsCovered(keys: set<int>, ts: seq<TransactionEntry>) {
    forall i :: 0 <= i < |ts| ==> ts[i].payer in keys && ts[i].recipient in keys
  }

  /** `t` undoes `s` on the mirrored entry, and both rows exist. */
  predicate Mirrored(keys: set<int>, s: Step, t: Step) {
    s.row in keys && s.col in keys && t == Step(s.col, s.row, -s.delta)
  }

  /** The updates come in mirrored pairs. */
  predicate Paired(keys: set<int>, steps: seq<Step>)
    decreases |steps|
  {
    steps == [] || (|steps| >= 2 && Mirrored(keys, steps[0], steps[1]) && Paired(keys, steps[2..]))
  }

  lemma {:induction false} PairedAppend(keys: set<int>, a: seq<Step>, b: seq<Step>)
    requires Paired(keys, a) && Paired(keys, b)
    ensures Paired(keys, a + b)
    decreases |a|
  {
    if a != [] {
      assert (a + b)[2..] == a[2..] + b;
      PairedAppend(keys, a[2..], b);
    } else {
      assert a + b == b;
    }
  }

  lemma {:induction false} ShareStepsPaired(keys: set<int>, creator: int, share: real, ps: seq<int>)
    requires creator in keys && forall p :: p in ps ==> p in keys
    ensures Paired(keys, ShareSteps(creator, share, ps))
    decreases |ps|
  {
    if ps != [] {
      var n := |ps| - 1;
      var p := ps[n];
      assert forall q :: q in ps[..n] ==> q in ps;
      ShareStepsPaired(keys, creator, share, ps[..n]);
      var pair := if p == creator then [] else [Step(p, creator, share), Step(creator, p, -share)];
      assert Paired(keys, pair) by {
        if pair != [] {
          assert pair[2..] == [];
        }
      }
      PairedAppend(keys, ShareSteps(creator, share, ps[..n]), pair);
    }
  }

  lemma {:induction false} SharedStepsPaired(keys: set<int>, ds: seq<SharedDebtEntry>)
    requires DebtsCovered(keys, ds)
    ensures Paired(keys, SharedSteps(ds))
    decreases |ds|
  {
    if ds != [] {
      var n := |ds| - 1;
      var d := ds[n];
      SharedStepsPaired(keys, ds[..n]);
      if d.participants != [] {
        ShareStepsPaired(keys, d.creator, ShareOf(d), d.participants);
      }
      PairedAppend(keys, SharedSteps(ds[..n]), DebtSteps(d));
    }
  }

  lemma {:induction false} TransactionStepsPaired(keys: set<int>, ts: seq<TransactionEntry>)
    requires TransactionsCovered(keys, ts)
    ensures Paired(keys, TransactionSteps(ts))
    decreases |ts|
  {
    if ts != [] {
      var n := |ts| - 1;
      var t := ts[n];
      TransactionStepsPaired(keys, ts[..n]);
      assert PaymentSteps(t)[2..] == [];
      PairedAppend(keys, TransactionSteps(ts[..n]), PaymentSteps(t));
    }
  }

  lemma {:induction false} PairedKeepsAntisymmetric(m: Matrix, steps: seq<Step>)
    requires Antisymmetric(m) && Paired(m.Keys, steps)
    ensures Antisymmetric(ApplyAll(m, steps))
    decreases |steps|
  {
    if steps != [] {
      var s, t := steps[0], steps[1];
      assert steps == [s, t] + steps[2..];
      ApplyAllAppend(m, [s, t], steps[2..]);
      MirroredKeepsAntisymmetric(m, s.row, s.col, s.delta, t.delta);
      PairedKeepsAntisymmetric(ApplyAll(m, [s, t]), steps[2..]);
    }
  }

  /** With every creator, participant, payer and recipient a member, the
      contributions keep the matrix antisymmetric. */
  lemma ContributionsKeepAntisymmetric(m: Matrix, ds: seq<SharedDebtEntry>, ts: seq<TransactionEntry>)
    requires Antisymmetric(m) && DebtsCovered(m.Keys, ds) && TransactionsCovered(m.Keys, ts)
    ensures Antisymmetric(ApplyAll(ApplyAll(m, SharedSteps(ds)), TransactionSteps(ts)))
  {
    SharedStepsPaired(m.Keys, ds);
    PairedKeepsAntisymmetric(m, SharedSteps(ds));
    TransactionStepsPaired(m.Keys, ts);
    PairedKeepsAntisymmetric(ApplyAll(m, SharedSteps(ds)), TransactionSteps(ts));
  }

  // ---------------------------------------------------------------------
  // Zero-sum: the entries of the whole matrix add up to nothing
  // ---------------------------------------------------------------------

  lemma NonEmptyHasElement(s: set<int>)
    requires s != {}
    ensures exists x :: x in s
  {
    if forall x :: x !in s {
      assert false;
    }
  }

  /** Some element of a non-empty set. */
  ghost function Pick(s: set<int>): (x: int)
    requires s != {}
    ensures x in s
  {
    NonEmptyHasElement(s);
    var x :| x in s; x
  }

  /** The sum of a row's values, in no particular key order. */
  ghost function SumValues(f: map<int, real>): real
    decreases |f.Keys|
  {
    if f.Keys == {} then 0.0
    else
      var k := Pick(f.Keys);
      f[k] + SumValues(f - {k})
  }

  /** Any key can be taken out first. */
  lemma {:induction false} SumValuesRemove(f: map<int, real>, k: int)
    requires k in f
    ensures SumValues(f) == f[k] + SumValues(f - {k})
    decreases |f.Keys|
  {
    var j := Pick(f.Keys);
    if j != k {
      assert (f - {j}) - {k} == (f - {k}) - {j};
      SumValuesRemove(f - {j}, k);
      SumValuesRemove(f - {k}, j);
    }
  }

  lemma SumValuesUpdate(f: map<int, real>, k: int, v: real)
    ensures SumValues(f[k := v]) == SumValues(f) - (if k in f then f[k] else 0.0) + v
  {
    SumValuesRemove(f[k := v], k);
    assert f[k := v] - {k} == f - {k};
    if k in f {
      SumValuesRemove(f, k);
    } else {
      assert f - {k} == f;
    }
  }

  /** Each row's sum. */
  ghost function RowSums(m: Matrix): map<int, real> {
    map a | a in m :: SumValues(m[a])
  }

  /** The sum of every entry of the matrix. */
  ghost function Total(m: Matrix): real {
    SumValues(RowSums(m))
  }

  /** An update moves the total by its delta when its row exists, and
      not at all otherwise. */
  lemma ApplyTotal(m: Matrix, s: Step)
    ensures Total(Apply(m, s)) == Total(m) + (if s.row in m then s.delta else 0.0)
  {
    if s.row in m {
      var row := m[s.row];
      var e := Entry(m, s.row, s.col);
      SumValuesUpdate(row, s.col, e + s.delta);
      assert RowSums(Apply(m, s)) == RowSums(m)[s.row := SumValues(row[s.col := e + s.delta])];
      SumValuesUpdate(RowSums(m), s.row, SumValues(row[s.col := e + s.delta]));
    }
  }

  lemma {:induction false} PairedKeepsTotal(m: Matrix, steps: seq<Step>)
    requires Paired(m.Keys, steps)
    ensures Total(ApplyAll(m, steps)) == Total(m)
    decreases |steps|
  {
    if steps != [] {
      var s, t := steps[0], steps[1];
      assert steps == [s, t] + steps[2..];
      ApplyAllAppend(m, [s, t], steps[2..]);
      ApplyTwo(m, s, t);
      ApplyTotal(m, s);
      ApplyTotal(Apply(m, s), t);
      PairedKeepsTotal(ApplyAll(m, [s, t]), steps[2..]);
    }
  }

  /** With every creator, participant, payer and recipient a member, the
      contributions leave the total where it was. */
  lemma ContributionsKeepTotal(m: Matrix, ds: seq<SharedDebtEntry>, ts: seq<TransactionEntry>)
    requires DebtsCovered(m.Keys, ds) && TransactionsCovered(m.Keys, ts)
    ensures Total(ApplyAll(ApplyAll(m, SharedSteps(ds)), TransactionSteps(ts))) == Total(m)
  {
    SharedStepsPaired(m.Keys, ds);
    PairedKeepsTotal(m, SharedSteps(ds));
    TransactionStepsPaired(m.Keys, ts);
    PairedKeepsTotal(ApplyAll(m, SharedSteps(ds)), TransactionSteps(ts));
  }

  lemma {:induction false} SumValuesZero(f: map<int, real>)
    requires forall k :: k in f ==> f[k] == 0.0
    ensures SumValues(f) == 0.0
    decreases |f.Keys|
  {
    if f.Keys != {} {
      var k := Pick(f.Keys);
      SumValuesRemove(f, k);
      SumValuesZero(f - {k});
    }
  }

  /** The matrix starts balanced. */
  lemma EmptyRowsBalanced(memberIds: seq<int>)
    ensures Antisymmetric(EmptyRows(memberIds)) && Total(EmptyRows(memberIds)) == 0.0
  {
    var m := EmptyRows(memberIds);
    forall a | a in m
      ensures SumValues(m[a]) == 0.0
    {
      SumValuesZero(m[a]);
    }
    SumValuesZero(RowSums(m));
  }

  /** A participant who is not a member is skipped on their own side
      only: the creator is still owed, so the matrix is neither
      antisymmetric nor balanced. */
  lemma NonMemberBreaksBalance()
    ensures var m := ApplyAll(EmptyRows([1]), SharedSteps([SharedDebtEntry(1, 10.0, [1, 2])]));
            !Antisymmetric(m) && Total(m) == -5.0
  {
    var d := SharedDebtEntry(1, 10.0, [1, 2]);
    assert ShareOf(d) == 5.0;
    assert ShareSteps(1, 5.0, [1]) == [] by {
      assert [1][..0] == [];
    }
    assert [1, 2][..1] == [1];
    assert DebtSteps(d) == [Step(2, 1, 5.0), Step(1, 2, -5.0)];
    assert SharedSteps([d]) == DebtSteps(d) by {
      assert [d][..0] == [];
      assert Concat([d], DebtSteps) == Concat([d][..0], DebtSteps) + DebtSteps(d);
    }
    var m0 := EmptyRows([1]);
    assert m0 == map[1 := map[]];
    ApplyTwo(m0, Step(2, 1, 5.0), Step(1, 2, -5.0));
    var m := ApplyAll(m0, SharedSteps([d]));
    assert m == map[1 := map[2 := -5.0]];
    assert Entry(m, 1, 2) != -Entry(m, 2, 1);
    SumValuesRemove(map[2 := -5.0], 2);
    assert map[2 := -5.0] - {2} == map[];
    assert RowSums(m) == map[1 := -5.0];
    SumValuesRemove(map[1 := -5.0], 1);
    assert map[1 := -5.0] - {1} == map[];
  }

  // ---------------------------------------------------------------------
  // Order independence: every update is a commutative `+=`
  // ---------------------------------------------------------------------

  lemma ApplyCommuteRows(m: Matrix, s: Step, t: Step)
    requires s.row in m && t.row in m && s.row != t.row
    ensures Apply(Apply(m, s), t) == Apply(Apply(m, t), s)
  {
    var a := m[s.row][s.col := Entry(m, s.row, s.col) + s.delta];
    var b := m[t.row][t.col := Entry(m, t.row, t.col) + t.delta];
    assert Apply(Apply(m, s), t) == m[s.row := a][t.row := b];
    assert Apply(Apply(m, t), s) == m[t.row := b][s.row := a];
  }

  lemma ApplyCommuteCols(m: Matrix, s: Step, t: Step)
    requires s.row in m && s.row == t.row && s.col != t.col
    ensures Apply(Apply(m, s), t) == Apply(Apply(m, t), s)
  {
    var row := m[s.row];
    var a := Entry(m, s.row, s.col) + s.delta;
    var b := Entry(m, t.row, t.col) + t.delta;
    assert Apply(Apply(m, s), t) == m[s.row := row[s.col := a][t.col := b]];
    assert Apply(Apply(m, t), s) == m[s.row := row[t.col := b][s.col := a]];
    assert row[s.col := a][t.col := b] == row[t.col := b][s.col := a];
  }

  /** Two updates of one entry add up to the sum of their deltas. */
  lemma ApplySameEntry(m: Matrix, s: Step, t: Step)
    requires s.row in m && s.row == t.row && s.col == t.col
    ensures Apply(Apply(m, s), t) == m[s.row := m[s.row][s.col := Entry(m, s.row, s.col) + s.delta + t.delta]]
  {
    var m1 := Apply(m, s);
    assert Entry(m1, t.row, t.col) == Entry(m, s.row, s.col) + s.delta;
    assert m1[s.row][s.col := Entry(m, s.row, s.col) + s.delta + t.delta]
        == m[s.row][s.col := Entry(m, s.row, s.col) + s.delta + t.delta];
  }

  lemma ApplyCommute(m: Matrix, s: Step, t: Step)
    ensures Apply(Apply(m, s), t) == Apply(Apply(m, t), s)
  {
    if s.row !in m || t.row !in m {
    } else if s.row != t.row {
      ApplyCommuteRows(m, s, t);
    } else if s.col != t.col {
      ApplyCommuteCols(m, s, t);
    } else {
      ApplySameEntry(m, s, t);
      ApplySameEntry(m, t, s);
      assert Entry(m, s.row, s.col) + s.delta + t.delta == Entry(m, s.row, s.col) + t.delta + s.delta;
    }
  }

  /** An update can be moved past any later ones. */
  lemma {:induction false} ApplyAllMoveLast(m: Matrix, a: seq<Step>, x: Step, b: seq<Step>)
    ensures ApplyAll(m, a + [x] + b) == ApplyAll(m, a + b + [x])
    decreases |b|
  {
    if b == [] {
      assert a + [x] + b == a + b + [x];
    } else {
      var n := |b| - 1;
      var y := b[n];
      assert a + [x] + b == (a + [x] + b[..n]) + [y];
      assert a + b + [x] == (a + b[..n] + [y]) + [x];
      assert a + b[..n] + [y] == a + b;
      ApplyAllSnoc(m, a + [x] + b[..n], y);
      ApplyAllMoveLast(m, a, x, b[..n]);
      ApplyAllSnoc(m, a + b[..n], x);
      ApplyCommute(ApplyAll(m, a + b[..n]), x, y);
      ApplyAllSnoc(m, a + b[..n] + [x], y);
      ApplyAllSnoc(m, a + b[..n], y);
      ApplyAllSnoc(m, a + b, x);
    }
  }

  /** The matrix depends only on which updates are made, not on their
      order. */
  lemma {:induction false} ApplyAllPermutation(m: Matrix, s: seq<Step>, t: seq<Step>)
    requires multiset(s) == multiset(t)
    ensures ApplyAll(m, s) == ApplyAll(m, t)
    decreases |s|
  {
    if s != [] {
      var n := |s| - 1;
      var x := s[n];
      assert s == s[..n] + [x];
      assert x in multiset(t);
      var j :| 0 <= j < |t| && t[j] == x;
      var rest := t[..j] + t[j + 1..];
      assert t == t[..j] + [x] + t[j + 1..];
      assert multiset(t) == multiset(t[..j]) + multiset([x]) + multiset(t[j + 1..]);
      assert multiset(s) == multiset(s[..n]) + multiset([x]);
      assert multiset(rest) == multiset(t[..j]) + multiset(t[j + 1..]);
      assert multiset(s[..n]) == multiset(s) - multiset([x]);
      assert multiset(rest) == multiset(t) - multiset([x]);
      ApplyAllMoveLast(m, t[..j], x, t[j + 1..]);
      ApplyAllPermutation(m, s[..n], rest);
      ApplyAllSnoc(m, s[..n], x);
      ApplyAllSnoc(m, rest, x);
    } else {
      assert |t| == |multiset(t)| == 0;
    }
  }

  lemma ConcatOne<T>(x: T, f: T -> seq<Step>)
    ensures Concat([x], f) == f(x)
  {
    assert [x][..0] == [];
  }

  lemma {:induction false} ConcatAppend<T>(xs: seq<T>, ys: seq<T>, f: T -> seq<Step>)
    ensures Concat(xs + ys, f) == Concat(xs, f) + Concat(ys, f)
    decreases |ys|
  {
    if ys == [] {
      assert xs + ys == xs;
    } else {
      var n := |ys| - 1;
      assert (xs + ys)[..|xs + ys| - 1] == xs + ys[..n];
      ConcatAppend(xs, ys[..n], f);
    }
  }

  /** Listing the same entries in another order lists the same updates. */
  lemma {:induction false} ConcatPermutation<T>(xs: seq<T>, ys: seq<T>, f: T -> seq<Step>)
    requires multiset(xs) == multiset(ys)
    ensures multiset(Concat(xs, f)) == multiset(Concat(ys, f))
    decreases |xs|
  {
    if xs != [] {
      var n := |xs| - 1;
      var x := xs[n];
      assert xs == xs[..n] + [x];
      assert x in multiset(ys);
      var j :| 0 <= j < |ys| && ys[j] == x;
      var rest := ys[..j] + ys[j + 1..];
      assert ys == ys[..j] + [x] + ys[j + 1..];
      assert multiset(ys) == multiset(ys[..j]) + multiset([x]) + multiset(ys[j + 1..]);
      assert multiset(xs) == multiset(xs[..n]) + multiset([x]);
      assert multiset(rest) == multiset(ys[..j]) + multiset(ys[j + 1..]);
      assert multiset(xs[..n]) == multiset(xs) - multiset([x]);
      assert multiset(rest) == multiset(ys) - multiset([x]);
      ConcatPermutation(xs[..n], rest, f);
      ConcatAppend(ys[..j] + [x], ys[j + 1..], f);
      ConcatAppend(ys[..j], [x], f);
      ConcatAppend(ys[..j], ys[j + 1..], f);
      ConcatOne(x, f);
    } else {
      assert |ys| == |multiset(ys)| == 0;
    }
  }

  /** Processing the debts in any order gives the same matrix. */
  lemma DebtOrderIrrelevant(m: Matrix, ds: seq<SharedDebtEntry>, ds': seq<SharedDebtEntry>)
    requires multiset(ds) == multiset(ds')
    ensures ApplyAll(m, SharedSteps(ds)) == ApplyAll(m, SharedSteps(ds'))
  {
    ConcatPermutation(ds, ds', DebtSteps);
    ApplyAllPermutation(m, SharedSteps(ds), SharedSteps(ds'));
  }

  /** Processing the transactions in any order gives the same matrix. */
  lemma TransactionOrderIrrelevant(m: Matrix, ts: seq<TransactionEntry>, ts': seq<TransactionEntry>)
    requires multiset(ts) == multiset(ts')
    ensures ApplyAll(m, TransactionSteps(ts)) == ApplyAll(m, TransactionSteps(ts'))
  {
    ConcatPermutation(ts, ts', PaymentSteps);
    ApplyAllPermutation(m, TransactionSteps(ts), TransactionSteps(ts'));
  }

  /** Folding in the transactions before the debts gives the same
      matrix. */
  lemma PassOrderIrrelevant(m: Matrix, ds: seq<SharedDebtEntry>, ts: seq<TransactionEntry>)
    ensures ApplyAll(ApplyAll(m, SharedSteps(ds)), TransactionSteps(ts))
         == ApplyAll(ApplyAll(m, TransactionSteps(ts)), SharedSteps(ds))
  {
    var s, t := SharedSteps(ds), TransactionSteps(ts);
    ApplyAllAppend(m, s, t);
    ApplyAllAppend(m, t, s);
    assert multiset(s + t) == multiset(t + s);
    ApplyAllPermutation(m, s + t, t + s);
  }

  // ---------------------------------------------------------------------
  // Per-member balances
  // ---------------------------------------------------------------------

  /** The members query: (user id, username) per group member. */
  type Roster = seq<(int, string)>

  datatype RelationshipType = Owes | Owed

  /** One non-zero entry of a member's row; the amount is in cents. */
  datatype DebtRelationship = DebtRelationship(
    otherUserId: int,
    otherUsername: string,
    amountCents: int,
    relationshipType: RelationshipType)

  datatype NetType = Positive | Negative | Neutral

  /** A member's balance; amounts are in cents, rounded as `round_dp(2)`
      rounds them. */
  datatype UserBalance = UserBalance(
    userId: int,
    username: string,
    relationships: seq<DebtRelationship>,
    totalOwedCents: int,
    totalOwingCents: int,
    netAmountCents: int,
    netType: NetType)

  /** `x` in cents, rounded to the nearest cent with ties to even. */
  function Cents(x: real): (c: int)
    ensures -0.5 <= c as real - x * 100.0 <= 0.5
    ensures c as real - x * 100.0 == 0.5 || c as real - x * 100.0 == -0.5 ==> c % 2 == 0
  {
    var y := x * 100.0;
    var f := y.Floor;
    var frac := y - f as real;
    if frac < 0.5 then f
    else if frac > 0.5 then f + 1
    else if f % 2 == 0 then f
    else f + 1
  }

  /** `members.iter().find(|m| m.id == id).map(|m| m.username).unwrap_or_default()` */
  function UsernameOf(roster: Roster, id: int): (name: string)
    ensures (forall i :: 0 <= i < |roster| ==> roster[i].0 != id) ==> name == ""
    ensures forall i :: 0 <= i < |roster| && roster[i].0 == id && (forall j :: 0 <= j < i ==> roster[j].0 != id)
              ==> name == roster[i].1
    decreases |roster|
  {
    if roster == [] then ""
    else if roster[0].0 == id then roster[0].1
    else UsernameOf(roster[1..], id)
  }

  /** A positive entry: the member owes the other user; a negative one:
      the other user owes the member its absolute value. */
  function RelationshipFor(roster: Roster, other: int, amount: real): DebtRelationship {
    if amount > 0.0 then DebtRelationship(other, UsernameOf(roster, other), Cents(amount), Owes)
    else DebtRelationship(other, UsernameOf(roster, other), Cents(-amount), Owed)
  }

  function NetTypeOf(net: real): NetType {
    if net > 0.0 then Positive else if net < 0.0 then Negative else Neutral
  }

  /** What the member owes on each entry. */
  function PosPart(row: map<int, real>): map<int, real> {
    map k | k in row :: if row[k] > 0.0 then row[k] else 0.0
  }

  /** What the member is owed on each entry. */
  function NegPart(row: map<int, real>): map<int, real> {
    map k | k in row :: if row[k] < 0.0 then -row[k] else 0.0
  }

  /** `total_owed - total_owing`, before rounding. */
  ghost function Net(row: map<int, real>): real {
    SumValues(NegPart(row)) - SumValues(PosPart(row))
  }

  /** The relationships list every non-zero entry of the row exactly
      once, each as `RelationshipFor` describes it. */
  ghost predicate ListsEntries(rels: seq<DebtRelationship>, row: map<int, real>, roster: Roster) {
    (forall i :: 0 <= i < |rels| ==>
       rels[i].otherUserId in row && row[rels[i].otherUserId] != 0.0
       && rels[i] == RelationshipFor(roster, rels[i].otherUserId, row[rels[i].otherUserId]))
    && (forall k :: k in row && row[k] != 0.0 ==> exists i :: 0 <= i < |rels| && rels[i].otherUserId == k)
    && (forall i, j :: 0 <= i < j < |rels| ==> rels[i].otherUserId != rels[j].otherUserId)
  }

  /** The balance `calculate_user_debts` reports for a member whose row is
      `row`. */
  ghost predicate Summarizes(b: UserBalance, row: map<int, real>, roster: Roster, userId: int, username: string) {
    b.userId == userId && b.username == username
    && ListsEntries(b.relationships, row, roster)
    && b.totalOwingCents == Cents(SumValues(PosPart(row)))
    && b.totalOwedCents == Cents(SumValues(NegPart(row)))
    && b.netAmountCents == Cents(if Net(row) < 0.0 then -Net(row) else Net(row))
    && b.netType == NetTypeOf(Net(row))
  }

  /** The row restricted to the keys already visited. */
  function Restrict(row: map<int, real>, keys: set<int>): map<int, real> {
    map k | k in row && k in keys :: row[k]
  }

  lemma RestrictStep(row: map<int, real>, done: set<int>, k: int)
    requires k in row && k !in done
    ensures PosPart(Restrict(row, done + {k})) == PosPart(Restrict(row, done))[k := PosPart(row)[k]]
    ensures NegPart(Restrict(row, done + {k})) == NegPart(Restrict(row, done))[k := NegPart(row)[k]]
    ensures SumValues(PosPart(Restrict(row, done + {k}))) == SumValues(PosPart(Restrict(row, done))) + PosPart(row)[k]
    ensures SumValues(NegPart(Restrict(row, done + {k}))) == SumValues(NegPart(Restrict(row, done))) + NegPart(row)[k]
  {
    assert PosPart(Restrict(row, done + {k})) == PosPart(Restrict(row, done))[k := PosPart(row)[k]];
    assert NegPart(Restrict(row, done + {k})) == NegPart(Restrict(row, done))[k := NegPart(row)[k]];
    SumValuesUpdate(PosPart(Restrict(row, done)), k, PosPart(row)[k]);
    SumValuesUpdate(NegPart(Restrict(row, done)), k, NegPart(row)[k]);
  }

  lemma ListsStep(rels: seq<DebtRelationship>, row: map<int, real>, roster: Roster, done: set<int>, k: int)
    requires k in row && k !in done
    requires ListsEntries(rels, Restrict(row, done), roster)
    ensures row[k] == 0.0 ==> ListsEntries(rels, Restrict(row, done + {k}), roster)
    ensures row[k] != 0.0 ==> ListsEntries(rels + [RelationshipFor(roster, k, row[k])], Restrict(row, done + {k}), roster)
  {
    var before, after := Restrict(row, done), Restrict(row, done + {k});
    var rels' := if row[k] == 0.0 then rels else rels + [RelationshipFor(roster, k, row[k])];
    forall j | j in after && after[j] != 0.0
      ensures exists i :: 0 <= i < |rels'| && rels'[i].otherUserId == j
    {
      if j == k {
        assert rels'[|rels|].otherUserId == j;
      } else {
        assert j in before && before[j] != 0.0;
        var i :| 0 <= i < |rels| && rels[i].otherUserId == j;
        assert rels'[i].otherUserId == j;
      }
    }
    forall i | 0 <= i < |rels|
      ensures rels[i].otherUserId in before && rels[i].otherUserId != k
    {
    }
  }

  /** The fold over one member's row. The row is a hash map, so its
      entries are visited in an order the model leaves open. */
  method Summarize(row: map<int, real>, roster: Roster, userId: int, username: string) returns (b: UserBalance)
    ensures Summarizes(b, row, roster, userId, username)
  {
    var rest := row.Keys;
    ghost var done: set<int> := {};
    var relationships: seq<DebtRelationship> := [];
    var totalOwed := 0.0;
    var totalOwing := 0.0;
    while rest != {}
      invariant rest == row.Keys - done && done <= row.Keys
      invariant totalOwing == SumValues(PosPart(Restrict(row, done)))
      invariant totalOwed == SumValues(NegPart(Restrict(row, done)))
      invariant ListsEntries(relationships, Restrict(row, done), roster)
      decreases rest
    {
      NonEmptyHasElement(rest);
      var other :| other in rest;
      var amount := row[other];
      RestrictStep(row, done, other);
      ListsStep(relationships, row, roster, done, other);
      if amount == 0.0 {
      } else if amount > 0.0 {
        relationships := relationships + [DebtRelationship(other, UsernameOf(roster, other), Cents(amount), Owes)];
        totalOwing := totalOwing + amount;
      } else {
        relationships := relationships + [DebtRelationship(other, UsernameOf(roster, other), Cents(-amount), Owed)];
        totalOwed := totalOwed - amount;
      }
      rest := rest - {other};
      done := done + {other};
    }
    assert Restrict(row, done) == row;
    var netAmount := totalOwed - totalOwing;
    var netType := if netAmount > 0.0 then Positive else if netAmount < 0.0 then Negative else Neutral;
    b := UserBalance(userId, username, relationships, Cents(totalOwed), Cents(totalOwing),
                     Cents(if netAmount < 0.0 then -netAmount else netAmount), netType);
  }

  /** A member's net is minus the sum of their row: what others owe them
      less what they owe. */
  lemma {:induction false} NetIsNegatedRowSum(row: map<int, real>)
    ensures Net(row) == -SumValues(row)
    decreases |row.Keys|
  {
    if row.Keys != {} {
      var k := Pick(row.Keys);
      SumValuesRemove(row, k);
      SumValuesRemove(PosPart(row), k);
      SumValuesRemove(NegPart(row), k);
      assert PosPart(row) - {k} == PosPart(row - {k});
      assert NegPart(row) - {k} == NegPart(row - {k});
      NetIsNegatedRowSum(row - {k});
    } else {
      assert PosPart(row).Keys == {} && NegPart(row).Keys == {};
    }
  }

  /** Each member's net, before rounding. */
  ghost function Nets(m: Matrix): map<int, real> {
    map a | a in m :: Net(m[a])
  }

  lemma {:induction false} SumNegated(f: map<int, real>, g: map<int, real>)
    requires f.Keys == g.Keys && forall k :: k in f ==> g[k] == -f[k]
    ensures SumValues(g) == -SumValues(f)
    decreases |f.Keys|
  {
    if f.Keys != {} {
      var k := Pick(f.Keys);
      SumValuesRemove(f, k);
      SumValuesRemove(g, k);
      SumNegated(f - {k}, g - {k});
    } else {
      assert g.Keys == {};
    }
  }

  /** The members' nets add up to minus the matrix total. */
  lemma NetsSumToMinusTotal(m: Matrix)
    ensures SumValues(Nets(m)) == -Total(m)
  {
    forall a | a in m
      ensures Nets(m)[a] == -RowSums(m)[a]
    {
      NetIsNegatedRowSum(m[a]);
    }
    SumNegated(RowSums(m), Nets(m));
  }

  /** In an antisymmetric matrix, a member who owes another is matched by
      the other being owed the same rounded amount. */
  lemma MirroredRelationships(m: Matrix, roster: Roster, a: int, b: int)
    requires Antisymmetric(m) && Entry(m, a, b) > 0.0
    ensures b in m && a in m[b] && m[b][a] < 0.0
    ensures RelationshipFor(roster, b, Entry(m, a, b)).relationshipType == Owes
    ensures RelationshipFor(roster, a, m[b][a]) == DebtRelationship(a, UsernameOf(roster, a), Cents(Entry(m, a, b)), Owed)
  {
    assert Entry(m, b, a) == -Entry(m, a, b);
  }

  // ---------------------------------------------------------------------
  // calculate_user_debts
  // ---------------------------------------------------------------------

  /** `SELECT … FROM shared_debts WHERE group_id = ?`, in rowid order. */
  function GroupDebtRows(rows: seq<SharedDebtRow>, groupId: int): (g: seq<SharedDebtRow>)
    ensures forall r :: r in g <==> r in rows && r.groupId == groupId
    decreases |rows|
  {
    if rows == [] then []
    else (if rows[0].groupId == groupId then [rows[0]] else []) + GroupDebtRows(rows[1..], groupId)
  }

  /** `SELECT … FROM transactions WHERE group_id = ?`, in rowid order. */
  function GroupTransactionRows(rows: seq<TransactionRow>, groupId: int): (g: seq<TransactionRow>)
    ensures forall r :: r in g <==> r in rows && r.groupId == groupId
    decreases |rows|
  {
    if rows == [] then []
    else (if rows[0].groupId == groupId then [rows[0]] else []) + GroupTransactionRows(rows[1..], groupId)
  }

  /** Each debt's amount parsed from its TEXT column and its participants
      looked up; an amount that does not parse aborts the calculation. */
  function DebtEntries(rows: seq<SharedDebtRow>, links: seq<Link>): (r: Result<seq<SharedDebtEntry>>)
    ensures r.Ok? <==> forall i :: 0 <= i < |rows| ==> Decimals.Parse(rows[i].amount).Some?
    ensures r.Err? ==> r.error == Decimals.ParseErrorMessage
    ensures r.Ok? ==> |r.value| == |rows| && forall i :: 0 <= i < |rows| ==>
              r.value[i] == SharedDebtEntry(rows[i].createdBy, Decimals.Value(Decimals.Parse(rows[i].amount).value),
                                            UsersOf(links, rows[i].id))
    decreases |rows|
  {
    if rows == [] then Ok([])
    else
      match Decimals.Parse(rows[0].amount)
      case None => Err(Decimals.ParseErrorMessage)
      case Some(d) =>
        var rest := DebtEntries(rows[1..], links);
        if rest.Err? then rest
        else Ok([SharedDebtEntry(rows[0].createdBy, Decimals.Value(d), UsersOf(links, rows[0].id))] + rest.value)
  }

  /** Each transaction's amount parsed from its TEXT column. */
  function TransactionEntries(rows: seq<TransactionRow>): (r: Result<seq<TransactionEntry>>)
    ensures r.Ok? <==> forall i :: 0 <= i < |rows| ==> Decimals.Parse(rows[i].amount).Some?
    ensures r.Err? ==> r.error == Decimals.ParseErrorMessage
    ensures r.Ok? ==> |r.value| == |rows| && forall i :: 0 <= i < |rows| ==>
              r.value[i] == TransactionEntry(rows[i].payerId, rows[i].recipientId,
                                             Decimals.Value(Decimals.Parse(rows[i].amount).value))
    decreases |rows|
  {
    if rows == [] then Ok([])
    else
      match Decimals.Parse(rows[0].amount)
      case None => Err(Decimals.ParseErrorMessage)
      case Some(d) =>
        var rest := TransactionEntries(rows[1..]);
        if rest.Err? then rest
        else Ok([TransactionEntry(rows[0].payerId, rows[0].recipientId, Decimals.Value(d))] + rest.value)
  }

  function RosterIds(roster: Roster): (ids: seq<int>)
    ensures |ids| == |roster| && forall i :: 0 <= i < |roster| ==> ids[i] == roster[i].0
  {
    seq(|roster|, i requires 0 <= i < |roster| => roster[i].0)
  }

  /** The matrix after both contribution passes. */
  function FinalMatrix(memberIds: seq<int>, ds: seq<SharedDebtEntry>, ts: seq<TransactionEntry>): Matrix {
    ApplyAll(ApplyAll(EmptyRows(memberIds), SharedSteps(ds)), TransactionSteps(ts))
  }

  /** The members that have a row, in roster order. */
  function WithRows(roster: Roster, m: Matrix): (w: Roster)
    ensures |w| <= |roster|
    ensures (forall i :: 0 <= i < |roster| ==> roster[i].0 in m) ==> w == roster
    ensures forall j :: 0 <= j < |w| ==> w[j].0 in m
    decreases |roster|
  {
    if roster == [] then []
    else
      var n := |roster| - 1;
      WithRows(roster[..n], m) + (if roster[n].0 in m then [roster[n]] else [])
  }

  /** The balance loop of `calculate_user_debts`: a member without a row
      is skipped. */
  method BalancesOf(m: Matrix, roster: Roster) returns (balances: seq<UserBalance>)
    ensures |balances| == |WithRows(roster, m)|
    ensures forall j :: 0 <= j < |balances| ==>
              var member := WithRows(roster, m)[j];
              Summarizes(balances[j], m[member.0], roster, member.0, member.1)
  {
    balances := [];
    for i := 0 to |roster|
      invariant |balances| == |WithRows(roster[..i], m)|
      invariant forall j :: 0 <= j < |balances| ==>
                  var member := WithRows(roster[..i], m)[j];
                  Summarizes(balances[j], m[member.0], roster, member.0, member.1)
    {
      assert roster[..i + 1][..i] == roster[..i];
      var (id, username) := roster[i];
      if id in m {
        var b := Summarize(m[id], roster, id, username);
        balances := balances + [b];
      }
    }
    assert roster[..|roster|] == roster;
  }

  const NotMemberMessage := "You are not a member of this group"

  /** `calculate_user_debts`: one balance per member, in the order the
      members query returns them. */
  method CalculateUserDebts(db: Database, members: Membership, roster: Roster, caller: int, groupId: int)
    returns (r: Result<seq<UserBalance>>)
    ensures (groupId, caller) !in members ==> r == Err(NotMemberMessage)
    ensures (groupId, caller) in members ==>
              (r.Ok? <==> DebtEntries(GroupDebtRows(db.sharedDebts, groupId), db.sharedDebtUsers).Ok?
                          && TransactionEntries(GroupTransactionRows(db.transactions, groupId)).Ok?)
    ensures (groupId, caller) in members && r.Err? ==> r.error == Decimals.ParseErrorMessage
    ensures r.Ok? ==>
              var ds := DebtEntries(GroupDebtRows(db.sharedDebts, groupId), db.sharedDebtUsers).value;
              var ts := TransactionEntries(GroupTransactionRows(db.transactions, groupId)).value;
              var m := FinalMatrix(RosterIds(roster), ds, ts);
              |r.value| == |roster|
              && forall i :: 0 <= i < |roster| ==>
                   roster[i].0 in m && Summarizes(r.value[i], m[roster[i].0], roster, roster[i].0, roster[i].1)
  {
    if (groupId, caller) !in members {
      return Err(NotMemberMessage);
    }
    var debts := DebtEntries(GroupDebtRows(db.sharedDebts, groupId), db.sharedDebtUsers);
    if debts.Err? {
      return Err(debts.error);
    }
    var transactions := TransactionEntries(GroupTransactionRows(db.transactions, groupId));
    if transactions.Err? {
      return Err(transactions.error);
    }
    var ids := RosterIds(roster);
    var matrix := new DebtMatrix(ids);
    matrix.AddSharedDebts(debts.value);
    matrix.AddTransactions(transactions.value);
    ghost var m := FinalMatrix(ids, debts.value, transactions.value);
    assert matrix.debts == m;
    assert forall i :: 0 <= i < |roster| ==> roster[i].0 in m by {
      assert m.Keys == EmptyRows(ids).Keys;
      assert forall i :: 0 <= i < |roster| ==> ids[i] == roster[i].0;
    }
    var balances := BalancesOf(matrix.debts, roster);
    return Ok(balances);
  }

  /** With every creator, participant, payer and recipient a listed
      member, the final matrix is antisymmetric, its entries add up to
      zero, and so do the members' nets. */
  lemma LedgerBalanced(roster: Roster, ds: seq<SharedDebtEntry>, ts: seq<TransactionEntry>)
    requires DebtsCovered(EmptyRows(RosterIds(roster)).Keys, ds)
    requires TransactionsCovered(EmptyRows(RosterIds(roster)).Keys, ts)
    ensures Antisymmetric(FinalMatrix(RosterIds(roster), ds, ts))
    ensures Total(FinalMatrix(RosterIds(roster), ds, ts)) == 0.0
    ensures SumValues(Nets(FinalMatrix(RosterIds(roster), ds, ts))) == 0.0
  {
    var m := EmptyRows(RosterIds(roster));
    EmptyRowsBalanced(RosterIds(roster));
    ContributionsKeepAntisymmetric(m, ds, ts);
    ContributionsKeepTotal(m, ds, ts);
    NetsSumToMinusTotal(FinalMatrix(RosterIds(roster), ds, ts));
  }
}
