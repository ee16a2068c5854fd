/** The cursor walks over the library's blockchain-selection rows
    (`scanBlockchains` and `validateBlockchains`). */
module Rows {
  import opened Common
  import opened Chains

  /** One row of the selection model as the cursor sees it. */
  datatype Row = Row(valid: bool, enabled: bool, last: bool, chain: ChainType, name: string)

  /** Where a walk of the cursor that has reached row `i` ends (exclusive):
      before the first invalid row, or after the first row marked last. A
      cursor moved past the end of `rows` reads an invalid row. */
  function WalkEnd(rows: seq<Row>, i: nat): (e: nat)
    requires i <= |rows|
    ensures i <= e <= |rows|
    decreases |rows| - i
  {
    if i == |rows| || !rows[i].valid then i
    else if rows[i].last then i + 1
    else WalkEnd(rows, i + 1)
  }

  /** The rows the cursor visits, from `First()` on. */
  function Visited(rows: seq<Row>): (r: seq<Row>) {
    rows[..WalkEnd(rows, 0)]
  }

  /** The visited rows are valid, none but the final one is marked last, and
      the walk ends at the end of the rows, before an invalid row, or after a
      row marked last. */
  lemma VisitedShape(rows: seq<Row>)
    ensures var r := Visited(rows);
      && |r| <= |rows| && r == rows[..|r|]
      && (forall i :: 0 <= i < |r| ==> r[i].valid)
      && (forall i :: 0 <= i < |r| - 1 ==> !r[i].last)
      && (|r| == |rows| || !rows[|r|].valid || (|r| > 0 && r[|r| - 1].last))
  {
    WalkShape(rows, 0);
  }

  lemma {:induction false} WalkShape(rows: seq<Row>, i: nat)
    requires i <= |rows|
    ensures forall k :: i <= k < WalkEnd(rows, i) ==> rows[k].valid
    ensures forall k :: i <= k < WalkEnd(rows, i) - 1 ==> !rows[k].last
    ensures var e := WalkEnd(rows, i);
      e == |rows| || !rows[e].valid || (e > i && rows[e - 1].last)
    decreases |rows| - i
  {
    if i < |rows| && rows[i].valid && !rows[i].last {
      WalkShape(rows, i + 1);
    }
  }

  /** How many of the rows are enabled. */
  function EnabledCount(vs: seq<Row>): (n: nat) {
    if vs == [] then 0
    else EnabledCount(vs[..|vs| - 1]) + (if vs[|vs| - 1].enabled then 1 else 0)
  }

  /** The longest name among the rows, in UTF-8 bytes; 0 for none. */
  function LongestName(vs: seq<Row>): (n: nat) {
    if vs == [] then 0
    else Max(LongestName(vs[..|vs| - 1]), Utf8Length(vs[|vs| - 1].name))
  }

  /** The chain types of the enabled rows. */
  function EnabledTypes(vs: seq<Row>): (s: set<ChainType>) {
    if vs == [] then {}
    else EnabledTypes(vs[..|vs| - 1]) + (if vs[|vs| - 1].enabled then {vs[|vs| - 1].chain} else {})
  }

  /** The count is at most the number of rows, and zero exactly when no row
      is enabled. */
  lemma {:induction false} EnabledCountSpec(vs: seq<Row>)
    ensures EnabledCount(vs) <= |vs|
    ensures EnabledCount(vs) == 0 <==> forall i :: 0 <= i < |vs| ==> !vs[i].enabled
  {
    if vs != [] {
      var init := vs[..|vs| - 1];
      EnabledCountSpec(init);
      assert forall i :: 0 <= i < |init| ==> init[i] == vs[i];
    }
  }

  /** The longest name is at least every name's length and is the length of
      some name (or 0 when there are no rows). */
  lemma {:induction false} LongestNameSpec(vs: seq<Row>)
    ensures forall i :: 0 <= i < |vs| ==> Utf8Length(vs[i].name) <= LongestName(vs)
    ensures LongestName(vs) == 0 || exists i :: 0 <= i < |vs| && Utf8Length(vs[i].name) == LongestName(vs)
  {
    if vs != [] {
      var init := vs[..|vs| - 1];
      LongestNameSpec(init);
      assert forall i :: 0 <= i < |init| ==> init[i] == vs[i];
      if LongestName(vs) != Utf8Length(vs[|vs| - 1].name) && LongestName(vs) != 0 {
        var i :| 0 <= i < |init| && Utf8Length(init[i].name) == LongestName(init);
        assert Utf8Length(vs[i].name) == LongestName(vs);
      }
    }
  }

  /** A chain type is in the set exactly when some enabled row carries it. */
  lemma {:induction false} EnabledTypesSpec(vs: seq<Row>, t: ChainType)
    ensures t in EnabledTypes(vs) <==> exists i :: 0 <= i < |vs| && vs[i].enabled && vs[i].chain == t
  {
    if vs != [] {
      var init := vs[..|vs| - 1];
      EnabledTypesSpec(init, t);
      assert forall i :: 0 <= i < |init| ==> init[i] == vs[i];
      if t in EnabledTypes(init) {
        var i :| 0 <= i < |init| && init[i].enabled && init[i].chain == t;
        assert vs[i].enabled && vs[i].chain == t;
      }
    }
  }

  /** Two enabled rows may name the same chain, so the set is never larger
      than the count. */
  lemma {:induction false} EnabledTypesAtMostCount(vs: seq<Row>)
    ensures |EnabledTypes(vs)| <= EnabledCount(vs)
  {
    if vs != [] {
      EnabledTypesAtMostCount(vs[..|vs| - 1]);
    }
  }

  /** One more row of the walk: how each summary of the prefix grows. */
  lemma PrefixStep(rows: seq<Row>, i: nat)
    requires i < |rows|
    ensures EnabledCount(rows[..i + 1]) == EnabledCount(rows[..i]) + (if rows[i].enabled then 1 else 0)
    ensures LongestName(rows[..i + 1]) == Max(LongestName(rows[..i]), Utf8Length(rows[i].name))
    ensures EnabledTypes(rows[..i + 1]) == EnabledTypes(rows[..i]) + (if rows[i].enabled then {rows[i].chain} else {})
  {
    assert rows[..i + 1][..i] == rows[..i];
  }

  /** The loop of `scanBlockchains`: the enabled count, the longest name and
      the set of enabled chain types over the visited rows. */
  method ScanRows(rows: seq<Row>) returns (enabled: nat, longest: nat, types: set<ChainType>)
    ensures enabled == EnabledCount(Visited(rows))
    ensures longest == LongestName(Visited(rows))
    ensures types == EnabledTypes(Visited(rows))
  {
    enabled, longest, types := 0, 0, {};
    var i := 0;
    while true
      invariant 0 <= i <= |rows|
      invariant WalkEnd(rows, i) == WalkEnd(rows, 0)
      invariant enabled == EnabledCount(rows[..i])
      invariant longest == LongestName(rows[..i])
      invariant types == EnabledTypes(rows[..i])
      decreases |rows| - i
    {
      if i == |rows| || !rows[i].valid {
        break;
      }
      var row := rows[i];
      PrefixStep(rows, i);
      if row.enabled {
        enabled := enabled + 1;
        types := types + {row.chain};
      }
      longest := Max(longest, Utf8Length(row.name));
      i := i + 1;
      if row.last {
        break;
      }
    }
    assert Visited(rows) == rows[..i];
  }

  /** What the account pass of `validateBlockchains` has reached after the
      first `n` rows: `None` once an enabled chain without accounts could not
      get a new subaccount, otherwise the accounts counted so far (an account
      created on the spot counts as one). `accounts[k]` and `created[k]` are
      what `AccountList` and `NewHDSubaccount` return for row `k`. */
  function AccountTotal(rows: seq<Row>, accounts: seq<nat>, created: seq<string>, n: nat): (r: Option<nat>)
    requires n <= |rows| && |accounts| == |rows| && |created| == |rows|
  {
    if n == 0 then Some(0)
    else
      match AccountTotal(rows, accounts, created, n - 1)
      case None => None
      case Some(t) =>
        match AccountContribution(rows[n - 1], accounts[n - 1], created[n - 1])
        case None => None
        case Some(c) => Some(t + c)
  }

  /** What one row adds: nothing when disabled, its accounts when it has
      some, one freshly created account, or failure when the new id is empty. */
  function AccountContribution(row: Row, accounts: nat, created: string): (c: Option<nat>) {
    if !row.enabled then Some(0)
    else if accounts > 0 then Some(accounts)
    else if created == "" then None
    else Some(1)
  }

  /** A failure at a visited row is a failure of the whole pass. */
  lemma FailureSticks(rows: seq<Row>, accounts: seq<nat>, created: seq<string>, i: nat)
    requires i < |rows| && |accounts| == |rows| && |created| == |rows|
    requires WalkEnd(rows, i) == WalkEnd(rows, 0) && rows[i].valid
    requires AccountContribution(rows[i], accounts[i], created[i]).None?
    ensures AccountTotal(rows, accounts, created, WalkEnd(rows, 0)).None?
  {
    AccountTotalFails(rows, accounts, created, WalkEnd(rows, 0));
  }

  /** The pass fails exactly when some enabled row among the first `n` had
      no accounts and got an empty id for the new one. */
  lemma {:induction false} AccountTotalFails(rows: seq<Row>, accounts: seq<nat>, created: seq<string>, n: nat)
    requires n <= |rows| && |accounts| == |rows| && |created| == |rows|
    ensures AccountTotal(rows, accounts, created, n).None?
      <==> exists k :: 0 <= k < n && rows[k].enabled && accounts[k] == 0 && created[k] == ""
  {
    if n > 0 {
      AccountTotalFails(rows, accounts, created, n - 1);
    }
  }

  /** When the pass succeeds, every enabled row contributes at least one
      account, and only enabled rows contribute: the total is positive
      exactly when some row among the first `n` is enabled. */
  lemma {:induction false} AccountTotalPositive(rows: seq<Row>, accounts: seq<nat>, created: seq<string>, n: nat)
    requires n <= |rows| && |accounts| == |rows| && |created| == |rows|
    requires AccountTotal(rows, accounts, created, n).Some?
    ensures AccountTotal(rows, accounts, created, n).value >= EnabledCount(rows[..n])
    ensures EnabledCount(rows[..n]) == 0 ==> AccountTotal(rows, accounts, created, n).value == 0
  {
    if n > 0 {
      AccountTotalPositive(rows, accounts, created, n - 1);
      assert rows[..n][..n - 1] == rows[..n - 1];
    }
  }

  /** The loop of `validateBlockchains`: `failed` when it returns early on an
      empty subaccount id, otherwise the account total and the enabled types
      over the visited rows. */
  method WalkAccounts(rows: seq<Row>, accounts: seq<nat>, created: seq<string>)
    returns (failed: bool, total: nat, types: set<ChainType>)
    requires |accounts| == |rows| && |created| == |rows|
    ensures failed <==> AccountTotal(rows, accounts, created, WalkEnd(rows, 0)).None?
    ensures !failed ==> AccountTotal(rows, accounts, created, WalkEnd(rows, 0)) == Some(total)
    ensures !failed ==> types == EnabledTypes(Visited(rows))
  {
    total, types := 0, {};
    failed := false;
    var i := 0;
    while true
      invariant 0 <= i <= |rows|
      invariant WalkEnd(rows, i) == WalkEnd(rows, 0)
      invariant AccountTotal(rows, accounts, created, i) == Some(total)
      invariant types == EnabledTypes(rows[..i])
      decreases |rows| - i
    {
      if i == |rows| || !rows[i].valid {
        break;
      }
      var row := rows[i];
      PrefixStep(rows, i);
      var contributed := AccountContribution(row, accounts[i], created[i]);
      if contributed.None? {
        FailureSticks(rows, accounts, created, i);
        failed := true;
        return;
      }
      total := total + contributed.value;
      if row.enabled {
        types := types + {row.chain};
      }
      i := i + 1;
      if row.last {
        break;
      }
    }
    assert Visited(rows) == rows[..i];
  }
}
