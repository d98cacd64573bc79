/**
 * The read side of the dashboards: the total balance over a user's
 * accounts, the transactions of those accounts gathered account by account,
 * sorted newest first (undated ones last) and cut to the ten most recent,
 * and the paginated transaction list of the mobile API.
 */
module Dashboard {
  import opened Common
  import opened Entities
  import opened TransactionRegistry

  // ---------------------------------------------------------------------------
  // Total balance
  // ---------------------------------------------------------------------------

  /** The sum of the accounts' current balances (the dashboard's stream reduce). */
  function SumBalances(accounts: seq<Account>): int
    reads set a | a in accounts
    decreases |accounts|
  {
    if |accounts| == 0 then 0 else SumBalances(accounts[..|accounts| - 1]) + accounts[|accounts| - 1].currentBalance
  }

  /** The total of two lists of accounts is the sum of their totals. */
  lemma {:induction false} SumBalancesAppend(xs: seq<Account>, ys: seq<Account>)
    ensures SumBalances(xs + ys) == SumBalances(xs) + SumBalances(ys)
    decreases |ys|
  {
    if |ys| == 0 {
      assert xs + ys == xs;
    } else {
      assert (xs + ys)[..|xs + ys| - 1] == xs + ys[..|ys| - 1];
      SumBalancesAppend(xs, ys[..|ys| - 1]);
    }
  }

  /** The mobile dashboard's running total over the accounts, in list order. */
  method TotalBalance(accounts: seq<Account>) returns (total: int)
    ensures total == SumBalances(accounts)
  {
    total := 0;
    var i := 0;
    while i < |accounts|
      invariant 0 <= i <= |accounts|
      invariant total == SumBalances(accounts[..i])
    {
      assert accounts[..i + 1][..i] == accounts[..i];
      total := total + accounts[i].currentBalance;
      i := i + 1;
    }
    assert accounts[..i] == accounts;
  }

  // ---------------------------------------------------------------------------
  // Gathering the transactions of several accounts
  // ---------------------------------------------------------------------------

  /** Each account's transactions in turn, concatenated (a transfer between two listed accounts appears twice). */
  function Gathered(accounts: seq<Account>, rows: seq<Transaction>): seq<Transaction>
    reads set a | a in accounts
    decreases |accounts|
  {
    if |accounts| == 0 then []
    else
      Gathered(accounts[..|accounts| - 1], rows) +
      Involving(rows, accounts[|accounts| - 1].id)
  }

  /** Everything gathered is a stored transaction touching one of the listed accounts. */
  lemma {:induction false} GatheredSound(accounts: seq<Account>, rows: seq<Transaction>, i: nat)
    requires i < |Gathered(accounts, rows)|
    ensures Gathered(accounts, rows)[i] in rows
    ensures exists k :: 0 <= k < |accounts| && Touches(Gathered(accounts, rows)[i], accounts[k].id)
    decreases |accounts|
  {
    var init := accounts[..|accounts| - 1];
    var t := Gathered(accounts, rows)[i];
    if i < |Gathered(init, rows)| {
      GatheredSound(init, rows, i);
      var k :| 0 <= k < |init| && Touches(t, init[k].id);
      assert accounts[k] == init[k];
    } else {
      assert Touches(t, accounts[|accounts| - 1].id);
    }
  }

  /** Every stored transaction that touches a listed account is gathered. */
  lemma {:induction false} GatheredComplete(accounts: seq<Account>, rows: seq<Transaction>, k: nat, t: Transaction)
    requires k < |accounts| && t in rows && Touches(t, accounts[k].id)
    ensures t in Gathered(accounts, rows)
    decreases |accounts|
  {
    if k < |accounts| - 1 {
      GatheredComplete(accounts[..|accounts| - 1], rows, k, t);
    }
  }

  /**
   * A transaction between two different listed accounts is gathered once for
   * each of them.
   */
  lemma TransferBetweenOwnAccountsGatheredTwice(a: Account, b: Account, rows: seq<Transaction>, t: Transaction)
    requires a.id != b.id && t in rows
    requires t.fromAccount == Some(a.id) && t.toAccount == Some(b.id)
    ensures multiset(Gathered([a, b], rows))[t] >= 2
  {
    var first := Involving(rows, a.id);
    var second := Involving(rows, b.id);
    assert Gathered([a], rows) == first by {
      assert [a][..0] == [];
    }
    assert Gathered([a, b], rows) == first + second by {
      assert [a, b][..1] == [a];
    }
    var i :| 0 <= i < |rows| && rows[i] == t;
    assert Touches(rows[i], a.id) && Touches(rows[i], b.id);
    assert multiset(first)[t] >= 1 && multiset(second)[t] >= 1;
    assert multiset(first + second) == multiset(first) + multiset(second);
  }

  /** The loop of both dashboards that appends each account's transactions. */
  method GatherTransactions(accounts: seq<Account>, registry: Registry) returns (all: seq<Transaction>)
    ensures all == Gathered(accounts, registry.rows)
  {
    all := [];
    var i := 0;
    while i < |accounts|
      invariant 0 <= i <= |accounts|
      invariant all == Gathered(accounts[..i], registry.rows)
    {
      assert accounts[..i + 1][..i] == accounts[..i];
      all := all + registry.TransactionsByAccountId(accounts[i].id);
      i := i + 1;
    }
    assert accounts[..i] == accounts;
  }

  // ---------------------------------------------------------------------------
  // Newest first, undated last
  // ---------------------------------------------------------------------------

  /**
   * The comparator's order: `x` may come before `y` when `y` is undated, or
   * both are dated and `x` is no older than `y`.
   */
  predicate NoLaterThan(x: Transaction, y: Transaction) {
    y.transactionDate.None? ||
    (x.transactionDate.Some? && x.transactionDate.value >= y.transactionDate.value)
  }

  predicate NewestFirst(s: seq<Transaction>) {
    forall i, j :: 0 <= i < j < |s| ==> NoLaterThan(s[i], s[j])
  }

  /** Java's List.sort with the newest-first comparator, as a stable insertion sort in place. */
  method SortNewestFirst(a: array<Transaction>)
    modifies a
    ensures NewestFirst(a[..])
    ensures multiset(a[..]) == multiset(old(a[..]))
  {
    var i := 0;
    while i < a.Length
      invariant 0 <= i <= a.Length
      invariant NewestFirst(a[..i])
      invariant multiset(a[..]) == multiset(old(a[..]))
    {
      InsertNewest(a, i);
      i := i + 1;
    }
    assert a[..a.Length] == a[..];
  }

  /**
   * One insertion step: with a[..i] already newest first, moves a[i] left
   * past every element it is strictly newer than (or dated where they are
   * not), so that a[..i + 1] is newest first.
   */
  method InsertNewest(a: array<Transaction>, i: nat)
    requires i < a.Length && NewestFirst(a[..i])
    modifies a
    ensures NewestFirst(a[..i + 1])
    ensures multiset(a[..]) == multiset(old(a[..]))
  {
    var j := i;
    while j > 0 && !NoLaterThan(a[j - 1], a[j])
      invariant 0 <= j <= i
      invariant multiset(a[..]) == multiset(old(a[..]))
      invariant forall p, q :: 0 <= p < q <= i && q != j ==> NoLaterThan(a[p], a[q])
      invariant 0 < j < i ==> NoLaterThan(a[j - 1], a[j + 1])
    {
      SwapAdjacent(a, j);
      j := j - 1;
    }
  }

  /** Exchanges a[j - 1] and a[j]; the contents stay a permutation of what they were. */
  method SwapAdjacent(a: array<Transaction>, j: nat)
    requires 0 < j < a.Length
    modifies a
    ensures a[..] == old(a[..])[j - 1 := old(a[j])][j := old(a[j - 1])]
    ensures multiset(a[..]) == multiset(old(a[..]))
  {
    a[j - 1], a[j] := a[j], a[j - 1];
  }

  const RecentLimit: nat := 10

  /**
   * The dashboards' recent transactions: everything gathered for the
   * accounts, sorted newest first, cut to the first ten. What is cut is never
   * newer than anything kept.
   */
  method RecentTransactions(accounts: seq<Account>, registry: Registry) returns (recent: seq<Transaction>)
    ensures |recent| == if |Gathered(accounts, registry.rows)| < RecentLimit then |Gathered(accounts, registry.rows)| else RecentLimit
    ensures NewestFirst(recent)
    ensures multiset(recent) <= multiset(Gathered(accounts, registry.rows))
    ensures forall t, i :: t in multiset(Gathered(accounts, registry.rows)) - multiset(recent) && 0 <= i < |recent| ==>
      NoLaterThan(recent[i], t)
  {
    var all := GatherTransactions(accounts, registry);
    var a := new Transaction[|all|](i requires 0 <= i < |all| => all[i]);
    assert a[..] == all;
    SortNewestFirst(a);
    var sorted := a[..];
    recent := Take(sorted, RecentLimit);
    CutIsNoNewer(sorted, RecentLimit);
  }

  /** Cutting a newest-first list keeps a newest-first prefix, and nothing cut is newer than anything kept. */
  lemma CutIsNoNewer(sorted: seq<Transaction>, n: nat)
    requires NewestFirst(sorted)
    ensures NewestFirst(Take(sorted, n))
    ensures multiset(Take(sorted, n)) <= multiset(sorted)
    ensures forall t, i :: t in multiset(sorted) - multiset(Take(sorted, n)) && 0 <= i < |Take(sorted, n)| ==>
      NoLaterThan(Take(sorted, n)[i], t)
  {
    var kept := Take(sorted, n);
    var rest := sorted[|kept|..];
    assert sorted == kept + rest;
    assert multiset(sorted) == multiset(kept) + multiset(rest);
    forall t, i | t in multiset(sorted) - multiset(kept) && 0 <= i < |kept|
      ensures NoLaterThan(kept[i], t)
    {
      var k :| 0 <= k < |rest| && rest[k] == t;
      assert sorted[|kept| + k] == t;
    }
  }

  // ---------------------------------------------------------------------------
  // Pagination
  // ---------------------------------------------------------------------------

  /** A Java int. */
  newtype Int32 = x: int | -0x8000_0000 <= x < 0x8000_0000

  /** Two's-complement wrap-around of an int result. */
  function Wrap32(x: int): (r: Int32)
    ensures -0x8000_0000 <= x < 0x8000_0000 ==> r as int == x
  {
    ((x + 0x8000_0000) % 0x1_0000_0000 - 0x8000_0000) as Int32
  }

  datatype PageError = IndexOutOfBounds   // subList refuses the bounds

  function Min(a: int, b: int): int {
    if a <= b then a else b
  }

  /** The index of a page's first element, computed without overflow. */
  function Offset(page: Int32, size: Int32): (r: int)
    ensures page >= 0 && size >= 0 ==> r >= 0
  {
    page as int * size as int
  }

  /**
   * The page as getTransactions computes it, in 32-bit arithmetic:
   * start = min(page * size, total), end = min((page + 1) * size, total),
   * then subList(start, end), which refuses bounds out of order or below zero.
   */
  function PageAsWritten<T>(s: seq<T>, page: Int32, size: Int32): (r: Result<seq<T>, PageError>)
    requires |s| < 0x8000_0000
    ensures r.Ok? ==> |r.value| <= |s|
  {
    var start := Min(Wrap32(page as int * size as int) as int, |s|);
    var end := Min(Wrap32(Wrap32(page as int + 1) as int * size as int) as int, |s|);
    if 0 <= start <= end then Ok(s[start..end]) else Err(IndexOutOfBounds)
  }

  /**
   * The multiplication wraps: page 65536 of size 65536 lies far beyond any
   * list, yet the 32-bit product is 0 and the page returned is the list's
   * beginning, where the overflow-free page is empty.
   */
  lemma PageOverflowReturnsFirstPage()
    ensures PageAsWritten([10, 20, 30], 65536, 65536) == Ok([10, 20, 30])
    ensures Page([10, 20, 30], 65536, 65536) == Ok([])
  {
    var s := [10, 20, 30];
    assert Wrap32(0x1_0000_0000) == 0;
    assert Wrap32(65537 * 65536) == 65536;
    assert Wrap32(65537) == 65537;
    assert Offset(65536, 65536) == 0x1_0000_0000;
    assert s[0..3] == s;
  }

  /**
   * When the products wrap, subList can also refuse: page 1 of size 2^30
   * starts at the end of a three-element list, but the 32-bit end bound
   * 2 * 2^30 wraps to -2^31, below the start, and the request fails.
   */
  lemma PageOverflowRefused()
    ensures PageAsWritten([10, 20, 30], 1, 0x4000_0000).Err?
    ensures Page([10, 20, 30], 1, 0x4000_0000) == Ok([])
  {
    assert Wrap32(0x4000_0000) == 0x4000_0000;
    assert Wrap32(2) == 2;
    assert Wrap32(0x8000_0000) == -0x8000_0000;
  }

  /**
   * The page with the bounds computed without overflow, start
   * min(page * size, total) and end min(page * size + size, total). For a
   * non-negative page and size it never fails and holds exactly the elements
   * whose index lies in [page * size, page * size + size); a page that starts
   * at or past the end is empty.
   */
  function Page<T>(s: seq<T>, page: Int32, size: Int32): (r: Result<seq<T>, PageError>)
    ensures page >= 0 && size >= 0 ==> r.Ok?
    ensures r.Ok? ==>
      && |r.value| == Min(Offset(page, size) + size as int, |s|) - Min(Offset(page, size), |s|)
      && forall i :: 0 <= i < |r.value| ==> 0 <= Offset(page, size) + i < |s| && r.value[i] == s[Offset(page, size) + i]
    ensures size >= 0 && Offset(page, size) >= |s| ==> r == Ok([])
  {
    var start := Min(Offset(page, size), |s|);
    var end := Min(Offset(page, size) + size as int, |s|);
    if 0 <= start <= end then Ok(s[start..end]) else Err(IndexOutOfBounds)
  }

  /**
   * The correction changes nothing where the code as written does not
   * overflow: whenever the end bound (page + 1) * size fits in 32 bits, the
   * two pages are the same.
   */
  lemma PageAgreesWithoutOverflow<T>(s: seq<T>, page: Int32, size: Int32)
    requires |s| < 0x8000_0000
    requires page >= 0 && size >= 0 && (page as int + 1) * size as int < 0x8000_0000
    ensures PageAsWritten(s, page, size) == Page(s, page, size)
  {
    var p: nat := page as int;
    var z: nat := size as int;
    var next := Wrap32(p + 1) as int;
    BoundsFit(p, z);
    if z > 0 {
      assert next == p + 1;
    } else {
      assert next * z == 0;
    }
    assert Wrap32(next * z) as int == p * z + z;
  }

  /** The facts about the two products PageAgreesWithoutOverflow needs. */
  lemma BoundsFit(p: nat, z: nat)
    requires (p + 1) * z < 0x8000_0000
    ensures 0 <= p * z && p * z + z == (p + 1) * z
    ensures z > 0 ==> p + 1 < 0x8000_0000
  {
    if z > 0 {
      assert (p + 1) * z >= (p + 1) * 1;
    }
  }

  /** Page p followed by page p + 1 is the contiguous slice from p's start to the start of page p + 2. */
  lemma ConsecutivePagesAdjoin<T>(s: seq<T>, page: Int32, size: Int32)
    requires page >= 0 && size >= 0 && page < 0x7FFF_FFFF
    ensures Offset(page + 1, size) == Offset(page, size) + size as int
    ensures Page(s, page, size).value + Page(s, page + 1, size).value ==
            s[Min(Offset(page, size), |s|)..Min(Offset(page, size) + 2 * size as int, |s|)]
  {
    var o := Offset(page, size);
    assert Offset(page + 1, size) == o + size as int by {
      assert (page as int + 1) * size as int == page as int * size as int + size as int;
    }
    var a := Min(o, |s|);
    var b := Min(o + size as int, |s|);
    var c := Min(o + 2 * size as int, |s|);
    assert s[a..b] + s[b..c] == s[a..c];
  }

  /**
   * getTransactions: the caller's gathered transactions, newest first, and
   * the requested page of them, with the overflow-free bounds of Page; where
   * the source's 32-bit bounds do not overflow the two agree
   * (PageAgreesWithoutOverflow).
   */
  method TransactionsPage(accounts: seq<Account>, registry: Registry, page: Int32, size: Int32)
    returns (r: Result<seq<Transaction>, PageError>, total: nat)
    ensures total == |Gathered(accounts, registry.rows)|
    ensures page >= 0 && size >= 0 ==> r.Ok?
    ensures r.Ok? ==>
      exists sorted :: (NewestFirst(sorted) &&
                        multiset(sorted) == multiset(Gathered(accounts, registry.rows)) &&
                        r == Page(sorted, page, size))
  {
    var all := GatherTransactions(accounts, registry);
    var a := new Transaction[|all|](i requires 0 <= i < |all| => all[i]);
    assert a[..] == all;
    SortNewestFirst(a);
    var sorted := a[..];
    total := |all|;
    r := Page(sorted, page, size);
  }
}
