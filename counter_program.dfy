/**
 * The counter program of `anchor/programs/securedraw/src/lib.rs`.
 * `anchor/programs/tmpdraw/src/lib.rs` is the same program with every
 * `Securedraw` renamed `Tmpdraw`, so this module models both.
 *
 * Each instruction names one account. Anchor first checks that the account
 * exists (or, for `initialize`, that the address is free), then the handler
 * updates the account's `count`. A panic inside the handler aborts the whole
 * transaction, which leaves the ledger as it was.
 */
module CounterProgram {
  import opened Runtime

  /** The data of one `Securedraw` (or `Tmpdraw`) account. */
  datatype Counter = Counter(count: u8)

  /** The program's accounts on the ledger, by address. */
  type Accounts = map<Pubkey, Counter>

  /** One instruction, with the address of the account it works on. */
  datatype Instruction =
    | Initialize(account: Pubkey)
    | Increment(account: Pubkey)
    | Decrement(account: Pubkey)
    | Set(account: Pubkey, value: u8)
    | Close(account: Pubkey)

  /**
   * One instruction on the ledger: the new accounts, or why it aborted.
   * Whatever it does, it does to the one account it names.
   */
  function Execute(accounts: Accounts, ix: Instruction): (r: Result<Accounts, Abort>)
    ensures r.Ok? ==> r.value - {ix.account} == accounts - {ix.account}
  {
    match ix
    case Initialize(a) =>
      if a in accounts then Err(AccountAlreadyInUse) else Ok(accounts[a := Counter(0)])
    case Increment(a) =>
      if a !in accounts then Err(AccountNotInitialized)
      else (match CheckedAdd(accounts[a].count, 1)
        case Some(c) => Ok(accounts[a := Counter(c)])
        case None => Err(UnwrapOnNone))
    case Decrement(a) =>
      if a !in accounts then Err(AccountNotInitialized)
      else (match CheckedSub(accounts[a].count, 1)
        case Some(c) => Ok(accounts[a := Counter(c)])
        case None => Err(UnwrapOnNone))
    case Set(a, v) =>
      if a !in accounts then Err(AccountNotInitialized) else Ok(accounts[a := Counter(v)])
    case Close(a) =>
      if a !in accounts then Err(AccountNotInitialized) else Ok(accounts - {a})
  }

  /** One transaction holding one instruction: its status and the ledger after it. */
  function Transact(accounts: Accounts, ix: Instruction): (Status, Accounts) {
    Settle(accounts, Execute(accounts, ix))
  }

  /** A series of transactions, each applied to the ledger the previous one left. */
  function Run(accounts: Accounts, txs: seq<Instruction>): Accounts
    decreases |txs|
  {
    if txs == [] then accounts else Run(Transact(accounts, txs[0]).1, txs[1..])
  }

  /** The ledger of the program's accounts; each instruction updates it in place. */
  class CounterLedger {
    var accounts: Accounts

    constructor ()
      ensures accounts == map[]
    {
      accounts := map[];
    }

    /** What `program.account.securedraw.fetchNullable(address)` returns. */
    function FetchNullable(account: Pubkey): Option<Counter>
      reads this
    {
      if account in accounts then Some(accounts[account]) else None
    }

    method Initialize(account: Pubkey) returns (status: Status)
      modifies this
      ensures (status, accounts) == Transact(old(accounts), Instruction.Initialize(account))
    {
      if account in accounts {
        return Aborted(AccountAlreadyInUse);
      }
      accounts := accounts[account := Counter(0)];
      return Committed;
    }

    method Increment(account: Pubkey) returns (status: Status)
      modifies this
      ensures (status, accounts) == Transact(old(accounts), Instruction.Increment(account))
    {
      if account !in accounts {
        return Aborted(AccountNotInitialized);
      }
      var next := CheckedAdd(accounts[account].count, 1);
      if next.None? {
        return Aborted(UnwrapOnNone);
      }
      accounts := accounts[account := accounts[account].(count := next.value)];
      return Committed;
    }

    method Decrement(account: Pubkey) returns (status: Status)
      modifies this
      ensures (status, accounts) == Transact(old(accounts), Instruction.Decrement(account))
    {
      if account !in accounts {
        return Aborted(AccountNotInitialized);
      }
      var next := CheckedSub(accounts[account].count, 1);
      if next.None? {
        return Aborted(UnwrapOnNone);
      }
      accounts := accounts[account := accounts[account].(count := next.value)];
      return Committed;
    }

    method Set(account: Pubkey, value: u8) returns (status: Status)
      modifies this
      ensures (status, accounts) == Transact(old(accounts), Instruction.Set(account, value))
    {
      if account !in accounts {
        return Aborted(AccountNotInitialized);
      }
      accounts := accounts[account := accounts[account].(count := value)];
      return Committed;
    }

    method Close(account: Pubkey) returns (status: Status)
      modifies this
      ensures (status, accounts) == Transact(old(accounts), Instruction.Close(account))
    {
      if account !in accounts {
        return Aborted(AccountNotInitialized);
      }
      accounts := accounts - {account};
      return Committed;
    }
  }

  /**
   * The test suite's sequence on a fresh address: initialize, increment,
   * increment, decrement, set 42, close, fetching the account after each.
   */
  method ReplayTestSuite(key: Pubkey) returns (statuses: seq<Status>, fetched: seq<Option<Counter>>)
    ensures statuses == [Committed, Committed, Committed, Committed, Committed, Committed]
    ensures fetched == [Some(Counter(0)), Some(Counter(1)), Some(Counter(2)),
                        Some(Counter(1)), Some(Counter(42)), None]
  {
    var ledger := new CounterLedger();
    var s := ledger.Initialize(key);
    statuses, fetched := [s], [ledger.FetchNullable(key)];
    s := ledger.Increment(key);
    statuses, fetched := statuses + [s], fetched + [ledger.FetchNullable(key)];
    s := ledger.Increment(key);
    statuses, fetched := statuses + [s], fetched + [ledger.FetchNullable(key)];
    s := ledger.Decrement(key);
    statuses, fetched := statuses + [s], fetched + [ledger.FetchNullable(key)];
    s := ledger.Set(key, 42);
    statuses, fetched := statuses + [s], fetched + [ledger.FetchNullable(key)];
    s := ledger.Close(key);
    statuses, fetched := statuses + [s], fetched + [ledger.FetchNullable(key)];
  }

  /** `initialize` creates the account with count 0, and fails on an address in use. */
  lemma InitializeStartsAtZero(accounts: Accounts, a: Pubkey)
    ensures a !in accounts ==> Execute(accounts, Initialize(a)) == Ok(accounts[a := Counter(0)])
    ensures a in accounts ==> Transact(accounts, Initialize(a)) == (Aborted(AccountAlreadyInUse), accounts)
  {
  }

  /** `increment` adds exactly one; at 255 it aborts and the ledger is unchanged. */
  lemma IncrementAddsOne(accounts: Accounts, a: Pubkey)
    requires a in accounts
    ensures accounts[a].count < 255 ==>
      Execute(accounts, Increment(a)) == Ok(accounts[a := Counter(accounts[a].count + 1)])
    ensures accounts[a].count == 255 ==>
      Transact(accounts, Increment(a)) == (Aborted(UnwrapOnNone), accounts)
  {
  }

  /** `decrement` subtracts exactly one; at 0 it aborts and the ledger is unchanged. */
  lemma DecrementSubtractsOne(accounts: Accounts, a: Pubkey)
    requires a in accounts
    ensures accounts[a].count > 0 ==>
      Execute(accounts, Decrement(a)) == Ok(accounts[a := Counter(accounts[a].count - 1)])
    ensures accounts[a].count == 0 ==>
      Transact(accounts, Decrement(a)) == (Aborted(UnwrapOnNone), accounts)
  {
  }

  /** `set(v)` makes the count `v` whatever it was, and setting twice is setting once. */
  lemma SetOverwrites(accounts: Accounts, a: Pubkey, v: u8)
    requires a in accounts
    ensures Execute(accounts, Set(a, v)) == Ok(accounts[a := Counter(v)])
    ensures Transact(Transact(accounts, Set(a, v)).1, Set(a, v)) == Transact(accounts, Set(a, v))
  {
    var once := accounts[a := Counter(v)];
    assert once[a := Counter(v)] == once;
  }

  /**
   * `close` removes the account: a later fetch finds nothing, and every later
   * instruction on that address except `initialize` aborts.
   */
  lemma CloseRemoves(accounts: Accounts, a: Pubkey, later: Instruction)
    requires a in accounts
    requires later.account == a && !later.Initialize?
    ensures Execute(accounts, Close(a)) == Ok(accounts - {a})
    ensures a !in Transact(accounts, Close(a)).1
    ensures Execute(Transact(accounts, Close(a)).1, later) == Err(AccountNotInitialized)
  {
  }

  /** Below 255, `increment` then `decrement` gives back the ledger it started from. */
  lemma IncrementThenDecrementRestores(accounts: Accounts, a: Pubkey)
    requires a in accounts && accounts[a].count < 255
    ensures Run(accounts, [Increment(a), Decrement(a)]) == accounts
  {
    var txs := [Increment(a), Decrement(a)];
    var mid := accounts[a := Counter(accounts[a].count + 1)];
    assert Transact(accounts, txs[0]).1 == mid;
    assert Transact(mid, txs[1]).1 == accounts by {
      assert mid[a := accounts[a]] == accounts;
    }
    calc {
      Run(accounts, txs);
      Run(mid, txs[1..]);
      { assert txs[1..][0] == Decrement(a) && txs[1..][1..] == []; }
      Run(accounts, []);
    }
  }

  /** No series of transactions changes an account that none of them names. */
  lemma {:induction false} RunLeavesOthersAlone(accounts: Accounts, txs: seq<Instruction>, b: Pubkey)
    requires forall i :: 0 <= i < |txs| ==> txs[i].account != b
    ensures b in Run(accounts, txs) <==> b in accounts
    ensures b in accounts ==> Run(accounts, txs)[b] == accounts[b]
    decreases |txs|
  {
    if txs != [] {
      var next := Transact(accounts, txs[0]).1;
      var x := txs[0].account;
      assert next - {x} == accounts - {x};
      assert b in next <==> b in next - {x};
      assert b in accounts <==> b in accounts - {x};
      RunLeavesOthersAlone(next, txs[1..], b);
    }
  }
}
