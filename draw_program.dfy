/**
 * The participant draw program of `anchor/programs/securedraw/src/prelib.rs`.
 *
 * An account holds the drawn index `count` and the participant list `nuser`.
 * The account is allocated once, at `initialize`, with room for at most
 * `MaxLen` participants; Anchor writes the account back into that fixed
 * space when an instruction ends, and aborts the transaction when the new
 * data does not fit. `increment` draws an index into the list from one byte
 * of a hash of the ledger clock, which this model takes as an input.
 */
module DrawProgram {
  import opened Runtime

  /** `#[max_len(10)]` on `nuser`. */
  const MaxLen: nat := 10

  /** Bytes of a serialized public key. */
  const PubkeyLen: nat := 32

  /** Anchor's account discriminator, which precedes the fields. */
  const DiscriminatorLen: nat := 8

  /** `Securedraw::INIT_SPACE`: the `u8`, the list's 4-byte length prefix and `MaxLen` keys. */
  const InitSpace: nat := 1 + 4 + MaxLen * PubkeyLen

  /** `space = 8 + Securedraw::INIT_SPACE`: what `initialize` allocates. */
  const AccountSpace: nat := DiscriminatorLen + InitSpace

  /** The data of one `Securedraw` account. */
  datatype DrawAccount = DrawAccount(count: u8, nuser: seq<Pubkey>)

  type Accounts = map<Pubkey, DrawAccount>

  /** The length of the account's Borsh serialization, discriminator included. */
  function SerializedLen(acc: DrawAccount): nat {
    DiscriminatorLen + 1 + 4 + PubkeyLen * |acc.nuser|
  }

  /** Whether the account's data fits the space `initialize` allocated. */
  predicate Fits(acc: DrawAccount) {
    SerializedLen(acc) <= AccountSpace
  }

  /** Every account on the ledger fits its space. */
  ghost predicate AllFit(accounts: Accounts) {
    forall a :: a in accounts ==> Fits(accounts[a])
  }

  /**
   * One instruction, with the address of the account it works on.
   * `Increment` carries the handler's unused `nuser: u8` argument as
   * `requested`, and `entropy`, the first byte of the SHA-256 hash of the
   * clock's Unix timestamp.
   */
  datatype Instruction =
    | Initialize(account: Pubkey)
    | Set(account: Pubkey, participants: seq<Pubkey>)
    | Increment(account: Pubkey, requested: u8, entropy: u8)
    | Decrement(account: Pubkey)
    | Close(account: Pubkey)

  /**
   * One instruction on the ledger: the new accounts, or why it aborted.
   * Only the named account changes, and the drawn index lies inside the list.
   */
  function Execute(accounts: Accounts, ix: Instruction): (r: Result<Accounts, Abort>)
    ensures r.Ok? ==> r.value - {ix.account} == accounts - {ix.account}
    ensures r.Ok? && ix.Increment? ==>
      ix.account in r.value && r.value[ix.account].count as int < |r.value[ix.account].nuser|
  {
    match ix
    case Initialize(a) =>
      if a in accounts then Err(AccountAlreadyInUse) else Ok(accounts[a := DrawAccount(0, [])])
    case Set(a, list) =>
      if a !in accounts then Err(AccountNotInitialized)
      else
        var updated := accounts[a].(nuser := list);
        if Fits(updated) then Ok(accounts[a := updated]) else Err(AccountDidNotSerialize)
    case Increment(a, _, entropy) =>
      if a !in accounts then Err(AccountNotInitialized)
      else
        // `nuser.len() as u8` keeps the low eight bits of the length
        var len := (|accounts[a].nuser| % 256) as u8;
        if len == 0 then Err(RemainderByZero)
        else Ok(accounts[a := accounts[a].(count := entropy % len)])
    case Decrement(a) =>
      if a !in accounts then Err(AccountNotInitialized)
      else (match CheckedSub(accounts[a].count, 1)
        case Some(c) => Ok(accounts[a := accounts[a].(count := c)])
        case None => Err(UnwrapOnNone))
    case Close(a) =>
      if a !in accounts then Err(AccountNotInitialized) else Ok(accounts - {a})
  }

  // `Transact` and `Run` are the counter program's rules for transactions,
  // applied to this program's accounts and instructions.

  /** One transaction holding one instruction: its status and the ledger after it. */
  function Transact(accounts: Accounts, ix: Instruction): (Status, Accounts) {
    Settle(accounts, Execute(accounts, ix))
  }

  /** A series of transactions, each applied to the ledger the previous one left. */
  function Run(accounts: Accounts, txs: seq<Instruction>): Accounts
    decreases |txs|
  {
    if txs == [] then accounts else Run(Transact(accounts, txs[0]).1, txs[1..])
  }

  /** The ledger of the program's accounts; each instruction updates it in place. */
  class DrawLedger {
    var accounts: Accounts

    ghost predicate Valid()
      reads this
    {
      AllFit(accounts)
    }

    constructor ()
      ensures Valid() && accounts == map[]
    {
      accounts := map[];
    }

    /** What `program.account.securedraw.fetchNullable(address)` returns. */
    function FetchNullable(account: Pubkey): Option<DrawAccount>
      reads this
    {
      if account in accounts then Some(accounts[account]) else None
    }

    method Initialize(account: Pubkey) returns (status: Status)
      requires Valid()
      modifies this
      ensures Valid()
      ensures (status, accounts) == Transact(old(accounts), Instruction.Initialize(account))
    {
      if account in accounts {
        return Aborted(AccountAlreadyInUse);
      }
      accounts := accounts[account := DrawAccount(0, [])];
      return Committed;
    }

    method Set(account: Pubkey, nuser: seq<Pubkey>) returns (status: Status)
      requires Valid()
      modifies this
      ensures Valid()
      ensures (status, accounts) == Transact(old(accounts), Instruction.Set(account, nuser))
    {
      if account !in accounts {
        return Aborted(AccountNotInitialized);
      }
      var updated := accounts[account].(nuser := nuser);
      if !Fits(updated) {
        return Aborted(AccountDidNotSerialize);
      }
      accounts := accounts[account := updated];
      return Committed;
    }

    method Increment(account: Pubkey, requested: u8, entropy: u8) returns (status: Status)
      requires Valid()
      modifies this
      ensures Valid()
      ensures (status, accounts) == Transact(old(accounts), Instruction.Increment(account, requested, entropy))
    {
      if account !in accounts {
        return Aborted(AccountNotInitialized);
      }
      var len := (|accounts[account].nuser| % 256) as u8;
      if len == 0 {
        return Aborted(RemainderByZero);
      }
      var randomNumber := entropy % len;
      accounts := accounts[account := accounts[account].(count := randomNumber)];
      return Committed;
    }

    method Decrement(account: Pubkey) returns (status: Status)
      requires Valid()
      modifies this
      ensures Valid()
      ensures (status, accounts) == Transact(old(accounts), Instruction.Decrement(account))
    {
      if account !in accounts {
        return Aborted(AccountNotInitialized);
      }
      var next := CheckedSub(accounts[account].count, 1);
      if next.None? {
        return Aborted(UnwrapOnNone);
      }
      accounts := accounts[account := accounts[account].(count := next.value)];
      return Committed;
    }

    method Close(account: Pubkey) returns (status: Status)
      requires Valid()
      modifies this
      ensures Valid()
      ensures (status, accounts) == Transact(old(accounts), Instruction.Close(account))
    {
      if account !in accounts {
        return Aborted(AccountNotInitialized);
      }
      accounts := accounts - {account};
      return Committed;
    }
  }

  /**
   * A draw on a fresh account: initialize, set the participants, increment.
   * The draw commits exactly when the list is non-empty and within `MaxLen`,
   * and then the stored index names one of the participants. `requested` is
   * the handler's `nuser: u8` argument, which it ignores (`DrawIgnoresRequested`).
   */
  method DrawOnce(key: Pubkey, participants: seq<Pubkey>, requested: u8, entropy: u8)
    returns (status: Status, winner: Option<Pubkey>)
    ensures status == Committed <==> 0 < |participants| <= MaxLen
    ensures status == Committed <==> winner.Some?
    ensures winner.Some? ==> winner.value in participants
  {
    var ledger := new DrawLedger();
    status := ledger.Initialize(key);
    status := ledger.Set(key, participants);
    if status != Committed {
      return status, None;
    }
    status := ledger.Increment(key, requested, entropy);
    if status != Committed {
      return status, None;
    }
    var fetched := ledger.FetchNullable(key);
    winner := Some(fetched.value.nuser[fetched.value.count]);
  }

  /** The allocated space holds exactly the lists of at most `MaxLen` keys. */
  lemma FitsIffWithinMaxLen(acc: DrawAccount)
    ensures Fits(acc) <==> |acc.nuser| <= MaxLen
  {
  }

  /**
   * `set` stores the given list, in order, and keeps the count; a list longer
   * than `MaxLen` does not fit the account, and the ledger is unchanged.
   */
  lemma SetStoresList(accounts: Accounts, a: Pubkey, list: seq<Pubkey>)
    requires a in accounts
    ensures |list| <= MaxLen ==>
      Execute(accounts, Set(a, list)) == Ok(accounts[a := DrawAccount(accounts[a].count, list)])
    ensures |list| > MaxLen ==>
      Transact(accounts, Set(a, list)) == (Aborted(AccountDidNotSerialize), accounts)
  {
  }

  /**
   * `increment` with a non-empty list stores `entropy % len` and keeps the
   * list; the `requested` argument plays no part.
   */
  lemma DrawPicksParticipant(accounts: Accounts, a: Pubkey, requested: u8, entropy: u8)
    requires a in accounts && Fits(accounts[a]) && accounts[a].nuser != []
    ensures Execute(accounts, Increment(a, requested, entropy))
         == Ok(accounts[a := DrawAccount((entropy as int % |accounts[a].nuser|) as u8, accounts[a].nuser)])
  {
  }

  /** `increment` with an empty list divides by zero: it aborts, and the ledger is unchanged. */
  lemma DrawOnEmptyListAborts(accounts: Accounts, a: Pubkey, requested: u8, entropy: u8)
    requires a in accounts && accounts[a].nuser == []
    ensures Transact(accounts, Increment(a, requested, entropy)) == (Aborted(RemainderByZero), accounts)
  {
  }

  /** The result of `increment` does not depend on its `nuser: u8` argument. */
  lemma DrawIgnoresRequested(accounts: Accounts, a: Pubkey, r1: u8, r2: u8, entropy: u8)
    ensures Execute(accounts, Increment(a, r1, entropy)) == Execute(accounts, Increment(a, r2, entropy))
  {
  }

  /** `decrement` subtracts one and keeps the list; at 0 it aborts. */
  lemma DecrementSubtractsOne(accounts: Accounts, a: Pubkey)
    requires a in accounts
    ensures accounts[a].count > 0 ==>
      Execute(accounts, Decrement(a)) == Ok(accounts[a := accounts[a].(count := accounts[a].count - 1)])
    ensures accounts[a].count == 0 ==>
      Transact(accounts, Decrement(a)) == (Aborted(UnwrapOnNone), accounts)
  {
  }

  /** `close` removes the account, and `initialize` creates it with count 0 and no participants. */
  lemma InitializeAndClose(accounts: Accounts, a: Pubkey)
    ensures a !in accounts ==> Execute(accounts, Initialize(a)) == Ok(accounts[a := DrawAccount(0, [])])
    ensures a in accounts ==> Execute(accounts, Close(a)) == Ok(accounts - {a})
    ensures a !in accounts ==> Transact(accounts, Close(a)) == (Aborted(AccountNotInitialized), accounts)
  {
  }

  /** Every transaction keeps every account within its allocated space. */
  lemma TransactKeepsFit(accounts: Accounts, ix: Instruction)
    requires AllFit(accounts)
    ensures AllFit(Transact(accounts, ix).1)
  {
    var after := Transact(accounts, ix).1;
    forall b | b in after
      ensures Fits(after[b])
    {
      if b != ix.account {
        assert b in after - {ix.account};
      }
    }
  }

  /** No series of transactions lets a participant list grow past `MaxLen`. */
  lemma {:induction false} RunKeepsWithinMaxLen(accounts: Accounts, txs: seq<Instruction>)
    requires AllFit(accounts)
    ensures forall b :: b in Run(accounts, txs) ==> |Run(accounts, txs)[b].nuser| <= MaxLen
    decreases |txs|
  {
    if txs == [] {
      forall b | b in accounts
        ensures |accounts[b].nuser| <= MaxLen
      {
        FitsIffWithinMaxLen(accounts[b]);
      }
    } else {
      TransactKeepsFit(accounts, txs[0]);
      RunKeepsWithinMaxLen(Transact(accounts, txs[0]).1, txs[1..]);
    }
  }
}
