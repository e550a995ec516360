/** The presale program as it runs: the sale account, the user accounts and
    the balances the host keeps, updated in place by one method per
    instruction (programs/nlov/src/lib.rs:8-208). Each method returns what the
    instruction returns and leaves exactly the state that `Ledger` prescribes;
    on an error nothing it wrote survives, as the host discards a failed
    transaction. */
module NeurolovPresale {
  import opened PresaleTypes
  import opened Custody
  import Ledger
  import LedgerProperties

  class PresaleProgram {
    /** Whether the sale account exists. */
    var initialized: bool
    /** The data of the sale account, meaningful once it exists. */
    var presale: Presale
    /** The UserInfo accounts that exist, keyed by participant. */
    var users: map<Pubkey, UserInfo>
    /** The account that collects contributions. */
    const nativeVault: Pubkey
    var lamports: Balances
    var tokens: Balances

    /** The whole observable state. */
    ghost function Abs(): Ledger.State
      reads this
    {
      Ledger.State(if initialized then Some(presale) else None, users, nativeVault, lamports, tokens)
    }

    ghost predicate Valid()
      reads this
    {
      Ledger.Valid(Abs())
    }

    /** The chain before `initialize`: no sale account, no user accounts, the
        given balances. */
    constructor (nativeVault: Pubkey, lamports: Balances, tokens: Balances)
      ensures Valid()
      ensures Abs() == Ledger.State(None, map[], nativeVault, lamports, tokens)
    {
      this.nativeVault := nativeVault;
      this.lamports := lamports;
      this.tokens := tokens;
      users := map[];
      initialized := false;
      presale := Presale(0, 0, 0, 0, 0, 0, 0, 0, false, false, 0);
    }

    method Initialize(caller: Pubkey, startTime: i64, endTime: i64, tokenAmount: u64, tokenPrice: u64,
                      tokenMint: Pubkey, ownerTokenAccount: Pubkey, presaleTokenAccount: Pubkey)
      returns (r: Result<()>)
      requires Valid()
      modifies this`initialized, this`presale, this`tokens
      ensures Valid()
      ensures var o := Ledger.Initialize(old(Abs()), caller, startTime, endTime, tokenAmount, tokenPrice,
                                         tokenMint, ownerTokenAccount, presaleTokenAccount);
        r == Ledger.Status(o) && Abs() == Ledger.Next(old(Abs()), o)
    {
      if initialized {
        return Err(AccountAlreadyInUse);
      }
      if startTime >= endTime {
        return Err(Program(InvalidTimeRange));
      }
      if endTime + CLAIM_DELAY > I64_MAX {
        return Err(ArithmeticOverflow);
      }
      presale := Presale(
        startTime := startTime,
        endTime := endTime,
        publicSaleEndTime := endTime + CLAIM_DELAY,
        tokenMint := tokenMint,
        presaleTokenAccount := presaleTokenAccount,
        presaleSupply := tokenAmount,
        tokenPrice := tokenPrice,
        totalContributed := 0,
        isActive := true,
        isPaused := false,
        owner := caller);
      var moved := Transfer(tokens, ownerTokenAccount, presaleTokenAccount, tokenAmount);
      if moved.None? {
        return Err(TransferFailed);
      }
      tokens := moved.value;
      initialized := true;
      r := Ok(());
      assert Ledger.TotalContributed(users) == 0;
    }

    method Contribute(caller: Pubkey, amount: u64, now: i64) returns (r: Result<()>)
      requires Valid()
      modifies this`presale, this`users, this`lamports
      ensures Valid()
      ensures var o := Ledger.Contribute(old(Abs()), caller, amount, now);
        r == Ledger.Status(o) && Abs() == Ledger.Next(old(Abs()), o)
    {
      if !initialized {
        return Err(AccountNotInitialized);
      }
      if presale.isPaused {
        return Err(Program(PresalePaused));
      }
      if !(now >= presale.startTime && now <= presale.endTime) {
        return Err(Program(PresaleNotActive));
      }
      if amount * FIXED_RATE > U64_MAX {
        return Err(Program(CalculationError));
      }
      var nlovAmount := amount * FIXED_RATE;
      if !(nlovAmount >= 1 && nlovAmount <= presale.presaleSupply - presale.totalContributed) {
        return Err(Program(InvalidAmount));
      }
      ghost var s := Abs();
      // The program raises the total before it transfers; a failed transfer
      // aborts the transaction and the host discards that write.
      var totalBefore := presale.totalContributed;
      presale := presale.(totalContributed := presale.totalContributed + nlovAmount);
      var moved := Transfer(lamports, caller, nativeVault, amount);
      if moved.None? {
        presale := presale.(totalContributed := totalBefore);
        return Err(TransferFailed);
      }
      lamports := moved.value;
      var info := Ledger.UserOrNew(users, caller);
      if caller in users {
        Ledger.ContributionWithinTotal(users, caller);
      }
      users := users[caller := UserInfo(caller, info.amountContributed + nlovAmount, info.amountClaimed)];
      r := Ok(());
      LedgerProperties.ContributeEffect(s, caller, amount, now);
    }

    method ClaimTokens(caller: Pubkey, destination: Pubkey, now: i64) returns (r: Result<()>)
      requires Valid()
      modifies this`users, this`tokens
      ensures Valid()
      ensures var o := Ledger.ClaimTokens(old(Abs()), caller, destination, now);
        r == Ledger.Status(o) && Abs() == Ledger.Next(old(Abs()), o)
    {
      if !initialized || caller !in users {
        return Err(AccountNotInitialized);
      }
      if presale.isPaused {
        return Err(Program(PresalePaused));
      }
      var info := users[caller];
      if !(now > presale.publicSaleEndTime) {
        return Err(Program(ClaimingNotAvailable));
      }
      var amountToClaim := info.amountContributed - info.amountClaimed;
      if !(amountToClaim > 0) {
        return Err(Program(NothingToClaim));
      }
      ghost var s := Abs();
      var moved := Transfer(tokens, presale.presaleTokenAccount, destination, amountToClaim);
      if moved.None? {
        return Err(TransferFailed);
      }
      tokens := moved.value;
      users := users[caller := info.(amountClaimed := info.amountClaimed + amountToClaim)];
      r := Ok(());
      LedgerProperties.ClaimTokensResult(s, caller, destination, now);
    }

    method Pause(caller: Pubkey) returns (r: Result<()>)
      requires Valid()
      modifies this`presale
      ensures Valid()
      ensures var o := Ledger.Pause(old(Abs()), caller);
        r == Ledger.Status(o) && Abs() == Ledger.Next(old(Abs()), o)
    {
      if !initialized {
        return Err(AccountNotInitialized);
      }
      if presale.owner != caller {
        return Err(Program(Unauthorized));
      }
      if presale.isPaused {
        return Err(Program(AlreadyPaused));
      }
      presale := presale.(isPaused := true);
      r := Ok(());
    }

    method Unpause(caller: Pubkey) returns (r: Result<()>)
      requires Valid()
      modifies this`presale
      ensures Valid()
      ensures var o := Ledger.Unpause(old(Abs()), caller);
        r == Ledger.Status(o) && Abs() == Ledger.Next(old(Abs()), o)
    {
      if !initialized {
        return Err(AccountNotInitialized);
      }
      if presale.owner != caller {
        return Err(Program(Unauthorized));
      }
      if !presale.isPaused {
        return Err(Program(NotPaused));
      }
      presale := presale.(isPaused := false);
      r := Ok(());
    }

    method FinalizePresale(caller: Pubkey, now: i64) returns (r: Result<()>)
      requires Valid()
      modifies this`presale
      ensures Valid()
      ensures var o := Ledger.FinalizePresale(old(Abs()), caller, now);
        r == Ledger.Status(o) && Abs() == Ledger.Next(old(Abs()), o)
    {
      if !initialized {
        return Err(AccountNotInitialized);
      }
      if presale.owner != caller {
        return Err(Program(Unauthorized));
      }
      if !presale.isActive {
        return Err(Program(PresaleAlreadyFinalized));
      }
      if !(now > presale.endTime) {
        return Err(Program(PresaleStillActive));
      }
      presale := presale.(isActive := false);
      r := Ok(());
    }

    /** Only the balances change: the sale account is read, never written. */
    method Withdraw(caller: Pubkey, amount: u64) returns (r: Result<()>)
      requires Valid()
      modifies this`lamports
      ensures Valid()
      ensures var o := Ledger.Withdraw(old(Abs()), caller, amount);
        r == Ledger.Status(o) && Abs() == Ledger.Next(old(Abs()), o)
    {
      if !initialized {
        return Err(AccountNotInitialized);
      }
      if presale.owner != caller {
        return Err(Program(Unauthorized));
      }
      if presale.isActive {
        return Err(Program(PresaleStillActive));
      }
      if !(amount <= Balance(lamports, nativeVault)) {
        return Err(Program(InsufficientFunds));
      }
      var moved := Transfer(lamports, nativeVault, caller, amount);
      if moved.None? {
        return Err(ArithmeticOverflow);
      }
      lamports := moved.value;
      r := Ok(());
    }
  }
}
