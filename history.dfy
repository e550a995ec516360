/** Sequences of instructions: every transaction either commits the next state
    of its instruction or leaves the state as it was. What holds after any such
    history: the invariant, the fixed terms of the sale, monotone accounting
    and the one-way finalization. */
module History {
  import opened PresaleTypes
  import opened Custody
  import Ledger
  import opened LedgerProperties

  /** One instruction of `neurolov_presale` with its caller, its arguments and,
      where the program reads the clock, the time it runs at. */
  datatype Instruction =
    | Initialize(caller: Pubkey, startTime: i64, endTime: i64, tokenAmount: u64, tokenPrice: u64,
                 tokenMint: Pubkey, ownerTokenAccount: Pubkey, presaleTokenAccount: Pubkey)
    | Contribute(caller: Pubkey, amount: u64, now: i64)
    | ClaimTokens(caller: Pubkey, destination: Pubkey, now: i64)
    | Pause(caller: Pubkey)
    | Unpause(caller: Pubkey)
    | FinalizePresale(caller: Pubkey, now: i64)
    | Withdraw(caller: Pubkey, amount: u64)

  function Apply(s: Ledger.State, ix: Instruction): Result<Ledger.State>
    requires Ledger.Valid(s)
  {
    match ix
    case Initialize(c, st, et, amt, price, mint, from, vault) =>
      Ledger.Initialize(s, c, st, et, amt, price, mint, from, vault)
    case Contribute(c, amt, now) => Ledger.Contribute(s, c, amt, now)
    case ClaimTokens(c, dest, now) => Ledger.ClaimTokens(s, c, dest, now)
    case Pause(c) => Ledger.Pause(s, c)
    case Unpause(c) => Ledger.Unpause(s, c)
    case FinalizePresale(c, now) => Ledger.FinalizePresale(s, c, now)
    case Withdraw(c, amt) => Ledger.Withdraw(s, c, amt)
  }

  /** Every instruction, committed or rejected, keeps the invariant. */
  lemma ApplyPreservesValid(s: Ledger.State, ix: Instruction)
    requires Ledger.Valid(s)
    ensures Ledger.Valid(Ledger.Next(s, Apply(s, ix)))
  {
    if Apply(s, ix).Ok? {
      match ix
      case Initialize(c, st, et, amt, price, mint, from, vault) =>
        InitializeResult(s, c, st, et, amt, price, mint, from, vault);
      case Contribute(c, amt, now) => ContributeEffect(s, c, amt, now);
      case ClaimTokens(c, dest, now) => ClaimTokensResult(s, c, dest, now);
      case Pause(c) => PauseResult(s, c);
      case Unpause(c) => UnpauseResult(s, c);
      case FinalizePresale(c, now) => FinalizePresaleResult(s, c, now);
      case Withdraw(c, amt) => WithdrawResult(s, c, amt);
    }
  }

  /** `ExceedsPresaleSupply` is declared but no instruction ever returns it. */
  lemma ExceedsPresaleSupplyNeverRaised(s: Ledger.State, ix: Instruction)
    requires Ledger.Valid(s)
    ensures Apply(s, ix) != Err(Program(ExceedsPresaleSupply))
  {
  }

  /** The state after running `ixs` in order from `s`; the invariant holds at the end. */
  function Run(s: Ledger.State, ixs: seq<Instruction>): (r: Ledger.State)
    requires Ledger.Valid(s)
    ensures Ledger.Valid(r)
    decreases |ixs|
  {
    if ixs == [] then s
    else
      ApplyPreservesValid(s, ixs[0]);
      Run(Ledger.Next(s, Apply(s, ixs[0])), ixs[1..])
  }

  /** The terms fixed when the sale is created. */
  ghost predicate SameTerms(p: Presale, q: Presale) {
    && p.startTime == q.startTime && p.endTime == q.endTime
    && p.publicSaleEndTime == q.publicSaleEndTime
    && p.tokenMint == q.tokenMint && p.presaleTokenAccount == q.presaleTokenAccount
    && p.presaleSupply == q.presaleSupply && p.tokenPrice == q.tokenPrice && p.owner == q.owner
  }

  /** How a later state `t` may differ from an earlier `s`: an existing sale
      keeps its terms, a finalized sale stays finalized and the sold total
      only grows; user accounts are never removed and what each one bought
      and claimed only grows. */
  ghost predicate Evolves(s: Ledger.State, t: Ledger.State) {
    && s.nativeVault == t.nativeVault
    && (s.presale.Some? ==>
          && t.presale.Some?
          && SameTerms(s.presale.value, t.presale.value)
          && (!s.presale.value.isActive ==> !t.presale.value.isActive)
          && s.presale.value.totalContributed <= t.presale.value.totalContributed)
    && forall k :: k in s.users ==>
         && k in t.users
         && s.users[k].amountContributed <= t.users[k].amountContributed
         && s.users[k].amountClaimed <= t.users[k].amountClaimed
  }

  /** One instruction, committed or rolled back, is such a step. */
  lemma ApplyEvolves(s: Ledger.State, ix: Instruction)
    requires Ledger.Valid(s)
    ensures Evolves(s, Ledger.Next(s, Apply(s, ix)))
  {
  }

  /** Over any history the terms stay fixed, finalization is never undone,
      and every counter only grows. */
  lemma {:induction false} RunEvolves(s: Ledger.State, ixs: seq<Instruction>)
    requires Ledger.Valid(s)
    ensures Evolves(s, Run(s, ixs))
    decreases |ixs|
  {
    if ixs != [] {
      var s1 := Ledger.Next(s, Apply(s, ixs[0]));
      ApplyEvolves(s, ixs[0]);
      ApplyPreservesValid(s, ixs[0]);
      RunEvolves(s1, ixs[1..]);
    }
  }

  /** Once `is_active` is false no history makes it true again. */
  lemma FinalizedStaysFinalized(s: Ledger.State, ixs: seq<Instruction>)
    requires Ledger.Valid(s) && s.presale.Some? && !s.presale.value.isActive
    ensures var t := Run(s, ixs);
      t.presale.Some? && !t.presale.value.isActive
  {
    RunEvolves(s, ixs);
  }

  /** After a successful finalization at time `t`, whatever happens next, a
      contribution at any time not before `t` is rejected: the window check
      fails (or, on a paused sale, the pause check before it). */
  lemma ContributeAfterFinalizeFails(s: Ledger.State, owner: Pubkey, t: i64, ixs: seq<Instruction>,
                                     caller: Pubkey, amount: u64, now: i64)
    requires Ledger.Valid(s)
    requires Ledger.FinalizePresale(s, owner, t).Ok?
    requires now >= t
    ensures var s1 := Ledger.FinalizePresale(s, owner, t).value;
            Ledger.Valid(s1) &&
            var r := Ledger.Contribute(Run(s1, ixs), caller, amount, now);
            r == Err(Program(PresalePaused)) || r == Err(Program(PresaleNotActive))
  {
    FinalizePresaleResult(s, owner, t);
    var s1 := Ledger.FinalizePresale(s, owner, t).value;
    RunEvolves(s1, ixs);
  }
}
