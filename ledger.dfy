/** The presale state machine on values: the whole observable state of one
    sale, its invariant, and one function per instruction of
    `neurolov_presale` (programs/nlov/src/lib.rs:8-208). Each function returns
    the complete next state or the error that aborts the transaction; the host
    commits nothing on an error, which `Next` expresses. */
module Ledger {
  import opened PresaleTypes
  import opened Custody

  /** `presale` is None until `initialize` has created the account. `users`
      holds the UserInfo accounts that exist; `nativeVault` is the account
      that collects contributions and pays withdrawals. */
  datatype State = State(
    presale: Option<Presale>,
    users: map<Pubkey, UserInfo>,
    nativeVault: Pubkey,
    lamports: Balances,
    tokens: Balances)

  /** State after an instruction: the new state on success, the old one on error. */
  function Next(s: State, r: Result<State>): State {
    if r.Ok? then r.value else s
  }

  /** What the instruction itself returns to its caller. */
  function Status(r: Result<State>): Result<()> {
    if r.Ok? then Ok(()) else Err(r.error)
  }

  // ---------------------------------------------------------------------------
  // Sum of contributions over the user accounts

  /** Sum of `amount_contributed` over the accounts named in `keys`. */
  ghost function SumOver(users: map<Pubkey, UserInfo>, keys: set<Pubkey>): int
    requires keys <= users.Keys
    decreases keys
  {
    if keys == {} then 0
    else
      var k :| k in keys;
      users[k].amountContributed + SumOver(users, keys - {k})
  }

  ghost function TotalContributed(users: map<Pubkey, UserInfo>): int {
    SumOver(users, users.Keys)
  }

  /** Any key can be taken out of the sum first, whichever one the definition picks. */
  lemma {:induction false} SumOverRemove(users: map<Pubkey, UserInfo>, keys: set<Pubkey>, k: Pubkey)
    requires keys <= users.Keys && k in keys
    ensures SumOver(users, keys) == users[k].amountContributed + SumOver(users, keys - {k})
    decreases keys
  {
    var j :| j in keys && SumOver(users, keys) == users[j].amountContributed + SumOver(users, keys - {j});
    if j != k {
      SumOverRemove(users, keys - {j}, k);
      SumOverRemove(users, keys - {k}, j);
      assert keys - {j} - {k} == keys - {k} - {j};
    }
  }

  /** The sum only depends on the contributions of the keys summed. */
  lemma {:induction false} SumOverFrame(u1: map<Pubkey, UserInfo>, u2: map<Pubkey, UserInfo>, keys: set<Pubkey>)
    requires keys <= u1.Keys && keys <= u2.Keys
    requires forall k :: k in keys ==> u1[k].amountContributed == u2[k].amountContributed
    ensures SumOver(u1, keys) == SumOver(u2, keys)
    decreases keys
  {
    if keys != {} {
      var k :| k in keys;
      SumOverRemove(u1, keys, k);
      SumOverRemove(u2, keys, k);
      SumOverFrame(u1, u2, keys - {k});
    }
  }

  /** No single account holds more than the sum. */
  lemma {:induction false} SumOverBound(users: map<Pubkey, UserInfo>, keys: set<Pubkey>, k: Pubkey)
    requires keys <= users.Keys && k in keys
    ensures users[k].amountContributed <= SumOver(users, keys)
    decreases keys
  {
    SumOverRemove(users, keys, k);
    SumOverNonNegative(users, keys - {k});
  }

  lemma {:induction false} SumOverNonNegative(users: map<Pubkey, UserInfo>, keys: set<Pubkey>)
    requires keys <= users.Keys
    ensures SumOver(users, keys) >= 0
    decreases keys
  {
    if keys != {} {
      var k :| k in keys;
      SumOverRemove(users, keys, k);
      SumOverNonNegative(users, keys - {k});
    }
  }

  /** Writing one account changes the total by the change of that account. */
  lemma TotalAfterUpdate(users: map<Pubkey, UserInfo>, k: Pubkey, v: UserInfo)
    ensures TotalContributed(users[k := v]) ==
      TotalContributed(users) - (if k in users then users[k].amountContributed else 0) + v.amountContributed
  {
    var u := users[k := v];
    var rest := users.Keys - {k};
    assert u.Keys - {k} == rest;
    SumOverRemove(u, u.Keys, k);
    SumOverFrame(u, users, rest);
    if k in users {
      SumOverRemove(users, users.Keys, k);
    } else {
      assert users.Keys == rest;
    }
  }

  /** An account's contribution never exceeds the total of all accounts. */
  lemma ContributionWithinTotal(users: map<Pubkey, UserInfo>, k: Pubkey)
    requires k in users
    ensures users[k].amountContributed <= TotalContributed(users)
  {
    SumOverBound(users, users.Keys, k);
  }

  // ---------------------------------------------------------------------------
  // Invariant

  /** Accounting invariant kept by every instruction: the sale window is
      well formed and its cliff derived from it; what was sold never exceeds
      the supply and equals the sum over the user accounts; no user claimed
      more than they bought; each user account records its own key. */
  ghost predicate Valid(s: State) {
    && (s.presale.None? ==> s.users == map[])
    && (s.presale.Some? ==>
          var p := s.presale.value;
          && p.startTime < p.endTime
          && p.publicSaleEndTime == p.endTime + CLAIM_DELAY
          && p.totalContributed <= p.presaleSupply
          && p.totalContributed == TotalContributed(s.users))
    && forall k :: k in s.users ==>
         s.users[k].user == k && s.users[k].amountClaimed <= s.users[k].amountContributed
  }

  // ---------------------------------------------------------------------------
  // Instructions

  /** `initialize`: creates the sale account and moves the whole supply from
      the owner's token account into the sale's token vault. */
  function Initialize(s: State, caller: Pubkey, startTime: i64, endTime: i64, tokenAmount: u64,
                      tokenPrice: u64, tokenMint: Pubkey, ownerTokenAccount: Pubkey,
                      presaleTokenAccount: Pubkey): Result<State>
  {
    if s.presale.Some? then Err(AccountAlreadyInUse)
    else if startTime >= endTime then Err(Program(InvalidTimeRange))
    else if endTime + CLAIM_DELAY > I64_MAX then Err(ArithmeticOverflow)
    else
      var p := Presale(
        startTime := startTime,
        endTime := endTime,
        publicSaleEndTime := endTime + CLAIM_DELAY,
        tokenMint := tokenMint,
        presaleTokenAccount := presaleTokenAccount,
        presaleSupply := tokenAmount,
        tokenPrice := tokenPrice,
        totalContributed := 0,
        isActive := true,
        isPaused := false,
        owner := caller);
      match Transfer(s.tokens, ownerTokenAccount, presaleTokenAccount, tokenAmount)
      case None => Err(TransferFailed)
      case Some(tokens) => Ok(s.(presale := Some(p), tokens := tokens))
  }

  /** The UserInfo account of `user`, or the zeroed account that
      `init_if_needed` creates on a first contribution. */
  function UserOrNew(users: map<Pubkey, UserInfo>, user: Pubkey): UserInfo {
    if user in users then users[user] else UserInfo(0, 0, 0)
  }

  /** `contribute`: buys `amount * 25` token units with `amount` lamports. */
  function Contribute(s: State, caller: Pubkey, amount: u64, now: i64): Result<State>
    requires Valid(s)
  {
    if s.presale.None? then Err(AccountNotInitialized)
    else
      var p := s.presale.value;
      if p.isPaused then Err(Program(PresalePaused))
      else if !(now >= p.startTime && now <= p.endTime) then Err(Program(PresaleNotActive))
      else if amount * FIXED_RATE > U64_MAX then Err(Program(CalculationError))
      else
        var nlovAmount := amount * FIXED_RATE;
        if !(nlovAmount >= 1 && nlovAmount <= p.presaleSupply - p.totalContributed) then
          Err(Program(InvalidAmount))
        else
          match Transfer(s.lamports, caller, s.nativeVault, amount)
          case None => Err(TransferFailed)
          case Some(lamports) =>
            var info := UserOrNew(s.users, caller);
            assert info.amountContributed <= p.totalContributed by {
              if caller in s.users { ContributionWithinTotal(s.users, caller); }
            }
            Ok(s.(presale := Some(p.(totalContributed := p.totalContributed + nlovAmount)),
                  users := s.users[caller := UserInfo(caller, info.amountContributed + nlovAmount, info.amountClaimed)],
                  lamports := lamports))
  }

  /** `claim_tokens`: pays out everything the caller bought and has not yet
      claimed, from the sale's token vault to `destination`. */
  function ClaimTokens(s: State, caller: Pubkey, destination: Pubkey, now: i64): Result<State>
    requires Valid(s)
  {
    if s.presale.None? || caller !in s.users then Err(AccountNotInitialized)
    else
      var p := s.presale.value;
      var info := s.users[caller];
      if p.isPaused then Err(Program(PresalePaused))
      else if !(now > p.publicSaleEndTime) then Err(Program(ClaimingNotAvailable))
      else
        var amountToClaim := info.amountContributed - info.amountClaimed;
        if !(amountToClaim > 0) then Err(Program(NothingToClaim))
        else
          match Transfer(s.tokens, p.presaleTokenAccount, destination, amountToClaim)
          case None => Err(TransferFailed)
          case Some(tokens) =>
            Ok(s.(users := s.users[caller := info.(amountClaimed := info.amountClaimed + amountToClaim)],
                  tokens := tokens))
  }

  /** `pause`: the owner stops contributions and claims. */
  function Pause(s: State, caller: Pubkey): Result<State> {
    if s.presale.None? then Err(AccountNotInitialized)
    else
      var p := s.presale.value;
      if p.owner != caller then Err(Program(Unauthorized))
      else if p.isPaused then Err(Program(AlreadyPaused))
      else Ok(s.(presale := Some(p.(isPaused := true))))
  }

  /** `unpause`: the owner lifts a pause. */
  function Unpause(s: State, caller: Pubkey): Result<State> {
    if s.presale.None? then Err(AccountNotInitialized)
    else
      var p := s.presale.value;
      if p.owner != caller then Err(Program(Unauthorized))
      else if !p.isPaused then Err(Program(NotPaused))
      else Ok(s.(presale := Some(p.(isPaused := false))))
  }

  /** `finalize_presale`: the owner closes the sale once its window is over. */
  function FinalizePresale(s: State, caller: Pubkey, now: i64): Result<State> {
    if s.presale.None? then Err(AccountNotInitialized)
    else
      var p := s.presale.value;
      if p.owner != caller then Err(Program(Unauthorized))
      else if !p.isActive then Err(Program(PresaleAlreadyFinalized))
      else if !(now > p.endTime) then Err(Program(PresaleStillActive))
      else Ok(s.(presale := Some(p.(isActive := false))))
  }

  /** `withdraw`: the owner takes collected lamports out of the native vault
      after finalization. */
  function Withdraw(s: State, caller: Pubkey, amount: u64): Result<State> {
    if s.presale.None? then Err(AccountNotInitialized)
    else
      var p := s.presale.value;
      if p.owner != caller then Err(Program(Unauthorized))
      else if p.isActive then Err(Program(PresaleStillActive))
      else if !(amount <= Balance(s.lamports, s.nativeVault)) then Err(Program(InsufficientFunds))
      else
        match Transfer(s.lamports, s.nativeVault, caller, amount)
        case None => Err(ArithmeticOverflow)
        case Some(lamports) => Ok(s.(lamports := lamports))
  }
}
