/** What each instruction of the presale promises, one lemma per instruction
    (its error cases in the order the program checks them, and the complete
    effect of a success), plus the invariant it preserves. */
module LedgerProperties {
  import opened PresaleTypes
  import opened Custody
  import opened Ledger

  /** `initialize` rejects an empty or inverted window; on success the sale
      starts active, unpaused and empty, with its cliff three weeks after the
      window, and exactly the supply has moved into the token vault. */
  lemma InitializeResult(s: State, caller: Pubkey, startTime: i64, endTime: i64, tokenAmount: u64,
                         tokenPrice: u64, tokenMint: Pubkey, ownerTokenAccount: Pubkey,
                         presaleTokenAccount: Pubkey)
    requires Valid(s)
    ensures var r := Initialize(s, caller, startTime, endTime, tokenAmount, tokenPrice, tokenMint,
                                ownerTokenAccount, presaleTokenAccount);
      && (s.presale.None? && startTime >= endTime ==> r == Err(Program(InvalidTimeRange)))
      && (r.Ok? <==>
            && s.presale.None?
            && startTime < endTime
            && endTime + 1_814_400 <= I64_MAX
            && Transfer(s.tokens, ownerTokenAccount, presaleTokenAccount, tokenAmount).Some?)
      && (r.Ok? ==>
            && r.value.presale == Some(Presale(startTime, endTime, endTime + 1_814_400, tokenMint,
                                               presaleTokenAccount, tokenAmount, tokenPrice, 0,
                                               true, false, caller))
            && r.value.users == s.users && r.value.lamports == s.lamports
            && r.value.nativeVault == s.nativeVault
            && (forall k :: Balance(r.value.tokens, k) ==
                  Balance(s.tokens, k) - (if k == ownerTokenAccount then tokenAmount else 0)
                                       + (if k == presaleTokenAccount then tokenAmount else 0))
            && Valid(r.value))
  {
  }

  /** The guards of `contribute`, in the program's order: a paused sale
      rejects whatever the time or amount; then a time outside the inclusive
      window; then an amount whose token equivalent overflows u64; then a
      token amount that is zero or more than the unsold supply. Past the
      guards only the lamport transfer can still fail. */
  lemma ContributeGuards(s: State, caller: Pubkey, amount: u64, now: i64)
    requires Valid(s) && s.presale.Some?
    ensures var p := s.presale.value;
            var r := Contribute(s, caller, amount, now);
      && (p.isPaused ==> r == Err(Program(PresalePaused)))
      && (!p.isPaused && (now < p.startTime || now > p.endTime) ==> r == Err(Program(PresaleNotActive)))
      && (!p.isPaused && p.startTime <= now <= p.endTime && amount * 25 > U64_MAX ==>
            r == Err(Program(CalculationError)))
      && (!p.isPaused && p.startTime <= now <= p.endTime && amount * 25 <= U64_MAX &&
          (amount == 0 || amount * 25 > p.presaleSupply - p.totalContributed) ==>
            r == Err(Program(InvalidAmount)))
      && (r.Ok? <==>
            && !p.isPaused && p.startTime <= now <= p.endTime
            && 1 <= amount * 25 <= p.presaleSupply - p.totalContributed
            && Transfer(s.lamports, caller, s.nativeVault, amount).Some?)
  {
  }

  /** A successful `contribute` credits exactly `amount * 25` token units to
      the sale total and to the caller's account (creating it on first use),
      stamps the account with the caller, and moves exactly `amount` lamports
      from the caller to the native vault. Nothing else changes, and the
      invariant (in particular total <= supply and total == sum over users)
      still holds. */
  lemma ContributeEffect(s: State, caller: Pubkey, amount: u64, now: i64)
    requires Valid(s)
    requires Contribute(s, caller, amount, now).Ok?
    ensures var p := s.presale.value;
            var s' := Contribute(s, caller, amount, now).value;
            var before := UserOrNew(s.users, caller);
      && s'.presale == Some(p.(totalContributed := p.totalContributed + amount * 25))
      && caller in s'.users
      && s'.users[caller].user == caller
      && s'.users[caller].amountContributed == before.amountContributed + amount * 25
      && s'.users[caller].amountClaimed == before.amountClaimed
      && s'.users - {caller} == s.users - {caller}
      && (forall k :: Balance(s'.lamports, k) ==
            Balance(s.lamports, k) - (if k == caller then amount else 0)
                                   + (if k == s.nativeVault then amount else 0))
      && s'.tokens == s.tokens && s'.nativeVault == s.nativeVault
      && s'.presale.value.totalContributed <= s'.presale.value.presaleSupply
      && Valid(s')
  {
    var p := s.presale.value;
    var s' := Contribute(s, caller, amount, now).value;
    var before := UserOrNew(s.users, caller);
    TotalAfterUpdate(s.users, caller, s'.users[caller]);
    assert before.amountClaimed <= before.amountContributed;
  }

  /** The stored `token_price` plays no part in `contribute`: two sales that
      differ only in their price accept and reject the same contributions,
      with the same effect. */
  lemma ContributeIgnoresTokenPrice(s: State, price: u64, caller: Pubkey, amount: u64, now: i64)
    requires Valid(s) && s.presale.Some?
    ensures var t := s.(presale := Some(s.presale.value.(tokenPrice := price)));
            Valid(t) &&
            var r := Contribute(s, caller, amount, now);
            var q := Contribute(t, caller, amount, now);
      && Status(r) == Status(q)
      && (r.Ok? ==> q.value == r.value.(presale := Some(r.value.presale.value.(tokenPrice := price))))
  {
  }

  /** `claim_tokens`: a paused sale rejects first, then a time not strictly
      after the cliff, then a caller with nothing left to claim. A success
      moves exactly `contributed - claimed` tokens from the sale's token vault
      to the destination and marks everything the caller bought as claimed;
      nothing else changes and the invariant holds. */
  lemma ClaimTokensResult(s: State, caller: Pubkey, destination: Pubkey, now: i64)
    requires Valid(s) && s.presale.Some? && caller in s.users
    ensures var p := s.presale.value;
            var u := s.users[caller];
            var r := ClaimTokens(s, caller, destination, now);
      && (p.isPaused ==> r == Err(Program(PresalePaused)))
      && (!p.isPaused && now <= p.publicSaleEndTime ==> r == Err(Program(ClaimingNotAvailable)))
      && (!p.isPaused && now > p.publicSaleEndTime && u.amountContributed == u.amountClaimed ==>
            r == Err(Program(NothingToClaim)))
      && (r.Ok? <==>
            && !p.isPaused && now > p.publicSaleEndTime && u.amountClaimed < u.amountContributed
            && Transfer(s.tokens, p.presaleTokenAccount, destination, u.amountContributed - u.amountClaimed).Some?)
      && (r.Ok? ==>
            var s' := r.value;
            var claimed := u.amountContributed - u.amountClaimed;
            && s'.users == s.users[caller := u.(amountClaimed := u.amountContributed)]
            && s'.presale == s.presale && s'.lamports == s.lamports && s'.nativeVault == s.nativeVault
            && (forall k :: Balance(s'.tokens, k) ==
                  Balance(s.tokens, k) - (if k == p.presaleTokenAccount then claimed else 0)
                                       + (if k == destination then claimed else 0))
            && Valid(s'))
  {
    var r := ClaimTokens(s, caller, destination, now);
    if r.Ok? {
      var u := s.users[caller];
      TotalAfterUpdate(s.users, caller, u.(amountClaimed := u.amountContributed));
      assert s.users[caller := u] == s.users;
    }
  }

  /** A participant who never contributed has no UserInfo account, so
      `claim_tokens` fails account validation before any of its own guards,
      whatever the time or the pause flag. */
  lemma ClaimWithoutAccount(s: State, caller: Pubkey, destination: Pubkey, now: i64)
    requires Valid(s) && caller !in s.users
    ensures ClaimTokens(s, caller, destination, now) == Err(AccountNotInitialized)
  {
  }

  /** A claim that succeeded leaves nothing to claim: repeating it straight
      away fails, with `NothingToClaim` once past the cliff. */
  lemma SecondClaimFails(s: State, caller: Pubkey, destination: Pubkey, now: i64,
                         destination2: Pubkey, now2: i64)
    requires Valid(s)
    requires ClaimTokens(s, caller, destination, now).Ok?
    ensures var s' := ClaimTokens(s, caller, destination, now).value;
            Valid(s') &&
            ClaimTokens(s', caller, destination2, now2) ==
              Err(Program(if now2 > s.presale.value.publicSaleEndTime then NothingToClaim else ClaimingNotAvailable))
  {
    ClaimTokensResult(s, caller, destination, now);
  }

  /** `pause` is owner-only and refuses a sale already paused; on success
      only `is_paused` changes, to true. */
  lemma PauseResult(s: State, caller: Pubkey)
    requires Valid(s) && s.presale.Some?
    ensures var p := s.presale.value;
            var r := Pause(s, caller);
      && (caller != p.owner ==> r == Err(Program(Unauthorized)))
      && (caller == p.owner && p.isPaused ==> r == Err(Program(AlreadyPaused)))
      && (r.Ok? <==> caller == p.owner && !p.isPaused)
      && (r.Ok? ==> r.value == s.(presale := Some(p.(isPaused := true))) && Valid(r.value))
  {
  }

  /** `unpause` is owner-only and refuses a sale that is not paused; on
      success only `is_paused` changes, to false. */
  lemma UnpauseResult(s: State, caller: Pubkey)
    requires Valid(s) && s.presale.Some?
    ensures var p := s.presale.value;
            var r := Unpause(s, caller);
      && (caller != p.owner ==> r == Err(Program(Unauthorized)))
      && (caller == p.owner && !p.isPaused ==> r == Err(Program(NotPaused)))
      && (r.Ok? <==> caller == p.owner && p.isPaused)
      && (r.Ok? ==> r.value == s.(presale := Some(p.(isPaused := false))) && Valid(r.value))
  {
  }

  /** `finalize_presale` is owner-only, refuses a sale already finalized and
      one whose window has not ended; on success only `is_active` changes, to
      false. */
  lemma FinalizePresaleResult(s: State, caller: Pubkey, now: i64)
    requires Valid(s) && s.presale.Some?
    ensures var p := s.presale.value;
            var r := FinalizePresale(s, caller, now);
      && (caller != p.owner ==> r == Err(Program(Unauthorized)))
      && (caller == p.owner && !p.isActive ==> r == Err(Program(PresaleAlreadyFinalized)))
      && (caller == p.owner && p.isActive && now <= p.endTime ==> r == Err(Program(PresaleStillActive)))
      && (r.Ok? <==> caller == p.owner && p.isActive && now > p.endTime)
      && (r.Ok? ==> r.value == s.(presale := Some(p.(isActive := false))) && Valid(r.value))
  {
  }

  /** `withdraw` is owner-only, refuses while the sale is active and refuses
      more than the native vault holds; past those guards it fails only when
      the owner's balance would pass u64 (the checked `+=`). A success moves
      exactly `amount` lamports from the vault to the owner (so the two
      together hold what they held before), and leaves the sale record and
      all user accounts untouched. */
  lemma WithdrawResult(s: State, caller: Pubkey, amount: u64)
    requires Valid(s) && s.presale.Some?
    ensures var p := s.presale.value;
            var r := Withdraw(s, caller, amount);
      && (caller != p.owner ==> r == Err(Program(Unauthorized)))
      && (caller == p.owner && p.isActive ==> r == Err(Program(PresaleStillActive)))
      && (caller == p.owner && !p.isActive && amount > Balance(s.lamports, s.nativeVault) ==>
            r == Err(Program(InsufficientFunds)))
      && (caller == p.owner && !p.isActive && amount <= Balance(s.lamports, s.nativeVault) &&
          s.nativeVault != caller && Balance(s.lamports, caller) + amount > U64_MAX ==>
            r == Err(ArithmeticOverflow))
      && (r.Ok? <==>
            && caller == p.owner && !p.isActive && amount <= Balance(s.lamports, s.nativeVault)
            && (s.nativeVault == caller || Balance(s.lamports, caller) + amount <= U64_MAX))
      && (r.Ok? ==>
            var s' := r.value;
            && s'.presale == s.presale && s'.users == s.users && s'.tokens == s.tokens
            && s'.nativeVault == s.nativeVault
            && (forall k :: Balance(s'.lamports, k) ==
                  Balance(s.lamports, k) - (if k == s.nativeVault then amount else 0)
                                         + (if k == caller then amount else 0))
            && Balance(s'.lamports, s.nativeVault) + Balance(s'.lamports, caller) ==
                 Balance(s.lamports, s.nativeVault) + Balance(s.lamports, caller)
            && Valid(s'))
  {
  }

  /** Two contributions whose token amounts together exceed the supply: the
      second is rejected with `InvalidAmount` (never `ExceedsPresaleSupply`)
      and the total stays at what the first one bought. */
  lemma SecondContributionOverSupply(s: State, caller1: Pubkey, amount1: u64, now1: i64,
                                     caller2: Pubkey, amount2: u64, now2: i64)
    requires Valid(s)
    requires Contribute(s, caller1, amount1, now1).Ok?
    requires var p := s.presale.value;
      && p.startTime <= now2 <= p.endTime
      && amount2 * 25 <= U64_MAX
      && p.totalContributed + amount1 * 25 + amount2 * 25 > p.presaleSupply
    ensures var s' := Contribute(s, caller1, amount1, now1).value;
      && Valid(s')
      && Contribute(s', caller2, amount2, now2) == Err(Program(InvalidAmount))
      && s'.presale.value.totalContributed == s.presale.value.totalContributed + amount1 * 25
  {
    ContributeEffect(s, caller1, amount1, now1);
  }
}
