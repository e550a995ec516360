/** Balances held by the host runtime: native lamports and token units, each a
    map from account to amount, and the all-or-nothing transfer that both the
    system program and the token program perform. */
module Custody {
  import opened PresaleTypes

  type Balances = map<Pubkey, u64>

  /** An account the map does not mention holds nothing. */
  function Balance(m: Balances, k: Pubkey): u64 {
    if k in m then m[k] else 0
  }

  /** Moves `amount` from `from` to `to`, or fails without effect when the
      source holds too little or the destination would pass the u64 range. */
  function Transfer(m: Balances, from: Pubkey, to: Pubkey, amount: u64): (r: Option<Balances>)
    ensures r.Some? <==> amount <= Balance(m, from) && (from == to || Balance(m, to) + amount <= U64_MAX)
    ensures r.Some? ==>
              forall k :: Balance(r.value, k) ==
                            Balance(m, k) - (if k == from then amount else 0) + (if k == to then amount else 0)
  {
    if amount > Balance(m, from) then None
    else if from == to then Some(m)
    else if Balance(m, to) + amount > U64_MAX then None
    else Some(m[from := Balance(m, from) - amount][to := Balance(m, to) + amount])
  }
}
