/** The devnet faucet's per-wallet cooldown. The clock and the outcome of the
    airdrop request (with its confirmation) are inputs; the remembered times
    live in the service and survive across calls. */
module Faucet {
  import opened Wrappers

  /** Ten minutes, in milliseconds. */
  const CooldownMs: int := 600000

  /** What the RPC node does with the airdrop request and its confirmation. */
  datatype AirdropOutcome = Confirmed(txid: string) | Failed

  datatype FaucetError =
    | RateLimited(waitSec: int)   // "RATE_LIMITED: Try again in <waitSec> seconds"
    | AirdropFailed               // the request or its confirmation threw

  /** The rate check: a remembered time that is truthy (not 0) and less than
      the cooldown ago. */
  predicate Limited(last: Option<int>, now: int) {
    last.Some? && last.value != 0 && now - last.value < CooldownMs
  }

  /** `Math.ceil(n / d)` for integers (Dafny's `/` rounds down for a
      positive divisor). */
  function CeilDiv(n: int, d: int): (q: int)
    requires d > 0
    ensures (q - 1) * d < n <= q * d
  {
    -((-n) / d)
  }

  /** The whole seconds left of the cooldown, rounded up. */
  function WaitSeconds(elapsed: int): int {
    CeilDiv(CooldownMs - elapsed, 1000)
  }

  /** A wait reported while the cooldown runs is between 1 and 600 seconds. */
  lemma WaitBounds(elapsed: int)
    requires 0 <= elapsed < CooldownMs
    ensures 1 <= WaitSeconds(elapsed) <= 600
  {
    var q := WaitSeconds(elapsed);
    assert (q - 1) * 1000 < CooldownMs - elapsed <= q * 1000;
  }

  /** One request: its answer and the remembered times after it. */
  function Requested(lastRequest: map<string, int>, wallet: string, now: int,
                     airdrop: AirdropOutcome, doneAt: int): (r: (Result<string, FaucetError>, map<string, int>))
    ensures r.0.Err? ==> r.1 == lastRequest
    ensures wallet in lastRequest && Limited(Some(lastRequest[wallet]), now) ==>
      r.0 == Err(RateLimited(WaitSeconds(now - lastRequest[wallet])))
    ensures r.0.Ok? <==>
      !Limited(if wallet in lastRequest then Some(lastRequest[wallet]) else None, now) && airdrop.Confirmed?
    ensures r.0.Ok? ==> r.0.value == airdrop.txid && r.1 == lastRequest[wallet := doneAt]
    ensures r.0 == Err(AirdropFailed) <==>
      !Limited(if wallet in lastRequest then Some(lastRequest[wallet]) else None, now) && airdrop.Failed?
  {
    var last := if wallet in lastRequest then Some(lastRequest[wallet]) else None;
    if Limited(last, now) then (Err(RateLimited(WaitSeconds(now - last.value))), lastRequest)
    else match airdrop
      case Failed => (Err(AirdropFailed), lastRequest)
      case Confirmed(txid) => (Ok(txid), lastRequest[wallet := doneAt])
  }

  /** Only a confirmed airdrop starts a cooldown, and only for its wallet. */
  lemma RequestedTouchesOwnWallet(lastRequest: map<string, int>, wallet: string, now: int,
                                  airdrop: AirdropOutcome, doneAt: int)
    ensures var (r, after) := Requested(lastRequest, wallet, now, airdrop, doneAt);
      && (forall w :: w != wallet ==> (w in after <==> w in lastRequest))
      && (forall w :: w != wallet && w in after ==> after[w] == lastRequest[w])
      && (r.Err? ==> after == lastRequest)
      && (r.Ok? ==> wallet in after && after[wallet] == doneAt)
  {
  }

  /** A limited request reports a wait in 1..600 seconds and performs no
      airdrop: its answer does not depend on the RPC outcome. */
  lemma LimitedRequest(lastRequest: map<string, int>, wallet: string, now: int,
                       a1: AirdropOutcome, a2: AirdropOutcome, d1: int, d2: int)
    requires wallet in lastRequest && Limited(Some(lastRequest[wallet]), now)
    requires now >= lastRequest[wallet]
    ensures Requested(lastRequest, wallet, now, a1, d1) == Requested(lastRequest, wallet, now, a2, d2)
    ensures var r := Requested(lastRequest, wallet, now, a1, d1).0;
      && r.Err? && r.error.RateLimited? && 1 <= r.error.waitSec <= 600
      // the wait is the remaining cooldown in seconds, rounded up
      && (r.error.waitSec - 1) * 1000 < CooldownMs - (now - lastRequest[wallet]) <= r.error.waitSec * 1000
  {
    WaitBounds(now - lastRequest[wallet]);
  }

  /** Once the cooldown has passed since the last success, the check passes
      again; a wallet never served is never limited. */
  lemma CooldownElapsed(lastRequest: map<string, int>, wallet: string, now: int)
    requires wallet !in lastRequest || now - lastRequest[wallet] >= CooldownMs
    ensures !Limited(if wallet in lastRequest then Some(lastRequest[wallet]) else None, now)
  {
  }

  class FaucetService {
    /** `faucetLastRequest`: when each wallet was last served. */
    var lastRequest: map<string, int>

    constructor ()
      ensures lastRequest == map[]
    {
      lastRequest := map[];
    }

    /** `requestAirdrop(wallet)`: `now` is the clock at the rate check and
        `doneAt` the clock once the airdrop is confirmed. */
    method RequestAirdrop(wallet: string, now: int, airdrop: AirdropOutcome, doneAt: int)
      returns (r: Result<string, FaucetError>)
      modifies this
      ensures (r, lastRequest) == Requested(old(lastRequest), wallet, now, airdrop, doneAt)
    {
      if wallet in lastRequest && lastRequest[wallet] != 0 && now - lastRequest[wallet] < CooldownMs {
        var waitSec := CeilDiv(CooldownMs - (now - lastRequest[wallet]), 1000);
        return Err(RateLimited(waitSec));
      }
      if airdrop.Failed? {
        return Err(AirdropFailed);
      }
      lastRequest := lastRequest[wallet := doneAt];
      return Ok(airdrop.txid);
    }
  }
}
