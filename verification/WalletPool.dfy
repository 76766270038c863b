/** Nonce allocation: the next committed nonce, the chain floor and gap-fill. */
module WalletPool {
  import opened Basics
  import opened Rows

  /** Nonces held by live rows of one wallet on one destination chain. */
  function LiveNonces(rows: map<RowId, Row>, wallet: Wallet, chain: ChainId): set<nat> {
    set id | id in rows && Live(rows[id]) && rows[id].wallet.value == wallet && rows[id].dst == chain
      :: rows[id].nonce.value
  }

  predicate IsMax(live: set<nat>, n: nat) {
    n in live && forall m | m in live :: m <= n
  }

  lemma {:induction false} MaxExists(live: set<nat>)
    requires live != {}
    ensures exists n :: IsMax(live, n)
  {
    var n :| n in live;
    var rest := live - {n};
    assert live == rest + {n};
    if rest == {} {
      assert IsMax(live, n);
    } else {
      MaxExists(rest);
      var top :| IsMax(rest, top);
      assert IsMax(live, if n <= top then top else n);
    }
  }

  /** max(nonce_used) + 1, or 0 when no live row exists. */
  function DbNext(live: set<nat>): (next: nat)
    ensures forall n | n in live :: n < next
    ensures live == {} ==> next == 0
    ensures live != {} ==> next >= 1 && next - 1 in live
  {
    if live == {} then 0
    else
      MaxExists(live);
      var n :| n in live && IsMax(live, n);
      n + 1
  }

  function ReserveNonce(live: set<nat>, chainNonce: nat): (nonce: nat)
  {
    var dbNext := DbNext(live);
    if chainNonce < dbNext && chainNonce !in live then chainNonce
    else Max(dbNext, chainNonce)
  }

  /** Nonces at or above the chain nonce, below the highest committed one, that nobody holds. */
  ghost function Gaps(live: set<nat>, chainNonce: nat): set<nat> {
    set n | chainNonce <= n < DbNext(live) && n !in live
  }

  /** Every committed nonce at or above `floor` is reached without a hole. */
  ghost predicate Contiguous(live: set<nat>, floor: nat) {
    forall n, k | n in live && floor <= k <= n :: k in live
  }

  lemma DbNextUnique(live: set<nat>, next: nat)
    requires forall n | n in live :: n < next
    requires if live == {} then next == 0 else next >= 1 && next - 1 in live
    ensures DbNext(live) == next
  {
  }

  /**
    The allocator's contract, for every committed set and every chain nonce: the nonce is new, it is
    never below the chain nonce, it is the chain nonce exactly when no live row holds that one, and
    committing it opens no gap (and closes the one at the chain nonce, if there was one).
   */
  lemma ReserveNonceLaw(live: set<nat>, chainNonce: nat)
    ensures var m := ReserveNonce(live, chainNonce);
      && m !in live
      && m >= chainNonce
      && (m == chainNonce <==> chainNonce !in live)
      && Gaps(live + {m}, chainNonce) == Gaps(live, chainNonce) - {chainNonce}
  {
    var m := ReserveNonce(live, chainNonce);
    var next := DbNext(live);
    assert m <= next || m == chainNonce;
    DbNextUnique(live + {m}, Max(next, m + 1));
  }

  /** Exactly when the choice falls below a floor, such as the nonce up to which the chain has mined. */
  lemma ReserveBelowIff(live: set<nat>, snapshot: nat, floor: nat)
    ensures ReserveNonce(live, snapshot) < floor <==> snapshot < floor && (snapshot in live ==> DbNext(live) < floor)
  {
    ReserveNonceLaw(live, snapshot);
  }

  /** A snapshot no later than the floor keeps the committed block above the floor contiguous. */
  lemma ReserveKeepsContiguous(live: set<nat>, snapshot: nat, floor: nat)
    requires Contiguous(live, floor)
    requires snapshot <= floor
    ensures Contiguous(live + {ReserveNonce(live, snapshot)}, floor)
  {
    var m := ReserveNonce(live, snapshot);
    ReserveNonceLaw(live, snapshot);
    var all := live + {m};
    forall n, k | n in all && floor <= k <= n
      ensures k in all
    {
      if n == m && k < m {
        assert m - 1 in live;
      }
    }
  }
}
