/** The oracle's transaction sender: one nonce at a time, replacement-by-fee for a stuck transaction. */
module OracleSender {
  import opened Basics
  import opened Decimals

  const MAX_SAFE_INTEGER: nat := 9007199254740991

  /** Fee fields of a transaction; absent fields are null. */
  datatype Fees = Fees(maxFee: Option<nat>, priorityFee: Option<nat>, gasPrice: Option<nat>)

  datatype SentTx = SentTx(nonce: nat, fees: Fees, gasLimit: nat)

  datatype Outcome = RejectedByNode | TimedOut | Mined

  /** What the RPC endpoint answers during one send, and what the library would fill in by default. */
  datatype Call = Call(latest: nat, pending: nat, market: Fees, estimate: nat, defaults: Fees, defaultGas: nat, outcome: Outcome)

  datatype SendError = NonceTooLarge | UnknownPending | NodeRejected | WaitTimeout

  function BumpFee(v: nat): nat {
    v * 1125 / 1000 + 1
  }

  function OrZero(v: Option<nat>): nat {
    if v.Some? then v.value else 0
  }

  /** Fees of a replacement: 12.5% over the stuck transaction, or the market if that is higher. */
  function ReplacementFees(last: Fees, market: Fees, defaults: Fees): Fees {
    if last.maxFee.Some? then
      var priority := Max(OrZero(market.priorityFee), BumpFee(OrZero(last.priorityFee)));
      Fees(Some(Max(Max(OrZero(market.maxFee), BumpFee(last.maxFee.value)), priority)), Some(priority), defaults.gasPrice)
    else if last.gasPrice.Some? then
      Fees(None, None, Some(Max(OrZero(market.gasPrice), BumpFee(last.gasPrice.value))))
    else defaults
  }

  /** "latest" nonce, floored at one past the last nonce confirmed mined. */
  function NextNonce(lastMined: Option<nat>, latest: nat): nat {
    if lastMined.Some? && latest <= lastMined.value then lastMined.value + 1 else latest
  }

  function TxFor(lastSent: Option<SentTx>, nonce: nat, c: Call): SentTx {
    if lastSent.Some? && lastSent.value.nonce == nonce then
      SentTx(nonce, ReplacementFees(lastSent.value.fees, c.market, c.defaults), Max(c.estimate, lastSent.value.gasLimit))
    else SentTx(nonce, c.defaults, c.defaultGas)
  }

  /** The writer's fields, with every transaction the node accepted and every nonce confirmed. */
  datatype Writer = Writer(lastSent: Option<SentTx>, lastMined: Option<nat>, log: seq<SentTx>, confirmed: seq<nat>)

  const FRESH := Writer(None, None, [], [])

  function Refused(w: Writer, c: Call): Option<SendError> {
    if c.latest > MAX_SAFE_INTEGER || c.pending > MAX_SAFE_INTEGER then Some(NonceTooLarge)
    else if w.lastSent.None? && c.pending > c.latest then Some(UnknownPending)
    else None
  }

  function AfterSend(w: Writer, c: Call): Writer {
    if Refused(w, c).Some? || c.outcome == RejectedByNode then w
    else
      var nonce := NextNonce(w.lastMined, c.latest);
      var tx := TxFor(w.lastSent, nonce, c);
      var log := w.log + [tx];
      if c.outcome == TimedOut then Writer(Some(tx), w.lastMined, log, w.confirmed)
      else Writer(None, Some(nonce), log, w.confirmed + [nonce])
  }

  // ---- What is expected of a send, over the integers ----

  /** The least number that is at least both. */
  predicate LeastAbove(x: nat, a: nat, b: nat) {
    x >= a && x >= b && (x == a || x == b)
  }

  /** A fee the market does not state asks for nothing. */
  function Asked(fee: Option<nat>): nat {
    match fee
    case None => 0
    case Some(v) => v
  }

  /** A replacement pays the market and an eighth more than the stuck transaction, and no more than it must. */
  predicate Replaces(last: SentTx, tx: SentTx, c: Call) {
    && LeastAbove(tx.gasLimit, c.estimate, last.gasLimit)
    && (last.fees.maxFee.Some? ==>
          && tx.fees.maxFee.Some? && tx.fees.priorityFee.Some?
          && LeastAbove(tx.fees.priorityFee.value, Asked(c.market.priorityFee), Asked(last.fees.priorityFee) * 1125 / 1000 + 1)
          && tx.fees.maxFee.value >= Asked(c.market.maxFee)
          && LeastAbove(tx.fees.maxFee.value,
               if Asked(c.market.maxFee) >= last.fees.maxFee.value * 1125 / 1000 + 1 then Asked(c.market.maxFee)
               else last.fees.maxFee.value * 1125 / 1000 + 1,
               tx.fees.priorityFee.value))
    && (last.fees.maxFee.None? && last.fees.gasPrice.Some? ==>
          && tx.fees.maxFee.None? && tx.fees.priorityFee.None? && tx.fees.gasPrice.Some?
          && LeastAbove(tx.fees.gasPrice.value, Asked(c.market.gasPrice), last.fees.gasPrice.value * 1125 / 1000 + 1))
    && (last.fees.maxFee.None? && last.fees.gasPrice.None? ==> tx.fees == c.defaults)
  }

  /** The transaction of a send: nonce, and fees and gas of a replacement or the defaults. */
  predicate Expected(w: Writer, c: Call, tx: SentTx) {
    && (w.lastMined.None? || c.latest > w.lastMined.value ==> tx.nonce == c.latest)
    && (w.lastMined.Some? && c.latest <= w.lastMined.value ==> tx.nonce == w.lastMined.value + 1)
    && (if w.lastSent.Some? && w.lastSent.value.nonce == tx.nonce then Replaces(w.lastSent.value, tx, c)
        else tx.fees == c.defaults && tx.gasLimit == c.defaultGas)
  }

  lemma TxForIsExpected(w: Writer, c: Call)
    ensures Expected(w, c, TxFor(w.lastSent, NextNonce(w.lastMined, c.latest), c))
  {
  }

  class RpcOracleWriter {
    var lastSent: Option<SentTx>
    var lastMinedNonce: Option<nat>
    ghost var log: seq<SentTx>
    ghost var confirmed: seq<nat>

    ghost function Contents(): Writer
      reads this
    {
      Writer(lastSent, lastMinedNonce, log, confirmed)
    }

    constructor ()
      ensures Contents() == FRESH
    {
      lastSent, lastMinedNonce, log, confirmed := None, None, [], [];
    }

    method Send(c: Call) returns (r: Result<SentTx, SendError>)
      modifies this
      ensures Contents() == AfterSend(old(Contents()), c)
      ensures r == Err(NonceTooLarge) <==> c.latest > 9007199254740991 || c.pending > 9007199254740991
      ensures r == Err(UnknownPending) <==>
        c.latest <= 9007199254740991 && c.pending <= 9007199254740991 && old(lastSent).None? && c.pending > c.latest
      ensures r == Err(NodeRejected) ==> c.outcome == RejectedByNode
      ensures r.Ok? ==> c.outcome == Mined
      ensures r.Err? && r.error != WaitTimeout ==> Contents() == old(Contents())
      ensures r.Ok? || r == Err(WaitTimeout) ==>
        && |log| == |old(log)| + 1 && old(log) <= log && Expected(old(Contents()), c, log[|old(log)|])
      ensures r == Err(WaitTimeout) ==>
        c.outcome == TimedOut && lastSent == Some(log[|old(log)|]) && lastMinedNonce == old(lastMinedNonce) && confirmed == old(confirmed)
      ensures r.Ok? ==>
        && r.value == log[|old(log)|] && lastSent == None && lastMinedNonce == Some(r.value.nonce)
        && confirmed == old(confirmed) + [r.value.nonce]
    {
      TxForIsExpected(Contents(), c);
      if c.latest > MAX_SAFE_INTEGER || c.pending > MAX_SAFE_INTEGER {
        return Err(NonceTooLarge);
      }
      if lastSent.None? && c.pending > c.latest {
        return Err(UnknownPending);
      }
      var nonce := c.latest;
      if lastMinedNonce.Some? && nonce <= lastMinedNonce.value {
        nonce := lastMinedNonce.value + 1;
      }
      var tx := TxFor(lastSent, nonce, c);
      if c.outcome == RejectedByNode {
        return Err(NodeRejected);
      }
      lastSent := Some(tx);
      log := log + [tx];
      if c.outcome == TimedOut {
        return Err(WaitTimeout);
      }
      lastSent, lastMinedNonce := None, Some(nonce);
      confirmed := confirmed + [nonce];
      return Ok(tx);
    }
  }

  // ---- Any sequence of sends ----

  function Sends(w: Writer, calls: seq<Call>): Writer
    decreases |calls|
  {
    if calls == [] then w else Sends(AfterSend(w, calls[0]), calls[1..])
  }

  /** 12.5% more on every fee the node compares, a valid EIP-1559 pair, and no less gas. */
  predicate Bumped(a: SentTx, b: SentTx) {
    && (a.fees.maxFee.Some? ==>
          && b.fees.maxFee.Some? && b.fees.priorityFee.Some?
          && 8 * b.fees.maxFee.value >= 9 * a.fees.maxFee.value
          && 8 * b.fees.priorityFee.value >= 9 * OrZero(a.fees.priorityFee)
          && b.fees.maxFee.value >= b.fees.priorityFee.value)
    && (a.fees.maxFee.None? && a.fees.gasPrice.Some? ==>
          && b.fees.maxFee.None? && b.fees.gasPrice.Some?
          && 8 * b.fees.gasPrice.value >= 9 * a.fees.gasPrice.value)
    && b.gasLimit >= a.gasLimit
  }

  ghost predicate StrictlyIncreasing(ns: seq<nat>) {
    forall i, j | 0 <= i < j < |ns| :: ns[i] < ns[j]
  }

  ghost predicate Inv(w: Writer) {
    && StrictlyIncreasing(w.confirmed)
    && (if w.confirmed == [] then w.lastMined == None else w.lastMined == Some(w.confirmed[|w.confirmed| - 1]))
    && (w.lastSent.Some? ==> w.log != [] && w.log[|w.log| - 1] == w.lastSent.value)
    && (w.lastSent.None? && w.log != [] ==> w.lastMined == Some(w.log[|w.log| - 1].nonce))
    && forall i | 0 < i < |w.log| :: w.log[i - 1].nonce == w.log[i].nonce ==> Bumped(w.log[i - 1], w.log[i])
  }

  lemma ReplacementIsBumped(last: SentTx, c: Call)
    ensures Bumped(last, TxFor(Some(last), last.nonce, c))
  {
  }

  lemma SendInv(w: Writer, c: Call)
    requires Inv(w)
    ensures Inv(AfterSend(w, c))
  {
    var w' := AfterSend(w, c);
    if w'.log != w.log {
      var nonce := NextNonce(w.lastMined, c.latest);
      if w.lastSent.Some? && w.lastSent.value.nonce == nonce {
        ReplacementIsBumped(w.lastSent.value, c);
      }
      forall i | 0 < i < |w'.log|
        ensures w'.log[i - 1].nonce == w'.log[i].nonce ==> Bumped(w'.log[i - 1], w'.log[i])
      {
        assert i < |w.log| ==> w'.log[i] == w.log[i] && w'.log[i - 1] == w.log[i - 1];
      }
    }
  }

  lemma {:induction false} SendsInv(w: Writer, calls: seq<Call>)
    requires Inv(w)
    ensures Inv(Sends(w, calls))
    decreases |calls|
  {
    if calls != [] {
      SendInv(w, calls[0]);
      SendsInv(AfterSend(w, calls[0]), calls[1..]);
    }
  }

  /** Over any sequence of sends, confirmed nonces strictly increase. */
  lemma ConfirmedNoncesIncrease(calls: seq<Call>)
    ensures StrictlyIncreasing(Sends(FRESH, calls).confirmed)
  {
    SendsInv(FRESH, calls);
  }

  function Pow(base: nat, k: nat): nat {
    if k == 0 then 1 else base * Pow(base, k - 1)
  }

  /** log[i..j] are the same nonce sent again and again: j - i successive replacements. */
  ghost predicate SameNonce(log: seq<SentTx>, i: nat, j: nat) {
    i <= j < |log| && forall k | i <= k <= j :: log[k].nonce == log[i].nonce
  }

  lemma Compound(a: nat, b: nat, c: nat, k: nat)
    requires Pow(9, k) * a <= Pow(8, k) * b && 9 * b <= 8 * c
    ensures Pow(9, k + 1) * a <= Pow(8, k + 1) * c
  {
    calc {
      Pow(9, k + 1) * a;
      9 * (Pow(9, k) * a);
      <=
      9 * (Pow(8, k) * b);
      Pow(8, k) * (9 * b);
      <= { MulMono(9 * b, 8 * c, Pow(8, k)); }
      Pow(8, k) * (8 * c);
      Pow(8, k + 1) * c;
    }
  }

  /**
    k successive replacements at one nonce carry at least (9/8)^k times the first maximum and
    priority fee (or gas price), keep max fee >= priority fee, and never lower the gas limit.
   */
  lemma {:induction false} ReplacementsEscalate(calls: seq<Call>, i: nat, j: nat)
    requires SameNonce(Sends(FRESH, calls).log, i, j)
    ensures var log := Sends(FRESH, calls).log; var a, b := log[i].fees, log[j].fees;
      && (a.maxFee.Some? ==>
            && b.maxFee.Some?
            && Pow(9, j - i) * a.maxFee.value <= Pow(8, j - i) * b.maxFee.value
            && Pow(9, j - i) * OrZero(a.priorityFee) <= Pow(8, j - i) * OrZero(b.priorityFee)
            && (i < j ==> b.priorityFee.Some? && b.maxFee.value >= b.priorityFee.value))
      && (a.maxFee.None? && a.gasPrice.Some? ==>
            && b.maxFee.None? && b.gasPrice.Some?
            && Pow(9, j - i) * a.gasPrice.value <= Pow(8, j - i) * b.gasPrice.value)
      && log[i].gasLimit <= log[j].gasLimit
    decreases j - i
  {
    var log := Sends(FRESH, calls).log;
    if i < j {
      ReplacementsEscalate(calls, i, j - 1);
      SendsInv(FRESH, calls);
      assert log[j - 1].nonce == log[j].nonce;
      assert Bumped(log[j - 1], log[j]);
      var a, m, b := log[i].fees, log[j - 1].fees, log[j].fees;
      if a.maxFee.Some? {
        Compound(a.maxFee.value, m.maxFee.value, b.maxFee.value, j - 1 - i);
        Compound(OrZero(a.priorityFee), OrZero(m.priorityFee), OrZero(b.priorityFee), j - 1 - i);
      } else if a.gasPrice.Some? {
        Compound(a.gasPrice.value, m.gasPrice.value, b.gasPrice.value, j - 1 - i);
      }
    }
  }
}
