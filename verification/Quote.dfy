/** Signed quotes: a 132-byte body followed by a 65-byte signature. */
module Quote {
  import opened Basics
  import opened Bytes

  /** "PQ01" */
  const SIGNED_QUOTE_PREFIX: seq<Byte> := [0x50, 0x51, 0x30, 0x31]
  const SIGNED_QUOTE_BODY_LENGTH: nat := 132
  const SIGNATURE_LENGTH: nat := 65
  const SIGNED_QUOTE_LENGTH: nat := SIGNED_QUOTE_BODY_LENGTH + SIGNATURE_LENGTH

  datatype QuoteBody = QuoteBody(
    quoter: seq<Byte>, payee: seq<Byte>, srcChain: int, dstChain: int, expiryTime: int, gasLimit: int,
    requiredPayment: int)

  datatype SignedQuote = SignedQuote(body: QuoteBody, bytes: seq<Byte>)

  datatype QuoteError =
    | SrcChainRange | DstChainRange | ExpiryRange | GasLimitRange | PaymentRange | PayeeLength | QuoterLength
    | WrongLength

  function Refusal(q: QuoteBody): Option<QuoteError> {
    if q.srcChain < 0 || q.srcChain >= Pow256(2) then Some(SrcChainRange)
    else if q.dstChain < 0 || q.dstChain >= Pow256(2) then Some(DstChainRange)
    else if q.expiryTime < 0 || q.expiryTime >= Pow256(8) then Some(ExpiryRange)
    else if q.gasLimit < 0 || q.gasLimit >= Pow256(32) then Some(GasLimitRange)
    else if q.requiredPayment < 0 || q.requiredPayment >= Pow256(32) then Some(PaymentRange)
    else if |q.payee| != 32 then Some(PayeeLength)
    else if |q.quoter| != 20 then Some(QuoterLength)
    else None
  }

  function BodyBytes(q: QuoteBody): (b: seq<Byte>)
    requires Refusal(q).None?
    ensures |b| == SIGNED_QUOTE_BODY_LENGTH
  {
    SIGNED_QUOTE_PREFIX + q.quoter + q.payee + ToBE(q.srcChain, 2) + ToBE(q.dstChain, 2)
    + ToBE(q.expiryTime, 8) + ToBE(q.gasLimit, 32) + ToBE(q.requiredPayment, 32)
  }

  function BodyOf(b: seq<Byte>): QuoteBody
    requires |b| >= SIGNED_QUOTE_BODY_LENGTH
  {
    QuoteBody(
      b[4..24], b[24..56], FromBE(b[56..58]), FromBE(b[58..60]), FromBE(b[60..68]), FromBE(b[68..100]),
      FromBE(b[100..132]))
  }

  /** The decoder checks the length alone: it looks at neither the prefix nor the signature. */
  function Decode(bytes: seq<Byte>): Result<SignedQuote, QuoteError> {
    if |bytes| != SIGNED_QUOTE_LENGTH then Err(WrongLength)
    else Ok(SignedQuote(BodyOf(bytes), bytes))
  }

  /** The signature, an opaque 65-byte function of the digest, follows the body. */
  function Sign(H: seq<Byte> -> seq<Byte>, sign: seq<Byte> -> seq<Byte>, q: QuoteBody): Result<SignedQuote, QuoteError> {
    if Refusal(q).Some? then Err(Refusal(q).value)
    else Ok(SignedQuote(q, BodyBytes(q) + sign(H(BodyBytes(q)))))
  }

  // ---- The encoder, which fills its buffer in place ----

  lemma BodyOverlays(q: QuoteBody, zeros: seq<Byte>)
    requires Refusal(q).None? && |zeros| == SIGNED_QUOTE_BODY_LENGTH
    ensures
      var b1 := Overlay(zeros, 0, SIGNED_QUOTE_PREFIX);
      var b2 := Overlay(b1, 4, q.quoter);
      var b3 := Overlay(b2, 24, q.payee);
      var b4 := Overlay(b3, 56, ToBE(q.srcChain, 2));
      var b5 := Overlay(b4, 58, ToBE(q.dstChain, 2));
      var b6 := Overlay(b5, 60, ToBE(q.expiryTime, 8));
      var b7 := Overlay(b6, 68, ToBE(q.gasLimit, 32));
      Overlay(b7, 100, ToBE(q.requiredPayment, 32)) == BodyBytes(q)
  {
    var b1 := Overlay(zeros, 0, SIGNED_QUOTE_PREFIX);
    var b2 := Overlay(b1, 4, q.quoter);
    assert b2[..24] == SIGNED_QUOTE_PREFIX + q.quoter;
    var b3 := Overlay(b2, 24, q.payee);
    assert b3[..56] == b2[..24] + q.payee;
    var b4 := Overlay(b3, 56, ToBE(q.srcChain, 2));
    assert b4[..58] == b3[..56] + ToBE(q.srcChain, 2);
    var b5 := Overlay(b4, 58, ToBE(q.dstChain, 2));
    assert b5[..60] == b4[..58] + ToBE(q.dstChain, 2);
    var b6 := Overlay(b5, 60, ToBE(q.expiryTime, 8));
    assert b6[..68] == b5[..60] + ToBE(q.expiryTime, 8);
    var b7 := Overlay(b6, 68, ToBE(q.gasLimit, 32));
    assert b7[..100] == b6[..68] + ToBE(q.gasLimit, 32);
    var b8 := Overlay(b7, 100, ToBE(q.requiredPayment, 32));
    assert b8 == b7[..100] + ToBE(q.requiredPayment, 32);
  }

  method EncodeQuoteBody(q: QuoteBody) returns (r: Result<array<Byte>, QuoteError>)
    ensures Refusal(q).Some? ==> r == Err(Refusal(q).value)
    ensures Refusal(q).None? ==> r.Ok? && fresh(r.value) && r.value[..] == BodyBytes(q)
  {
    var refusal := Refusal(q);
    if refusal.Some? {
      return Err(refusal.value);
    }
    var out := new Byte[SIGNED_QUOTE_BODY_LENGTH](_ => 0);
    ghost var zeros := out[..];
    SetBytes(out, 0, SIGNED_QUOTE_PREFIX);
    SetBytes(out, 4, q.quoter);
    SetBytes(out, 24, q.payee);
    SetBE(out, 56, q.srcChain, 2);
    SetBE(out, 58, q.dstChain, 2);
    SetBE(out, 60, q.expiryTime, 8);
    SetBE(out, 68, q.gasLimit, 32);
    SetBE(out, 100, q.requiredPayment, 32);
    BodyOverlays(q, zeros);
    return Ok(out);
  }

  // ---- Refusals and lengths, in numbers ----

  /** A quote is refused for the first of its fields that does not fit: chains, expiry, gas, payment, then the addresses. */
  lemma RefusalTable(q: QuoteBody)
    ensures Refusal(q) == None <==>
      && 0 <= q.srcChain < 0x1_0000 && 0 <= q.dstChain < 0x1_0000 && 0 <= q.expiryTime < 0x1_0000_0000_0000_0000
      && 0 <= q.gasLimit < Pow256(32) && 0 <= q.requiredPayment < Pow256(32) && |q.payee| == 32 && |q.quoter| == 20
    ensures Refusal(q) == Some(SrcChainRange) <==> !(0 <= q.srcChain < 0x1_0000)
    ensures Refusal(q) == Some(DstChainRange) <==> 0 <= q.srcChain < 0x1_0000 && !(0 <= q.dstChain < 0x1_0000)
    ensures Refusal(q) == Some(ExpiryRange) ==> 0 <= q.dstChain < 0x1_0000 && !(0 <= q.expiryTime < 0x1_0000_0000_0000_0000)
    ensures Refusal(q) == Some(GasLimitRange) ==>
      0 <= q.expiryTime < 0x1_0000_0000_0000_0000 && !(0 <= q.gasLimit < Pow256(32))
    ensures Refusal(q) == Some(PaymentRange) ==> 0 <= q.gasLimit < Pow256(32) && !(0 <= q.requiredPayment < Pow256(32))
    ensures Refusal(q) == Some(PayeeLength) ==> 0 <= q.requiredPayment < Pow256(32) && |q.payee| != 32
    ensures Refusal(q) == Some(QuoterLength) ==> |q.payee| == 32 && |q.quoter| != 20
    ensures Refusal(q) != Some(WrongLength)
  {
    Widths();
  }

  /** The signature covers the hash of the 132 bytes before it, once. */
  lemma SignLaw(H: seq<Byte> -> seq<Byte>, sign: seq<Byte> -> seq<Byte>, q: QuoteBody)
    ensures match Sign(H, sign, q)
      case Err(e) => Refusal(q) == Some(e)
      case Ok(signed) =>
        && Refusal(q).None? && signed.body == q && |signed.bytes| >= 132
        && signed.bytes[..4] == [0x50, 0x51, 0x30, 0x31] && signed.bytes[132..] == sign(H(signed.bytes[..132]))
  {
    if Refusal(q).None? {
      var body := BodyBytes(q);
      assert (body + sign(H(body)))[..132] == body;
      assert body[..4] == SIGNED_QUOTE_PREFIX;
    }
  }

  /** Exactly the byte strings of length 197 decode. */
  lemma DecodeOutcome(bytes: seq<Byte>)
    ensures Decode(bytes).Ok? <==> |bytes| == 197
    ensures |bytes| != 197 ==> Decode(bytes) == Err(WrongLength)
  {
  }

  // ---- Round trips ----

  lemma Pieces(
    prefix: seq<Byte>, quoter: seq<Byte>, payee: seq<Byte>, src: seq<Byte>, dst: seq<Byte>, expiry: seq<Byte>,
    gas: seq<Byte>, payment: seq<Byte>, rest: seq<Byte>)
    requires |prefix| == 4 && |quoter| == 20 && |payee| == 32 && |src| == 2 && |dst| == 2
    requires |expiry| == 8 && |gas| == 32 && |payment| == 32
    ensures var b := prefix + quoter + payee + src + dst + expiry + gas + payment + rest;
      && b[4..24] == quoter && b[24..56] == payee && b[56..58] == src && b[58..60] == dst
      && b[60..68] == expiry && b[68..100] == gas && b[100..132] == payment
  {
  }

  lemma BodySlices(q: QuoteBody, rest: seq<Byte>)
    requires Refusal(q).None?
    ensures var b := BodyBytes(q) + rest;
      && b[4..24] == q.quoter && b[24..56] == q.payee
      && b[56..58] == ToBE(q.srcChain, 2) && b[58..60] == ToBE(q.dstChain, 2)
      && b[60..68] == ToBE(q.expiryTime, 8) && b[68..100] == ToBE(q.gasLimit, 32)
      && b[100..132] == ToBE(q.requiredPayment, 32)
  {
    Pieces(
      SIGNED_QUOTE_PREFIX, q.quoter, q.payee, ToBE(q.srcChain, 2), ToBE(q.dstChain, 2), ToBE(q.expiryTime, 8),
      ToBE(q.gasLimit, 32), ToBE(q.requiredPayment, 32), rest);
  }

  /** Decoding what was signed gives the quote back, for every quote in range and any 65-byte signature. */
  lemma DecodeUndoesSign(H: seq<Byte> -> seq<Byte>, sign: seq<Byte> -> seq<Byte>, q: QuoteBody)
    requires Sign(H, sign, q).Ok? && |sign(H(BodyBytes(q)))| == SIGNATURE_LENGTH
    ensures Decode(Sign(H, sign, q).value.bytes) == Sign(H, sign, q)
  {
    BodySlices(q, sign(H(BodyBytes(q))));
    FromToBE(q.srcChain, 2);
    FromToBE(q.dstChain, 2);
    FromToBE(q.expiryTime, 8);
    FromToBE(q.gasLimit, 32);
    FromToBE(q.requiredPayment, 32);
  }

  /** What decodes is always in range; encoding it again gives the same body exactly when the prefix is "PQ01". */
  lemma ReencodeIff(bytes: seq<Byte>)
    requires |bytes| == 197
    ensures Decode(bytes).Ok? && Refusal(Decode(bytes).value.body).None? && Decode(bytes).value.bytes == bytes
    ensures BodyBytes(Decode(bytes).value.body) == bytes[..132] <==> bytes[..4] == [0x50, 0x51, 0x30, 0x31]
  {
    FromBEBound(bytes[56..58]);
    FromBEBound(bytes[58..60]);
    FromBEBound(bytes[60..68]);
    FromBEBound(bytes[68..100]);
    FromBEBound(bytes[100..132]);
    ReencodeBytes(bytes);
  }

  lemma Rejoin(prefix: seq<Byte>, b: seq<Byte>)
    requires |b| >= 132
    ensures prefix + b[4..24] + b[24..56] + b[56..58] + b[58..60] + b[60..68] + b[68..100] + b[100..132] == prefix + b[4..132]
  {
    assert prefix + b[4..24] + b[24..56] == prefix + b[4..56];
    assert prefix + b[4..56] + b[56..58] == prefix + b[4..58];
    assert prefix + b[4..58] + b[58..60] == prefix + b[4..60];
    assert prefix + b[4..60] + b[60..68] == prefix + b[4..68];
    assert prefix + b[4..68] + b[68..100] == prefix + b[4..100];
    assert prefix + b[4..100] + b[100..132] == prefix + b[4..132];
  }

  lemma ReencodeBytes(bytes: seq<Byte>)
    requires |bytes| >= SIGNED_QUOTE_BODY_LENGTH && Refusal(BodyOf(bytes)).None?
    ensures BodyBytes(BodyOf(bytes)) == SIGNED_QUOTE_PREFIX + bytes[4..SIGNED_QUOTE_BODY_LENGTH]
  {
    ToFromBE(bytes[56..58]);
    ToFromBE(bytes[58..60]);
    ToFromBE(bytes[60..68]);
    ToFromBE(bytes[68..100]);
    ToFromBE(bytes[100..132]);
    Rejoin(SIGNED_QUOTE_PREFIX, bytes);
  }
}
