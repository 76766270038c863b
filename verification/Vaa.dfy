/**
 * Version 1 VAAs: the signed message a delivery carries, and the double hash under
 * which the destination remembers it. The hash function is a parameter.
 */
module Vaa {
  import opened Basics
  import opened Bytes

  const BODY_PREFIX_LENGTH: nat := 51
  const VAA_VERSION: nat := 1
  const SIGNATURE_LENGTH: nat := 66
  const HEADER_PREFIX_LENGTH: nat := 6
  const UINT16_MAX: nat := 0xFFFF
  const UINT32_MAX: nat := 0xFFFF_FFFF
  const UINT64_MAX: nat := 0xFFFF_FFFF_FFFF_FFFF

  type Hash = seq<Byte> -> seq<Byte>

  datatype Fields = Fields(
    timestamp: int, nonce: int, emitterChainId: int, emitterAddress: seq<Byte>, sequence: int,
    consistencyLevel: int, payload: seq<Byte>)

  datatype Signature = Signature(r: seq<Byte>, s: seq<Byte>, v: int)

  datatype Packed = Packed(vaa: seq<Byte>, hash: seq<Byte>)

  datatype Parsed = Parsed(
    version: nat, guardianSetIndex: nat, numSignatures: nat, fields: Fields, hash: seq<Byte>)

  datatype VaaError =
    | TimestampRange | NonceRange | ChainRange | SequenceRange | ConsistencyRange | EmitterLength
    | GuardianSetRange | SignatureTooLong
    | TooShort | UnsupportedVersion | TooShortForSignatures

  // ---- The layout ----

  /** The first check that a body's fields fail. */
  function Refusal(f: Fields): Option<VaaError> {
    if f.timestamp < 0 || f.timestamp > UINT32_MAX then Some(TimestampRange)
    else if f.nonce < 0 || f.nonce > UINT32_MAX then Some(NonceRange)
    else if f.emitterChainId < 0 || f.emitterChainId > UINT16_MAX then Some(ChainRange)
    else if f.sequence < 0 || f.sequence > UINT64_MAX then Some(SequenceRange)
    else if f.consistencyLevel < 0 || f.consistencyLevel > 0xFF then Some(ConsistencyRange)
    else if |f.emitterAddress| != 32 then Some(EmitterLength)
    else None
  }

  function BodyBytes(f: Fields): (b: seq<Byte>)
    requires Refusal(f).None?
    ensures |b| == BODY_PREFIX_LENGTH + |f.payload|
  {
    ToBE(f.timestamp, 4) + ToBE(f.nonce, 4) + ToBE(f.emitterChainId, 2) + f.emitterAddress
    + ToBE(f.sequence, 8) + [f.consistencyLevel] + f.payload
  }

  function FieldsOf(body: seq<Byte>): Fields
    requires |body| >= BODY_PREFIX_LENGTH
  {
    Fields(
      FromBE(body[0..4]), FromBE(body[4..8]), FromBE(body[8..10]), body[10..42], FromBE(body[42..50]),
      body[50], body[51..])
  }

  function DoubleHash(H: Hash, body: seq<Byte>): seq<Byte> {
    H(H(body))
  }

  function Header(guardianSetIndex: nat, numSignatures: Byte): (h: seq<Byte>)
    ensures |h| == HEADER_PREFIX_LENGTH
  {
    [VAA_VERSION] + ToBE(guardianSetIndex, 4) + [numSignatures]
  }

  /** The signature block: index, r, s and v written over 66 zero bytes in that order. */
  function SignatureBytes(guardianIndex: int, sig: Signature): (b: seq<Byte>)
    requires |sig.r| <= 65 && |sig.s| <= 33
    ensures |b| == SIGNATURE_LENGTH
  {
    var zeros: seq<Byte> := seq(SIGNATURE_LENGTH, _ => 0);
    var indexed := Overlay(zeros, 0, [guardianIndex % 256]);
    Overlay(Overlay(Overlay(indexed, 1, sig.r), 33, sig.s), 65, [sig.v % 256])
  }

  function Pack(
    H: Hash, f: Fields, guardianSetIndex: int, sign: seq<Byte> -> Signature, guardianIndex: int)
    : Result<Packed, VaaError>
  {
    if guardianSetIndex < 0 || guardianSetIndex > UINT32_MAX then Err(GuardianSetRange)
    else if Refusal(f).Some? then Err(Refusal(f).value)
    else
      var hash := DoubleHash(H, BodyBytes(f));
      var sig := sign(hash);
      if |sig.r| > 65 || |sig.s| > 33 then Err(SignatureTooLong)
      else Ok(Packed(Header(guardianSetIndex, 1) + SignatureBytes(guardianIndex, sig) + BodyBytes(f), hash))
  }

  function Parse(H: Hash, bytes: seq<Byte>): Result<Parsed, VaaError> {
    if |bytes| < HEADER_PREFIX_LENGTH then Err(TooShort)
    else if bytes[0] != VAA_VERSION then Err(UnsupportedVersion)
    else
      var start := HEADER_PREFIX_LENGTH + bytes[5] * SIGNATURE_LENGTH;
      if |bytes| < start + BODY_PREFIX_LENGTH then Err(TooShortForSignatures)
      else
        var body := bytes[start..];
        Ok(Parsed(bytes[0], FromBE(bytes[1..5]), bytes[5], FieldsOf(body), DoubleHash(H, body)))
  }

  // ---- The encoders, which fill buffers in place ----

  lemma BodyOverlays(f: Fields, zeros: seq<Byte>)
    requires Refusal(f).None? && |zeros| == BODY_PREFIX_LENGTH + |f.payload|
    ensures
      var b1 := Overlay(zeros, 0, ToBE(f.timestamp, 4));
      var b2 := Overlay(b1, 4, ToBE(f.nonce, 4));
      var b3 := Overlay(b2, 8, ToBE(f.emitterChainId, 2));
      var b4 := Overlay(b3, 10, f.emitterAddress);
      var b5 := Overlay(b4, 42, ToBE(f.sequence, 8));
      var b6 := Overlay(b5, 50, [f.consistencyLevel]);
      Overlay(b6, 51, f.payload) == BodyBytes(f)
  {
    var b1 := Overlay(zeros, 0, ToBE(f.timestamp, 4));
    var b2 := Overlay(b1, 4, ToBE(f.nonce, 4));
    assert b2[..8] == ToBE(f.timestamp, 4) + ToBE(f.nonce, 4);
    var b3 := Overlay(b2, 8, ToBE(f.emitterChainId, 2));
    assert b3[..10] == b2[..8] + ToBE(f.emitterChainId, 2);
    var b4 := Overlay(b3, 10, f.emitterAddress);
    assert b4[..42] == b3[..10] + f.emitterAddress;
    var b5 := Overlay(b4, 42, ToBE(f.sequence, 8));
    assert b5[..50] == b4[..42] + ToBE(f.sequence, 8);
    var b6 := Overlay(b5, 50, [f.consistencyLevel]);
    assert b6[..51] == b5[..50] + [f.consistencyLevel];
    assert Overlay(b6, 51, f.payload) == b6[..51] + f.payload;
  }

  method EncodeVaaBody(f: Fields) returns (r: Result<array<Byte>, VaaError>)
    ensures Refusal(f).Some? ==> r == Err(Refusal(f).value)
    ensures Refusal(f).None? ==> r.Ok? && fresh(r.value) && r.value[..] == BodyBytes(f)
  {
    var refusal := Refusal(f);
    if refusal.Some? {
      return Err(refusal.value);
    }
    var out := new Byte[BODY_PREFIX_LENGTH + |f.payload|](_ => 0);
    ghost var zeros := out[..];
    SetBE(out, 0, f.timestamp, 4);
    SetBE(out, 4, f.nonce, 4);
    SetBE(out, 8, f.emitterChainId, 2);
    SetBytes(out, 10, f.emitterAddress);
    SetBE(out, 42, f.sequence, 8);
    SetBytes(out, 50, [f.consistencyLevel]);
    SetBytes(out, BODY_PREFIX_LENGTH, f.payload);
    BodyOverlays(f, zeros);
    return Ok(out);
  }

  method FillHeader(guardianSetIndex: nat) returns (header: array<Byte>)
    ensures fresh(header) && header[..] == Header(guardianSetIndex, 1)
  {
    header := new Byte[HEADER_PREFIX_LENGTH](_ => 0);
    header[0] := VAA_VERSION;
    SetBE(header, 1, guardianSetIndex, 4);
    header[5] := 1;
    assert header[..] == [VAA_VERSION] + ToBE(guardianSetIndex, 4) + [1];
  }

  method FillSignature(guardianIndex: int, sig: Signature) returns (block: array<Byte>)
    requires |sig.r| <= 65 && |sig.s| <= 33
    ensures fresh(block) && block[..] == SignatureBytes(guardianIndex, sig)
  {
    block := new Byte[SIGNATURE_LENGTH](_ => 0);
    ghost var zeros: seq<Byte> := seq(SIGNATURE_LENGTH, _ => 0);
    assert block[..] == zeros;
    SetBytes(block, 0, [guardianIndex % 256]);
    SetBytes(block, 1, sig.r);
    SetBytes(block, 33, sig.s);
    SetBytes(block, 65, [sig.v % 256]);
  }

  lemma PackedLayout(header: seq<Byte>, block: seq<Byte>, body: seq<Byte>)
    requires |header| == 6 && |block| == 66
    ensures var vaa := header + block + body;
      vaa[..6] == header && vaa[72..] == body && forall k | 0 <= k < 66 :: vaa[6 + k] == block[k]
  {
  }

  /** Byte k of the signature block: index first, v last, s from 33 on over r from 1 on, zeros elsewhere. */
  function BlockByte(guardianIndex: int, sig: Signature, k: nat): Byte
    requires k < 66
  {
    if k == 0 then guardianIndex % 256
    else if k == 65 then sig.v % 256
    else if 33 <= k < 33 + |sig.s| then sig.s[k - 33]
    else if k - 1 < |sig.r| then sig.r[k - 1]
    else 0
  }

  lemma SignatureAt(guardianIndex: int, sig: Signature, k: nat)
    requires |sig.r| <= 65 && |sig.s| <= 33 && k < 66
    ensures SignatureBytes(guardianIndex, sig)[k] == BlockByte(guardianIndex, sig, k)
  {
    var zeros: seq<Byte> := seq(SIGNATURE_LENGTH, _ => 0);
    var b1 := Overlay(zeros, 0, [guardianIndex % 256]);
    var b2 := Overlay(b1, 1, sig.r);
    var b3 := Overlay(b2, 33, sig.s);
    OverlayAt(zeros, 0, [guardianIndex % 256], k);
    OverlayAt(b1, 1, sig.r, k);
    OverlayAt(b2, 33, sig.s, k);
    OverlayAt(b3, 65, [sig.v % 256], k);
  }

  method PackSignedVaa(
    H: Hash, f: Fields, guardianSetIndex: int, sign: seq<Byte> -> Signature, guardianIndex: int)
    returns (r: Result<Packed, VaaError>)
    ensures r == Pack(H, f, guardianSetIndex, sign, guardianIndex)
    ensures r.Ok? ==> |r.value.vaa| >= 123 && r.value.hash == H(H(r.value.vaa[72..])) && FieldsOf(r.value.vaa[72..]) == f
    ensures r.Ok? ==> r.value.vaa[..6] == [1] + ToBE(guardianSetIndex, 4) + [1]
    ensures r.Ok? ==> forall k | 0 <= k < 66 :: r.value.vaa[6 + k] == BlockByte(guardianIndex, sign(r.value.hash), k)
  {
    if guardianSetIndex < 0 || guardianSetIndex > UINT32_MAX {
      return Err(GuardianSetRange);
    }
    var encoded := EncodeVaaBody(f);
    if encoded.Err? {
      return Err(encoded.error);
    }
    var body := encoded.value[..];
    var hash := DoubleHash(H, body);
    var sig := sign(hash);
    var header := FillHeader(guardianSetIndex);
    if |sig.r| > 65 || |sig.s| > 33 {
      return Err(SignatureTooLong);
    }
    var block := FillSignature(guardianIndex, sig);
    PackedLayout(header[..], block[..], body);
    FieldsOfBody(f);
    forall k: nat | k < 66
      ensures block[..][k] == BlockByte(guardianIndex, sig, k)
    {
      SignatureAt(guardianIndex, sig, k);
    }
    return Ok(Packed(header[..] + block[..] + body, hash));
  }

  // ---- Bodies ----

  lemma BodySlices(f: Fields)
    requires Refusal(f).None?
    ensures var b := BodyBytes(f);
      && b[0..4] == ToBE(f.timestamp, 4) && b[4..8] == ToBE(f.nonce, 4)
      && b[8..10] == ToBE(f.emitterChainId, 2) && b[10..42] == f.emitterAddress
      && b[42..50] == ToBE(f.sequence, 8) && b[50] == f.consistencyLevel && b[51..] == f.payload
  {
  }

  /** Reading undoes writing for every body that is accepted, whatever the payload's length. */
  lemma FieldsOfBody(f: Fields)
    requires Refusal(f).None?
    ensures FieldsOf(BodyBytes(f)) == f
  {
    BodySlices(f);
    Widths();
    FromToBE(f.timestamp, 4);
    FromToBE(f.nonce, 4);
    FromToBE(f.emitterChainId, 2);
    FromToBE(f.sequence, 8);
  }

  /** Writing undoes reading for every byte string long enough to be a body. */
  lemma BodyOfFields(body: seq<Byte>)
    requires |body| >= BODY_PREFIX_LENGTH
    ensures Refusal(FieldsOf(body)).None? && BodyBytes(FieldsOf(body)) == body
  {
    Widths();
    FromBEBound(body[0..4]);
    FromBEBound(body[4..8]);
    FromBEBound(body[8..10]);
    FromBEBound(body[42..50]);
    ToFromBE(body[0..4]);
    ToFromBE(body[4..8]);
    ToFromBE(body[8..10]);
    ToFromBE(body[42..50]);
    assert body == body[0..4] + body[4..8] + body[8..10] + body[10..42] + body[42..50] + [body[50]] + body[51..];
  }

  // ---- Refusals, in numbers ----

  /** A body is refused for the first of its fields that does not fit. */
  lemma RefusalTable(f: Fields)
    ensures Refusal(f) == None <==>
      && 0 <= f.timestamp < 0x1_0000_0000 && 0 <= f.nonce < 0x1_0000_0000 && 0 <= f.emitterChainId < 0x1_0000
      && 0 <= f.sequence < 0x1_0000_0000_0000_0000 && 0 <= f.consistencyLevel < 256 && |f.emitterAddress| == 32
    ensures Refusal(f) == Some(TimestampRange) <==> !(0 <= f.timestamp < 0x1_0000_0000)
    ensures Refusal(f) == Some(NonceRange) <==> 0 <= f.timestamp < 0x1_0000_0000 && !(0 <= f.nonce < 0x1_0000_0000)
    ensures Refusal(f) == Some(ChainRange) ==>
      0 <= f.timestamp < 0x1_0000_0000 && 0 <= f.nonce < 0x1_0000_0000 && !(0 <= f.emitterChainId < 0x1_0000)
    ensures Refusal(f) == Some(SequenceRange) ==>
      0 <= f.emitterChainId < 0x1_0000 && !(0 <= f.sequence < 0x1_0000_0000_0000_0000)
    ensures Refusal(f) == Some(ConsistencyRange) ==>
      0 <= f.sequence < 0x1_0000_0000_0000_0000 && !(0 <= f.consistencyLevel < 256)
    ensures Refusal(f) == Some(EmitterLength) ==> 0 <= f.consistencyLevel < 256 && |f.emitterAddress| != 32
    ensures Refusal(f).Some? ==>
      Refusal(f).value in {TimestampRange, NonceRange, ChainRange, SequenceRange, ConsistencyRange, EmitterLength}
  {
  }

  /** Packing fails on the guardian set first, then on the fields, then on a signature that does not fit its block. */
  lemma PackOutcome(H: Hash, f: Fields, guardianSetIndex: int, sign: seq<Byte> -> Signature, guardianIndex: int)
    ensures match Pack(H, f, guardianSetIndex, sign, guardianIndex)
      case Err(GuardianSetRange) => !(0 <= guardianSetIndex < 0x1_0000_0000)
      case Err(SignatureTooLong) =>
        && 0 <= guardianSetIndex < 0x1_0000_0000 && Refusal(f).None?
        && var sig := sign(H(H(BodyBytes(f)))); |sig.r| > 65 || |sig.s| > 33
      case Err(e) => 0 <= guardianSetIndex < 0x1_0000_0000 && Refusal(f) == Some(e)
      case Ok(p) =>
        && 0 <= guardianSetIndex < 0x1_0000_0000 && Refusal(f).None? && p.hash == H(H(BodyBytes(f)))
        && var sig := sign(p.hash); |sig.r| <= 65 && |sig.s| <= 33
  {
    RefusalTable(f);
  }

  /** What parses, what does not and why, and where every field comes from. */
  lemma ParseOutcome(H: Hash, bytes: seq<Byte>)
    ensures Parse(H, bytes) == Err(TooShort) <==> |bytes| < 6
    ensures Parse(H, bytes) == Err(UnsupportedVersion) <==> |bytes| >= 6 && bytes[0] != 1
    ensures Parse(H, bytes) == Err(TooShortForSignatures) <==> |bytes| >= 6 && bytes[0] == 1 && |bytes| < 6 + 66 * (bytes[5] as int) + 51
    ensures Parse(H, bytes).Ok? <==> |bytes| >= 6 && bytes[0] == 1 && |bytes| >= 6 + 66 * (bytes[5] as int) + 51
    ensures Parse(H, bytes).Ok? ==>
      var p := Parse(H, bytes).value;
      && p.version == 1 && p.guardianSetIndex == FromBE(bytes[1..5]) && p.numSignatures == bytes[5]
      && p.fields == FieldsOf(bytes[6 + 66 * (bytes[5] as int)..]) && p.hash == H(H(bytes[6 + 66 * (bytes[5] as int)..]))
  {
  }

  // ---- Whole VAAs ----

  /** Any header, any number of signature blocks of any content, then a body: parsing finds the body's own fields and hash. */
  lemma ParseAssembled(H: Hash, guardianSetIndex: nat, signatures: seq<Byte>, n: Byte, body: seq<Byte>)
    requires guardianSetIndex < 0x1_0000_0000 && |signatures| == n * 66 && |body| >= 51
    ensures Parse(H, Header(guardianSetIndex, n) + signatures + body) ==
      Ok(Parsed(1, guardianSetIndex, n, FieldsOf(body), H(H(body))))
  {
    var bytes := Header(guardianSetIndex, n) + signatures + body;
    assert bytes[0] == VAA_VERSION && bytes[5] == n;
    assert bytes[1..5] == ToBE(guardianSetIndex, 4);
    Widths();
    FromToBE(guardianSetIndex, 4);
    assert bytes[HEADER_PREFIX_LENGTH + n * SIGNATURE_LENGTH..] == body;
  }

  /** Parsing undoes packing, and finds the hash that was signed. */
  lemma ParseUndoesPack(
    H: Hash, f: Fields, guardianSetIndex: int, sign: seq<Byte> -> Signature, guardianIndex: int)
    requires Pack(H, f, guardianSetIndex, sign, guardianIndex).Ok?
    ensures var p := Pack(H, f, guardianSetIndex, sign, guardianIndex).value;
      Parse(H, p.vaa) == Ok(Parsed(1, guardianSetIndex, 1, f, p.hash))
  {
    var sig := sign(DoubleHash(H, BodyBytes(f)));
    ParseAssembled(H, guardianSetIndex, SignatureBytes(guardianIndex, sig), 1, BodyBytes(f));
    FieldsOfBody(f);
  }

  /** With 32-byte r and s the signature block is index, r, s, v; every part survives. */
  lemma SignatureLayout(guardianIndex: int, sig: Signature)
    requires |sig.r| == 32 && |sig.s| == 32
    ensures SignatureBytes(guardianIndex, sig) == [guardianIndex % 256] + sig.r + sig.s + [sig.v % 256]
  {
    var zeros: seq<Byte> := seq(SIGNATURE_LENGTH, _ => 0);
    var b1 := Overlay(zeros, 0, [guardianIndex % 256]);
    var b2 := Overlay(b1, 1, sig.r);
    assert b2[..33] == [guardianIndex % 256] + sig.r;
    var b3 := Overlay(b2, 33, sig.s);
    assert b3[..65] == b2[..33] + sig.s;
    assert Overlay(b3, 65, [sig.v % 256]) == b3[..65] + [sig.v % 256];
  }

  /** What a VAA that parses is made of: re-encoding its fields gives back every body byte. */
  lemma ParsedBytes(H: Hash, bytes: seq<Byte>)
    requires Parse(H, bytes).Ok?
    ensures var p := Parse(H, bytes).value;
      var start := 6 + 66 * p.numSignatures;
      && Refusal(p.fields).None?
      && 6 <= start <= |bytes| && p.numSignatures < 256
      && bytes[..6] == [1] + ToBE(p.guardianSetIndex, 4) + [p.numSignatures]
      && bytes[start..] == BodyBytes(p.fields)
      && p.hash == H(H(bytes[start..]))
  {
    var p := Parse(H, bytes).value;
    var start := HEADER_PREFIX_LENGTH + p.numSignatures * SIGNATURE_LENGTH;
    BodyOfFields(bytes[start..]);
    ToFromBE(bytes[1..5]);
    assert bytes[..HEADER_PREFIX_LENGTH] == [bytes[0]] + bytes[1..5] + [bytes[5]];
  }

  /** Two VAAs with the same body fields have the same hash, whatever guardian set or signatures they carry. */
  lemma HashDependsOnlyOnBody(H: Hash, x: seq<Byte>, y: seq<Byte>)
    requires Parse(H, x).Ok? && Parse(H, y).Ok?
    requires Parse(H, x).value.fields == Parse(H, y).value.fields
    ensures Parse(H, x).value.hash == Parse(H, y).value.hash
  {
    ParsedBytes(H, x);
    ParsedBytes(H, y);
  }

  /** Two VAAs with different fields and one hash would exhibit a collision of the hash function. */
  lemma DifferentFieldsCollide(H: Hash, x: seq<Byte>, y: seq<Byte>) returns (u: seq<Byte>, v: seq<Byte>)
    requires Parse(H, x).Ok? && Parse(H, y).Ok?
    requires Parse(H, x).value.fields != Parse(H, y).value.fields
    requires Parse(H, x).value.hash == Parse(H, y).value.hash
    ensures u != v && H(u) == H(v)
  {
    var f, g := Parse(H, x).value.fields, Parse(H, y).value.fields;
    ParsedBytes(H, x);
    ParsedBytes(H, y);
    FieldsOfBody(f);
    FieldsOfBody(g);
    u, v := BodyBytes(f), BodyBytes(g);
    if H(u) != H(v) {
      u, v := H(u), H(v);
    }
  }
}
