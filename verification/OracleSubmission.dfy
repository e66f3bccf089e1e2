/** What an oracle node signs, and how the Solana program checks that it was signed: two builders of one byte string,
    and the verification instruction written on one side and read on the other. */
module OracleSubmission {
  import opened Options
  import opened Octets

  // "aegis-oracle-submission-v1"
  const DOMAIN: Bytes := [97, 101, 103, 105, 115, 45, 111, 114, 97, 99, 108, 101, 45, 115, 117, 98, 109, 105, 115, 115,
                          105, 111, 110, 45, 118, 49]
  const PUBKEY_LEN := 32
  const SIGNATURE_LEN := 64
  const MESSAGE_LEN := 26 + 32 + 8 + 8 + 32 + 16 + 32 + 8

  datatype Submission = Submission(program: Bytes, chainId: int, roundId: nat, feedId: Bytes, value: int, node: Bytes,
                                   nonce: nat)

  /** The fields' machine types; the value is a big integer. */
  ghost predicate Typed(s: Submission) {
    && |s.program| == 32 && |s.feedId| == 32 && |s.node| == 32
    && -128 * Pow256(7) <= s.chainId < 128 * Pow256(7)
    && s.roundId < Pow256(8) && s.nonce < Pow256(8)
  }

  predicate ValueFits(value: int) {
    0 <= value < Pow256(16)
  }

  /** uint64 of an int64. */
  function Unsigned64(n: int): int {
    if n < 0 then n + Pow256(8) else n
  }

  function Parts(s: Submission): seq<Bytes>
    requires Typed(s) && ValueFits(s.value)
  {
    [DOMAIN, s.program, LittleEndian(Unsigned64(s.chainId), 8), LittleEndian(s.roundId, 8), s.feedId,
     LittleEndian(s.value, 16), s.node, LittleEndian(s.nonce, 8)]
  }

  function MessageOf(s: Submission): Bytes
    requires Typed(s) && ValueFits(s.value)
  {
    Flat(Parts(s))
  }

  datatype Error = ValueDoesNotFit | InvalidSignatureInstruction | InvalidSignature

  /** Sixteen big-endian bytes, reversed in place. */
  method U128LittleEndian(v: nat) returns (b: Bytes)
    requires v < Pow256(16)
    ensures b == LittleEndian(v, 16)
  {
    hide LittleEndian, Pow256;
    var be := BigEndian(v, 16);
    var le := new Byte[16];
    for i := 0 to 16
      invariant forall k | 0 <= k < i :: le[15 - k] == be[k]
    {
      le[15 - i] := be[i];
    }
    b := le[..];
    assert Reversed(be) == LittleEndian(v, 16);
    assert b == Reversed(be);
  }

  /** The node's builder, appending field by field. */
  method SubmissionMessage(s: Submission) returns (r: Result<Bytes, Error>)
    requires Typed(s)
    ensures r == if ValueFits(s.value) then Ok(MessageOf(s)) else Err(ValueDoesNotFit)
    ensures r.Ok? <==> 0 <= s.value <= 0xffff_ffff_ffff_ffff_ffff_ffff_ffff_ffff
  {
    WidePowers();
    if s.value < 0 || s.value > Pow256(16) - 1 {
      return Err(ValueDoesNotFit);
    }
    hide LittleEndian, Pow256;
    ghost var parts := Parts(s);
    var out: Bytes := [];
    assert parts[..0] == [];
    out := Append(out, DOMAIN, parts, 0);
    out := Append(out, s.program, parts, 1);
    out := Append(out, LittleEndian(Unsigned64(s.chainId), 8), parts, 2);
    out := Append(out, LittleEndian(s.roundId, 8), parts, 3);
    out := Append(out, s.feedId, parts, 4);
    var value := U128LittleEndian(s.value);
    out := Append(out, value, parts, 5);
    out := Append(out, s.node, parts, 6);
    out := Append(out, LittleEndian(s.nonce, 8), parts, 7);
    assert parts[..8] == parts;
    return Ok(out);
  }

  method Append(out: Bytes, part: Bytes, ghost parts: seq<Bytes>, ghost i: nat) returns (longer: Bytes)
    requires i < |parts| && out == Flat(parts[..i]) && part == parts[i]
    ensures longer == Flat(parts[..i + 1])
  {
    longer := out + part;
    FlatAppend(parts[..i], part);
    assert parts[..i + 1] == parts[..i] + [parts[i]];
  }

  /** The program's builder, copying each field into a fixed buffer at a running offset. */
  method ProgramMessage(s: Submission) returns (message: Bytes)
    requires Typed(s) && ValueFits(s.value)
    ensures message == MessageOf(s) && |message| == MESSAGE_LEN
  {
    Unsigned64Injective(s.chainId, s.chainId);
    hide LittleEndian, Pow256;
    ghost var parts := Parts(s);
    MessageLength(s);
    var out := new Byte[MESSAGE_LEN];
    var at: nat := 0;
    var fields := [DOMAIN, s.program, LittleEndian(Unsigned64(s.chainId), 8), LittleEndian(s.roundId, 8), s.feedId,
                   LittleEndian(s.value, 16), s.node, LittleEndian(s.nonce, 8)];
    assert parts[..0] == [];
    for i := 0 to |fields|
      invariant at <= out.Length && out[..at] == Flat(parts[..i])
    {
      at := Put(out, at, fields[i], parts, i);
    }
    assert parts[..8] == parts;
    message := out[..];
    assert |out[..at]| == |Flat(parts)|;
  }

  method Put(out: array<Byte>, at: nat, part: Bytes, ghost parts: seq<Bytes>, ghost i: nat) returns (end: nat)
    requires i < |parts| && part == parts[i] && |Flat(parts)| == out.Length
    requires at <= out.Length && out[..at] == Flat(parts[..i])
    modifies out
    ensures end <= out.Length && out[..end] == Flat(parts[..i + 1])
  {
    FlatSlice(parts, i);
    end := at + |part|;
    for k := 0 to |part|
      invariant out[..at] == old(out[..at])
      invariant out[at..at + k] == part[..k]
    {
      out[at + k] := part[k];
    }
    assert part[..|part|] == part;
    assert out[..end] == out[..at] + out[at..end];
    FlatAppend(parts[..i], part);
    assert parts[..i + 1] == parts[..i] + [parts[i]];
  }

  lemma MessageLength(s: Submission)
    requires Typed(s) && ValueFits(s.value)
    ensures |MessageOf(s)| == MESSAGE_LEN
  {
    hide LittleEndian, Pow256;
    FlatLength8(Parts(s));
  }

  lemma FlatLength8(p: seq<Bytes>)
    requires |p| == 8
    ensures |Flat(p)| == |p[0]| + |p[1]| + |p[2]| + |p[3]| + |p[4]| + |p[5]| + |p[6]| + |p[7]|
  {
    assert p[..0] == [] && p[..8] == p;
    for i := 0 to 8
      invariant |Flat(p[..i])| == (if i > 0 then |p[0]| else 0) + (if i > 1 then |p[1]| else 0)
                + (if i > 2 then |p[2]| else 0)
                                  + (if i > 3 then |p[3]| else 0) + (if i > 4 then |p[4]| else 0)
                                      + (if i > 5 then |p[5]| else 0)
                                  + (if i > 6 then |p[6]| else 0) + (if i > 7 then |p[7]| else 0)
    {
      FlatAppend(p[..i], p[i]);
      assert p[..i + 1] == p[..i] + [p[i]];
    }
  }

  lemma PartAt(p: seq<Bytes>, i: nat, start: nat)
    requires i < |p| && |Flat(p[..i])| == start
    ensures var end := start + |p[i]|;
            end <= |Flat(p)| && Flat(p)[start..end] == p[i] && |Flat(p[..i + 1])| == end
  {
    FlatSlice(p, i);
    FlatAppend(p[..i], p[i]);
    assert p[..i + 1] == p[..i] + [p[i]];
  }

  /** Where each field lies in the bytes that are signed. */
  lemma FieldsInPlace(s: Submission)
    requires Typed(s) && ValueFits(s.value)
    ensures var m := MessageOf(s);
            && |m| == 162 && (forall i | 0 <= i < 26 :: m[i] == "aegis-oracle-submission-v1"[i] as int)
            && m[26..58] == s.program
            && s.chainId == FromLittleEndian(m[58..66]) - (if s.chainId < 0 then 0x1_0000_0000_0000_0000 else 0)
            && s.roundId == FromLittleEndian(m[66..74]) && m[74..106] == s.feedId
            && s.value == FromLittleEndian(m[106..122]) && m[122..154] == s.node
            && s.nonce == FromLittleEndian(m[154..162])
  {
    PartsInPlace(s);
    Unsigned64Injective(s.chainId, s.chainId);
    LittleEndianReads(Unsigned64(s.chainId), 8);
    LittleEndianReads(s.roundId, 8);
    LittleEndianReads(s.value, 16);
    LittleEndianReads(s.nonce, 8);
    MessageLength(s);
    assert Pow256(4) == 0x1_0000_0000 && Pow256(8) == 0x1_0000_0000_0000_0000;
    hide Pow256, LittleEndian, FromLittleEndian, MessageOf;
    DomainText();
    assert forall i | 0 <= i < 26 :: MessageOf(s)[i] == MessageOf(s)[0..26][i];
  }

  lemma DomainText()
    ensures |DOMAIN| == 26 && forall i | 0 <= i < 26 :: DOMAIN[i] == "aegis-oracle-submission-v1"[i] as int
  {
  }

  lemma PartsInPlace(s: Submission)
    requires Typed(s) && ValueFits(s.value)
    ensures var m, p := MessageOf(s), Parts(s);
            && |m| == 162 && m[0..26] == p[0] && m[26..58] == p[1] && m[58..66] == p[2] && m[66..74] == p[3]
            && m[74..106] == p[4] && m[106..122] == p[5] && m[122..154] == p[6] && m[154..162] == p[7]
  {
    Unsigned64Injective(s.chainId, s.chainId);
    MessageLength(s);
    hide LittleEndian, Pow256;
    var p := Parts(s);
    assert p[..0] == [];
    hide Flat;
    EmptyFlat();
    PartAt(p, 0, 0);
    PartAt(p, 1, 26);
    PartAt(p, 2, 58);
    PartAt(p, 3, 66);
    PartAt(p, 4, 74);
    PartAt(p, 5, 106);
    PartAt(p, 6, 122);
    PartAt(p, 7, 154);
  }

  lemma EmptyFlat()
    ensures Flat([]) == []
  {
  }

  lemma Unsigned64Injective(a: int, b: int)
    requires -128 * Pow256(7) <= a < 128 * Pow256(7) && -128 * Pow256(7) <= b < 128 * Pow256(7)
    ensures 0 <= Unsigned64(a) < Pow256(8)
    ensures Unsigned64(a) == Unsigned64(b) ==> a == b
  {
  }

  /** No two submissions share a message: the signed bytes determine all seven fields. */
  lemma MessageBindsEveryField(a: Submission, b: Submission)
    requires Typed(a) && Typed(b) && ValueFits(a.value) && ValueFits(b.value)
    requires MessageOf(a) == MessageOf(b)
    ensures a == b
  {
    var p, q := Parts(a), Parts(b);
    FlatInjective(p, q);
    Unsigned64Injective(a.chainId, b.chainId);
    Unsigned64Injective(b.chainId, a.chainId);
    LittleEndianReads(Unsigned64(a.chainId), 8);
    LittleEndianReads(Unsigned64(b.chainId), 8);
    LittleEndianReads(a.roundId, 8);
    LittleEndianReads(b.roundId, 8);
    LittleEndianReads(a.value, 16);
    LittleEndianReads(b.value, 16);
    LittleEndianReads(a.nonce, 8);
    LittleEndianReads(b.nonce, 8);
    hide Pow256, LittleEndian, FromLittleEndian;
    assert p[1] == q[1] && p[2] == q[2] && p[3] == q[3] && p[4] == q[4] && p[5] == q[5] && p[6] == q[6] && p[7] == q[7];
  }

  // ----- The verification instruction ----------------------------------------------------------

  const OWN_DATA := 0xffff
  const OFFSETS_START := 2
  const OFFSETS_LEN := 14

  function U16(n: nat): Bytes {
    LittleEndian(n % 0x1_0000, 2)
  }

  /** Solana's layout for one signature: a count, padding, seven offsets into this data, then key, signature,
      message. */
  function InstructionParts(signer: Bytes, signature: Bytes, message: Bytes): seq<Bytes> {
    [[1, 0], U16(48), U16(OWN_DATA), U16(16), U16(OWN_DATA), U16(112), U16(|message|), U16(OWN_DATA), signer, signature,
     message]
  }

  /** The node's instruction builder; `signature` is the key's over the message. */
  method Ed25519Instruction(signer: Bytes, signature: Bytes, message: Bytes) returns (data: Bytes)
    ensures data == Flat(InstructionParts(signer, signature, message))
  {
    hide LittleEndian;
    ghost var parts := InstructionParts(signer, signature, message);
    var pubkeyOffset := 16;
    var sigOffset := pubkeyOffset + 32;
    var msgOffset := sigOffset + 64;
    data := [];
    assert parts[..0] == [];
    data := Append(data, [1, 0], parts, 0);
    var offsets := [sigOffset, OWN_DATA, pubkeyOffset, OWN_DATA, msgOffset, |message|, OWN_DATA];
    for i := 0 to |offsets|
      invariant data == Flat(parts[..i + 1])
    {
      data := Append(data, U16(offsets[i]), parts, i + 1);
    }
    data := Append(data, signer, parts, 8);
    data := Append(data, signature, parts, 9);
    data := Append(data, message, parts, 10);
    assert parts[..11] == parts;
  }

  /** The `k`-th 16-bit number of the offsets. */
  function Offset(data: Bytes, k: nat): nat
    requires k < 7 && |data| >= OFFSETS_START + OFFSETS_LEN
  {
    FromLittleEndian(data[2 + 2 * k..4 + 2 * k])
  }

  function Slice(data: Bytes, offset: nat, len: nat): Result<Bytes, Error> {
    if offset + len <= |data| then Ok(data[offset..offset + len]) else Err(InvalidSignatureInstruction)
  }

  /** The program's check of the instruction before its own: it verified one signature, by `signer`, over `message`,
      with every offset reading that instruction's own data. */
  function VerifiedSignature(isEd25519: bool, accounts: nat, data: Bytes, signer: Bytes,
                             message: Bytes): Result<Bytes, Error> {
    if !isEd25519 || accounts != 0 || |data| < OFFSETS_START + OFFSETS_LEN
        || data[0] != 1 then Err(InvalidSignatureInstruction)
    else if Offset(data, 1) != OWN_DATA || Offset(data, 3) != OWN_DATA || Offset(data, 6) != OWN_DATA then
      Err(InvalidSignatureInstruction)
    else
      var key := Slice(data, Offset(data, 2), PUBKEY_LEN);
      if key.Err? then Err(key.error)
      else if key.value != signer || Offset(data, 5) != |message| then Err(InvalidSignature)
      else
        var read := Slice(data, Offset(data, 4), Offset(data, 5));
        if read.Err? then Err(read.error)
        else if read.value != message then Err(InvalidSignature)
        else Slice(data, Offset(data, 0), SIGNATURE_LEN)
  }

  /** Two bytes, the low one first. */
  function TwoAt(data: Bytes, at: nat): nat
    requires at + 2 <= |data|
  {
    var low: nat, high: nat := data[at], data[at + 1];
    low + 256 * high
  }

  lemma OffsetInFull(data: Bytes, k: nat)
    requires k < 7 && |data| >= 16
    ensures Offset(data, k) == TwoAt(data, 2 + 2 * k)
  {
    var two := data[2 + 2 * k..4 + 2 * k];
    assert two[1..][1..] == [];
    assert FromLittleEndian(two[1..]) == two[1];
  }

  /** One signature, and all three instruction indices say this instruction. */
  predicate OneOwnSignature(isEd25519: bool, accounts: nat, data: Bytes) {
    && isEd25519 && accounts == 0 && |data| >= 16 && data[0] == 1
    && data[4..6] == data[8..10] == data[14..16] == [0xff, 0xff]
  }

  /** The check by the instruction's bytes: what passes, and which of the two errors anything else gives. */
  lemma CheckInFull(isEd25519: bool, accounts: nat, data: Bytes, signer: Bytes, message: Bytes)
    requires |signer| == 32
    ensures var r := VerifiedSignature(isEd25519, accounts, data, signer, message);
            if !OneOwnSignature(isEd25519, accounts, data) || TwoAt(data, 6) + 32 > |data|
            then r == Err(InvalidSignatureInstruction)
            else if data[TwoAt(data, 6)..TwoAt(data, 6) + 32] != signer || TwoAt(data, 12) != |message|
            then r == Err(InvalidSignature)
            else if TwoAt(data, 10) + |message| > |data| then r == Err(InvalidSignatureInstruction)
            else if data[TwoAt(data, 10)..TwoAt(data, 10) + |message|] != message then r == Err(InvalidSignature)
            else if TwoAt(data, 2) + 64 > |data| then r == Err(InvalidSignatureInstruction)
            else r == Ok(data[TwoAt(data, 2)..TwoAt(data, 2) + 64])
  {
    if |data| >= 16 {
      forall k: nat | k < 7 ensures Offset(data, k) == TwoAt(data, 2 + 2 * k) { OffsetInFull(data, k); }
      OwnIndex(data, 4);
      OwnIndex(data, 8);
      OwnIndex(data, 14);
      hide Offset, FromLittleEndian;
      assert Offset(data, 0) == TwoAt(data, 2) && Offset(data, 1) == TwoAt(data, 4)
             && Offset(data, 2) == TwoAt(data, 6);
      assert Offset(data, 3) == TwoAt(data, 8) && Offset(data, 4) == TwoAt(data, 10);
      assert Offset(data, 5) == TwoAt(data, 12) && Offset(data, 6) == TwoAt(data, 14);
    }
  }

  lemma OwnIndex(data: Bytes, at: nat)
    requires at + 2 <= |data|
    ensures TwoAt(data, at) == 0xffff <==> data[at..at + 2] == [0xff, 0xff]
  {
    assert data[at..at + 2] == [data[at], data[at + 1]];
  }

  datatype Instruction = Instruction(isEd25519: bool, accounts: nat, data: Bytes)

  /** The oracle program at index `current` looks at the instruction before it. */
  function VerifyPrevious(ixs: seq<Instruction>, current: nat, signer: Bytes, message: Bytes): Result<Bytes, Error>
    requires current < |ixs|
  {
    if current == 0 then Err(InvalidSignatureInstruction)
    else
      var previous := ixs[current - 1];
      VerifiedSignature(previous.isEd25519, previous.accounts, previous.data, signer, message)
  }

  // ----- What the runtime verified -------------------------------------------------------------

  datatype Verified = Verified(key: Bytes, message: Bytes, signature: Bytes)

  /** The bytes an offset names in a transaction whose instructions carry `datas`: the own-data index means the
      instruction at `at` itself, any other index the instruction at that place. */
  function Named(datas: seq<Bytes>, at: nat, index: nat, offset: nat, len: nat): Option<Bytes>
    requires at < |datas|
  {
    if index != OWN_DATA && index >= |datas| then None
    else
      var data := if index == OWN_DATA then datas[at] else datas[index];
      if offset + len > |data| then None else Some(data[offset..offset + len])
  }

  /** One signature that verifies: its parts are where these seven offsets say. */
  function Located(datas: seq<Bytes>, at: nat, offsets: Bytes): Option<Verified>
    requires at < |datas| && |offsets| >= OFFSETS_START + OFFSETS_LEN
  {
    var key := Named(datas, at, Offset(offsets, 3), Offset(offsets, 2), PUBKEY_LEN);
    var message := Named(datas, at, Offset(offsets, 6), Offset(offsets, 4), Offset(offsets, 5));
    var signature := Named(datas, at, Offset(offsets, 1), Offset(offsets, 0), SIGNATURE_LEN);
    if key.None? || message.None? || signature.None? then None
    else Some(Verified(key.value, message.value, signature.value))
  }

  /** Entry `i` of the instruction. */
  function Entry(datas: seq<Bytes>, at: nat, i: nat): Option<Verified>
    requires at < |datas| && |datas[at]| >= OFFSETS_START + (i + 1) * OFFSETS_LEN
  {
    Located(datas, at, datas[at][..OFFSETS_START]
            + datas[at][OFFSETS_START + i * OFFSETS_LEN..OFFSETS_START + (i + 1) * OFFSETS_LEN])
  }

  function Entries(datas: seq<Bytes>, at: nat, n: nat): (r: Option<seq<Verified>>)
    requires at < |datas| && |datas[at]| >= OFFSETS_START + n * OFFSETS_LEN
    ensures r.Some? ==> |r.value| == n
  {
    if n == 0 then Some([])
    else
      var init, last := Entries(datas, at, n - 1), Entry(datas, at, n - 1);
      if init.None? || last.None? then None else Some(init.value + [last.value])
  }

  /** Everything the Ed25519 program verified when the instruction at `at` runs; a transaction with an instruction for
      which this is None fails. */
  function RuntimeVerified(datas: seq<Bytes>, at: nat): Option<seq<Verified>>
    requires at < |datas|
  {
    var data := datas[at];
    if |data| < OFFSETS_START || |data| < OFFSETS_START + data[0] * OFFSETS_LEN then None
        else Entries(datas, at, data[0])
  }

  /** Wherever the instruction stands and whatever the others hold, the runtime verifies just this one signature. */
  ghost predicate AlwaysVerifies(data: Bytes, v: Verified) {
    forall datas: seq<Bytes>, at: nat | at < |datas| && datas[at] == data :: RuntimeVerified(datas, at) == Some([v])
  }

  /** The program's check passes exactly when an Ed25519 instruction without accounts stands before it whose bytes alone
      decide what the runtime verifies: one signature, by this signer, over this very message. It then returns that
      signature. */
  lemma CheckMeansVerified(ixs: seq<Instruction>, current: nat, signer: Bytes, message: Bytes, signature: Bytes)
    requires current < |ixs| && message != []
    ensures VerifyPrevious(ixs, current, signer, message) == Ok(signature) <==>
            current > 0 && ixs[current - 1].isEd25519 && ixs[current - 1].accounts == 0
            && AlwaysVerifies(ixs[current - 1].data, Verified(signer, message, signature))
  {
    if current > 0 {
      var data, v := ixs[current - 1].data, Verified(signer, message, signature);
      if AlwaysVerifies(data, v) {
        AlwaysMeansOwnData(data, v);
      }
      if VerifiedSignature(true, 0, data, signer, message) == Ok(signature) {
        OwnDataAlwaysVerifies(data, v);
      }
      hide AlwaysVerifies, Offset, Slice;
    }
  }

  lemma OwnDataAlwaysVerifies(data: Bytes, v: Verified)
    requires VerifiedSignature(true, 0, data, v.key, v.message) == Ok(v.signature)
    ensures AlwaysVerifies(data, v)
  {
    hide FromLittleEndian;
    forall datas: seq<Bytes>, at: nat | at < |datas| && datas[at] == data
        ensures RuntimeVerified(datas, at) == Some([v]) {
      FirstEntry(datas, at);
    }
  }

  /** The first entry's offsets are those the program reads. */
  lemma FirstEntry(datas: seq<Bytes>, at: nat)
    requires at < |datas| && |datas[at]| >= OFFSETS_START + OFFSETS_LEN
    ensures var v := Located(datas, at, datas[at]); Entries(datas, at, 1) == if v.Some? then Some([v.value]) else None
  {
    hide FromLittleEndian, Named;
    var d := datas[at];
    var offsets := d[..OFFSETS_START] + d[OFFSETS_START + 0 * OFFSETS_LEN..OFFSETS_START + (0 + 1) * OFFSETS_LEN];
    assert offsets == d[..16];
    SameOffsets(datas, at, d);
    hide Located;
    var v := Entry(datas, at, 0);
    assert v == Located(datas, at, d);
    assert v.Some? ==> [] + [v.value] == [v.value];
    assert Entries(datas, at, 0) == Some([]);
    hide Entry;
  }

  lemma SameOffsets(datas: seq<Bytes>, at: nat, d: Bytes)
    requires at < |datas| && |d| >= OFFSETS_START + OFFSETS_LEN
    ensures Located(datas, at, d[..16]) == Located(datas, at, d)
  {
    hide FromLittleEndian, Named;
    assert d[..16][2..4] == d[2..4] && d[..16][4..6] == d[4..6] && d[..16][6..8] == d[6..8]
           && d[..16][8..10] == d[8..10];
    assert d[..16][10..12] == d[10..12] && d[..16][12..14] == d[12..14] && d[..16][14..16] == d[14..16];
  }

  /** In a transaction of its own an index must be zero or the own-data one, and behind an empty instruction zero reads
      nothing. */
  lemma AlwaysMeansOwnData(data: Bytes, v: Verified)
    requires AlwaysVerifies(data, v) && v.message != []
    ensures VerifiedSignature(true, 0, data, v.key, v.message) == Ok(v.signature)
  {
    var alone, behind := [data], [[], data];
    assert alone[0] == data && behind[1] == data;
    assert RuntimeVerified(alone, 0) == Some([v]) && RuntimeVerified(behind, 1) == Some([v]);
    assert data[0] == 1;
    FirstEntry(alone, 0);
    FirstEntry(behind, 1);
    hide Entries, Entry, AlwaysVerifies, Named, Offset, Slice;
    assert Located(alone, 0, data) == Some(v) && Located(behind, 1, data).Some?;
    MustBeOwn(data, Offset(data, 3), Offset(data, 2), PUBKEY_LEN);
    MustBeOwn(data, Offset(data, 1), Offset(data, 0), SIGNATURE_LEN);
    MustBeOwn(data, Offset(data, 6), Offset(data, 4), Offset(data, 5));
  }

  lemma MustBeOwn(data: Bytes, index: nat, offset: nat, len: nat)
    requires Named([data], 0, index, offset, len).Some? && Named([[], data], 1, index, offset, len).Some?
    ensures var read := Named([data], 0, index, offset, len).value;
            |read| == len && (len > 0 ==> index == OWN_DATA && Slice(data, offset, len) == Ok(read))
  {
  }

  lemma U16Reads(n: nat)
    requires n < 0x1_0000
    ensures FromLittleEndian(U16(n)) == n
  {
    hide LittleEndian, FromLittleEndian;
    assert Pow256(1) == 256 && Pow256(2) == 0x1_0000;
    assert n % 0x1_0000 == n;
    LittleEndianReads(n, 2);
  }

  lemma {:induction false} HeaderLength(parts: seq<Bytes>, i: nat)
    requires 0 < i <= 8 <= |parts| && forall k | 0 <= k < 8 :: |parts[k]| == 2
    ensures |Flat(parts[..i])| == 2 * i
  {
    if i == 1 {
      assert parts[..1] == [] + [parts[0]];
      FlatAppend([], parts[0]);
    } else {
      HeaderLength(parts, i - 1);
      assert parts[..i] == parts[..i - 1] + [parts[i - 1]];
      FlatAppend(parts[..i - 1], parts[i - 1]);
    }
  }

  lemma InstructionOffsets(signer: Bytes, signature: Bytes, message: Bytes, k: nat)
    requires k < 7
    ensures var data := Flat(InstructionParts(signer, signature, message));
            |data| >= 16 && data[0] == 1 && Offset(data, k)
                == FromLittleEndian(InstructionParts(signer, signature, message)[k + 1])
  {
    hide LittleEndian, FromLittleEndian;
    var parts := InstructionParts(signer, signature, message);
    HeaderLength(parts, k + 1);
    FlatSlice(parts, k + 1);
    HeaderLength(parts, 8);
    FlatSlice(parts, 8);
    HeaderLength(parts, 1);
    FlatSlice(parts, 0);
    assert parts[..0] == [];
  }

  lemma InstructionPieces(signer: Bytes, signature: Bytes, message: Bytes)
    requires |signer| == 32 && |signature| == 64
    ensures var data := Flat(InstructionParts(signer, signature, message));
            |data| == 112 + |message| && data[16..48] == signer && data[48..112] == signature && data[112..] == message
  {
    hide LittleEndian;
    var parts := InstructionParts(signer, signature, message);
    HeaderLength(parts, 8);
    FlatSlice(parts, 8);
    FlatSlice(parts, 9);
    FlatSlice(parts, 10);
    FlatAppend(parts[..8], parts[8]);
    FlatAppend(parts[..9], parts[9]);
    FlatAppend(parts[..10], parts[10]);
    assert parts[..9] == parts[..8] + [parts[8]] && parts[..10] == parts[..9] + [parts[9]];
    assert parts == parts[..10] + [parts[10]];
  }

  lemma InstructionHeader(signer: Bytes, signature: Bytes, message: Bytes)
    ensures var data := Flat(InstructionParts(signer, signature, message));
            && |data| >= 16 && data[0] == 1
            && Offset(data, 0) == 48 && Offset(data, 1) == OWN_DATA && Offset(data, 2) == 16
                && Offset(data, 3) == OWN_DATA
            && Offset(data, 4) == 112 && Offset(data, 5) == |message| % 0x1_0000 && Offset(data, 6) == OWN_DATA
  {
    hide LittleEndian, FromLittleEndian, Flat, Offset;
    InstructionOffsets(signer, signature, message, 0);
    InstructionOffsets(signer, signature, message, 1);
    InstructionOffsets(signer, signature, message, 2);
    InstructionOffsets(signer, signature, message, 3);
    InstructionOffsets(signer, signature, message, 4);
    InstructionOffsets(signer, signature, message, 5);
    InstructionOffsets(signer, signature, message, 6);
    U16Reads(48);
    U16Reads(16);
    U16Reads(112);
    U16Reads(OWN_DATA);
    U16Reads(|message| % 0x1_0000);
    assert U16(|message|) == U16(|message| % 0x1_0000);
  }

  /** The node's instruction byte by byte. */
  lemma InstructionInPlace(signer: Bytes, signature: Bytes, message: Bytes)
    requires |signer| == 32 && |signature| == 64
    ensures var data := Flat(InstructionParts(signer, signature, message));
            && |data| == 112 + |message| && data[16..48] == signer && data[48..112] == signature
            && data[112..] == message
            && data[0] == 1 && data[1] == 0 && TwoAt(data, 2) == 48 && TwoAt(data, 6) == 16 && TwoAt(data, 10) == 112
            && TwoAt(data, 12) == |message| % 0x1_0000
            && data[4..6] == data[8..10] == data[14..16] == [0xff, 0xff]
  {
    var parts := InstructionParts(signer, signature, message);
    var data := Flat(parts);
    InstructionPieces(signer, signature, message);
    InstructionHeader(signer, signature, message);
    assert parts[0] == [1, 0] && parts[..0] == [];
    FlatSlice(parts, 0);
    hide LittleEndian, FromLittleEndian, Flat, Offset, InstructionParts, TwoAt;
    assert data[0..2] == [1, 0] && data[1] == data[0..2][1];
    forall k: nat | k < 7 ensures Offset(data, k) == TwoAt(data, 2 + 2 * k) { OffsetInFull(data, k); }
    assert Offset(data, 0) == TwoAt(data, 2) && Offset(data, 1) == TwoAt(data, 4) && Offset(data, 2) == TwoAt(data, 6);
    assert Offset(data, 3) == TwoAt(data, 8) && Offset(data, 4) == TwoAt(data, 10);
    assert Offset(data, 5) == TwoAt(data, 12) && Offset(data, 6) == TwoAt(data, 14);
    OwnIndex(data, 4);
    OwnIndex(data, 8);
    OwnIndex(data, 14);
  }

  /** The program accepts the node's instruction exactly when the message's length fits the 16 bits written for it. */
  lemma BuilderIsAcceptedExactlyWhen(signer: Bytes, signature: Bytes, message: Bytes)
    requires |signer| == 32 && |signature| == 64
    ensures VerifiedSignature(true, 0, Flat(InstructionParts(signer, signature, message)), signer, message)
            == Ok(signature)
            <==> |message| < 0x1_0000
  {
    hide LittleEndian, FromLittleEndian, Flat, Offset, InstructionParts;
    var data := Flat(InstructionParts(signer, signature, message));
    InstructionPieces(signer, signature, message);
    InstructionHeader(signer, signature, message);
    assert data[112..112 + |message|] == message;
  }

  /** A submission's message is well inside that limit, so a node's own submission is always accepted. */
  lemma SubmissionsAreAccepted(s: Submission, signature: Bytes)
    requires Typed(s) && ValueFits(s.value) && |signature| == 64
    ensures VerifiedSignature(true, 0, Flat(InstructionParts(s.node, signature, MessageOf(s))), s.node, MessageOf(s))
            == Ok(signature)
  {
    hide VerifiedSignature, MessageOf, InstructionParts, Flat;
    MessageLength(s);
    BuilderIsAcceptedExactlyWhen(s.node, signature, MessageOf(s));
  }
}
