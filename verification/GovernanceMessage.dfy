/** Governance messages delivered to Solana: the Wormhole body, the version-1 payload, and the account list a vote
    binds. */
module GovernanceMessage {
  import opened Options
  import opened Octets

  const MESSAGE_VERSION := 1
  const MAX_INSTRUCTION_DATA := 512
  const VAA_HEADER_LEN := 4 + 4 + 2 + 32 + 8 + 1
  const MESSAGE_HEADER_LEN := 1 + 8 + 8 + 8 + 32 + 32
  const ACCOUNTS_HASH_LEN := 32

  datatype Error = MalformedVaa | MalformedMessage | UnsupportedVersion | InstructionDataTooLong

  datatype VaaBody = VaaBody(emitterChain: nat, emitterAddress: Bytes, sequence: nat, payload: Bytes)

  datatype Message = Message(sourceChainId: nat, operationId: nat, targetChainId: nat, target: Bytes,
                             declaredValue: Bytes, accountsHash: Bytes, instructionData: Bytes)

  function ParseVaaBody(body: Bytes): Result<VaaBody, Error> {
    if |body| < VAA_HEADER_LEN then Err(MalformedVaa)
    else Ok(VaaBody(FromBigEndian(body[8..10]), body[10..42], FromBigEndian(body[42..50]), body[VAA_HEADER_LEN..]))
  }

  function ParseMessage(payload: Bytes): Result<Message, Error> {
    if |payload| < MESSAGE_HEADER_LEN + ACCOUNTS_HASH_LEN then Err(MalformedMessage)
    else if payload[0] != MESSAGE_VERSION then Err(UnsupportedVersion)
    else
      var data := payload[MESSAGE_HEADER_LEN + ACCOUNTS_HASH_LEN..];
      if |data| > MAX_INSTRUCTION_DATA then Err(InstructionDataTooLong)
      else
        Ok(Message(FromBigEndian(payload[1..9]), FromBigEndian(payload[9..17]), FromBigEndian(payload[17..25]),
                   payload[25..57], payload[57..89], payload[89..121], data))
  }

  // ----- The writers ---------------------------------------------------------------------------

  /** The fields' machine types. */
  predicate Typed(m: Message) {
    && m.sourceChainId < Pow256(8) && m.operationId < Pow256(8) && m.targetChainId < Pow256(8)
    && |m.target| == 32 && |m.declaredValue| == 32 && |m.accountsHash| == 32
  }

  /** The version-1 encoding: what the dispatching chain publishes. */
  function Encode(m: Message): Bytes
    requires Typed(m)
  {
    [MESSAGE_VERSION] + (BigEndian(m.sourceChainId, 8) + (BigEndian(m.operationId, 8) + (BigEndian(m.targetChainId, 8)
    + (m.target + (m.declaredValue + (m.accountsHash + m.instructionData))))))
  }

  lemma EncodedPieces(m: Message)
    requires Typed(m)
    ensures var b := Encode(m);
            && |b| == 121 + |m.instructionData| && b[0] == MESSAGE_VERSION && b[1..9] == BigEndian(m.sourceChainId, 8)
            && b[9..17] == BigEndian(m.operationId, 8) && b[17..25] == BigEndian(m.targetChainId, 8)
            && b[25..57] == m.target && b[57..89] == m.declaredValue && b[89..121] == m.accountsHash
            && b[121..] == m.instructionData
  {
    hide BigEndian, Pow256;
  }

  /** Parsing undoes the encoding, and the data limit is the only reason to refuse one. */
  lemma MessageReadsBack(m: Message)
    requires Typed(m)
    ensures ParseMessage(Encode(m)) == if |m.instructionData| <= 512 then Ok(m) else Err(InstructionDataTooLong)
  {
    hide Encode, BigEndian, FromBigEndian, Pow256;
    EncodedPieces(m);
    BigEndianReads(m.sourceChainId, 8);
    BigEndianReads(m.operationId, 8);
    BigEndianReads(m.targetChainId, 8);
  }

  /** A payload is accepted only if it is the encoding of what was parsed: no byte of it is ignored. */
  lemma AcceptedIsEncoded(payload: Bytes)
    requires ParseMessage(payload).Ok?
    ensures Typed(ParseMessage(payload).value) && Encode(ParseMessage(payload).value) == payload
    ensures |ParseMessage(payload).value.instructionData| <= 512
  {
    hide BigEndian, FromBigEndian, Pow256;
    BigEndianWrites(payload[1..9]);
    BigEndianWrites(payload[9..17]);
    BigEndianWrites(payload[17..25]);
    var m := ParseMessage(payload).value;
    assert payload[89..] == m.accountsHash + m.instructionData;
    assert payload[57..] == m.declaredValue + payload[89..];
    assert payload[25..] == m.target + payload[57..];
    assert payload[17..] == payload[17..25] + payload[25..];
    assert payload[9..] == payload[9..17] + payload[17..];
    assert payload[1..] == payload[1..9] + payload[9..];
    assert payload == [payload[0]] + payload[1..];
  }

  /** Where each field lies, and which payloads are refused. */
  lemma FieldsOfAMessage(payload: Bytes)
    ensures var r := ParseMessage(payload);
            && (r == Err(MalformedMessage) <==> |payload| < 121)
            && (r == Err(UnsupportedVersion) <==> |payload| >= 121 && payload[0] != 1)
            && (r == Err(InstructionDataTooLong) <==> |payload| > 633 && payload[0] == 1)
            && (r.Ok? ==>
                  var m := r.value;
                  && payload[1..9] == BigEndian(m.sourceChainId, 8) && payload[9..17] == BigEndian(m.operationId, 8)
                  && payload[17..25] == BigEndian(m.targetChainId, 8) && payload[25..57] == m.target
                  && payload[57..89] == m.declaredValue && payload[89..121] == m.accountsHash
                  && payload[121..] == m.instructionData)
  {
    hide BigEndian, FromBigEndian, Pow256;
    if |payload| >= 25 {
      BigEndianWrites(payload[1..9]);
      BigEndianWrites(payload[9..17]);
      BigEndianWrites(payload[17..25]);
    }
  }

  /** A Wormhole body: timestamp and nonce, emitter, sequence, consistency level, payload. */
  lemma VaaBodyReadsBack(head: Bytes, v: VaaBody, consistency: Byte)
    requires |head| == 8 && v.emitterChain < Pow256(2) && |v.emitterAddress| == 32 && v.sequence < Pow256(8)
    ensures ParseVaaBody(head + BigEndian(v.emitterChain, 2) + v.emitterAddress + BigEndian(v.sequence, 8)
                         + [consistency] + v.payload)
         == Ok(v)
  {
    hide BigEndian, FromBigEndian, Pow256;
    var chain, sequence := BigEndian(v.emitterChain, 2), BigEndian(v.sequence, 8);
    BigEndianReads(v.emitterChain, 2);
    BigEndianReads(v.sequence, 8);
    var body := head + chain + v.emitterAddress + sequence + [consistency] + v.payload;
    assert body[8..10] == chain && body[10..42] == v.emitterAddress && body[42..50] == sequence
           && body[51..] == v.payload;
  }

  // ----- The accounts hash ---------------------------------------------------------------------

  datatype Account = Account(key: Bytes, isSigner: bool, isWritable: bool)

  ghost predicate Keys(accounts: seq<Account>) {
    forall a | a in accounts :: |a.key| == 32
  }

  function AccountBytes(a: Account): Bytes {
    a.key + [if a.isSigner then 1 else 0, if a.isWritable then 1 else 0]
  }

  function Preimage(accounts: seq<Account>): Bytes {
    if accounts == [] then [] else Preimage(accounts[..|accounts| - 1]) + AccountBytes(accounts[|accounts| - 1])
  }

  /** The hash of each key and its two flags, in order. */
  method AccountsHash(accounts: seq<Account>, sha256: Bytes -> Bytes) returns (hash: Bytes)
    ensures hash == sha256(Preimage(accounts))
  {
    var bytes: Bytes := [];
    for i := 0 to |accounts|
      invariant bytes == Preimage(accounts[..i])
    {
      var a := accounts[i];
      assert accounts[..i + 1][..i] == accounts[..i];
      ghost var before := bytes;
      bytes := bytes + a.key;
      bytes := bytes + [if a.isSigner then 1 else 0];
      bytes := bytes + [if a.isWritable then 1 else 0];
      assert bytes == before + AccountBytes(a);
    }
    assert accounts[..|accounts|] == accounts;
    hash := sha256(bytes);
  }

  /** The bytes hashed determine the accounts, their order and their flags, so a vote on the hash is a vote on the
      list. */
  lemma {:induction false} PreimageBindsTheList(a: seq<Account>, b: seq<Account>)
    requires Keys(a) && Keys(b) && Preimage(a) == Preimage(b)
    ensures a == b
    decreases |a| + |b|
  {
    PreimageLength(a);
    PreimageLength(b);
    hide AccountBytes;
    if a != [] && b != [] {
      var x, y := a[|a| - 1], b[|b| - 1];
      var p, q := Preimage(a[..|a| - 1]), Preimage(b[..|b| - 1]);
      assert x in a && y in b;
      assert Preimage(a) == p + AccountBytes(x) && Preimage(b) == q + AccountBytes(y);
      AccountLength(x);
      AccountLength(y);
      hide Preimage;
      LastPieces(p, AccountBytes(x), q, AccountBytes(y));
      AccountBytesInjective(x, y);
      PreimageBindsTheList(a[..|a| - 1], b[..|b| - 1]);
      assert a == a[..|a| - 1] + [x] && b == b[..|b| - 1] + [y];
    }
  }

  lemma AccountLength(a: Account)
    requires |a.key| == 32
    ensures |AccountBytes(a)| == 34
  {
  }

  lemma {:induction false} PreimageLength(a: seq<Account>)
    requires Keys(a)
    ensures |Preimage(a)| == 34 * |a|
  {
    if a != [] {
      assert a[|a| - 1] in a;
      PreimageLength(a[..|a| - 1]);
    }
  }

  /** Account `i`'s key is the 32 bytes at 34 * i; its signer flag and then its writable flag follow. */
  lemma {:induction false} AccountsInPlace(accounts: seq<Account>, i: nat)
    requires Keys(accounts) && i < |accounts|
    ensures var b := Preimage(accounts);
            && |b| == 34 * |accounts| && b[34 * i..34 * i + 32] == accounts[i].key
            && b[34 * i + 32] == (if accounts[i].isSigner then 1 else 0)
            && b[34 * i + 33] == (if accounts[i].isWritable then 1 else 0)
    decreases |accounts|
  {
    var n := |accounts| - 1;
    assert accounts[n] in accounts && accounts[i] in accounts;
    PreimageLength(accounts);
    PreimageLength(accounts[..n]);
    if i < n {
      AccountsInPlace(accounts[..n], i);
      assert Preimage(accounts)[34 * i..34 * i + 32] == Preimage(accounts[..n])[34 * i..34 * i + 32];
    } else {
      assert Preimage(accounts)[34 * n..34 * n + 32] == AccountBytes(accounts[n])[..32];
    }
  }

  lemma LastPieces(p: Bytes, x: Bytes, q: Bytes, y: Bytes)
    requires p + x == q + y && |x| == |y|
    ensures p == q && x == y
  {
    assert p == (p + x)[..|p|] && q == (q + y)[..|q|];
    assert x == (p + x)[|p|..] && y == (q + y)[|q|..];
  }

  lemma AccountBytesInjective(x: Account, y: Account)
    requires |x.key| == 32 && |y.key| == 32 && AccountBytes(x) == AccountBytes(y)
    ensures x == y
  {
    assert x.key == AccountBytes(x)[..32] && y.key == AccountBytes(y)[..32];
    assert AccountBytes(x)[32] == AccountBytes(y)[32] && AccountBytes(x)[33] == AccountBytes(y)[33];
  }
}
