/** Solana legacy transactions, as chain/svm/tx.go builds them: accounts merged over every mention, ranked by
    privilege, indexed, serialised and signed. */
module Transaction {
  import opened Options
  import opened Octets

  type Identity = k: Bytes | |k| == 32 witness seq(32, _ => 0)
  type Signature = s: Bytes | |s| == 64 witness seq(64, _ => 0)

  datatype AccountMeta = AccountMeta(key: Identity, signer: bool, writable: bool)
  datatype Instruction = Instruction(program: Identity, accounts: seq<AccountMeta>, data: Bytes)

  datatype BuildError = TooManyAccounts | NoKeyFor(signer: Identity)

  // ----- compact-u16 ---------------------------------------------------------------------------

  function Compact(n: nat): Bytes {
    if n < 128 then [n] else [n % 128 + 128] + Compact(n / 128)
  }

  method CompactU16(n: nat) returns (out: Bytes)
    ensures out == Compact(n)
  {
    out := [];
    var m := n;
    while true
      invariant out + Compact(m) == Compact(n)
      decreases m
    {
      var b := m % 128;
      var before := m;
      m := m / 128;
      if m == 0 {
        return out + [b];
      }
      assert Compact(before) == [b + 128] + Compact(m);
      assert out + ([b + 128] + Compact(m)) == (out + [b + 128]) + Compact(m);
      out := out + [b + 128];
    }
  }

  function ReadCompact(b: Bytes): Option<(nat, Bytes)> {
    if b == [] then None
    else if b[0] < 128 then Some((b[0], b[1..]))
    else
      match ReadCompact(b[1..])
      case None => None
      case Some((n, rest)) => Some((b[0] - 128 + 128 * n, rest))
  }

  lemma {:induction false} CompactReads(n: nat, rest: Bytes)
    ensures ReadCompact(Compact(n) + rest) == Some((n, rest))
  {
    var b := Compact(n) + rest;
    if n < 128 {
      assert b[1..] == rest;
    } else {
      assert b[1..] == Compact(n / 128) + rest;
      CompactReads(n / 128, rest);
    }
  }

  // ----- Merging -------------------------------------------------------------------------------

  /** One merged account: the union of its mentions, and when it was first mentioned. */
  datatype Entry = Entry(key: Identity, signer: bool, writable: bool, order: nat)

  function Add(merged: map<Identity, Entry>, m: AccountMeta): map<Identity, Entry> {
    if m.key in merged then
      var e := merged[m.key];
      merged[m.key := e.(signer := e.signer || m.signer, writable := e.writable || m.writable)]
    else
      merged[m.key := Entry(m.key, m.signer, m.writable, |merged|)]
  }

  function Merged(mentions: seq<AccountMeta>): map<Identity, Entry> {
    if mentions == [] then map[] else Add(Merged(mentions[..|mentions| - 1]), mentions[|mentions| - 1])
  }

  /** Every mention, in the order the builder sees them: the payer, then each instruction's accounts and program. */
  function Mentions(payer: Identity, ixs: seq<Instruction>): seq<AccountMeta> {
    if ixs == [] then [AccountMeta(payer, true, true)]
    else
      var ix := ixs[|ixs| - 1];
      Mentions(payer, ixs[..|ixs| - 1]) + ix.accounts + [AccountMeta(ix.program, false, false)]
  }

  predicate SignsIn(mentions: seq<AccountMeta>, key: Identity) {
    exists m | m in mentions :: m.key == key && m.signer
  }

  predicate WritesIn(mentions: seq<AccountMeta>, key: Identity) {
    exists m | m in mentions :: m.key == key && m.writable
  }

  predicate MentionedIn(mentions: seq<AccountMeta>, key: Identity) {
    exists m | m in mentions :: m.key == key
  }

  /** `k`'s merged account carries exactly the union of its mentions. */
  ghost predicate CarriesUnion(merged: map<Identity, Entry>, mentions: seq<AccountMeta>, k: Identity) {
    && (k in merged <==> MentionedIn(mentions, k))
    && (k in merged ==>
          && merged[k].key == k && merged[k].order < |merged|
          && (merged[k].signer <==> SignsIn(mentions, k))
          && (merged[k].writable <==> WritesIn(mentions, k)))
  }

  ghost predicate NumberedOnce(merged: map<Identity, Entry>) {
    forall k, l | k in merged && l in merged && merged[k].order == merged[l].order :: k == l
  }

  ghost predicate IsUnion(merged: map<Identity, Entry>, mentions: seq<AccountMeta>) {
    NumberedOnce(merged) && forall k :: CarriesUnion(merged, mentions, k)
  }

  lemma {:induction false} MergedIsUnion(mentions: seq<AccountMeta>)
    ensures IsUnion(Merged(mentions), mentions)
  {
    if mentions != [] {
      var init, m := mentions[..|mentions| - 1], mentions[|mentions| - 1];
      MergedIsUnion(init);
      assert mentions == init + [m];
      UnionGrows(Merged(init), init, m);
    }
  }

  lemma KeyGrows(merged: map<Identity, Entry>, mentions: seq<AccountMeta>, m: AccountMeta, k: Identity)
    requires CarriesUnion(merged, mentions, k)
    ensures CarriesUnion(Add(merged, m), mentions + [m], k)
  {
  }

  lemma UnionGrows(merged: map<Identity, Entry>, mentions: seq<AccountMeta>, m: AccountMeta)
    requires IsUnion(merged, mentions)
    ensures IsUnion(Add(merged, m), mentions + [m])
  {
    forall k ensures CarriesUnion(Add(merged, m), mentions + [m], k) {
      KeyGrows(merged, mentions, m, k);
    }
    assert forall k | k in merged :: CarriesUnion(merged, mentions, k);
  }

  // ----- Ranking -------------------------------------------------------------------------------

  function Rank(e: Entry, payer: Identity): nat {
    if e.key == payer then 0
    else if e.signer && e.writable then 1
    else if e.signer then 2
    else if e.writable then 3
    else 4
  }

  predicate Before(a: Entry, b: Entry, payer: Identity) {
    Rank(a, payer) < Rank(b, payer) || (Rank(a, payer) == Rank(b, payer) && a.order < b.order)
  }

  predicate Ranked(es: seq<Entry>, payer: Identity) {
    forall i, j | 0 <= i < j < |es| :: Before(es[i], es[j], payer)
  }

  /** The merged accounts, each once, in rank order. */
  ghost predicate IsOrdering(es: seq<Entry>, merged: map<Identity, Entry>, payer: Identity) {
    && Ranked(es, payer)
    && forall e :: e in es <==> e.key in merged && merged[e.key] == e
  }

  function InsertEntry(e: Entry, es: seq<Entry>, payer: Identity): (r: seq<Entry>)
    ensures |r| == |es| + 1 && forall x :: x in r <==> x == e || x in es
  {
    if es == [] || Before(e, es[0], payer) then [e] + es else [es[0]] + InsertEntry(e, es[1..], payer)
  }

  lemma {:induction false} InsertRanks(e: Entry, es: seq<Entry>, payer: Identity)
    requires Ranked(es, payer) && forall x | x in es :: Before(x, e, payer) || Before(e, x, payer)
    ensures Ranked(InsertEntry(e, es, payer), payer)
  {
    if es != [] && !Before(e, es[0], payer) {
      assert es[0] in es && forall x | x in es[1..] :: x in es;
      var rest := InsertEntry(e, es[1..], payer);
      InsertRanks(e, es[1..], payer);
      forall j | 0 <= j < |rest| ensures Before(es[0], rest[j], payer) {
        assert rest[j] in rest;
      }
    }
  }

  /** The order the accounts come out of the map does not matter: there is only one ranking. */
  lemma {:induction false} OrderingIsUnique(a: seq<Entry>, b: seq<Entry>, payer: Identity)
    requires Ranked(a, payer) && Ranked(b, payer) && forall e :: e in a <==> e in b
    ensures a == b
  {
    assert a != [] ==> a[0] in b;
    assert b != [] ==> b[0] in a;
    if a != [] {
      assert a[0] == b[0] by {
        var i :| 0 <= i < |b| && b[i] == a[0];
        var j :| 0 <= j < |a| && a[j] == b[0];
      }
      forall e ensures e in a[1..] <==> e in b[1..] {
        assert e in a <==> e in b;
        if e in a[1..] { var i :| 1 <= i < |a| && a[i] == e; assert e in b && e != b[0]; }
        if e in b[1..] { var i :| 1 <= i < |b| && b[i] == e; assert e in a && e != a[0]; }
      }
      OrderingIsUnique(a[1..], b[1..], payer);
      assert a == [a[0]] + a[1..] && b == [b[0]] + b[1..];
    }
  }

  /** Where a key is mentioned first; the length of the list when it is not. */
  function FirstMention(mentions: seq<AccountMeta>, key: Identity): nat {
    if mentions == [] then 0
    else
      var n := |mentions| - 1;
      if MentionedIn(mentions[..n], key) then FirstMention(mentions[..n], key)
      else if mentions[n].key == key then n
      else |mentions|
  }

  lemma {:induction false} NumberedInOrder(mentions: seq<AccountMeta>, k: Identity, l: Identity)
    requires k in Merged(mentions) && l in Merged(mentions) && Merged(mentions)[k].order < Merged(mentions)[l].order
    ensures FirstMention(mentions, k) < FirstMention(mentions, l)
  {
    var n := |mentions| - 1;
    var init, m := mentions[..n], mentions[n];
    MergedIsUnion(init);
    assert CarriesUnion(Merged(init), init, k) && CarriesUnion(Merged(init), init, l);
    assert CarriesUnion(Merged(init), init, m.key);
    hide MentionedIn, IsUnion, SignsIn, WritesIn;
    if k in Merged(init) {
      FirstMentionIsInside(init, k);
      if l in Merged(init) { NumberedInOrder(init, k, l); }
    }
  }

  lemma {:induction false} FirstMentionIsInside(mentions: seq<AccountMeta>, k: Identity)
    requires MentionedIn(mentions, k)
    ensures FirstMention(mentions, k) < |mentions| && mentions[FirstMention(mentions, k)].key == k
    ensures forall i | 0 <= i < FirstMention(mentions, k) :: mentions[i].key != k
  {
    var n := |mentions| - 1;
    if MentionedIn(mentions[..n], k) {
      FirstMentionIsInside(mentions[..n], k);
    } else {
      assert forall i | 0 <= i < n :: mentions[i] in mentions[..n];
      var m :| m in mentions && m.key == k;
      assert m in mentions[..n] || m == mentions[n];
    }
  }

  /** Accounts of the same privileges, the payer's place aside, stand in the order of their first mentions. */
  lemma MentionOrderDecides(payer: Identity, mentions: seq<AccountMeta>, es: seq<Entry>, i: nat, j: nat)
    requires IsOrdering(es, Merged(mentions), payer) && i < j < |es|
    requires es[i].signer == es[j].signer && es[i].writable == es[j].writable && es[i].key != payer
    ensures FirstMention(mentions, es[i].key) < FirstMention(mentions, es[j].key)
  {
    assert es[i] in es && es[j] in es;
    assert Before(es[i], es[j], payer);
    hide IsOrdering;
    NumberedInOrder(mentions, es[i].key, es[j].key);
  }

  // ----- Header counts -------------------------------------------------------------------------

  function Signers(es: seq<Entry>): nat {
    if es == [] then 0 else Signers(es[..|es| - 1]) + if es[|es| - 1].signer then 1 else 0
  }

  function ReadonlySigned(es: seq<Entry>): nat {
    if es == [] then 0
    else ReadonlySigned(es[..|es| - 1]) + if es[|es| - 1].signer && !es[|es| - 1].writable then 1 else 0
  }

  function ReadonlyUnsigned(es: seq<Entry>): nat {
    if es == [] then 0
    else ReadonlyUnsigned(es[..|es| - 1]) + if !es[|es| - 1].signer && !es[|es| - 1].writable then 1 else 0
  }

  /** The privileges the runtime reads off a position, from the three counts alone. */
  predicate SignerAt(i: nat, signers: nat) {
    i < signers
  }

  predicate WritableAt(i: nat, total: nat, signers: nat, readonlySigned: nat, readonlyUnsigned: nat) {
    if i < signers then i + readonlySigned < signers else i + readonlyUnsigned < total
  }

  /** A ranked account list: the payer, if present, signs and writes. */
  predicate PayerSignsAndWrites(es: seq<Entry>, payer: Identity) {
    forall e | e in es && e.key == payer :: e.signer && e.writable
  }

  lemma {:induction false} CountsBound(es: seq<Entry>)
    ensures ReadonlySigned(es) <= Signers(es) && Signers(es) + ReadonlyUnsigned(es) <= |es|
  {
    if es != [] { CountsBound(es[..|es| - 1]); }
  }

  /** Before an account that signs, every account signs; before one that signs and writes, every account does. */
  lemma {:induction false} AllBefore(es: seq<Entry>, payer: Identity, last: Entry)
    requires Ranked(es, payer) && PayerSignsAndWrites(es, payer)
    requires forall i | 0 <= i < |es| :: Rank(es[i], payer) <= Rank(last, payer)
    requires last.key == payer ==> last.signer && last.writable
    ensures last.signer ==> Signers(es) == |es|
    ensures last.signer && last.writable ==> ReadonlySigned(es) == 0
    ensures last.signer || last.writable ==> ReadonlyUnsigned(es) == 0
  {
    if es != [] {
      assert es[|es| - 1] in es;
      assert forall e | e in es[..|es| - 1] :: e in es;
      AllBefore(es[..|es| - 1], payer, last);
    }
  }

  /** The three counts determine every account's privileges. */
  lemma {:induction false} CountsGivePrivileges(es: seq<Entry>, payer: Identity, i: nat)
    requires Ranked(es, payer) && PayerSignsAndWrites(es, payer) && i < |es|
    ensures SignerAt(i, Signers(es)) <==> es[i].signer
    ensures WritableAt(i, |es|, Signers(es), ReadonlySigned(es), ReadonlyUnsigned(es)) <==> es[i].writable
  {
    var init, last := es[..|es| - 1], es[|es| - 1];
    assert last in es && forall e | e in init :: e in es;
    assert forall j | 0 <= j < |init| :: Before(es[j], es[|es| - 1], payer);
    AllBefore(init, payer, last);
    CountsBound(init);
    if i < |init| {
      CountsGivePrivileges(init, payer, i);
    }
  }

  // ----- The wire ------------------------------------------------------------------------------

  function Keys(es: seq<Entry>): (keys: seq<Bytes>)
    ensures |keys| == |es| && forall k | k in keys :: |k| == 32
  {
    seq(|es|, i requires 0 <= i < |es| => es[i].key)
  }

  /** The position of a key, 0 when it has none (the zero value of a Go map). */
  function IndexOf(es: seq<Entry>, key: Identity): nat {
    if es == [] then 0
    else if es[|es| - 1].key == key then |es| - 1
    else IndexOf(es[..|es| - 1], key)
  }

  function Low(n: nat): Byte {
    n % 256
  }

  function AccountBytes(es: seq<Entry>, accounts: seq<AccountMeta>): Bytes {
    seq(|accounts|, i requires 0 <= i < |accounts| => Low(IndexOf(es, accounts[i].key)))
  }

  function InstructionBytes(es: seq<Entry>, ix: Instruction): Bytes {
    [Low(IndexOf(es, ix.program))] + Compact(|ix.accounts|) + AccountBytes(es, ix.accounts) + Compact(|ix.data|)
        + ix.data
  }

  function InstructionsBytes(es: seq<Entry>, ixs: seq<Instruction>): Bytes {
    if ixs == [] then [] else InstructionsBytes(es, ixs[..|ixs| - 1]) + InstructionBytes(es, ixs[|ixs| - 1])
  }

  function Header(es: seq<Entry>): Bytes {
    [Low(Signers(es)), Low(ReadonlySigned(es)), Low(ReadonlyUnsigned(es))]
  }

  function Message(es: seq<Entry>, blockhash: Identity, ixs: seq<Instruction>): Bytes {
    Header(es) + Compact(|es|) + Flat(Keys(es)) + blockhash + Compact(|ixs|) + InstructionsBytes(es, ixs)
  }

  function Signed(sign: (Identity, Bytes) -> Signature, es: seq<Entry>, msg: Bytes): (signatures: seq<Bytes>)
    ensures |signatures| == |es| && forall s | s in signatures :: |s| == 64
  {
    if es == [] then [] else Signed(sign, es[..|es| - 1], msg) + [sign(es[|es| - 1].key, msg)]
  }

  function Wire(sign: (Identity, Bytes) -> Signature, es: seq<Entry>, blockhash: Identity, ixs: seq<Instruction>): Bytes
    requires Signers(es) <= |es|
  {
    var msg := Message(es, blockhash, ixs);
    Compact(Signers(es)) + Flat(Signed(sign, es[..Signers(es)], msg)) + msg
  }

  // ----- Reading the wire back -----------------------------------------------------------------

  datatype Compiled = Compiled(program: Byte, accounts: Bytes, data: Bytes)
  datatype Parsed = Parsed(signatures: seq<Bytes>, header: Bytes, keys: seq<Bytes>, blockhash: Bytes,
                           instructions: seq<Compiled>)

  function Take(b: Bytes, n: nat): Option<(Bytes, Bytes)> {
    if |b| < n then None else Some((b[..n], b[n..]))
  }

  function ReadInstruction(b: Bytes): Option<(Compiled, Bytes)> {
    if b == [] then None else
    match ReadCompact(b[1..])
    case None => None
    case Some((na, afterCount)) =>
      match Take(afterCount, na)
      case None => None
      case Some((accounts, afterAccounts)) =>
        match ReadCompact(afterAccounts)
        case None => None
        case Some((nd, afterLength)) =>
          match Take(afterLength, nd)
          case None => None
          case Some((data, rest)) => Some((Compiled(b[0], accounts, data), rest))
  }

  function ReadInstructions(b: Bytes, count: nat): Option<(seq<Compiled>, Bytes)>
    decreases count
  {
    if count == 0 then Some(([], b)) else
    match ReadInstruction(b)
    case None => None
    case Some((first, more)) =>
      match ReadInstructions(more, count - 1)
      case None => None
      case Some((others, rest)) => Some(([first] + others, rest))
  }

  function ReadMessage(b: Bytes): Option<(Bytes, seq<Bytes>, Bytes, seq<Compiled>)> {
    match Take(b, 3)
    case None => None
    case Some((header, b1)) =>
      match ReadCompact(b1)
      case None => None
      case Some((nk, b2)) =>
        match ReadChunks(b2, nk, 32)
        case None => None
        case Some((keys, b3)) =>
          match Take(b3, 32)
          case None => None
          case Some((blockhash, b4)) =>
            match ReadCompact(b4)
            case None => None
            case Some((ni, b5)) =>
              match ReadInstructions(b5, ni)
              case None => None
              case Some((ixs, rest)) => if rest == [] then Some((header, keys, blockhash, ixs)) else None
  }

  function Parse(b: Bytes): Option<Parsed> {
    match ReadCompact(b)
    case None => None
    case Some((ns, b1)) =>
      match ReadChunks(b1, ns, 64)
      case None => None
      case Some((signatures, msg)) =>
        match ReadMessage(msg)
        case None => None
        case Some((header, keys, blockhash, ixs)) => Some(Parsed(signatures, header, keys, blockhash, ixs))
  }

  function CompiledOf(es: seq<Entry>, ix: Instruction): Compiled {
    Compiled(Low(IndexOf(es, ix.program)), AccountBytes(es, ix.accounts), ix.data)
  }

  lemma InstructionReads(es: seq<Entry>, ix: Instruction, rest: Bytes)
    ensures ReadInstruction(InstructionBytes(es, ix) + rest) == Some((CompiledOf(es, ix), rest))
  {
    var accounts := AccountBytes(es, ix.accounts);
    var tail := Compact(|ix.data|) + (ix.data + rest);
    var b := InstructionBytes(es, ix) + rest;
    assert b == [Low(IndexOf(es, ix.program))] + (Compact(|accounts|) + (accounts + tail));
    assert b[1..] == Compact(|accounts|) + (accounts + tail);
    CompactReads(|accounts|, accounts + tail);
    assert (accounts + tail)[..|accounts|] == accounts && (accounts + tail)[|accounts|..] == tail;
    CompactReads(|ix.data|, ix.data + rest);
    assert (ix.data + rest)[..|ix.data|] == ix.data && (ix.data + rest)[|ix.data|..] == rest;
  }

  function CompiledAll(es: seq<Entry>, ixs: seq<Instruction>): (r: seq<Compiled>)
    ensures |r| == |ixs|
  {
    seq(|ixs|, i requires 0 <= i < |ixs| => CompiledOf(es, ixs[i]))
  }

  lemma {:induction false} InstructionsFromFront(es: seq<Entry>, ixs: seq<Instruction>)
    requires ixs != []
    ensures InstructionsBytes(es, ixs) == InstructionBytes(es, ixs[0]) + InstructionsBytes(es, ixs[1..])
  {
    var n := |ixs| - 1;
    if n > 0 {
      InstructionsFromFront(es, ixs[..n]);
      assert ixs[..n][1..] == ixs[1..][..n - 1];
      assert ixs[1..][n - 1] == ixs[n];
    }
  }

  lemma {:induction false} InstructionsRead(es: seq<Entry>, ixs: seq<Instruction>, rest: Bytes)
    ensures ReadInstructions(InstructionsBytes(es, ixs) + rest, |ixs|) == Some((CompiledAll(es, ixs), rest))
  {
    hide ReadInstruction, InstructionBytes, CompiledOf;
    if ixs == [] {
      assert InstructionsBytes(es, ixs) + rest == rest;
    } else {
      InstructionsFromFront(es, ixs);
      var tail := InstructionsBytes(es, ixs[1..]) + rest;
      assert InstructionsBytes(es, ixs) + rest == InstructionBytes(es, ixs[0]) + tail;
      InstructionReads(es, ixs[0], tail);
      InstructionsRead(es, ixs[1..], rest);
      assert CompiledAll(es, ixs) == [CompiledOf(es, ixs[0])] + CompiledAll(es, ixs[1..]);
    }
  }

  lemma MessageReads(es: seq<Entry>, blockhash: Identity, ixs: seq<Instruction>)
    ensures ReadMessage(Message(es, blockhash, ixs)) == Some((Header(es), Keys(es), blockhash, CompiledAll(es, ixs)))
  {
    hide ReadCompact, Compact, ReadChunks, Flat, ReadInstructions, InstructionsBytes, CompiledAll, Keys;
    var b5 := InstructionsBytes(es, ixs) + [];
    var b4 := Compact(|ixs|) + b5;
    var b3 := blockhash + b4;
    var b2 := Flat(Keys(es)) + b3;
    var b1 := Compact(|es|) + b2;
    var b := Message(es, blockhash, ixs);
    assert b == Header(es) + b1;
    assert b[..3] == Header(es) && b[3..] == b1;
    CompactReads(|es|, b2);
    ChunksRead(Keys(es), 32, b3);
    assert b3[..32] == blockhash && b3[32..] == b4;
    CompactReads(|ixs|, b5);
    InstructionsRead(es, ixs, []);
  }

  lemma EnvelopeReads(signatures: seq<Bytes>, msg: Bytes, header: Bytes, keys: seq<Bytes>, blockhash: Bytes,
                      ixs: seq<Compiled>)
    requires forall s | s in signatures :: |s| == 64
    requires ReadMessage(msg) == Some((header, keys, blockhash, ixs))
    ensures Parse(Compact(|signatures|) + Flat(signatures) + msg)
            == Some(Parsed(signatures, header, keys, blockhash, ixs))
  {
    hide ReadMessage, ReadCompact, Compact, ReadChunks, Flat;
    var tail := Flat(signatures) + msg;
    assert Compact(|signatures|) + Flat(signatures) + msg == Compact(|signatures|) + tail;
    CompactReads(|signatures|, tail);
    ChunksRead(signatures, 64, msg);
  }

  lemma WireReads(sign: (Identity, Bytes) -> Signature, es: seq<Entry>, blockhash: Identity, ixs: seq<Instruction>)
    requires Signers(es) <= |es|
    ensures var msg := Message(es, blockhash, ixs);
            Parse(Wire(sign, es, blockhash, ixs))
              == Some(Parsed(Signed(sign, es[..Signers(es)], msg), Header(es), Keys(es), blockhash,
                             CompiledAll(es, ixs)))
  {
    hide Message, ReadMessage, Parse, Header, Keys, CompiledAll, Signed;
    var msg := Message(es, blockhash, ixs);
    MessageReads(es, blockhash, ixs);
    EnvelopeReads(Signed(sign, es[..Signers(es)], msg), msg, Header(es), Keys(es), blockhash, CompiledAll(es, ixs));
  }

  // ----- What a reader learns ------------------------------------------------------------------

  /** `p` names what the caller asked for: the blockhash, every instruction, the payer first, each key once, and
      for each key exactly the privileges some mention gives it. */
  ghost predicate Describes(p: Parsed, payer: Identity, blockhash: Identity, ixs: seq<Instruction>) {
    var mentions := Mentions(payer, ixs);
    && |p.header| == 3 && p.blockhash == blockhash
    && p.keys != [] && p.keys[0] == payer
    && (forall i, j | 0 <= i < j < |p.keys| :: p.keys[i] != p.keys[j])
    && |p.signatures| == p.header[0]
    && (forall i | 0 <= i < |p.keys| :: PrivilegesAt(p, i, mentions))
    && |p.instructions| == |ixs|
    && (forall i | 0 <= i < |ixs| :: Resolves(p, i, ixs[i]))
  }

  ghost predicate PrivilegesAt(p: Parsed, i: nat, mentions: seq<AccountMeta>)
    requires |p.header| == 3 && i < |p.keys|
  {
    && |p.keys[i]| == 32 && MentionedIn(mentions, p.keys[i])
    && (SignerAt(i, p.header[0]) <==> SignsIn(mentions, p.keys[i]))
    && (WritableAt(i, |p.keys|, p.header[0], p.header[1], p.header[2]) <==> WritesIn(mentions, p.keys[i]))
  }

  ghost predicate Resolves(p: Parsed, i: nat, ix: Instruction)
    requires i < |p.instructions|
  {
    var c := p.instructions[i];
    && c.program < |p.keys| && p.keys[c.program] == ix.program
    && c.data == ix.data && |c.accounts| == |ix.accounts|
    && forall j | 0 <= j < |ix.accounts| :: c.accounts[j] < |p.keys| && p.keys[c.accounts[j]] == ix.accounts[j].key
  }

  lemma {:induction false} IndexFinds(es: seq<Entry>, i: nat)
    requires i < |es|
    ensures IndexOf(es, es[i].key) < |es| && es[IndexOf(es, es[i].key)].key == es[i].key
  {
    if es[|es| - 1].key != es[i].key {
      IndexFinds(es[..|es| - 1], i);
    }
  }

  lemma {:induction false} PayerIsMentioned(payer: Identity, ixs: seq<Instruction>)
    ensures AccountMeta(payer, true, true) in Mentions(payer, ixs)
  {
    if ixs != [] { PayerIsMentioned(payer, ixs[..|ixs| - 1]); }
  }

  lemma {:induction false} InstructionIsMentioned(payer: Identity, ixs: seq<Instruction>, i: nat)
    requires i < |ixs|
    ensures AccountMeta(ixs[i].program, false, false) in Mentions(payer, ixs)
    ensures forall a | a in ixs[i].accounts :: a in Mentions(payer, ixs)
  {
    if i < |ixs| - 1 { InstructionIsMentioned(payer, ixs[..|ixs| - 1], i); }
  }

  lemma MentionIsIndexed(payer: Identity, ixs: seq<Instruction>, es: seq<Entry>, m: AccountMeta)
    requires IsOrdering(es, Merged(Mentions(payer, ixs)), payer) && m in Mentions(payer, ixs)
    ensures IndexOf(es, m.key) < |es| && es[IndexOf(es, m.key)].key == m.key
  {
    var merged := Merged(Mentions(payer, ixs));
    MergedIsUnion(Mentions(payer, ixs));
    assert CarriesUnion(merged, Mentions(payer, ixs), m.key);
    assert merged[m.key] in es;
    var i :| 0 <= i < |es| && es[i] == merged[m.key];
    IndexFinds(es, i);
  }

  lemma PayerIsFirst(payer: Identity, ixs: seq<Instruction>, es: seq<Entry>)
    requires IsOrdering(es, Merged(Mentions(payer, ixs)), payer)
    ensures es != [] && es[0].key == payer && PayerSignsAndWrites(es, payer) && Signers(es) > 0
  {
    var m := AccountMeta(payer, true, true);
    PayerIsMentioned(payer, ixs);
    MentionIsIndexed(payer, ixs, es, m);
    MergedIsUnion(Mentions(payer, ixs));
    assert CarriesUnion(Merged(Mentions(payer, ixs)), Mentions(payer, ixs), payer);
    var i := IndexOf(es, payer);
    if i > 0 { assert Before(es[0], es[i], payer); }
    assert PayerSignsAndWrites(es, payer);
    assert es[0] in es;
    CountsGivePrivileges(es, payer, 0);
  }

  lemma KeysAreDistinct(payer: Identity, ixs: seq<Instruction>, es: seq<Entry>, i: nat, j: nat)
    requires IsOrdering(es, Merged(Mentions(payer, ixs)), payer) && i < j < |es|
    ensures es[i].key != es[j].key
  {
  }

  lemma PrivilegesRead(payer: Identity, ixs: seq<Instruction>, es: seq<Entry>, i: nat)
    requires IsOrdering(es, Merged(Mentions(payer, ixs)), payer) && i < |es|
    ensures var mentions := Mentions(payer, ixs);
            && MentionedIn(mentions, es[i].key)
            && (SignerAt(i, Signers(es)) <==> SignsIn(mentions, es[i].key))
            && (WritableAt(i, |es|, Signers(es), ReadonlySigned(es), ReadonlyUnsigned(es)) <==>
                WritesIn(mentions, es[i].key))
  {
    PayerIsFirst(payer, ixs, es);
    CountsGivePrivileges(es, payer, i);
    MergedIsUnion(Mentions(payer, ixs));
    assert es[i] in es;
    assert CarriesUnion(Merged(Mentions(payer, ixs)), Mentions(payer, ixs), es[i].key);
  }

  lemma MentionResolves(payer: Identity, ixs: seq<Instruction>, es: seq<Entry>, m: AccountMeta)
    requires IsOrdering(es, Merged(Mentions(payer, ixs)), payer) && |es| <= 256 && m in Mentions(payer, ixs)
    ensures Low(IndexOf(es, m.key)) < |es| && Keys(es)[Low(IndexOf(es, m.key))] == m.key
  {
    hide IsOrdering, Mentions, Merged, IndexOf;
    MentionIsIndexed(payer, ixs, es, m);
  }

  lemma InstructionResolves(p: Parsed, payer: Identity, ixs: seq<Instruction>, es: seq<Entry>, i: nat)
    requires IsOrdering(es, Merged(Mentions(payer, ixs)), payer) && |es| <= 256 && i < |ixs|
    requires p.keys == Keys(es) && p.instructions == CompiledAll(es, ixs)
    ensures Resolves(p, i, ixs[i])
  {
    hide IsOrdering, Keys, IndexOf, Low, Mentions, Merged;
    InstructionIsMentioned(payer, ixs, i);
    MentionResolves(payer, ixs, es, AccountMeta(ixs[i].program, false, false));
    forall j | 0 <= j < |ixs[i].accounts|
      ensures p.instructions[i].accounts[j] < |p.keys|
      ensures p.keys[p.instructions[i].accounts[j]] == ixs[i].accounts[j].key
    {
      assert ixs[i].accounts[j] in ixs[i].accounts;
      MentionResolves(payer, ixs, es, ixs[i].accounts[j]);
    }
  }

  /** What the bytes say is what the caller asked for, exactly when at most 255 accounts sign: the header keeps the
      signer count in one byte. */
  lemma TransactionReadsBack(sign: (Identity, Bytes) -> Signature, payer: Identity, blockhash: Identity,
                             ixs: seq<Instruction>, es: seq<Entry>)
    requires IsOrdering(es, Merged(Mentions(payer, ixs)), payer) && |es| <= 256
    ensures Signers(es) <= |es|
    ensures Parse(Wire(sign, es, blockhash, ixs)).Some?
    ensures Describes(Parse(Wire(sign, es, blockhash, ixs)).value, payer, blockhash, ixs) <==> Signers(es) <= 255
  {
    CountsBound(es);
    WireReads(sign, es, blockhash, ixs);
    var msg := Message(es, blockhash, ixs);
    var p := Parsed(Signed(sign, es[..Signers(es)], msg), Header(es), Keys(es), blockhash, CompiledAll(es, ixs));
    WhatIsDescribed(p, payer, blockhash, ixs, es);
  }

  lemma WhatIsDescribed(p: Parsed, payer: Identity, blockhash: Identity, ixs: seq<Instruction>, es: seq<Entry>)
    requires IsOrdering(es, Merged(Mentions(payer, ixs)), payer) && |es| <= 256
    requires p.header == Header(es) && p.keys == Keys(es) && p.blockhash == blockhash
    requires p.instructions == CompiledAll(es, ixs) && |p.signatures| == Signers(es)
    ensures Describes(p, payer, blockhash, ixs) <==> Signers(es) <= 255
  {
    hide IsOrdering, Mentions, Merged, CompiledOf, CompiledAll, MentionedIn, SignsIn, WritesIn, Resolves, PrivilegesAt;
    hide Signers, ReadonlySigned, ReadonlyUnsigned;
    CountsBound(es);
    if Signers(es) <= 255 {
      PayerIsFirst(payer, ixs, es);
      forall i, j | 0 <= i < j < |es| ensures p.keys[i] != p.keys[j] { KeysAreDistinct(payer, ixs, es, i, j); }
      forall i | 0 <= i < |es| ensures PrivilegesAt(p, i, Mentions(payer, ixs)) { PrivilegesFit(p, payer, ixs, es, i); }
      forall i | 0 <= i < |ixs| ensures Resolves(p, i, ixs[i]) { InstructionResolves(p, payer, ixs, es, i); }
    } else {
      SignersWrap(p, payer, ixs, es);
    }
  }

  lemma PrivilegesFit(p: Parsed, payer: Identity, ixs: seq<Instruction>, es: seq<Entry>, i: nat)
    requires IsOrdering(es, Merged(Mentions(payer, ixs)), payer) && |es| <= 256 && i < |es| && Signers(es) <= 255
    requires p.header == Header(es) && p.keys == Keys(es)
    ensures PrivilegesAt(p, i, Mentions(payer, ixs))
  {
    hide IsOrdering, Mentions, Merged, MentionedIn, SignsIn, WritesIn;
    CountsBound(es);
    PayerIsFirst(payer, ixs, es);
    PrivilegesRead(payer, ixs, es, i);
    HeaderReads(es, i);
    hide Header, Signers, ReadonlySigned, ReadonlyUnsigned, SignerAt, WritableAt;
  }

  lemma HeaderReads(es: seq<Entry>, i: nat)
    requires i < |es| <= 256 && 0 < Signers(es) <= 255 && Signers(es) <= |es|
    requires ReadonlySigned(es) <= Signers(es) && ReadonlyUnsigned(es) <= |es| - Signers(es)
    ensures Header(es) == [Signers(es), ReadonlySigned(es), ReadonlyUnsigned(es)] && Keys(es)[i] == es[i].key
  {
    hide Signers, ReadonlySigned, ReadonlyUnsigned, Low;
    LowIsItself(Signers(es));
    LowIsItself(ReadonlySigned(es));
    LowIsItself(ReadonlyUnsigned(es));
  }

  lemma LowIsItself(n: nat)
    requires n < 256
    ensures Low(n) == n
  {
  }

  /** With 256 signers the header says none, and the payer no longer reads as one. */
  lemma SignersWrap(p: Parsed, payer: Identity, ixs: seq<Instruction>, es: seq<Entry>)
    requires IsOrdering(es, Merged(Mentions(payer, ixs)), payer) && |es| <= 256 && Signers(es) > 255
    requires p.header == Header(es) && p.keys == Keys(es)
    ensures !PrivilegesAt(p, 0, Mentions(payer, ixs))
  {
    hide IsOrdering, Mentions, Merged, MentionedIn, SignsIn, WritesIn;
    CountsBound(es);
    assert Signers(es) == 256 && Low(256) == 0;
    hide Signers, Low;
    PayerIsFirst(payer, ixs, es);
    PrivilegesRead(payer, ixs, es, 0);
    assert SignsIn(Mentions(payer, ixs), p.keys[0]);
    assert !SignerAt(0, p.header[0]);
  }

  // ----- Signatures ----------------------------------------------------------------------------

  /** The bytes read as a transaction whose signatures are each the key's at the same place, over all that follows
      them. */
  ghost predicate SignsTheRest(sign: (Identity, Bytes) -> Signature, tx: Bytes) {
    Parse(tx).Some?
    && var p := Parse(tx).value;
       var n := |p.signatures|;
       var signed := |Compact(n)| + 64 * n;
       && n <= |p.keys| && signed <= |tx|
       && forall i | 0 <= i < n :: |p.keys[i]| == 32 && p.signatures[i] == sign(p.keys[i], tx[signed..])
  }

  lemma {:induction false} SignedAt(sign: (Identity, Bytes) -> Signature, es: seq<Entry>, msg: Bytes, i: nat)
    requires i < |es|
    ensures Signed(sign, es, msg)[i] == sign(es[i].key, msg)
  {
    if i < |es| - 1 { SignedAt(sign, es[..|es| - 1], msg, i); }
  }

  /** Each required signer signs exactly the bytes behind the signatures, in key order. */
  lemma SignaturesCoverTheMessage(sign: (Identity, Bytes) -> Signature, es: seq<Entry>, blockhash: Identity,
                                  ixs: seq<Instruction>)
    requires Signers(es) <= |es|
    ensures SignsTheRest(sign, Wire(sign, es, blockhash, ixs))
    ensures |Parse(Wire(sign, es, blockhash, ixs)).value.signatures| == Signers(es)
  {
    WireReads(sign, es, blockhash, ixs);
    MessageFollows(sign, es, blockhash, ixs);
    var n, msg := Signers(es), Message(es, blockhash, ixs);
    var signatures := Signed(sign, es[..n], msg);
    assert |signatures| == n;
    forall i | 0 <= i < n ensures signatures[i] == sign(es[i].key, msg) {
      SignedAt(sign, es[..n], msg, i);
    }
    hide Signed, Message, Parse, Compact, Signers, Header, Keys, CompiledAll, Wire, SignsTheRest;
    SignsTheMessage(sign, Wire(sign, es, blockhash, ixs), es, msg);
  }

  lemma SignsTheMessage(sign: (Identity, Bytes) -> Signature, tx: Bytes, es: seq<Entry>, msg: Bytes)
    requires Parse(tx).Some? && Parse(tx).value.keys == Keys(es)
    requires var signatures := Parse(tx).value.signatures;
             && |signatures| <= |es| && (forall i | 0 <= i < |signatures| :: signatures[i] == sign(es[i].key, msg))
             && var signed := |Compact(|signatures|)| + 64 * |signatures|;
                signed <= |tx| && tx[signed..] == msg
    ensures SignsTheRest(sign, tx)
  {
    hide Parse, Compact;
  }

  lemma MessageFollows(sign: (Identity, Bytes) -> Signature, es: seq<Entry>, blockhash: Identity, ixs: seq<Instruction>)
    requires Signers(es) <= |es|
    ensures var tx, signed := Wire(sign, es, blockhash, ixs), |Compact(Signers(es))| + 64 * Signers(es);
            signed <= |tx| && tx[signed..] == Message(es, blockhash, ixs)
  {
    hide Signed, Message, Compact, Signers, Flat;
    var n, msg := Signers(es), Message(es, blockhash, ixs);
    var signatures := Signed(sign, es[..n], msg);
    FlatOfSignatures(signatures);
    assert Wire(sign, es, blockhash, ixs) == (Compact(n) + Flat(signatures)) + msg;
  }

  lemma {:induction false} FlatOfSignatures(signatures: seq<Bytes>)
    requires forall s | s in signatures :: |s| == 64
    ensures |Flat(signatures)| == 64 * |signatures|
  {
    if signatures != [] {
      var n := |signatures| - 1;
      assert signatures == signatures[..n] + [signatures[n]];
      FlatOfSignatures(signatures[..n]);
      FlatAppend(signatures[..n], signatures[n]);
    }
  }

  // ----- The builder ---------------------------------------------------------------------------

  lemma MergedPayer(payer: Identity)
    ensures Merged(Mentions(payer, [])) == map[payer := Entry(payer, true, true, 0)]
  {
  }

  lemma MentionsStep(payer: Identity, ixs: seq<Instruction>, i: nat)
    requires i < |ixs|
    ensures Mentions(payer, ixs[..i + 1])
         == Mentions(payer, ixs[..i]) + ixs[i].accounts + [AccountMeta(ixs[i].program, false, false)]
  {
    assert ixs[..i + 1][..i] == ixs[..i];
  }

  method MergeAccounts(payer: Identity, ixs: seq<Instruction>) returns (merged: map<Identity, Entry>)
    ensures merged == Merged(Mentions(payer, ixs))
  {
    hide Merged, Mentions, Add;
    MergedPayer(payer);
    merged := map[payer := Entry(payer, true, true, 0)];
    assert ixs[..0] == [];
    for i := 0 to |ixs|
      invariant merged == Merged(Mentions(payer, ixs[..i]))
    {
      var ix := ixs[i];
      ghost var before := Mentions(payer, ixs[..i]);
      MentionsStep(payer, ixs, i);
      assert before + ix.accounts[..0] == before;
      for j := 0 to |ix.accounts|
        invariant merged == Merged(before + ix.accounts[..j])
      {
        MergedAppend(before + ix.accounts[..j], ix.accounts[j]);
        assert before + ix.accounts[..j] + [ix.accounts[j]] == before + ix.accounts[..j + 1];
        merged := Add(merged, ix.accounts[j]);
      }
      assert ix.accounts[..|ix.accounts|] == ix.accounts;
      MergedAppend(before + ix.accounts, AccountMeta(ix.program, false, false));
      merged := Add(merged, AccountMeta(ix.program, false, false));
    }
    assert ixs[..|ixs|] == ixs;
  }

  lemma MergedAppend(mentions: seq<AccountMeta>, m: AccountMeta)
    ensures Merged(mentions + [m]) == Add(Merged(mentions), m)
  {
  }

  /** The entries come out of the map in no particular order. */
  method ListEntries(merged: map<Identity, Entry>) returns (listed: seq<Entry>)
    requires forall k | k in merged :: merged[k].key == k
    ensures |listed| == |merged| && forall e :: e in listed <==> e.key in merged && merged[e.key] == e
    ensures forall i, j | 0 <= i < j < |listed| :: listed[i] != listed[j]
  {
    listed := [];
    var left := merged.Keys;
    while left != {}
      invariant left <= merged.Keys && |listed| + |left| == |merged.Keys|
      invariant forall e :: e in listed <==> e.key in merged && e.key !in left && merged[e.key] == e
      invariant forall i, j | 0 <= i < j < |listed| :: listed[i] != listed[j]
      decreases |left|
    {
      var k :| k in left;
      left := left - {k};
      assert merged[k] !in listed;
      listed := listed + [merged[k]];
    }
  }

  method SortEntries(listed: seq<Entry>, payer: Identity) returns (entries: seq<Entry>)
    requires forall i, j | 0 <= i < j < |listed| ::
             Before(listed[i], listed[j], payer) || Before(listed[j], listed[i], payer)
    ensures Ranked(entries, payer) && |entries| == |listed| && forall e :: e in entries <==> e in listed
  {
    hide Before;
    entries := [];
    for i := 0 to |listed|
      invariant |entries| == i && Ranked(entries, payer)
      invariant forall e :: e in entries <==> e in listed[..i]
    {
      forall x | x in entries ensures Before(x, listed[i], payer) || Before(listed[i], x, payer) {
        var j :| 0 <= j < i && listed[j] == x;
      }
      InsertRanks(listed[i], entries, payer);
      assert listed[..i + 1] == listed[..i] + [listed[i]];
      entries := InsertEntry(listed[i], entries, payer);
    }
    assert listed[..|listed|] == listed;
  }

  method RankEntries(merged: map<Identity, Entry>, payer: Identity) returns (entries: seq<Entry>)
    requires NumberedOnce(merged) && forall k | k in merged :: merged[k].key == k
    ensures IsOrdering(entries, merged, payer) && |entries| == |merged|
  {
    var listed := ListEntries(merged);
    forall i, j | 0 <= i < j < |listed|
      ensures Before(listed[i], listed[j], payer) || Before(listed[j], listed[i], payer)
    {
      assert listed[i] in listed && listed[j] in listed;
    }
    entries := SortEntries(listed, payer);
  }

  /** The zero value of a missing map entry, as Go reads it. */
  function At(index: map<Identity, nat>, key: Identity): nat {
    if key in index then index[key] else 0
  }

  method CountPrivileges(entries: seq<Entry>)
    returns (index: map<Identity, nat>, numSigners: nat, readonlySigned: nat, readonlyUnsigned: nat)
    ensures numSigners == Signers(entries) && readonlySigned == ReadonlySigned(entries)
    ensures readonlyUnsigned == ReadonlyUnsigned(entries)
    ensures forall k :: At(index, k) == IndexOf(entries, k)
  {
    index, numSigners, readonlySigned, readonlyUnsigned := map[], 0, 0, 0;
    for i := 0 to |entries|
      invariant numSigners == Signers(entries[..i]) && readonlySigned == ReadonlySigned(entries[..i])
      invariant readonlyUnsigned == ReadonlyUnsigned(entries[..i])
      invariant forall k :: At(index, k) == IndexOf(entries[..i], k)
    {
      assert entries[..i + 1][..i] == entries[..i];
      var e := entries[i];
      index := index[e.key := i];
      if e.signer {
        numSigners := numSigners + 1;
        if !e.writable {
          readonlySigned := readonlySigned + 1;
        }
      } else if !e.writable {
        readonlyUnsigned := readonlyUnsigned + 1;
      }
    }
    assert entries[..|entries|] == entries;
  }

  method SerialiseInstruction(ghost entries: seq<Entry>, index: map<Identity, nat>, ix: Instruction)
    returns (out: Bytes)
    requires forall k :: At(index, k) == IndexOf(entries, k)
    ensures out == InstructionBytes(entries, ix)
  {
    var count := CompactU16(|ix.accounts|);
    out := [Low(At(index, ix.program))] + count;
    ghost var head := out;
    for j := 0 to |ix.accounts|
      invariant out == head + AccountBytes(entries, ix.accounts[..j])
    {
      out := out + [Low(At(index, ix.accounts[j].key))];
      assert AccountBytes(entries, ix.accounts[..j + 1])
          == AccountBytes(entries, ix.accounts[..j]) + [Low(IndexOf(entries, ix.accounts[j].key))];
    }
    assert ix.accounts[..|ix.accounts|] == ix.accounts;
    var length := CompactU16(|ix.data|);
    out := out + length + ix.data;
  }

  method SerialiseKeys(entries: seq<Entry>) returns (out: Bytes)
    ensures out == Flat(Keys(entries))
  {
    out := [];
    for i := 0 to |entries|
      invariant out == Flat(Keys(entries[..i]))
    {
      FlatAppend(Keys(entries[..i]), entries[i].key);
      assert Keys(entries[..i + 1]) == Keys(entries[..i]) + [entries[i].key];
      out := out + entries[i].key;
    }
    assert entries[..|entries|] == entries;
  }

  method SerialiseInstructions(ghost entries: seq<Entry>, index: map<Identity, nat>, ixs: seq<Instruction>)
    returns (out: Bytes)
    requires forall k :: At(index, k) == IndexOf(entries, k)
    ensures out == InstructionsBytes(entries, ixs)
  {
    hide IndexOf;
    out := [];
    for i := 0 to |ixs|
      invariant out == InstructionsBytes(entries, ixs[..i])
    {
      var ixBytes := SerialiseInstruction(entries, index, ixs[i]);
      assert ixs[..i + 1][..i] == ixs[..i];
      out := out + ixBytes;
    }
    assert ixs[..|ixs|] == ixs;
  }

  method Serialise(entries: seq<Entry>, blockhash: Identity, ixs: seq<Instruction>)
    returns (msg: Bytes, numSigners: nat)
    ensures msg == Message(entries, blockhash, ixs) && numSigners == Signers(entries)
  {
    hide Flat, Keys, InstructionsBytes, IndexOf, Signers, ReadonlySigned, ReadonlyUnsigned, Compact;
    var index, readonlySigned, readonlyUnsigned;
    index, numSigners, readonlySigned, readonlyUnsigned := CountPrivileges(entries);
    msg := [Low(numSigners), Low(readonlySigned), Low(readonlyUnsigned)];
    var count := CompactU16(|entries|);
    var keys := SerialiseKeys(entries);
    msg := msg + count + keys + blockhash;
    count := CompactU16(|ixs|);
    var body := SerialiseInstructions(entries, index, ixs);
    msg := msg + count + body;
  }

  /** The first account that must sign and has no key. */
  function Unsigned(es: seq<Entry>, held: set<Identity>): Option<Identity> {
    if es == [] then None
    else if Unsigned(es[..|es| - 1], held).Some? then Unsigned(es[..|es| - 1], held)
    else if es[|es| - 1].key in held then None else Some(es[|es| - 1].key)
  }

  method SignAll(sign: (Identity, Bytes) -> Signature, required: seq<Entry>, held: set<Identity>, msg: Bytes)
    returns (r: Result<Bytes, BuildError>)
    ensures r == match Unsigned(required, held)
                 case Some(k) => Err(NoKeyFor(k))
                 case None => Ok(Flat(Signed(sign, required, msg)))
  {
    var out: Bytes := [];
    for i := 0 to |required|
      invariant Unsigned(required[..i], held) == None
      invariant out == Flat(Signed(sign, required[..i], msg))
    {
      assert required[..i + 1][..i] == required[..i];
      if required[i].key !in held {
        FirstUnsigned(required, held, i);
        return Err(NoKeyFor(required[i].key));
      }
      FlatAppend(Signed(sign, required[..i], msg), sign(required[i].key, msg));
      out := out + sign(required[i].key, msg);
    }
    assert required[..|required|] == required;
    r := Ok(out);
  }

  /** The transaction over ranked accounts, or the error: too many accounts, or a required signer with no key. */
  function Built(sign: (Identity, Bytes) -> Signature, es: seq<Entry>, blockhash: Identity, held: set<Identity>,
                 ixs: seq<Instruction>)
    : Result<Bytes, BuildError>
  {
    CountsBound(es);
    if |es| > 256 then Err(TooManyAccounts)
    else
      match Unsigned(es[..Signers(es)], held)
      case Some(k) => Err(NoKeyFor(k))
      case None => Ok(Wire(sign, es, blockhash, ixs))
  }

  function Mentioned(mentions: seq<AccountMeta>): set<Identity> {
    set m | m in mentions :: m.key
  }

  lemma {:induction false} NoneUnsigned(es: seq<Entry>, held: set<Identity>)
    ensures Unsigned(es, held).None? <==> forall e | e in es :: e.key in held
    ensures Unsigned(es, held).Some? ==> HasEntry(es, Unsigned(es, held).value) && Unsigned(es, held).value !in held
  {
    if es != [] {
      var n := |es| - 1;
      NoneUnsigned(es[..n], held);
      assert es[n] in es && forall e | e in es :: e in es[..n] || e == es[n];
    }
  }

  /** It is built exactly when at most 256 accounts are mentioned and every signer among them has a key. */
  lemma BuiltExactlyWhen(sign: (Identity, Bytes) -> Signature, es: seq<Entry>, blockhash: Identity, payer: Identity,
                         held: set<Identity>, ixs: seq<Instruction>)
    requires IsOrdering(es, Merged(Mentions(payer, ixs)), payer) && |es| == |Merged(Mentions(payer, ixs))|
    ensures var tx, mentions := Built(sign, es, blockhash, held, ixs), Mentions(payer, ixs);
            && (tx == Err(TooManyAccounts) <==> |Mentioned(mentions)| > 256)
            && (tx.Ok? <==> |Mentioned(mentions)| <= 256 && forall k | SignsIn(mentions, k) :: k in held)
            && (tx.Ok? ==> SignsTheRest(sign, tx.value))
            && (tx.Err? && tx.error.NoKeyFor? ==>
                  SignsIn(mentions, tx.error.signer) && tx.error.signer !in held)
  {
    var mentions := Mentions(payer, ixs);
    CountsBound(es);
    SignaturesCoverTheMessage(sign, es, blockhash, ixs);
    NoneUnsigned(es[..Signers(es)], held);
    MergedAreMentioned(mentions);
    SignersFirst(payer, ixs, es);
    hide Mentions, Merged, Signers, SignsTheRest, Wire, Unsigned, IsOrdering, SignsIn, Mentioned;
    SignersHeld(mentions, es[..Signers(es)], held);
  }

  lemma SignersHeld(mentions: seq<AccountMeta>, required: seq<Entry>, held: set<Identity>)
    requires forall k :: SignsIn(mentions, k) <==> HasEntry(required, k)
    ensures (forall e | e in required :: e.key in held) <==> forall k | SignsIn(mentions, k) :: k in held
  {
    hide SignsIn;
    if forall e | e in required :: e.key in held {
      forall k | SignsIn(mentions, k) ensures k in held {
        var e :| e in required && e.key == k;
      }
    }
    if forall k | SignsIn(mentions, k) :: k in held {
      forall e | e in required ensures e.key in held {
        assert HasEntry(required, e.key);
      }
    }
  }

  lemma MergedAreMentioned(mentions: seq<AccountMeta>)
    ensures |Merged(mentions)| == |Mentioned(mentions)|
  {
    MergedIsUnion(mentions);
    hide Merged;
    forall k: Identity ensures k in Merged(mentions) <==> k in Mentioned(mentions) {
      assert CarriesUnion(Merged(mentions), mentions, k);
    }
    assert Merged(mentions).Keys == Mentioned(mentions);
  }

  predicate HasEntry(es: seq<Entry>, key: Identity) {
    exists e :: e in es && e.key == key
  }

  /** The first accounts are those that sign. */
  lemma SignersFirst(payer: Identity, ixs: seq<Instruction>, es: seq<Entry>)
    requires IsOrdering(es, Merged(Mentions(payer, ixs)), payer) && Signers(es) <= |es|
    ensures forall k :: SignsIn(Mentions(payer, ixs), k) <==> HasEntry(es[..Signers(es)], k)
  {
    var mentions, n := Mentions(payer, ixs), Signers(es);
    MergedIsUnion(mentions);
    forall i | 0 <= i < |es| ensures SignsIn(mentions, es[i].key) <==> i < n {
      PrivilegesRead(payer, ixs, es, i);
    }
    hide Mentions, Signers, Merged, Ranked, SignsIn, MentionedIn;
    forall k ensures SignsIn(mentions, k) <==> HasEntry(es[..n], k) {
      assert CarriesUnion(Merged(mentions), mentions, k);
      SignerIsMentioned(mentions, k);
      SignersAt(es, n, mentions, k);
    }
  }

  lemma SignerIsMentioned(mentions: seq<AccountMeta>, k: Identity)
    ensures SignsIn(mentions, k) ==> MentionedIn(mentions, k)
  {
  }

  lemma SignersAt(es: seq<Entry>, n: nat, mentions: seq<AccountMeta>, k: Identity)
    requires n <= |es| && forall i | 0 <= i < |es| :: SignsIn(mentions, es[i].key) <==> i < n
    requires SignsIn(mentions, k) ==> HasEntry(es, k)
    ensures SignsIn(mentions, k) <==> HasEntry(es[..n], k)
  {
    hide SignsIn;
    if SignsIn(mentions, k) {
      var e :| e in es && e.key == k;
      var i :| 0 <= i < |es| && es[i] == e;
      assert es[..n][i] == e;
    }
    if HasEntry(es[..n], k) {
      var e :| e in es[..n] && e.key == k;
      var i :| 0 <= i < n && es[..n][i] == e;
      assert es[i] == e;
    }
  }

  method BuildTransaction(sign: (Identity, Bytes) -> Signature, blockhash: Identity, payer: Identity,
                          signers: set<Identity>, ixs: seq<Instruction>)
    returns (tx: Result<Bytes, BuildError>)
    ensures exists es :: IsOrdering(es, Merged(Mentions(payer, ixs)), payer) && |es| == |Merged(Mentions(payer, ixs))|
                      && tx == Built(sign, es, blockhash, signers + {payer}, ixs)
    ensures tx.Ok? ==> SignsTheRest(sign, tx.value)
    ensures tx == Err(TooManyAccounts) <==> |Mentioned(Mentions(payer, ixs))| > 256
    ensures tx.Ok? <==> |Mentioned(Mentions(payer, ixs))| <= 256
                        && forall k | SignsIn(Mentions(payer, ixs), k) :: k == payer || k in signers
    ensures tx.Err? && tx.error.NoKeyFor? ==>
              SignsIn(Mentions(payer, ixs), tx.error.signer) && tx.error.signer != payer && tx.error.signer !in signers
  {
    hide IsOrdering, Mentions, Message, Flat, Signed, Compact, Unsigned, Signers;
    var merged := MergeAccounts(payer, ixs);
    MergedIsUnion(Mentions(payer, ixs));
    forall k | k in merged ensures merged[k].key == k {
      assert CarriesUnion(merged, Mentions(payer, ixs), k);
    }
    var entries := RankEntries(merged, payer);
    CountsBound(entries);
    assert IsOrdering(entries, Merged(Mentions(payer, ixs)), payer);
    BuiltExactlyWhen(sign, entries, blockhash, payer, signers + {payer}, ixs);
    hide SignsTheRest, Mentioned, SignsIn;
    if |merged| > 256 {
      return Err(TooManyAccounts);
    }
    var msg, numSigners := Serialise(entries, blockhash, ixs);
    var head := CompactU16(numSigners);
    var signatures := SignAll(sign, entries[..numSigners], signers + {payer}, msg);
    match signatures {
      case Err(e) => tx := Err(e);
      case Ok(bytes) => tx := Ok(head + bytes + msg);
    }
  }

  lemma {:induction false} FirstUnsigned(es: seq<Entry>, held: set<Identity>, i: nat)
    requires i < |es| && Unsigned(es[..i + 1], held).Some?
    ensures Unsigned(es, held) == Unsigned(es[..i + 1], held)
  {
    if i + 1 < |es| {
      assert es[..|es| - 1][..i + 1] == es[..i + 1];
      FirstUnsigned(es[..|es| - 1], held, i);
    } else {
      assert es[..i + 1] == es;
    }
  }

  // ----- A request with 256 signers ------------------------------------------------------------

  function Numbered(i: nat): Identity
    requires i < 256
  {
    [i] + seq(31, _ => 0)
  }

  /** The first account pays and is the program called; 255 others sign. */
  function ManySigners(): seq<Instruction> {
    [Instruction(Numbered(0), seq(255, i requires 0 <= i < 255 => AccountMeta(Numbered(i + 1), true, false)), [])]
  }

  function NumberedUpTo(n: nat): set<Identity>
    requires n <= 256
  {
    set i | 0 <= i < n :: Numbered(i)
  }

  lemma {:induction false} NumberedAreDistinct(n: nat)
    requires n <= 256
    ensures |NumberedUpTo(n)| == n
  {
    if n > 0 {
      NumberedAreDistinct(n - 1);
      assert NumberedUpTo(n) == NumberedUpTo(n - 1) + {Numbered(n - 1)};
      assert forall i | 0 <= i < n - 1 :: Numbered(i)[0] != Numbered(n - 1)[0];
    }
  }

  lemma ManySignersMention(m: AccountMeta)
    ensures var mentions := Mentions(Numbered(0), ManySigners());
            && (m in mentions ==> m.key in NumberedUpTo(256))
            && (m in mentions && !m.signer ==> m.key == Numbered(0))
            && AccountMeta(Numbered(0), true, true) in mentions
            && forall i | 0 < i < 256 :: AccountMeta(Numbered(i), true, false) in mentions
  {
    var ix, mentions := ManySigners()[0], Mentions(Numbered(0), ManySigners());
    assert ManySigners()[..0] == [];
    assert mentions == [AccountMeta(Numbered(0), true, true)] + ix.accounts + [AccountMeta(ix.program, false, false)];
    hide Mentions, Numbered;
    forall i | 0 < i < 256 ensures AccountMeta(Numbered(i), true, false) in mentions {
      assert ix.accounts[i - 1] == AccountMeta(Numbered(i), true, false);
    }
  }

  lemma ManySignersMerge()
    ensures var merged := Merged(Mentions(Numbered(0), ManySigners()));
            |merged| == 256 && NumberedOnce(merged) && forall k | k in merged :: merged[k].key == k && merged[k].signer
  {
    var mentions := Mentions(Numbered(0), ManySigners());
    var merged := Merged(mentions);
    MergedIsUnion(mentions);
    hide Mentions, Merged, ManySigners;
    forall k: Identity ensures k in merged <==> k in NumberedUpTo(256)
      ensures k in merged ==> merged[k].key == k && merged[k].signer
    {
      assert CarriesUnion(merged, mentions, k);
      ManySignersMention(AccountMeta(k, true, true));
      if k in NumberedUpTo(256) {
        var i :| 0 <= i < 256 && k == Numbered(i);
        assert AccountMeta(k, true, i == 0) in mentions;
      } else if MentionedIn(mentions, k) {
        var m :| m in mentions && m.key == k;
        ManySignersMention(m);
      }
    }
    NumberedAreDistinct(256);
    assert merged.Keys == NumberedUpTo(256);
  }

  lemma {:induction false} AllSign(es: seq<Entry>)
    requires forall e | e in es :: e.signer
    ensures Signers(es) == |es|
  {
    if es != [] {
      assert es[|es| - 1] in es && forall e | e in es[..|es| - 1] :: e in es;
      AllSign(es[..|es| - 1]);
    }
  }

  /** 256 accounts may sign, and then the bytes do not say what was asked for. */
  method SignersThatDoNotFit(sign: (Identity, Bytes) -> Signature, blockhash: Identity) returns (es: seq<Entry>)
    ensures IsOrdering(es, Merged(Mentions(Numbered(0), ManySigners())), Numbered(0)) && |es| == Signers(es) == 256
    ensures Parse(Wire(sign, es, blockhash, ManySigners())).Some?
    ensures !Describes(Parse(Wire(sign, es, blockhash, ManySigners())).value, Numbered(0), blockhash, ManySigners())
  {
    hide Describes, Parse, Wire, Mentions, Merged, ManySigners;
    ManySignersMerge();
    var merged := Merged(Mentions(Numbered(0), ManySigners()));
    es := RankEntries(merged, Numbered(0));
    forall e | e in es ensures e.signer {
      assert e.key in merged && merged[e.key] == e;
    }
    AllSign(es);
    TransactionReadsBack(sign, Numbered(0), blockhash, ManySigners(), es);
  }
}
