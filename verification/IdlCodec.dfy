/** Anchor-encoded fields: what the frontend writes into instruction data, what it reads from accounts, and what the
    backend reads from events and accounts. */
module IdlCodec {
  import opened Arithmetic
  import opened Options
  import opened Octets

  /** A field's type. A string is a length prefix and its bytes; every other kind has a fixed size. */
  datatype Kind =
    | Pubkey
    | Bool
    | Int(signed: bool, width: nat)
    | Enum(variants: nat)
    | Raw(size: nat)
    | Array(elemSigned: bool, elemWidth: nat, count: nat)
    | Text

  datatype Field = Field(name: string, kind: Kind)

  datatype Value =
    | KeyValue(key: Bytes)
    | BoolValue(b: bool)
    | IntValue(n: int)
    | VariantValue(index: nat)
    | BytesValue(bytes: Bytes)
    | ListValue(items: seq<int>)
    | TextValue(text: Bytes)

  datatype Error =
    | NoLengthPrefix(name: string)
    | LengthExceeds(name: string)
    | DataEnds(name: string)
    | BadBool(name: string)
    | BadVariant(name: string)
    | BadText(name: string)
    | TrailingBytes

  function Size(kind: Kind): nat {
    match kind
    case Pubkey => 32
    case Bool => 1
    case Int(_, width) => width
    case Enum(_) => 1
    case Raw(size) => size
    case Array(_, width, count) => width * count
    case Text => 0
  }

  /** Loading the IDL refuses an enum that does not fit a byte. */
  predicate Supported(kind: Kind) {
    kind.Enum? ==> kind.variants <= 256
  }

  // ----- Integers ------------------------------------------------------------------------------

  predicate InRange(n: int, signed: bool, width: nat) {
    if signed && width > 0 then -128 * Pow256(width - 1) <= n < 128 * Pow256(width - 1) else 0 <= n < Pow256(width)
  }

  /** Two's complement, low byte first. */
  function IntBytes(n: int, signed: bool, width: nat): Bytes
    requires InRange(n, signed, width)
  {
    LittleEndian(if n < 0 then n + Pow256(width) else n, width)
  }

  function IntOf(b: Bytes, signed: bool): int {
    var n := FromLittleEndian(b);
    if signed && |b| > 0 && b[|b| - 1] >= 128 then n - Pow256(|b|) else n
  }

  /** The top byte decides which half of the range a value is in. */
  lemma {:induction false} TopByte(b: Bytes)
    requires |b| > 0
    ensures b[|b| - 1] >= 128 <==> FromLittleEndian(b) >= 128 * Pow256(|b| - 1)
    decreases |b|
  {
    if |b| == 1 {
      assert b[1..] == [];
    } else {
      TopByte(b[1..]);
    }
  }

  lemma IntReadsBack(n: int, signed: bool, width: nat)
    requires InRange(n, signed, width)
    ensures |IntBytes(n, signed, width)| == width && IntOf(IntBytes(n, signed, width), signed) == n
  {
    var m := if n < 0 then n + Pow256(width) else n;
    LittleEndianReads(m, width);
    if width > 0 {
      TopByte(LittleEndian(m, width));
    }
  }

  lemma IntWritesBack(b: Bytes, signed: bool)
    ensures InRange(IntOf(b, signed), signed, |b|) && IntBytes(IntOf(b, signed), signed, |b|) == b
  {
    FromLittleEndianFits(b);
    LittleEndianWrites(b);
    if |b| > 0 {
      TopByte(b);
    }
  }

  // ----- One value -----------------------------------------------------------------------------

  /** The values a kind can carry. */
  predicate Fits(utf8: Bytes -> bool, kind: Kind, v: Value) {
    match (kind, v)
    case (Pubkey, KeyValue(key)) => |key| == 32
    case (Bool, BoolValue(_)) => true
    case (Int(signed, width), IntValue(n)) => InRange(n, signed, width)
    case (Enum(variants), VariantValue(index)) => index < variants
    case (Raw(size), BytesValue(bytes)) => |bytes| == size
    case (Array(signed, width, count), ListValue(items)) => |items| == count && forall n | n in items ::
        InRange(n, signed, width)
    case (Text, TextValue(text)) => |text| < Pow256(4) && utf8(text)
    case _ => false
  }

  function ItemBytes(items: seq<int>, signed: bool, width: nat): Bytes
    requires forall n | n in items :: InRange(n, signed, width)
  {
    if items == [] then [] else IntBytes(items[0], signed, width) + ItemBytes(items[1..], signed, width)
  }

  /** Borsh: the bytes a program writes for a value. */
  function Encoded(utf8: Bytes -> bool, kind: Kind, v: Value): Bytes
    requires Supported(kind) && Fits(utf8, kind, v)
  {
    match v
    case KeyValue(key) => key
    case BoolValue(b) => [if b then 1 else 0]
    case IntValue(n) => IntBytes(n, kind.signed, kind.width)
    case VariantValue(index) => [index]
    case BytesValue(bytes) => bytes
    case ListValue(items) => ItemBytes(items, kind.elemSigned, kind.elemWidth)
    case TextValue(text) => LittleEndian(|text|, 4) + text
  }

  /** `count` integers of `width` bytes each. */
  function Items(b: Bytes, signed: bool, width: nat, count: nat): seq<int>
    requires |b| == width * count
  {
    if count == 0 then []
    else
      assert width * count == width + width * (count - 1);
      [IntOf(b[..width], signed)] + Items(b[width..], signed, width, count - 1)
  }

  /** The backend's reading of one field off the front of `data`, and what is left. */
  function Read(utf8: Bytes -> bool, f: Field, data: Bytes): Result<(Value, Bytes), Error> {
    if f.kind.Text? then
      if |data| < 4 then Err(NoLengthPrefix(f.name))
      else
        var n := FromLittleEndian(data[..4]);
        if n > |data| - 4 then Err(LengthExceeds(f.name))
        else if !utf8(data[4..][..n]) then Err(BadText(f.name))
        else Ok((TextValue(data[4..][..n]), data[4..][n..]))
    else if Size(f.kind) > |data| then Err(DataEnds(f.name))
    else
      var chunk, rest := data[..Size(f.kind)], data[Size(f.kind)..];
      match f.kind
      case Pubkey => Ok((KeyValue(chunk), rest))
      case Bool => if chunk[0] > 1 then Err(BadBool(f.name)) else Ok((BoolValue(chunk[0] == 1), rest))
      case Enum(variants) => if chunk[0] >= variants then Err(BadVariant(f.name))
          else Ok((VariantValue(chunk[0]), rest))
      case Raw(_) => Ok((BytesValue(chunk), rest))
      case Array(signed, width, count) => Ok((ListValue(Items(chunk, signed, width, count)), rest))
      case Int(signed, _) => Ok((IntValue(IntOf(chunk, signed)), rest))
  }

  lemma OneMore(width: nat, count: nat)
    requires count > 0
    ensures width * count == width + width * (count - 1)
  {
  }

  lemma {:induction false} ItemsReadBack(items: seq<int>, signed: bool, width: nat)
    requires forall n | n in items :: InRange(n, signed, width)
    ensures |ItemBytes(items, signed, width)| == width * |items|
    ensures Items(ItemBytes(items, signed, width), signed, width, |items|) == items
    decreases |items|
  {
    hide IntBytes, IntOf, InRange;
    if items != [] {
      ItemsReadBack(items[1..], signed, width);
      IntReadsBack(items[0], signed, width);
      OneMore(width, |items|);
      var head, tail := IntBytes(items[0], signed, width), ItemBytes(items[1..], signed, width);
      var b := head + tail;
      assert b[..width] == head && b[width..] == tail;
      assert Items(b, signed, width, |items|) == [IntOf(head, signed)] + Items(tail, signed, width, |items| - 1);
    }
  }

  lemma {:induction false} ItemsWriteBack(b: Bytes, signed: bool, width: nat, count: nat)
    requires |b| == width * count
    ensures var items := Items(b, signed, width, count);
            |items| == count && (forall n | n in items :: InRange(n, signed, width))
                && ItemBytes(items, signed, width) == b
    decreases count
  {
    hide IntBytes, IntOf, InRange;
    if count > 0 {
      OneMore(width, count);
      ItemsWriteBack(b[width..], signed, width, count - 1);
      IntWritesBack(b[..width], signed);
      var items := Items(b, signed, width, count);
      assert items[1..] == Items(b[width..], signed, width, count - 1);
      assert b == b[..width] + b[width..];
    } else {
      assert b == [];
    }
  }

  lemma ReadsBack(utf8: Bytes -> bool, f: Field, v: Value, rest: Bytes)
    requires Supported(f.kind) && Fits(utf8, f.kind, v)
    ensures Read(utf8, f, Encoded(utf8, f.kind, v) + rest) == Ok((v, rest))
  {
    var code := Encoded(utf8, f.kind, v);
    var data := code + rest;
    match f.kind
    case Text =>
      LittleEndianReads(|v.text|, 4);
      assert data[..4] == LittleEndian(|v.text|, 4) && data[4..] == v.text + rest;
      assert data[4..][..|v.text|] == v.text && data[4..][|v.text|..] == rest;
    case Int(signed, width) =>
      IntReadsBack(v.n, signed, width);
      assert data[..width] == code && data[width..] == rest;
    case Array(signed, width, count) =>
      ItemsReadBack(v.items, signed, width);
      assert data[..width * count] == code && data[width * count..] == rest;
    case _ =>
      assert data[..|code|] == code && data[|code|..] == rest;
  }

  lemma ReadIsEncoded(utf8: Bytes -> bool, f: Field, data: Bytes)
    requires Supported(f.kind) && Read(utf8, f, data).Ok?
    ensures var (v, rest) := Read(utf8, f, data).value;
            Fits(utf8, f.kind, v) && data == Encoded(utf8, f.kind, v) + rest
  {
    hide IntBytes, IntOf, InRange, Items, ItemBytes, LittleEndian, FromLittleEndian;
    if f.kind.Text? {
      TextIsEncoded(utf8, f, data);
    } else {
      var chunk := data[..Size(f.kind)];
      assert data == chunk + data[Size(f.kind)..];
      match f.kind
      case Int(signed, width) => IntWritesBack(chunk, signed);
      case Array(signed, width, count) => ItemsWriteBack(chunk, signed, width, count);
      case _ =>
    }
  }

  /** What stops the reading of a field, each error exactly when. */
  lemma ReadErrorsInFull(utf8: Bytes -> bool, f: Field, data: Bytes)
    ensures var r := Read(utf8, f, data);
            match f.kind
            case Text =>
              if |data| < 4 then r == Err(NoLengthPrefix(f.name))
              else if 4 + FromLittleEndian(data[..4]) > |data| then r == Err(LengthExceeds(f.name))
              else if !utf8(data[4..4 + FromLittleEndian(data[..4])]) then r == Err(BadText(f.name))
              else r.Ok?
            case Pubkey => if |data| < 32 then r == Err(DataEnds(f.name)) else r.Ok?
            case Bool =>
              if data == [] then r == Err(DataEnds(f.name))
              else if data[0] !in {0, 1} then r == Err(BadBool(f.name))
              else r.Ok?
            case Enum(variants) =>
              if data == [] then r == Err(DataEnds(f.name))
              else if data[0] >= variants then r == Err(BadVariant(f.name))
              else r.Ok?
            case Int(_, width) => if |data| < width then r == Err(DataEnds(f.name)) else r.Ok?
            case Raw(size) => if |data| < size then r == Err(DataEnds(f.name)) else r.Ok?
            case Array(_, width, count) => if |data| < width * count then r == Err(DataEnds(f.name)) else r.Ok?
  {
    hide FromLittleEndian, Items, IntOf;
    if f.kind.Text? && |data| >= 4 && 4 + FromLittleEndian(data[..4]) <= |data| {
      assert data[4..4 + FromLittleEndian(data[..4])] == data[4..][..FromLittleEndian(data[..4])];
    }
  }

  lemma TextIsEncoded(utf8: Bytes -> bool, f: Field, data: Bytes)
    requires f.kind.Text? && Read(utf8, f, data).Ok?
    ensures var (v, rest) := Read(utf8, f, data).value;
            Fits(utf8, f.kind, v) && data == Encoded(utf8, f.kind, v) + rest
  {
    hide LittleEndian, FromLittleEndian, Pow256;
    var n := FromLittleEndian(data[..4]);
    FromLittleEndianFits(data[..4]);
    LittleEndianWrites(data[..4]);
    assert data == data[..4] + (data[4..][..n] + data[4..][n..]);
  }

  // ----- A layout ------------------------------------------------------------------------------

  predicate AllSupported(fields: seq<Field>) {
    forall f | f in fields :: Supported(f.kind)
  }

  predicate AllFit(utf8: Bytes -> bool, fields: seq<Field>, values: seq<Value>) {
    |values| == |fields| && forall i | 0 <= i < |fields| :: Fits(utf8, fields[i].kind, values[i])
  }

  function EncodedAll(utf8: Bytes -> bool, fields: seq<Field>, values: seq<Value>): Bytes
    requires AllSupported(fields) && AllFit(utf8, fields, values)
  {
    if fields == [] then []
    else
      var n := |fields| - 1;
      EncodedAll(utf8, fields[..n], values[..n]) + Encoded(utf8, fields[n].kind, values[n])
  }

  function ReadAll(utf8: Bytes -> bool, fields: seq<Field>, data: Bytes): Result<(seq<Value>, Bytes), Error> {
    if fields == [] then Ok(([], data))
    else
      match ReadAll(utf8, fields[..|fields| - 1], data)
      case Err(e) => Err(e)
      case Ok((values, rest)) =>
        match Read(utf8, fields[|fields| - 1], rest)
        case Err(e) => Err(e)
        case Ok((v, remainder)) => Ok((values + [v], remainder))
  }

  lemma {:induction false} AllReadBack(utf8: Bytes -> bool, fields: seq<Field>, values: seq<Value>, rest: Bytes)
    requires AllSupported(fields) && AllFit(utf8, fields, values)
    ensures ReadAll(utf8, fields, EncodedAll(utf8, fields, values) + rest) == Ok((values, rest))
    decreases |fields|
  {
    hide Read, Encoded, Fits;
    if fields != [] {
      var n := |fields| - 1;
      var init, last := EncodedAll(utf8, fields[..n], values[..n]), Encoded(utf8, fields[n].kind, values[n]);
      assert EncodedAll(utf8, fields, values) + rest == init + (last + rest);
      AllReadBack(utf8, fields[..n], values[..n], last + rest);
      ReadsBack(utf8, fields[n], values[n], rest);
      assert values[..n] + [values[n]] == values;
    } else {
      assert EncodedAll(utf8, fields, values) + rest == rest;
    }
  }

  lemma FitOneMore(utf8: Bytes -> bool, fields: seq<Field>, values: seq<Value>, v: Value)
    requires fields != [] && AllFit(utf8, fields[..|fields| - 1], values) && Fits(utf8, fields[|fields| - 1].kind, v)
    ensures AllFit(utf8, fields, values + [v]) && (values + [v])[..|fields| - 1] == values
  {
    hide Fits;
  }

  lemma {:induction false} AllReadIsEncoded(utf8: Bytes -> bool, fields: seq<Field>, data: Bytes)
    requires AllSupported(fields) && ReadAll(utf8, fields, data).Ok?
    ensures var (values, rest) := ReadAll(utf8, fields, data).value;
            AllFit(utf8, fields, values) && data == EncodedAll(utf8, fields, values) + rest
    decreases |fields|
  {
    hide Read, Encoded, Fits;
    if fields != [] {
      var n := |fields| - 1;
      AllReadIsEncoded(utf8, fields[..n], data);
      var (values, rest) := ReadAll(utf8, fields[..n], data).value;
      ReadIsEncoded(utf8, fields[n], rest);
      var (v, remainder) := Read(utf8, fields[n], rest).value;
      FitOneMore(utf8, fields, values, v);
      hide AllFit, AllSupported;
      assert EncodedAll(utf8, fields, values + [v]) == EncodedAll(utf8, fields[..n], values)
             + Encoded(utf8, fields[n].kind, v);
    }
  }

  /** The decoded fields by name; a later field of the same name replaces an earlier one. */
  function Named(fields: seq<Field>, values: seq<Value>): map<string, Value>
    requires |fields| == |values|
  {
    if fields == [] then map[]
    else
      var n := |fields| - 1;
      Named(fields[..n], values[..n])[fields[n].name := values[n]]
  }

  lemma {:induction false} ReadsEveryField(utf8: Bytes -> bool, fields: seq<Field>, data: Bytes)
    requires ReadAll(utf8, fields, data).Ok?
    ensures |ReadAll(utf8, fields, data).value.0| == |fields|
  {
    if fields != [] {
      ReadsEveryField(utf8, fields[..|fields| - 1], data);
    }
  }

  function Decoded(utf8: Bytes -> bool, fields: seq<Field>, data: Bytes,
                   exact: bool): Result<map<string, Value>, Error> {
    match ReadAll(utf8, fields, data)
    case Err(e) => Err(e)
    case Ok((values, rest)) =>
      ReadsEveryField(utf8, fields, data);
      if exact && rest != [] then Err(TrailingBytes) else Ok(Named(fields, values))
  }

  lemma {:induction false} NamedHolds(fields: seq<Field>, values: seq<Value>, i: nat)
    requires |fields| == |values| && i < |fields|
    requires forall j | i < j < |fields| :: fields[j].name != fields[i].name
    ensures fields[i].name in Named(fields, values) && Named(fields, values)[fields[i].name] == values[i]
    decreases |fields|
  {
    var n := |fields| - 1;
    if i < n {
      NamedHolds(fields[..n], values[..n], i);
    }
  }

  lemma FitsEveryField(utf8: Bytes -> bool, fields: seq<Field>, values: seq<Value>)
    requires AllFit(utf8, fields, values)
    ensures |values| == |fields|
  {
  }

  /** Decoding concatenated encodings gives back every field. */
  lemma DecodesWhatWasEncoded(utf8: Bytes -> bool, fields: seq<Field>, values: seq<Value>, exact: bool)
    requires AllSupported(fields) && AllFit(utf8, fields, values)
    requires forall i, j | 0 <= i < j < |fields| :: fields[i].name != fields[j].name
    ensures var out := Decoded(utf8, fields, EncodedAll(utf8, fields, values), exact);
            out.Ok? && forall i | 0 <= i < |fields| ::
                fields[i].name in out.value && out.value[fields[i].name] == values[i]
  {
    hide Encoded, Fits, AllFit, AllSupported, ReadAll, EncodedAll;
    var data := EncodedAll(utf8, fields, values);
    FitsEveryField(utf8, fields, values);
    AllReadBack(utf8, fields, values, []);
    assert data + [] == data;
    forall i | 0 <= i < |fields|
        ensures fields[i].name in Named(fields, values) && Named(fields, values)[fields[i].name] == values[i] {
      NamedHolds(fields, values, i);
    }
  }

  /** Exact decoding accepts the encodings of the layout's values and nothing else; otherwise an encoding may be
      followed by anything. */
  lemma DecodesExactlyEncodings(utf8: Bytes -> bool, fields: seq<Field>, data: Bytes)
    requires AllSupported(fields)
    ensures Decoded(utf8, fields, data, true).Ok? <==>
            exists values :: AllFit(utf8, fields, values) && data == EncodedAll(utf8, fields, values)
    ensures Decoded(utf8, fields, data, false).Ok? <==>
            exists values :: AllFit(utf8, fields, values) && EncodedAll(utf8, fields, values) <= data
  {
    if ReadAll(utf8, fields, data).Ok? {
      AllReadIsEncoded(utf8, fields, data);
      var (values, rest) := ReadAll(utf8, fields, data).value;
      assert EncodedAll(utf8, fields, values) <= data;
      if rest == [] {
        assert data == EncodedAll(utf8, fields, values);
      }
    }
    forall values | AllFit(utf8, fields, values) && EncodedAll(utf8, fields, values) <= data
      ensures ReadAll(utf8, fields, data) == Ok((values, data[|EncodedAll(utf8, fields, values)|..]))
    {
      var code := EncodedAll(utf8, fields, values);
      assert data == code + data[|code|..];
      AllReadBack(utf8, fields, values, data[|code|..]);
    }
    hide Encoded, Fits, ReadAll, EncodedAll;
  }

  lemma EncodingsArePrefixFree(utf8: Bytes -> bool, fields: seq<Field>, values: seq<Value>, others: seq<Value>,
                               rest: Bytes)
    requires AllSupported(fields) && AllFit(utf8, fields, values) && AllFit(utf8, fields, others)
    requires EncodedAll(utf8, fields, values) == EncodedAll(utf8, fields, others) + rest
    ensures rest == [] && others == values
  {
    AllReadBack(utf8, fields, values, []);
    AllReadBack(utf8, fields, others, rest);
    assert EncodedAll(utf8, fields, values) + [] == EncodedAll(utf8, fields, others) + rest;
    hide Encoded, Fits, AllFit, AllSupported, ReadAll, EncodedAll;
  }

  /** A buffer cut anywhere is refused in either mode, and one with anything after it is refused in exact mode. */
  lemma CutOrExtendedIsRefused(utf8: Bytes -> bool, fields: seq<Field>, values: seq<Value>, n: nat, extra: Bytes)
    requires AllSupported(fields) && AllFit(utf8, fields, values)
    requires n < |EncodedAll(utf8, fields, values)| && extra != []
    ensures Decoded(utf8, fields, EncodedAll(utf8, fields, values)[..n], false).Err?
    ensures Decoded(utf8, fields, EncodedAll(utf8, fields, values)[..n], true).Err?
    ensures Decoded(utf8, fields, EncodedAll(utf8, fields, values) + extra, true) == Err(TrailingBytes)
  {
    hide Encoded, Fits, AllFit, AllSupported, ReadAll, EncodedAll, Named;
    var data := EncodedAll(utf8, fields, values);
    AllReadBack(utf8, fields, values, extra);
    if ReadAll(utf8, fields, data[..n]).Ok? {
      AllReadIsEncoded(utf8, fields, data[..n]);
      var (others, rest) := ReadAll(utf8, fields, data[..n]).value;
      EncodingsArePrefixFree(utf8, fields, values, others, rest + data[n..]);
    }
  }

  // ----- The backend's decoder -----------------------------------------------------------------

  /** The bytes reversed into a big-endian buffer, read as a number, less the whole range when the sign bit is set. */
  method LittleEndianInt(b: Bytes, signed: bool) returns (n: int)
    ensures n == IntOf(b, signed)
  {
    var be := new Byte[|b|];
    for i := 0 to |b|
      invariant forall k | 0 <= k < i :: be[|b| - 1 - k] == b[k]
    {
      be[|b| - 1 - i] := b[i];
    }
    assert Reversed(be[..]) == b;
    n := FromBigEndian(be[..]);
    if signed && |b| > 0 && b[|b| - 1] >= 128 {
      n := n - Pow256(|b|);
    }
  }

  lemma Places(width: nat, count: nat, i: nat)
    requires i < count
    ensures width * count == width + width * (count - 1) && 0 <= i * width && i * width + width <= width * count
    ensures i > 0 ==> i * width == (i - 1) * width + width && 0 <= (i - 1) * width
  {
    MulMonotone(i + 1, count, width);
    assert (i + 1) * width == i * width + width;
  }

  lemma {:induction false} ItemsAt(b: Bytes, signed: bool, width: nat, count: nat, i: nat)
    requires |b| == width * count && i < count
    ensures |Items(b, signed, width, count)| == count
    ensures 0 <= i * width && i * width + width <= |b|
    ensures Items(b, signed, width, count)[i] == IntOf(b[i * width..i * width + width], signed)
    decreases count
  {
    hide IntOf;
    ItemsWriteBack(b, signed, width, count);
    Places(width, count, i);
    if i == 0 {
      assert b[0 * width..0 * width + width] == b[..width];
    } else {
      ItemsAt(b[width..], signed, width, count - 1, i - 1);
      hide Items;
      assert b[i * width..i * width + width] == b[width..][(i - 1) * width..(i - 1) * width + width];
    }
  }

  method DecodeItems(chunk: Bytes, signed: bool, width: nat, count: nat) returns (values: seq<int>)
    requires |chunk| == width * count
    ensures values == Items(chunk, signed, width, count)
  {
    hide Items, IntOf;
    values := [];
    ItemsWriteBack(chunk, signed, width, count);
    ghost var all := Items(chunk, signed, width, count);
    for i := 0 to count
      invariant |values| == i && forall k | 0 <= k < i :: values[k] == all[k]
    {
      ItemsAt(chunk, signed, width, count, i);
      var start := i * width;
      var v := LittleEndianInt(chunk[start..start + width], signed);
      values := values + [v];
    }
  }

  /** One pass of the loop: the field at `offset`, and the offset after it. */
  method DecodeField(utf8: Bytes -> bool, f: Field, data: Bytes, offset: nat) returns (r: Result<(Value, nat), Error>)
    requires offset <= |data|
    ensures r.Err? ==> Read(utf8, f, data[offset..]) == Err(r.error)
    ensures r.Ok? ==>
            offset <= r.value.1 <= |data| && Read(utf8, f, data[offset..]) == Ok((r.value.0, data[r.value.1..]))
  {
    var size, start := Size(f.kind), offset;
    if f.kind.Text? {
      if offset + 4 > |data| {
        return Err(NoLengthPrefix(f.name));
      }
      var n := FromLittleEndian(data[offset..offset + 4]);
      assert data[offset..offset + 4] == data[offset..][..4];
      start := offset + 4;
      assert data[start..] == data[offset..][4..];
      if n > |data| - start {
        return Err(LengthExceeds(f.name));
      }
      size := n;
    }
    if start + size > |data| {
      return Err(DataEnds(f.name));
    }
    var chunk, end := data[start..start + size], start + size;
    assert chunk == data[start..][..size] && data[end..] == data[start..][size..];
    match f.kind {
      case Pubkey => r := Ok((KeyValue(chunk), end));
      case Bool =>
        if chunk[0] > 1 {
          return Err(BadBool(f.name));
        }
        r := Ok((BoolValue(chunk[0] == 1), end));
      case Enum(variants) =>
        if chunk[0] >= variants {
          return Err(BadVariant(f.name));
        }
        r := Ok((VariantValue(chunk[0]), end));
      case Text =>
        if !utf8(chunk) {
          return Err(BadText(f.name));
        }
        r := Ok((TextValue(chunk), end));
      case Raw(_) => r := Ok((BytesValue(chunk), end));
      case Array(signed, width, count) =>
        var values := DecodeItems(chunk, signed, width, count);
        r := Ok((ListValue(values), end));
      case Int(signed, _) =>
        var n := LittleEndianInt(chunk, signed);
        r := Ok((IntValue(n), end));
    }
  }

  lemma {:induction false} FirstErrorStands(utf8: Bytes -> bool, fields: seq<Field>, data: Bytes, i: nat)
    requires i <= |fields| && ReadAll(utf8, fields[..i], data).Err?
    ensures ReadAll(utf8, fields, data) == ReadAll(utf8, fields[..i], data)
    decreases |fields|
  {
    if i < |fields| {
      assert fields[..|fields| - 1][..i] == fields[..i];
      FirstErrorStands(utf8, fields[..|fields| - 1], data, i);
    } else {
      assert fields[..i] == fields;
    }
  }

  method DecodeFields(utf8: Bytes -> bool, fields: seq<Field>, data: Bytes, exact: bool)
    returns (r: Result<map<string, Value>, Error>)
    ensures r == Decoded(utf8, fields, data, exact)
  {
    hide Read;
    var out: map<string, Value> := map[];
    var offset: nat := 0;
    ghost var values := [];
    assert data[0..] == data;
    for i := 0 to |fields|
      invariant offset <= |data| && |values| == i
      invariant ReadAll(utf8, fields[..i], data) == Ok((values, data[offset..]))
      invariant out == Named(fields[..i], values)
    {
      var f := fields[i];
      var one := DecodeField(utf8, f, data, offset);
      assert fields[..i + 1][..i] == fields[..i];
      if one.Err? {
        FirstErrorStands(utf8, fields, data, i + 1);
        return Err(one.error);
      }
      values := values + [one.value.0];
      assert values[..i] + [values[i]] == values;
      out, offset := out[f.name := one.value.0], one.value.1;
    }
    assert fields[..|fields|] == fields && |data[offset..]| == |data| - offset;
    if exact && offset != |data| {
      return Err(TrailingBytes);
    }
    return Ok(out);
  }

  // ----- Events --------------------------------------------------------------------------------

  const DISCRIMINATOR_LEN := 8
  const EVENT_TAG: Bytes := [0xe4, 0x45, 0xa5, 0x2e, 0x51, 0xcb, 0x9a, 0x1d]

  datatype Layout = Layout(discriminator: Bytes, fields: seq<Field>)

  datatype EventError = NotEventData | UnknownEvent | BadEvent(event: string, why: Error)

  /** Event names to layouts, as loading the IDL leaves them; nothing keeps two events from sharing a discriminator. */
  ghost predicate EventsOk(events: map<string, Layout>) {
    forall name | name in events :: |events[name].discriminator| == DISCRIMINATOR_LEN
  }

  /** `name` is an event with this discriminator. */
  predicate IsEvent(events: map<string, Layout>, name: string, discriminator: Bytes) {
    name in events && events[name].discriminator == discriminator
  }

  function EventOf(name: string, fields: Result<map<string, Value>, Error>)
    : Result<(string, map<string, Value>), EventError> {
    match fields
    case Ok(payload) => Ok((name, payload))
    case Err(e) => Err(BadEvent(name, e))
  }

  lemma FourBytes(b: Bytes)
    requires |b| == 4
    ensures FromLittleEndian(b) == b[0] as int + 0x100 * b[1] as int + 0x1_0000 * b[2] as int + 0x100_0000 * b[3] as int
  {
    var tail := b[1..][1..];
    assert tail == [b[2], b[3]];
    assert tail[1..] == [b[3]];
    assert tail[1..][1..] == [];
    assert FromLittleEndian(tail[1..]) == b[3];
    assert FromLittleEndian(tail) == b[2] as int + 0x100 * b[3] as int;
  }

  /** Anchor's tag for events is the number 0x1d9acb51_2ea545e4, low byte first. */
  lemma EventTag()
    ensures |EVENT_TAG| == 8
    ensures FromLittleEndian(EVENT_TAG[..4]) == 0x2ea545e4 && FromLittleEndian(EVENT_TAG[4..]) == 0x1d9acb51
  {
    FourBytes(EVENT_TAG[..4]);
    FourBytes(EVENT_TAG[4..]);
    hide FromLittleEndian;
  }

  /** What a decoder of event data may answer: that it is none, that no event has its discriminator, or the fields it
      holds by the layout of one that has. */
  ghost predicate EventAnswer(utf8: Bytes -> bool, events: map<string, Layout>, data: Bytes,
                              r: Result<(string, map<string, Value>), EventError>) {
    if |data| < 16 || data[..8] != EVENT_TAG then r == Err(NotEventData)
    else if r == Err(UnknownEvent) then forall name :: !IsEvent(events, name, data[8..16])
    else exists name :: IsEvent(events, name, data[8..16])
                        && r == EventOf(name, Decoded(utf8, events[name].fields, data[16..], true))
  }

  /** The events are tried in whatever order the map gives them: the data are decoded by a layout with their
      discriminator, which one only if two share it being open. */
  method DecodeEvent(utf8: Bytes -> bool, events: map<string, Layout>, data: Bytes)
    returns (r: Result<(string, map<string, Value>), EventError>)
    requires EventsOk(events)
    ensures EventAnswer(utf8, events, data, r)
  {
    if |data| < 2 * DISCRIMINATOR_LEN || data[..DISCRIMINATOR_LEN] != EVENT_TAG {
      return Err(NotEventData);
    }
    var body := data[DISCRIMINATOR_LEN..];
    assert body[..8] == data[8..16] && body[8..] == data[16..];
    var untried := events.Keys;
    while untried != {}
      invariant untried <= events.Keys
      invariant forall name | name !in untried :: !IsEvent(events, name, data[8..16])
      decreases |untried|
    {
      var name :| name in untried;
      if body[..DISCRIMINATOR_LEN] == events[name].discriminator {
        assert IsEvent(events, name, data[8..16]);
        var payload := DecodeFields(utf8, events[name].fields, body[DISCRIMINATOR_LEN..], true);
        if payload.Err? {
          return Err(BadEvent(name, payload.error));
        }
        return Ok((name, payload.value));
      }
      untried := untried - {name};
    }
    return Err(UnknownEvent);
  }

  // ----- The frontend --------------------------------------------------------------------------

  predicate JsInteger(kind: Kind) {
    kind.Int? && (kind.width == 1 || kind.width == 2 || kind.width == 4 || kind.width == 8 || kind.width == 16)
  }

  /** An argument as given: a key, a boolean, or an integer. */
  predicate Argument(v: Value) {
    v.KeyValue? || v.BoolValue? || v.IntValue?
  }

  predicate Truthy(v: Value) {
    (v.BoolValue? ==> v.b) && (v.IntValue? ==> v.n != 0)
  }

  datatype JsError = NotAKey | NotAnInteger | DoesNotFit | Unsupported | MissingArgument(name: string)
      | UnknownArguments
    | NotThisAccount | Truncated

  /** The digits of a positive number, highest first. */
  function Digits58(n: nat): seq<nat> {
    if n == 0 then [] else Digits58(n / 58) + [n % 58]
  }

  function LeadingZeros(b: Bytes): nat {
    if b == [] || b[0] != 0 then 0 else 1 + LeadingZeros(b[1..])
  }

  /** A key's base58 text, as digits: one zero for each zero byte in front, and then the number. */
  function Base58(key: Bytes): seq<nat> {
    seq(LeadingZeros(key), _ => 0) + Digits58(FromBigEndian(key))
  }

  /** Digits in base 58, the highest first, as a number. */
  function FromDigits58(digits: seq<nat>): nat {
    if digits == [] then 0 else 58 * FromDigits58(digits[..|digits| - 1]) + digits[|digits| - 1]
  }

  lemma {:induction false} Digits58InFull(n: nat)
    ensures FromDigits58(Digits58(n)) == n && (forall d | d in Digits58(n) :: d < 58)
    ensures n > 0 ==> Digits58(n) != [] && Digits58(n)[0] != 0
  {
    if n > 0 { Digits58InFull(n / 58); }
  }

  lemma {:induction false} LeadingZeroBytes(b: Bytes)
    ensures var z := LeadingZeros(b);
            z <= |b| && (forall i | 0 <= i < z :: b[i] == 0) && (z < |b| ==> b[z] != 0)
  {
    if b != [] && b[0] == 0 { LeadingZeroBytes(b[1..]); }
  }

  lemma {:induction false} ZerosInFront(z: nat, digits: seq<nat>)
    ensures FromDigits58(seq(z, _ => 0) + digits) == FromDigits58(digits)
    decreases |digits|, z
  {
    var all := seq(z, _ => 0) + digits;
    if digits != [] {
      var init := digits[..|digits| - 1];
      ZerosInFront(z, init);
      assert all[..|all| - 1] == seq(z, _ => 0) + init;
    } else if z > 0 {
      ZerosInFront(z - 1, []);
      assert all[..|all| - 1] == seq(z - 1, _ => 0) + [];
    }
  }

  lemma {:induction false} NoZeroIsPositive(b: Bytes)
    requires b != [] && b[|b| - 1] != 0
    ensures FromLittleEndian(b) > 0
  {
    if |b| > 1 { NoZeroIsPositive(b[1..]); }
  }

  lemma {:induction false} ZerosAtTheEnd(b: Bytes, z: nat)
    requires z <= |b| && forall i | |b| - z <= i < |b| :: b[i] == 0
    ensures FromLittleEndian(b[..|b| - z]) == FromLittleEndian(b)
  {
    if z < |b| {
      ZerosAtTheEnd(b[1..], z);
      assert b[..|b| - z][1..] == b[1..][..|b| - 1 - z];
    } else if b != [] {
      ZerosAtTheEnd(b[1..], z - 1);
      assert b[1..][..0] == b[..0];
    }
  }

  /** A key's text spells its number in base 58 behind as many zeros as it has zero bytes in front. */
  lemma Base58InFull(key: Bytes) returns (zeros: nat)
    ensures var digits := Base58(key);
            && FromDigits58(digits) == FromBigEndian(key) && (forall d | d in digits :: d < 58)
            && zeros <= |key| && zeros <= |digits|
            && (forall i | 0 <= i < zeros :: key[i] == 0 && digits[i] == 0)
            && (zeros < |key| ==> key[zeros] != 0 && zeros < |digits|)
            && (zeros == |key| ==> zeros == |digits|)
            && (zeros < |digits| ==> digits[zeros] != 0)
  {
    zeros := LeadingZeros(key);
    var n := FromBigEndian(key);
    LeadingZeroBytes(key);
    Digits58InFull(n);
    ZerosInFront(zeros, Digits58(n));
    var b := Reversed(key);
    ZerosAtTheEnd(b, zeros);
    if zeros < |key| { NoZeroIsPositive(b[..|b| - zeros]); }
  }

  /** Keys have texts of their own. */
  lemma KeysHaveOwnTexts(a: Bytes, b: Bytes)
    requires |a| == |b| && Base58(a) == Base58(b)
    ensures a == b
  {
    var za := Base58InFull(a);
    var zb := Base58InFull(b);
    BigEndianWrites(a);
    BigEndianWrites(b);
  }

  /** The number a text in base58 spells in decimal, when all its characters are decimal digits: the first nine base58
      digits are written 1 to 9, and none is written 0. */
  function Spelled(digits: seq<nat>): Option<nat> {
    if digits == [] then Some(0)
    else
      var n, d := Spelled(digits[..|digits| - 1]), digits[|digits| - 1];
      if n.None? || d >= 9 then None else Some(10 * n.value + d + 1)
  }

  /** What it spells starts with its first digit's character, and each of them is one of '1' to '9'. */
  lemma {:induction false} SpelledInFull(d: nat, rest: seq<nat>)
    ensures match Spelled([d] + rest)
            case Some(n) =>
              d <= 8 && Spelled(rest).Some? && n == (d + 1) * Pow10(|rest|) + Spelled(rest).value
            case None => d >= 9 || Spelled(rest) == None
    ensures Spelled([]) == Some(0)
    decreases |rest|
  {
    var all := [d] + rest;
    if rest == [] {
      assert all[..0] == [];
    } else {
      var init, last := rest[..|rest| - 1], rest[|rest| - 1];
      SpelledInFull(d, init);
      assert all[..|all| - 1] == [d] + init;
      if Spelled(all).Some? {
        assert 10 * ((d + 1) * Pow10(|init|)) == (d + 1) * Pow10(|rest|);
      }
    }
  }

  /** The integer JavaScript makes of an argument: of a key, through its text. */
  function AsInteger(v: Value): Option<int> {
    match v
    case IntValue(n) => Some(n)
    case BoolValue(b) => Some(if b then 1 else 0)
    case KeyValue(key) => (match Spelled(Base58(key)) case Some(n) => Some(n) case None => None)
    case _ => None
  }

  /** What encodeValue promises, by the argument's type: in range or refused, never truncated. */
  function ArgBytes(kind: Kind, v: Value): Result<Bytes, JsError> {
    if kind.Bool? then Ok([if Truthy(v) then 1 else 0])
    else if kind.Pubkey? then if v.KeyValue? then Ok(v.key) else Err(NotAKey)
    else if JsInteger(kind) then
      match AsInteger(v)
      case None => Err(NotAnInteger)
      case Some(n) => if InRange(n, kind.signed, kind.width) then Ok(IntBytes(n, kind.signed, kind.width))
          else Err(DoesNotFit)
    else Err(Unsupported)
  }

  /** The number an argument stands for where an integer is wanted. */
  ghost predicate StandsFor(v: Value, n: int) {
    || v == IntValue(n)
    || (v == BoolValue(true) && n == 1)
    || (v == BoolValue(false) && n == 0)
    || (v.KeyValue? && n >= 0 && Spelled(Base58(v.key)) == Some(n))
  }

  /** An integer that fits is written in two's complement, the low byte first. */
  ghost predicate WrittenOrRefused(n: int, signed: bool, width: nat, r: Result<Bytes, JsError>)
    requires width > 0
  {
    var half := 128 * Pow256(width - 1);
    var low, high := if signed then -half else 0, if signed then half else 2 * half;
    if low <= n < high then
      r.Ok? && |r.value| == width && FromLittleEndian(r.value) == if n < 0 then n + 2 * half else n
    else r == Err(DoesNotFit)
  }

  /** Which arguments are accepted, and what the program then receives. */
  lemma ArgumentsInFull(kind: Kind, v: Value)
    requires Argument(v)
    ensures match kind
            case Bool => ArgBytes(kind, v) == Ok([if v in {BoolValue(false), IntValue(0)} then 0 else 1])
            case Pubkey => ArgBytes(kind, v) == if v.KeyValue? then Ok(v.key) else Err(NotAKey)
            case Int(signed, width) =>
              if width !in {1, 2, 4, 8, 16} then ArgBytes(kind, v) == Err(Unsupported)
              else if forall n :: !StandsFor(v, n) then ArgBytes(kind, v) == Err(NotAnInteger)
              else exists n :: StandsFor(v, n) && WrittenOrRefused(n, signed, width, ArgBytes(kind, v))
            case _ => ArgBytes(kind, v) == Err(Unsupported)
  {
    var n := AsInteger(v);
    hide Spelled, Base58, Pow256, LittleEndian, FromLittleEndian, WrittenOrRefused, InRange, IntBytes;
    if n.Some? {
      assert StandsFor(v, n.value);
      if JsInteger(kind) {
        IntegerIsWritten(n.value, kind.signed, kind.width);
      }
    }
  }

  lemma IntegerIsWritten(n: int, signed: bool, width: nat)
    requires width > 0
    ensures WrittenOrRefused(n, signed, width,
              if InRange(n, signed, width) then Ok(IntBytes(n, signed, width)) else Err(DoesNotFit))
  {
    HalfRange(width);
    hide Pow256, LittleEndian, FromLittleEndian;
    if InRange(n, signed, width) {
      LittleEndianReads(if n < 0 then n + Pow256(width) else n, width);
    }
  }

  /** The system program's key is 32 zero bytes, and its text 32 ones: an argument for a u128, though not for a u64. */
  lemma SystemProgramIsANumber()
    ensures var key := KeyValue(seq(32, _ => 0)); var n := AsInteger(key);
            && n == Some(11111111111111111111111111111111)
            && ArgBytes(Int(false, 16), key) == Ok(LittleEndian(n.value, 16))
                && ArgBytes(Int(false, 8), key) == Err(DoesNotFit)
  {
    ZerosAreOnes();
    ThirtyTwoOnes();
    WidePowers();
    hide AsInteger, Pow256, LittleEndian;
  }

  lemma ZerosAreOnes()
    ensures AsInteger(KeyValue(seq(32, _ => 0))) == Some(Ones(32))
  {
    var key: Bytes := seq(32, _ => 0);
    ZerosSpellOnes(key, 32);
    ZerosAsText(key);
    hide Ones, Spelled, Base58, LeadingZeros, FromLittleEndian;
  }

  lemma ZerosAsText(key: Bytes)
    requires key == seq(32, _ => 0)
    ensures Base58(key) == seq(32, _ => 0)
  {
    hide LeadingZeros, FromLittleEndian, Digits58, Spelled, Ones;
    ZerosSpellOnes(key, 32);
    NoDigits();
    assert Reversed(key) == key;
  }

  lemma NoDigits()
    ensures Digits58(0) == []
  {
  }

  lemma ThirtyTwoOnes()
    ensures Ones(32) == 11111111111111111111111111111111
  {
    assert Ones(8) == 11111111;
    assert Ones(16) == 1111111111111111;
    assert Ones(24) == 111111111111111111111111;
  }

  function Ones(n: nat): nat {
    if n == 0 then 0 else 10 * Ones(n - 1) + 1
  }

  lemma {:induction false} ZerosSpellOnes(zeros: Bytes, n: nat)
    requires |zeros| == n && forall i | 0 <= i < n :: zeros[i] == 0
    ensures LeadingZeros(zeros) == n && FromLittleEndian(zeros) == 0
    ensures Spelled(seq(n, _ => 0)) == Some(Ones(n))
  {
    if n > 0 {
      ZerosSpellOnes(zeros[1..], n - 1);
      var digits := seq(n, _ => 0);
      assert digits[..n - 1] == seq(n - 1, _ => 0);
    }
  }

  /** The masking and shifting loop. */
  method LowByteFirst(whole: nat, width: nat) returns (out: Bytes)
    ensures out == LittleEndian(whole, width)
  {
    out := [];
    var n := whole;
    ghost var rest := LittleEndian(whole, width);
    for i := 0 to width
      invariant n >= 0 && rest == LittleEndian(n, width - i)
      invariant out + rest == LittleEndian(whole, width)
    {
      assert rest == [n % 256] + LittleEndian(n / 256, width - i - 1);
      assert out + rest == (out + [rest[0]]) + rest[1..];
      out, n, rest := out + [n % 256], n / 256, rest[1..];
    }
    assert out + rest == out;
  }

  lemma HalfRange(width: nat)
    requires width > 0
    ensures Pow256(width) == 256 * Pow256(width - 1) && Pow256(width - 1) > 0
  {
  }

  method EncodeValue(kind: Kind, v: Value) returns (r: Result<Bytes, JsError>)
    requires Argument(v)
    ensures r == ArgBytes(kind, v)
  {
    hide AsInteger, LittleEndian, Pow256;
    if kind.Bool? {
      return Ok([if Truthy(v) then 1 else 0]);
    }
    if kind.Pubkey? {
      return if v.KeyValue? then Ok(v.key) else Err(NotAKey);
    }
    if JsInteger(kind) {
      var whole := AsInteger(v);
      if whole.None? {
        return Err(NotAnInteger);
      }
      var width, n := kind.width, whole.value;
      var min := if kind.signed then -128 * Pow256(width - 1) else 0;
      var max := if kind.signed then 128 * Pow256(width - 1) - 1 else Pow256(width) - 1;
      assert InRange(n, kind.signed, width) <==> min <= n <= max;
      if n < min || n > max {
        return Err(DoesNotFit);
      }
      ghost var given := n;
      if n < 0 {
        HalfRange(width);
        n := n + Pow256(width);
      }
      assert IntBytes(given, kind.signed, width) == LittleEndian(n, width);
      hide InRange, IntBytes;
      var out := LowByteFirst(n, width);
      return Ok(out);
    }
    return Err(Unsupported);
  }

  datatype Instruction = Instruction(discriminator: Bytes, args: seq<Field>)

  function ArgsBytes(fields: seq<Field>, args: map<string, Value>): Result<Bytes, JsError> {
    if fields == [] then Ok([])
    else
      match ArgsBytes(fields[..|fields| - 1], args)
      case Err(e) => Err(e)
      case Ok(init) =>
        var f := fields[|fields| - 1];
        if f.name !in args then Err(MissingArgument(f.name))
        else
          match ArgBytes(f.kind, args[f.name])
          case Err(e) => Err(e)
          case Ok(last) => Ok(init + last)
  }

  lemma {:induction false} FirstBadArgumentStands(fields: seq<Field>, args: map<string, Value>, i: nat)
    requires i <= |fields| && ArgsBytes(fields[..i], args).Err?
    ensures ArgsBytes(fields, args) == ArgsBytes(fields[..i], args)
    decreases |fields|
  {
    if i < |fields| {
      assert fields[..|fields| - 1][..i] == fields[..i];
      FirstBadArgumentStands(fields[..|fields| - 1], args, i);
    } else {
      assert fields[..i] == fields;
    }
  }

  ghost predicate AllArguments(args: map<string, Value>) {
    forall name | name in args :: Argument(args[name]) && (args[name].KeyValue? ==> |args[name].key| == 32)
  }

  /** Every argument given is one the instruction takes. */
  predicate NoOthers(fields: seq<Field>, args: map<string, Value>) {
    forall name | name in args :: exists f :: f in fields && f.name == name
  }

  /** All arguments are accepted exactly when each is given and accepted, and otherwise the first that is not is
      reported. */
  lemma {:induction false} AllArgumentsInFull(fields: seq<Field>, args: map<string, Value>)
    ensures ArgsBytes(fields, args).Ok? <==>
            forall i | 0 <= i < |fields| :: fields[i].name in args && ArgBytes(fields[i].kind, args[fields[i].name]).Ok?
    ensures ArgsBytes(fields, args).Err? ==>
              exists i :: 0 <= i < |fields| && (forall j | 0 <= j < i ::
                  fields[j].name in args && ArgBytes(fields[j].kind, args[fields[j].name]).Ok?)
                && if fields[i].name !in args then ArgsBytes(fields, args) == Err(MissingArgument(fields[i].name))
                   else ArgBytes(fields[i].kind, args[fields[i].name]) == Err(ArgsBytes(fields, args).error)
  {
    hide ArgBytes;
    if fields != [] {
      var n := |fields| - 1;
      AllArgumentsInFull(fields[..n], args);
      assert forall j | 0 <= j < n :: fields[..n][j] == fields[j];
    }
  }

  method InstructionData(ix: Instruction, args: map<string, Value>) returns (r: Result<Bytes, JsError>)
    requires AllArguments(args)
    ensures ArgsBytes(ix.args, args).Err? ==> r == Err(ArgsBytes(ix.args, args).error)
    ensures ArgsBytes(ix.args, args).Ok? ==>
              r == if NoOthers(ix.args, args) then Ok(ix.discriminator + ArgsBytes(ix.args, args).value)
                  else Err(UnknownArguments)
  {
    hide ArgBytes, NoOthers;
    var bytes := ix.discriminator;
    for i := 0 to |ix.args|
      invariant ArgsBytes(ix.args[..i], args).Ok? && bytes == ix.discriminator + ArgsBytes(ix.args[..i], args).value
    {
      var arg := ix.args[i];
      assert ix.args[..i + 1][..i] == ix.args[..i];
      if arg.name !in args {
        FirstBadArgumentStands(ix.args, args, i + 1);
        return Err(MissingArgument(arg.name));
      }
      var one := EncodeValue(arg.kind, args[arg.name]);
      assert one == ArgBytes(ix.args[..i + 1][i].kind, args[arg.name]);
      if one.Err? {
        FirstBadArgumentStands(ix.args, args, i + 1);
        return Err(one.error);
      }
      bytes := bytes + one.value;
    }
    assert ix.args[..|ix.args|] == ix.args;
    return if NoOthers(ix.args, args) then Ok(bytes) else Err(UnknownArguments);
  }

  /** What the program receives for an argument of its own type is the argument. */
  function Received(kind: Kind, v: Value): Value {
    if kind.Bool? then BoolValue(Truthy(v))
    else if kind.Int? && AsInteger(v).Some? then IntValue(AsInteger(v).value)
    else v
  }

  function ReceivedAll(fields: seq<Field>, args: map<string, Value>): seq<Value>
    requires forall f | f in fields :: f.name in args
  {
    seq(|fields|, i requires 0 <= i < |fields| => Received(fields[i].kind, args[fields[i].name]))
  }

  lemma ArgIsEncoded(utf8: Bytes -> bool, kind: Kind, v: Value)
    requires Argument(v) && (v.KeyValue? ==> |v.key| == 32) && ArgBytes(kind, v).Ok?
    ensures Supported(kind) && Fits(utf8, kind, Received(kind, v))
    ensures ArgBytes(kind, v).value == Encoded(utf8, kind, Received(kind, v))
  {
    hide AsInteger, LittleEndian;
  }

  lemma {:induction false} ArgumentsAreEncoded(utf8: Bytes -> bool, fields: seq<Field>, args: map<string, Value>)
    requires AllArguments(args) && ArgsBytes(fields, args).Ok?
    ensures AllSupported(fields) && forall f | f in fields :: f.name in args
    ensures AllFit(utf8, fields, ReceivedAll(fields, args))
    ensures ArgsBytes(fields, args).value == EncodedAll(utf8, fields, ReceivedAll(fields, args))
    decreases |fields|
  {
    hide ArgBytes, Encoded, Fits, Supported, Received, Read, Argument;
    if fields != [] {
      var n := |fields| - 1;
      ArgumentsAreEncoded(utf8, fields[..n], args);
      assert AllArguments(args);
      ArgIsEncoded(utf8, fields[n].kind, args[fields[n].name]);
      assert forall f | f in fields :: f in fields[..n] || f == fields[n];
      assert ReceivedAll(fields, args)[..n] == ReceivedAll(fields[..n], args);
    }
  }

  /** Accepted arguments are exactly the program's own encoding of them, so the program reads them all back. */
  lemma ArgumentsArriveIntact(utf8: Bytes -> bool, fields: seq<Field>, args: map<string, Value>)
    requires AllArguments(args) && ArgsBytes(fields, args).Ok?
    ensures AllSupported(fields) && forall f | f in fields :: f.name in args
    ensures ReadAll(utf8, fields, ArgsBytes(fields, args).value) == Ok((ReceivedAll(fields, args), []))
  {
    hide ArgBytes, Encoded, EncodedAll, Fits, Supported, Received, ReadAll, Argument;
    ArgumentsAreEncoded(utf8, fields, args);
    AllReadBack(utf8, fields, ReceivedAll(fields, args), []);
    assert EncodedAll(utf8, fields, ReceivedAll(fields, args)) + []
           == EncodedAll(utf8, fields, ReceivedAll(fields, args));
  }

  // ----- Accounts, on both sides ---------------------------------------------------------------

  datatype AccountError = NotInIdl | NotThisKind | BadField(why: Error)

  /** The backend's. Bytes past the last field are expected. */
  method DecodeAccount(utf8: Bytes -> bool, accounts: map<string, Layout>, name: string, data: Bytes)
    returns (r: Result<map<string, Value>, AccountError>)
    ensures name !in accounts ==> r == Err(NotInIdl)
    ensures name in accounts && !(|data| >= 8 && data[..8] == accounts[name].discriminator) ==> r == Err(NotThisKind)
    ensures name in accounts && |data| >= 8 && data[..8] == accounts[name].discriminator ==>
              var fields := Decoded(utf8, accounts[name].fields, data[8..], false);
              r == if fields.Ok? then Ok(fields.value) else Err(BadField(fields.error))
  {
    if name !in accounts {
      return Err(NotInIdl);
    }
    if |data| < DISCRIMINATOR_LEN || data[..DISCRIMINATOR_LEN] != accounts[name].discriminator {
      return Err(NotThisKind);
    }
    var fields := DecodeFields(utf8, accounts[name].fields, data[DISCRIMINATOR_LEN..], false);
    return if fields.Ok? then Ok(fields.value) else Err(BadField(fields.error));
  }

  predicate JsReadable(kind: Kind) {
    kind.Bool? || kind.Pubkey? || JsInteger(kind) || kind.Raw?
  }

  /** The frontend's reading of one field: any byte but 1 is false. */
  function JsRead(f: Field, data: Bytes): Result<(Value, Bytes), JsError> {
    if !JsReadable(f.kind) then Err(Unsupported)
    else if Size(f.kind) > |data| then Err(Truncated)
    else
      var chunk, rest := data[..Size(f.kind)], data[Size(f.kind)..];
      match f.kind
      case Bool => Ok((BoolValue(chunk[0] == 1), rest))
      case Int(signed, _) => Ok((IntValue(IntOf(chunk, signed)), rest))
      case Raw(_) => Ok((BytesValue(chunk), rest))
      case _ => Ok((KeyValue(chunk), rest))
  }

  function JsReadAll(fields: seq<Field>, data: Bytes): (r: Result<(seq<Value>, Bytes), JsError>)
    ensures r.Ok? ==> |r.value.0| == |fields|
  {
    if fields == [] then Ok(([], data))
    else
      match JsReadAll(fields[..|fields| - 1], data)
      case Err(e) => Err(e)
      case Ok((values, rest)) =>
        match JsRead(fields[|fields| - 1], rest)
        case Err(e) => Err(e)
        case Ok((v, remainder)) => Ok((values + [v], remainder))
  }

  lemma {:induction false} FirstJsErrorStands(fields: seq<Field>, data: Bytes, i: nat)
    requires i <= |fields| && JsReadAll(fields[..i], data).Err?
    ensures JsReadAll(fields, data) == JsReadAll(fields[..i], data)
    decreases |fields|
  {
    if i < |fields| {
      assert fields[..|fields| - 1][..i] == fields[..i];
      FirstJsErrorStands(fields[..|fields| - 1], data, i);
    } else {
      assert fields[..i] == fields;
    }
  }

  /** The shift-and-or loop from the top byte down, then the sign. */
  method JsInt(b: Bytes, signed: bool) returns (n: int)
    requires |b| > 0
    ensures n == IntOf(b, signed)
  {
    n := 0;
    var i := |b|;
    while i > 0
      invariant 0 <= i <= |b| && n == FromLittleEndian(b[i..])
    {
      i := i - 1;
      assert b[i..][1..] == b[i + 1..];
      n := n * 256 + b[i];
    }
    assert b[0..] == b;
    TopByte(b);
    if signed && n >= 128 * Pow256(|b| - 1) {
      n := n - Pow256(|b|);
    }
  }

  method JsDecodeField(f: Field, data: Bytes, offset: nat) returns (r: Result<(Value, nat), JsError>)
    requires offset <= |data|
    ensures r.Err? ==> JsRead(f, data[offset..]) == Err(r.error)
    ensures r.Ok? ==> offset <= r.value.1 <= |data| && JsRead(f, data[offset..]) == Ok((r.value.0, data[r.value.1..]))
  {
    if !JsReadable(f.kind) {
      return Err(Unsupported);
    }
    var end := offset + Size(f.kind);
    if end > |data| {
      return Err(Truncated);
    }
    var slice := data[offset..end];
    assert slice == data[offset..][..Size(f.kind)] && data[end..] == data[offset..][Size(f.kind)..];
    if f.kind.Bool? {
      r := Ok((BoolValue(slice[0] == 1), end));
    } else if f.kind.Pubkey? {
      r := Ok((KeyValue(slice), end));
    } else if f.kind.Int? {
      var n := JsInt(slice, f.kind.signed);
      r := Ok((IntValue(n), end));
    } else {
      r := Ok((BytesValue(slice), end));
    }
  }

  /** One more field read adds its value to the list and to the map. */
  lemma JsReadNext(fields: seq<Field>, data: Bytes, i: nat, values: seq<Value>, rest: Bytes)
    requires i < |fields| && |values| == i && JsReadAll(fields[..i], data) == Ok((values, rest))
    ensures JsRead(fields[i], rest).Err? ==> JsReadAll(fields[..i + 1], data) == Err(JsRead(fields[i], rest).error)
    ensures JsRead(fields[i], rest).Ok? ==>
              var (v, left) := JsRead(fields[i], rest).value;
              && JsReadAll(fields[..i + 1], data) == Ok((values + [v], left))
              && Named(fields[..i + 1], values + [v]) == Named(fields[..i], values)[fields[i].name := v]
  {
    hide JsRead;
    assert fields[..i + 1][..i] == fields[..i];
    assert forall v :: (values + [v])[..i] == values;
  }

  method JsDecodeAccount(discriminator: Bytes, fields: seq<Field>, data: Bytes)
    returns (r: Result<map<string, Value>, JsError>)
    ensures |data| < 8 || !(discriminator <= data) ==> r == Err(NotThisAccount)
    ensures |data| >= 8 && discriminator <= data ==>
              var read := JsReadAll(fields, data[8..]);
              r == if read.Ok? then Ok(Named(fields, read.value.0)) else Err(read.error)
  {
    if |data| < 8 || !(discriminator <= data) {
      return Err(NotThisAccount);
    }
    assert fields[..0] == [] && data[8..][0..] == data[8..];
    var offset: nat := 8;
    var out: map<string, Value> := map[];
    ghost var values := [];
    assert JsReadAll([], data[8..]) == Ok((values, data[offset..])) && Named([], values) == map[];
    hide JsRead, JsReadAll, Named;
    for i := 0 to |fields|
      invariant offset <= |data| && |values| == i
      invariant JsReadAll(fields[..i], data[8..]) == Ok((values, data[offset..]))
      invariant out == Named(fields[..i], values)
    {
      var f := fields[i];
      JsReadNext(fields, data[8..], i, values, data[offset..]);
      var one := JsDecodeField(f, data, offset);
      if one.Err? {
        FirstJsErrorStands(fields, data[8..], i + 1);
        return Err(one.error);
      }
      values := values + [one.value.0];
      out, offset := out[f.name := one.value.0], one.value.1;
    }
    assert fields[..|fields|] == fields;
    return Ok(out);
  }

  /** On every kind the frontend reads, the two decoders agree, except that it reads a byte above 1 as false where the
      backend refuses it. */
  lemma DecodersAgreeExactlyWhen(utf8: Bytes -> bool, f: Field, data: Bytes)
    requires JsReadable(f.kind)
    ensures Read(utf8, f, data).Ok? ==> JsRead(f, data) == Ok(Read(utf8, f, data).value)
    ensures JsRead(f, data).Ok? && Read(utf8, f, data).Err? <==> f.kind.Bool? && data != [] && data[0] > 1
  {
  }

  lemma {:induction false} BackendAcceptanceCarriesOver(utf8: Bytes -> bool, fields: seq<Field>, data: Bytes)
    requires (forall f | f in fields :: JsReadable(f.kind)) && ReadAll(utf8, fields, data).Ok?
    ensures JsReadAll(fields, data) == Ok(ReadAll(utf8, fields, data).value)
    decreases |fields|
  {
    hide Read, JsRead, JsReadable;
    if fields != [] {
      var n := |fields| - 1;
      BackendAcceptanceCarriesOver(utf8, fields[..n], data);
      DecodersAgreeExactlyWhen(utf8, fields[n], ReadAll(utf8, fields[..n], data).value.1);
    }
  }

  /** What the frontend refuses to read. */
  lemma JsErrorsInFull(f: Field, data: Bytes)
    ensures JsRead(f, data) == Err(Unsupported) <==>
            f.kind.Text? || f.kind.Enum? || f.kind.Array? || (f.kind.Int? && f.kind.width !in {1, 2, 4, 8, 16})
    ensures JsRead(f, data) == Err(Truncated) <==>
            || (f.kind.Bool? && data == []) || (f.kind.Pubkey? && |data| < 32)
            || (f.kind.Raw? && |data| < f.kind.size)
            || (f.kind.Int? && f.kind.width in {1, 2, 4, 8, 16} && |data| < f.kind.width)
    ensures JsRead(f, data).Err? ==> JsRead(f, data).error in {Unsupported, Truncated}
  {
  }

  /** So the frontend, too, reads back what a program wrote, whatever space follows it. */
  lemma FrontendReadsBack(utf8: Bytes -> bool, fields: seq<Field>, values: seq<Value>, rest: Bytes)
    requires AllSupported(fields) && AllFit(utf8, fields, values) && forall f | f in fields :: JsReadable(f.kind)
    ensures JsReadAll(fields, EncodedAll(utf8, fields, values) + rest) == Ok((values, rest))
  {
    hide Read, JsRead, JsReadable, Fits, Encoded, EncodedAll;
    AllReadBack(utf8, fields, values, rest);
    BackendAcceptanceCarriesOver(utf8, fields, EncodedAll(utf8, fields, values) + rest);
  }

  /** An event emitted by a program is decoded under its own name, with every field it was given, whatever order the
      events are tried in. */
  lemma EventsReadBack(utf8: Bytes -> bool, events: map<string, Layout>, name: string, values: seq<Value>, data: Bytes,
                       r: Result<(string, map<string, Value>), EventError>)
    requires EventsOk(events) && name in events
    requires forall other | other in events && other != name ::
             events[other].discriminator != events[name].discriminator
    requires AllSupported(events[name].fields) && AllFit(utf8, events[name].fields, values)
    requires data == EVENT_TAG + events[name].discriminator + EncodedAll(utf8, events[name].fields, values)
    requires EventAnswer(utf8, events, data, r)
    ensures |values| == |events[name].fields| && r == Ok((name, Named(events[name].fields, values)))
  {
    hide Fits, Encoded, EncodedAll, Named;
    var layout := events[name];
    var code := EncodedAll(utf8, layout.fields, values);
    assert data[..8] == EVENT_TAG && data[8..16] == layout.discriminator && data[16..] == code && code + [] == code;
    AllReadBack(utf8, layout.fields, values, []);
    assert IsEvent(events, name, data[8..16]);
    assert forall other | IsEvent(events, other, data[8..16]) :: other == name;
    hide ReadAll, AllFit;
  }
}
