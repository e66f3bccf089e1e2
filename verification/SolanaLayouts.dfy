/** The check on Solana account layouts before an upgrade: new fields may only be carved from the trailing reserve. */
module SolanaLayouts {
  import opened Options

  const DISCRIMINATOR_LEN := 8

  /** A field's type in the IDL. Everything without a fixed size is Other. */
  datatype Type = Primitive(name: string) | Array(inner: Type, count: int) | Other

  function PrimitiveSize(name: string): Option<nat> {
    match name
    case "u8" => Some(1)
    case "i8" => Some(1)
    case "bool" => Some(1)
    case "u16" => Some(2)
    case "i16" => Some(2)
    case "u32" => Some(4)
    case "i32" => Some(4)
    case "u64" => Some(8)
    case "i64" => Some(8)
    case "u128" => Some(16)
    case "i128" => Some(16)
    case "pubkey" => Some(32)
    case _ => None
  }

  datatype Error =
    | NoFixedSize | BadLength | NoStruct(account: string) | NoReserve(account: string)
    | Removed(account: string)
    | DiscriminatorChanged(account: string)
    | SizeChanged(account: string)
    | FieldChanged(account: string, index: nat)
    | AddedElsewhere(account: string)
    | ReservedNotLast(account: string)
    | NoBaseline(account: string)

  function SizeOf(ty: Type): Result<nat, Error> {
    match ty
    case Primitive(name) =>
      (match PrimitiveSize(name)
       case Some(size) => Ok(size)
       case None => Err(NoFixedSize))
    case Array(inner, count) =>
      if count <= 0 then Err(BadLength)
      else
        (match SizeOf(inner)
         case Ok(size) => Ok(size * count)
         case Err(e) => Err(e))
    case Other => Err(NoFixedSize)
  }

  lemma StartsWith(name: string, c: char, rest: string)
    ensures name == [c] + rest <==> name != "" && name[0] == c && name[1..] == rest
  {
    if name != "" { assert name == [name[0]] + name[1..]; }
  }

  /** Integers are as wide as their names say. */
  lemma PrimitivesInFull(name: string, size: nat)
    ensures PrimitiveSize(name) == Some(size) <==>
            || (name == "bool" && size == 1) || (name == "pubkey" && size == 32)
            || (name != "" && name[0] in "ui"
                && (name[1..], size) in {("8", 1), ("16", 2), ("32", 4), ("64", 8), ("128", 16)})
  {
    assert "u8" == ['u'] + "8" && "i8" == ['i'] + "8" && "u16" == ['u'] + "16" && "i16" == ['i'] + "16";
    assert "u32" == ['u'] + "32" && "i32" == ['i'] + "32" && "u64" == ['u'] + "64" && "i64" == ['i'] + "64";
    assert "u128" == ['u'] + "128" && "i128" == ['i'] + "128";
    forall rest | rest in {"8", "16", "32", "64", "128"}
      ensures name == ['u'] + rest <==> name != "" && name[0] == 'u' && name[1..] == rest
      ensures name == ['i'] + rest <==> name != "" && name[0] == 'i' && name[1..] == rest
    {
      StartsWith(name, 'u', rest);
      StartsWith(name, 'i', rest);
    }
  }

  /** `base` inside arrays of these lengths, the outermost first. */
  function Nested(base: Type, counts: seq<int>): Type {
    if counts == [] then base else Array(Nested(base, counts[1..]), counts[0])
  }

  function Product(counts: seq<int>): int {
    if counts == [] then 1 else Product(counts[1..]) * counts[0]
  }

  /** A type has a fixed size exactly when it is a known primitive inside arrays of positive lengths. */
  lemma {:induction false} SizesInFull(base: Type, counts: seq<int>)
    requires !base.Array?
    ensures match SizeOf(Nested(base, counts))
            case Ok(size) =>
              && (forall i | 0 <= i < |counts| :: counts[i] >= 1)
              && base.Primitive? && PrimitiveSize(base.name).Some?
              && size == PrimitiveSize(base.name).value * Product(counts)
            case Err(e) =>
              if exists i :: 0 <= i < |counts| && counts[i] <= 0 then e == BadLength
              else e == NoFixedSize && (base.Primitive? ==> PrimitiveSize(base.name) == None)
  {
    hide PrimitiveSize;
    if counts != [] {
      SizesInFull(base, counts[1..]);
      assert counts == [counts[0]] + counts[1..];
      var inner := SizeOf(Nested(base, counts[1..]));
      if inner.Ok? {
        assert inner.value * counts[0] == PrimitiveSize(base.name).value * (Product(counts[1..]) * counts[0]);
      } else if exists i :: 0 <= i < |counts[1..]| && counts[1..][i] <= 0 {
        var i :| 0 <= i < |counts[1..]| && counts[1..][i] <= 0;
        assert counts[i + 1] <= 0;
      }
    }
  }

  datatype Field = Field(name: string, ty: Type, offset: int, size: int)
  datatype Layout = Layout(discriminator: seq<int>, size: int, fields: seq<Field>)

  // ----- What a computed layout is -------------------------------------------------------------

  predicate IsReserve(f: Field) {
    f.name == "reserved" && f.ty.Array? && f.ty.inner == Primitive("u8")
  }

  /** Every field has its type's size, and starts where the one before it ends. */
  ghost predicate Tiles(fields: seq<Field>, from: int, to: int) {
    if fields == [] then from == to
    else
      var f := fields[|fields| - 1];
      f.offset + f.size == to && SizeOf(f.ty) == Ok(f.size) && Tiles(fields[..|fields| - 1], from, f.offset)
  }

  ghost predicate WellFormed(l: Layout) {
    l.fields != [] && IsReserve(l.fields[|l.fields| - 1]) && Tiles(l.fields, DISCRIMINATOR_LEN, l.size)
  }

  function Reserve(l: Layout): Field
    requires l.fields != []
  {
    l.fields[|l.fields| - 1]
  }

  function Kept(l: Layout): seq<Field>
    requires l.fields != []
  {
    l.fields[..|l.fields| - 1]
  }

  /** An account type's fields as the IDL lists them. */
  datatype Definition = Definition(name: string, discriminator: seq<int>, fields: Option<seq<(string, Type)>>)

  method LayoutOf(d: Definition) returns (r: Result<Layout, Error>)
    ensures r.Ok? ==> WellFormed(r.value) && r.value.discriminator == d.discriminator && d.fields.Some?
                      && |r.value.fields| == |d.fields.value|
                      && forall i | 0 <= i < |d.fields.value| ::
                           r.value.fields[i].name == d.fields.value[i].0 && r.value.fields[i].ty == d.fields.value[i].1
    ensures d.fields.None? ==> r == Err(NoStruct(d.name))
    ensures d.fields.Some? && r.Err? ==>
              var fields := d.fields.value;
              || (exists i :: 0 <= i < |fields| && SizeOf(fields[i].1) == Err(r.error)
                    && forall j | 0 <= j < i :: SizeOf(fields[j].1).Ok?)
              || (r.error == NoReserve(d.name) && (forall i | 0 <= i < |fields| :: SizeOf(fields[i].1).Ok?)
                  && (fields == [] || fields[|fields| - 1].0 != "reserved"
                      || !exists n :: fields[|fields| - 1].1 == Array(Primitive("u8"), n)))
  {
    if d.fields.None? {
      return Err(NoStruct(d.name));
    }
    var listed := d.fields.value;
    var fields: seq<Field>, offset := [], DISCRIMINATOR_LEN;
    for i := 0 to |listed|
      invariant Tiles(fields, DISCRIMINATOR_LEN, offset) && |fields| == i
      invariant forall j | 0 <= j < i :: fields[j].name == listed[j].0 && fields[j].ty == listed[j].1
      invariant forall j | 0 <= j < i :: SizeOf(listed[j].1).Ok?
    {
      var size := SizeOf(listed[i].1);
      if size.Err? {
        return Err(size.error);
      }
      ghost var before := fields;
      fields := fields + [Field(listed[i].0, listed[i].1, offset, size.value)];
      assert fields[..|fields| - 1] == before;
      offset := offset + size.value;
    }
    if fields == [] || !IsReserve(fields[|fields| - 1]) {
      return Err(NoReserve(d.name));
    }
    return Ok(Layout(d.discriminator, offset, fields));
  }

  // ----- The comparison ------------------------------------------------------------------------

  /** The upgrade keeps the account: same discriminator and size, the old fields first, and any others before the
      reserve and not named like it. */
  predicate Carves(base: Layout, cur: Layout)
    requires base.fields != [] && cur.fields != []
  {
    && cur.discriminator == base.discriminator && cur.size == base.size
    && |Kept(base)| <= |Kept(cur)| && Kept(cur)[..|Kept(base)|] == Kept(base)
    && var added := Kept(cur)[|Kept(base)|..];
       && (added != [] ==> added[0].offset == Reserve(base).offset)
       && forall f | f in added :: f.name != "reserved"
  }

  type Layouts = map<string, Layout>

  ghost predicate AllWellFormed(ls: Layouts) {
    forall name | name in ls :: WellFormed(ls[name])
  }

  /** The same account types, each carved from its baseline. The baseline is a file: its layouts may be any. */
  ghost predicate Accepts(baseline: Layouts, current: Layouts) {
    baseline.Keys == current.Keys && forall name | name in baseline :: Carved(baseline, current, name)
  }

  ghost predicate Carved(baseline: Layouts, current: Layouts, name: string) {
    && name in baseline && name in current && baseline[name].fields != [] && current[name].fields != []
    && Carves(baseline[name], current[name])
  }

  /** The comparison looks for the last field of a layout that lists none. */
  ghost predicate Breaks(baseline: Layouts, current: Layouts, name: string) {
    name in baseline && name in current && baseline[name].fields == []
  }

  /** One account type's errors. */
  method CompareOne(name: string, base: Layout, cur: Layout) returns (errors: seq<Error>)
    requires base.fields != [] && cur.fields != []
    ensures errors == [] <==> Carves(base, cur)
  {
    errors := [];
    if cur.discriminator != base.discriminator {
      errors := errors + [DiscriminatorChanged(name)];
    }
    if cur.size != base.size {
      errors := errors + [SizeChanged(name)];
    }
    var kept := Kept(base);
    var i := 0;
    while i < |kept| && i < |cur.fields| - 1 && cur.fields[i] == kept[i]
      invariant 0 <= i <= |kept| && i <= |cur.fields| - 1
      invariant cur.fields[..i] == kept[..i]
    {
      i := i + 1;
    }
    if i < |kept| {
      assert |kept| <= |Kept(cur)| ==> Kept(cur)[..|kept|][i] == cur.fields[i] != kept[i];
      return errors + [FieldChanged(name, i)];
    }
    assert Kept(cur)[..|kept|] == kept;
    var added := cur.fields[|kept|..|cur.fields| - 1];
    assert added == Kept(cur)[|kept|..];
    if added != [] && added[0].offset != Reserve(base).offset {
      errors := errors + [AddedElsewhere(name)];
    }
    if exists f | f in added :: f.name == "reserved" {
      errors := errors + [ReservedNotLast(name)];
    }
  }

  method CompareKnown(baseline: Layouts, current: Layouts) returns (errors: Option<seq<Error>>)
    requires AllWellFormed(current)
    ensures errors.None? <==> exists name :: Breaks(baseline, current, name)
    ensures errors == Some([]) <==> forall name | name in baseline :: Carved(baseline, current, name)
  {
    hide WellFormed, Carves;
    var list: seq<Error> := [];
    var names := baseline.Keys;
    while names != {}
      invariant names <= baseline.Keys
      invariant forall name | name !in names :: !Breaks(baseline, current, name)
      invariant list == [] <==> forall name | name in baseline && name !in names :: Carved(baseline, current, name)
      decreases |names|
    {
      var name :| name in names;
      if name !in current {
        list := list + [Removed(name)];
      } else if baseline[name].fields == [] {
        assert Breaks(baseline, current, name) && !Carved(baseline, current, name);
        return None;
      } else {
        NotEmpty(current, name);
        var found := CompareOne(name, baseline[name], current[name]);
        assert found == [] <==> Carved(baseline, current, name);
        list := list + found;
      }
      names := names - {name};
    }
    return Some(list);
  }

  /** `None` is the exception. */
  method Compare(baseline: Layouts, current: Layouts) returns (errors: Option<seq<Error>>)
    requires AllWellFormed(current)
    ensures errors.None? <==> exists name :: Breaks(baseline, current, name)
    ensures errors == Some([]) <==> Accepts(baseline, current)
  {
    hide WellFormed, Carves, Breaks;
    errors := CompareKnown(baseline, current);
    AcceptsMeans(baseline, current);
    if errors.None? {
      return;
    }
    var extra := current.Keys - baseline.Keys;
    ghost var known := errors;
    hide Accepts;
    while extra != {}
      invariant extra <= current.Keys - baseline.Keys && errors.Some?
      invariant extra != current.Keys - baseline.Keys ==> errors != Some([])
      invariant extra == current.Keys - baseline.Keys ==> errors == known
      decreases |extra|
    {
      var name :| name in extra;
      errors := Some(errors.value + [NoBaseline(name)]);
      extra := extra - {name};
    }
  }

  lemma AcceptsMeans(baseline: Layouts, current: Layouts)
    ensures Accepts(baseline, current) <==>
            (forall name | name in baseline :: Carved(baseline, current, name)) && current.Keys - baseline.Keys == {}
  {
    hide Carves;
    if (forall name | name in baseline :: Carved(baseline, current, name)) && current.Keys - baseline.Keys == {} {
      forall name | name in current ensures name in baseline {
        assert name !in current.Keys - baseline.Keys;
      }
      forall name | name in baseline ensures name in current {
        assert Carved(baseline, current, name);
      }
      assert baseline.Keys == current.Keys;
    }
  }

  lemma NotEmpty(ls: Layouts, name: string)
    requires AllWellFormed(ls) && name in ls
    ensures ls[name].fields != []
  {
  }

  // ----- What acceptance means -----------------------------------------------------------------

  lemma {:induction false} FieldsFollow(fields: seq<Field>, from: int, to: int, i: nat)
    requires Tiles(fields, from, to) && i < |fields|
    ensures from <= fields[i].offset && fields[i].offset + fields[i].size <= to && fields[i].size >= 0
    ensures SizeOf(fields[i].ty) == Ok(fields[i].size)
    ensures Tiles(fields[..i], from, fields[i].offset)
    ensures i + 1 < |fields| ==> fields[i + 1].offset == fields[i].offset + fields[i].size
    ensures i == 0 ==> fields[i].offset == from
    ensures i + 1 == |fields| ==> fields[i].offset + fields[i].size == to
    decreases |fields|
  {
    var init := fields[..|fields| - 1];
    if i < |init| {
      FieldsFollow(init, from, fields[|init|].offset, i);
      assert init[..i] == fields[..i];
    } else if |init| > 0 {
      FieldsFollow(init, from, fields[|init|].offset, |init| - 1);
    }
  }

  lemma {:induction false} TilesFrom(fields: seq<Field>, from: int, to: int, i: nat)
    requires Tiles(fields, from, to) && i <= |fields|
    ensures Tiles(fields[i..], if i == |fields| then to else fields[i].offset, to)
    decreases |fields|
  {
    if i < |fields| {
      var n := |fields| - 1;
      TilesFrom(fields[..n], from, fields[n].offset, i);
      assert fields[i..][..|fields[i..]| - 1] == fields[..n][i..];
    }
  }

  /** Field after field from the discriminator's end, with the sizes of their types, up to a reserve of bytes at the end
      of the account. */
  lemma LayoutInFull(l: Layout)
    requires WellFormed(l)
    ensures var last := l.fields[|l.fields| - 1];
            last.name == "reserved" && last.ty == Array(Primitive("u8"), last.size) && last.offset + last.size == l.size
    ensures l.fields[0].offset == 8
    ensures forall i | 0 <= i < |l.fields| :: SizeOf(l.fields[i].ty) == Ok(l.fields[i].size)
    ensures forall i | 0 <= i < |l.fields| - 1 :: l.fields[i + 1].offset == l.fields[i].offset + l.fields[i].size
  {
    forall i | 0 <= i < |l.fields| ensures SizeOf(l.fields[i].ty) == Ok(l.fields[i].size) {
      FieldsFollow(l.fields, DISCRIMINATOR_LEN, l.size, i);
    }
    FieldsFollow(l.fields, DISCRIMINATOR_LEN, l.size, 0);
    FieldsFollow(l.fields, DISCRIMINATOR_LEN, l.size, |l.fields| - 1);
    forall i | 0 <= i < |l.fields| - 1 ensures l.fields[i + 1].offset == l.fields[i].offset + l.fields[i].size {
      FieldsFollow(l.fields, DISCRIMINATOR_LEN, l.size, i);
    }
  }

  /** The comparison of two layouts place by place, whatever the baseline holds. */
  lemma CarvesExactlyWhen(base: Layout, cur: Layout)
    requires base.fields != [] && cur.fields != []
    ensures var n, m := |base.fields| - 1, |cur.fields| - 1;
            Carves(base, cur) <==>
            && cur.discriminator == base.discriminator && cur.size == base.size && n <= m
            && (forall i | 0 <= i < n :: cur.fields[i] == base.fields[i])
            && (n < m ==> cur.fields[n].offset == base.fields[n].offset)
            && forall i | n <= i < m :: cur.fields[i].name != "reserved"
  {
    var n, m := |base.fields| - 1, |cur.fields| - 1;
    if n <= m {
      assert forall i | 0 <= i < n :: Kept(cur)[..n][i] == cur.fields[i] && Kept(base)[i] == base.fields[i];
      assert forall i | n <= i < m :: cur.fields[i] == Kept(cur)[n..][i - n];
      assert forall f | f in Kept(cur)[n..] :: exists i :: n <= i < m && cur.fields[i] == f;
    }
  }

  /** An accepted upgrade moves nothing: every old field but the reserve is where it was, with its type, and the added
      fields and the new reserve fill exactly the old reserve's bytes. */
  lemma AcceptanceKeepsEveryByte(base: Layout, cur: Layout)
    requires WellFormed(base) && WellFormed(cur) && Carves(base, cur)
    ensures forall i | 0 <= i < |Kept(base)| :: cur.fields[i] == base.fields[i]
    ensures Tiles(cur.fields[|Kept(base)|..], Reserve(base).offset, Reserve(base).offset + Reserve(base).size)
    ensures Reserve(cur).offset + Reserve(cur).size == Reserve(base).offset + Reserve(base).size
    ensures Reserve(cur).size <= Reserve(base).size
  {
    hide Tiles;
    var n := |Kept(base)|;
    KeptFieldsStay(base, cur);
    NextStartsAtReserve(base, cur);
    TilesFrom(cur.fields, DISCRIMINATOR_LEN, cur.size, n);
    FieldsFollow(base.fields, DISCRIMINATOR_LEN, base.size, n);
    FieldsFollow(cur.fields, DISCRIMINATOR_LEN, cur.size, |cur.fields| - 1);
    if n < |cur.fields| - 1 {
      Ordered(cur.fields, DISCRIMINATOR_LEN, cur.size, n, |cur.fields| - 1);
    }
  }

  lemma KeptFieldsStay(base: Layout, cur: Layout)
    requires base.fields != [] && cur.fields != [] && Carves(base, cur)
    ensures |base.fields| <= |cur.fields| && forall i | 0 <= i < |Kept(base)| :: cur.fields[i] == base.fields[i]
  {
  }

  lemma {:induction false} Ordered(fields: seq<Field>, from: int, to: int, i: nat, j: nat)
    requires Tiles(fields, from, to) && i < j < |fields|
    ensures fields[i].offset <= fields[i].offset + fields[i].size <= fields[j].offset
    decreases |fields|
  {
    FieldsFollow(fields, from, to, j);
    FieldsFollow(fields[..j], from, fields[j].offset, i);
  }

  /** The first field past the kept ones starts where the old reserve did. */
  lemma NextStartsAtReserve(base: Layout, cur: Layout)
    requires WellFormed(base) && WellFormed(cur) && Carves(base, cur)
    ensures cur.fields[|Kept(base)|].offset == Reserve(base).offset
  {
    var n := |Kept(base)|;
    FieldsFollow(base.fields, DISCRIMINATOR_LEN, base.size, n);
    FieldsFollow(cur.fields, DISCRIMINATOR_LEN, cur.size, n);
    if n > 0 {
      assert Kept(cur)[..n][n - 1] == Kept(base)[n - 1];
      FieldsFollow(base.fields, DISCRIMINATOR_LEN, base.size, n - 1);
      FieldsFollow(cur.fields, DISCRIMINATOR_LEN, cur.size, n - 1);
    }
  }

  /** Two accepted upgrades in a row are one accepted upgrade. */
  lemma CarvesTransitive(a: Layout, b: Layout, c: Layout)
    requires WellFormed(a) && WellFormed(b) && WellFormed(c) && Carves(a, b) && Carves(b, c)
    ensures Carves(a, c)
  {
    hide Tiles, IsReserve;
    var m, n := |Kept(a)|, |Kept(b)|;
    KeptFieldsStay(a, b);
    KeptFieldsStay(b, c);
    NextStartsAtReserve(a, b);
    NextStartsAtReserve(b, c);
    assert Kept(c)[..m] == Kept(a) by {
      assert Kept(c)[..m] == Kept(c)[..n][..m];
    }
    var added := Kept(c)[m..];
    forall i | 0 <= i < |added| ensures added[i].name != "reserved" {
      if m + i < n {
        assert added[i] == Kept(c)[..n][m + i] == Kept(b)[m..][i];
      } else {
        assert added[i] == Kept(c)[n..][m + i - n];
      }
    }
    if added != [] {
      assert added[0] == c.fields[m];
    }
  }

  /** Acceptance composes along any chain of upgrades. */
  lemma {:induction false} ChainsCompose(chain: seq<Layouts>)
    requires chain != [] && (forall i | 0 <= i < |chain| :: AllWellFormed(chain[i]))
    requires forall i | 0 <= i < |chain| - 1 :: Accepts(chain[i], chain[i + 1])
    ensures Accepts(chain[0], chain[|chain| - 1])
    decreases |chain|
  {
    hide WellFormed, Carves;
    if |chain| == 1 {
      EveryLayoutCarvesItself(chain[0]);
    } else {
      var init := chain[..|chain| - 1];
      ChainsCompose(init);
      assert Accepts(chain[|chain| - 2], chain[|chain| - 2 + 1]);
      AcceptsTransitive(chain[0], chain[|chain| - 2], chain[|chain| - 1]);
    }
  }

  lemma AcceptsTransitive(a: Layouts, b: Layouts, c: Layouts)
    requires AllWellFormed(a) && AllWellFormed(b) && AllWellFormed(c) && Accepts(a, b) && Accepts(b, c)
    ensures Accepts(a, c)
  {
    forall name | name in a ensures Carved(a, c, name) {
      assert Carved(a, b, name) && Carved(b, c, name);
      CarvesTransitive(a[name], b[name], c[name]);
    }
    hide WellFormed, Carves;
  }

  lemma EveryLayoutCarvesItself(ls: Layouts)
    requires AllWellFormed(ls)
    ensures Accepts(ls, ls)
  {
  }
}
