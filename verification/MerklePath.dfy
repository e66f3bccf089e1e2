/** The membership path of zk/witness.ts: built level by level from the leaves that exist, with absent nodes taken
    from the zero subtrees. The hash is any function of two field elements. */
module MerklePath {
  import opened Arithmetic
  import opened Options

  type Field = nat
  type Hash = (Field, Field) -> Field

  // ----- The reference: a complete tree of padded leaves ---------------------------------------

  function Leaf(empty: Field, leaves: seq<Field>, i: nat): Field {
    if i < |leaves| then leaves[i] else empty
  }

  /** The root of the height-`d` subtree at position `i`. */
  function Node(h: Hash, empty: Field, leaves: seq<Field>, d: nat, i: nat): Field {
    if d == 0 then Leaf(empty, leaves, i)
    else h(Node(h, empty, leaves, d - 1, 2 * i), Node(h, empty, leaves, d - 1, 2 * i + 1))
  }

  /** The root of a height-`d` subtree with no leaves. */
  function Zero(h: Hash, empty: Field, d: nat): Field {
    if d == 0 then empty else h(Zero(h, empty, d - 1), Zero(h, empty, d - 1))
  }

  /** What the verifier recomputes: the leaf folded with its siblings, each on the side its index names. */
  function Fold(h: Hash, leaf: Field, elements: seq<Field>, indices: seq<nat>): Field
    requires |elements| == |indices|
  {
    if elements == [] then leaf
    else
      var n := |elements| - 1;
      var below := Fold(h, leaf, elements[..n], indices[..n]);
      if indices[n] == 1 then h(elements[n], below) else h(below, elements[n])
  }

  /** The number whose binary digits these are, lowest first. */
  function Value(digits: seq<nat>): nat {
    if digits == [] then 0 else Value(digits[..|digits| - 1]) + digits[|digits| - 1] * Pow2(|digits| - 1)
  }

  predicate AreDigits(digits: seq<nat>) {
    forall i | 0 <= i < |digits| :: digits[i] < 2
  }

  // ----- The code ------------------------------------------------------------------------------

  method ZeroSubtrees(h: Hash, empty: Field, depth: nat) returns (zeros: seq<Field>)
    ensures |zeros| == depth + 1 && forall d | 0 <= d <= depth :: zeros[d] == Zero(h, empty, d)
  {
    var zero := empty;
    zeros := [];
    for i := 0 to depth + 1
      invariant |zeros| == i && zero == Zero(h, empty, i)
      invariant forall d | 0 <= d < i :: zeros[d] == Zero(h, empty, d)
    {
      zeros := zeros + [zero];
      zero := h(zero, zero);
    }
  }

  /** `level` holds the height-`d` nodes that exist, and every other one is empty. */
  ghost predicate IsLevel(h: Hash, empty: Field, leaves: seq<Field>, d: nat, level: seq<Field>) {
    forall i: nat :: Node(h, empty, leaves, d, i) == if i < |level| then level[i] else Zero(h, empty, d)
  }

  lemma LevelAt(h: Hash, empty: Field, leaves: seq<Field>, d: nat, level: seq<Field>, i: nat)
    requires IsLevel(h, empty, leaves, d, level)
    ensures Node(h, empty, leaves, d, i) == if i < |level| then level[i] else Zero(h, empty, d)
  {
  }

  lemma LeavesAreLevelZero(h: Hash, empty: Field, leaves: seq<Field>)
    ensures IsLevel(h, empty, leaves, 0, leaves) && AreDigits([])
    ensures forall i: nat :: Reaches([], i, i)
    ensures forall i | 0 <= i < |leaves| :: Fold(h, leaves[i], [], []) == Node(h, empty, leaves, 0, i)
  {
  }

  method NextLevel(h: Hash, empty: Field, ghost leaves: seq<Field>, ghost d: nat, level: seq<Field>, zero: Field)
    returns (next: seq<Field>)
    requires IsLevel(h, empty, leaves, d, level) && zero == Zero(h, empty, d)
    ensures |next| == (|level| + 1) / 2 && IsLevel(h, empty, leaves, d + 1, next)
  {
    next := [];
    var i := 0;
    while i < |level|
      invariant i == 2 * |next| <= |level| + 1
      invariant forall j | 0 <= j < |next| :: next[j] == Node(h, empty, leaves, d + 1, j)
    {
      var right := if i + 1 < |level| then level[i + 1] else zero;
      assert Node(h, empty, leaves, d, i) == level[i] && Node(h, empty, leaves, d, i + 1) == right;
      next := next + [h(level[i], right)];
      i := i + 2;
    }
    NextIsLevel(h, empty, leaves, d, level, next);
  }

  lemma NextIsLevel(h: Hash, empty: Field, leaves: seq<Field>, d: nat, level: seq<Field>, next: seq<Field>)
    requires IsLevel(h, empty, leaves, d, level) && |next| == (|level| + 1) / 2
    requires forall j | 0 <= j < |next| :: next[j] == Node(h, empty, leaves, d + 1, j)
    ensures IsLevel(h, empty, leaves, d + 1, next)
  {
    var up := d + 1;
    forall j: nat | j >= |next| ensures Node(h, empty, leaves, up, j) == Zero(h, empty, up) {
      LevelAt(h, empty, leaves, d, level, 2 * j);
      LevelAt(h, empty, leaves, d, level, 2 * j + 1);
    }
  }

  datatype Path = Path(root: Field, elements: seq<Field>, indices: seq<nat>)
  datatype PathError = OutsideTheTree | TooManyLeaves

  /** A path that opens `leaves[index]` in the complete tree of height `depth`. */
  ghost predicate Opens(h: Hash, empty: Field, leaves: seq<Field>, depth: nat, index: int, p: Path) {
    && 0 <= index < |leaves| <= Pow2(depth)
    && |p.elements| == |p.indices| == depth
    && p.root == Node(h, empty, leaves, depth, 0)
    && p.root == Fold(h, leaves[index], p.elements, p.indices)
    && AreDigits(p.indices) && Value(p.indices) == index
  }

  /** `depth` is 20 in the browser; nothing depends on which depth it is. */
  method Build(h: Hash, empty: Field, leaves: seq<Field>, leafIndex: int, depth: nat)
    returns (r: Result<Path, PathError>)
    ensures r.Ok? <==> 0 <= leafIndex < |leaves| <= Pow2(depth)
    ensures r.Err? ==> r.error == if 0 <= leafIndex < |leaves| then TooManyLeaves else OutsideTheTree
    ensures r.Ok? ==> Opens(h, empty, leaves, depth, leafIndex, r.value)
  {
    if leafIndex < 0 || leafIndex >= |leaves| {
      return Err(OutsideTheTree);
    }
    if |leaves| > Pow2(depth) {
      return Err(TooManyLeaves);
    }
    Start(h, empty, leaves, leafIndex, depth);
    hide Climbed, Node, Pow2, Zero, Opens;
    var zeros := ZeroSubtrees(h, empty, depth);
    var level, index: nat := leaves, leafIndex;
    var elements: seq<Field>, indices: seq<nat> := [], [];
    for d := 0 to depth
      invariant index < |level| && IsLevel(h, empty, leaves, d, level)
      invariant Climbed(h, empty, leaves, leafIndex, depth, d, |level|, index, elements, indices)
    {
      var zero := zeros[d];
      var isRight := index % 2 == 1;
      var siblingIndex := if isRight then index - 1 else index + 1;
      var sibling := if siblingIndex < |level| then level[siblingIndex] else zero;
      LevelAt(h, empty, leaves, d, level, siblingIndex);
      Climb(h, empty, leaves, leafIndex, depth, d, |level|, index, elements, indices, sibling);
      elements := elements + [sibling];
      indices := indices + [if isRight then 1 else 0];
      level := NextLevel(h, empty, leaves, d, level, zero);
      index := index / 2;
    }
    LevelAt(h, empty, leaves, depth, level, index);
    Top(h, empty, leaves, leafIndex, depth, |level|, index, elements, indices);
    return Ok(Path(level[0], elements, indices));
  }

  /** Height `d` has been reached, at position `index` of the `size` nodes that exist there. */
  ghost predicate Climbed(h: Hash, empty: Field, leaves: seq<Field>, leafIndex: nat, depth: nat, d: nat, size: nat,
                          index: nat, elements: seq<Field>, indices: seq<nat>) {
    && leafIndex < |leaves| && d <= depth && |elements| == |indices| == d
    && index < size <= Pow2(depth - d)
    && AreDigits(indices) && Reaches(indices, index, leafIndex)
    && Fold(h, leaves[leafIndex], elements, indices) == Node(h, empty, leaves, d, index)
  }

  lemma Start(h: Hash, empty: Field, leaves: seq<Field>, leafIndex: nat, depth: nat)
    requires leafIndex < |leaves| <= Pow2(depth)
    ensures IsLevel(h, empty, leaves, 0, leaves)
    ensures Climbed(h, empty, leaves, leafIndex, depth, 0, |leaves|, leafIndex, [], [])
  {
    LeavesAreLevelZero(h, empty, leaves);
  }

  lemma Climb(h: Hash, empty: Field, leaves: seq<Field>, leafIndex: nat, depth: nat, d: nat, size: nat, index: nat,
              elements: seq<Field>, indices: seq<nat>, sibling: Field)
    requires d < depth && Climbed(h, empty, leaves, leafIndex, depth, d, size, index, elements, indices)
    requires sibling == Node(h, empty, leaves, d, if index % 2 == 1 then index - 1 else index + 1)
    ensures Climbed(h, empty, leaves, leafIndex, depth, d + 1, (size + 1) / 2, index / 2, elements + [sibling],
                    indices + [index % 2])
  {
    PathStep(h, empty, leaves, d, index, leaves[leafIndex], elements, indices, sibling);
    DigitStep(indices, index, leafIndex, size, depth - d);
    hide Node, Fold, Pow2, AreDigits, Reaches;
  }

  lemma Top(h: Hash, empty: Field, leaves: seq<Field>, leafIndex: nat, depth: nat, size: nat, index: nat,
            elements: seq<Field>, indices: seq<nat>)
    requires |leaves| <= Pow2(depth)
    requires Climbed(h, empty, leaves, leafIndex, depth, depth, size, index, elements, indices)
    ensures index == 0
    ensures Opens(h, empty, leaves, depth, leafIndex, Path(Node(h, empty, leaves, depth, 0), elements, indices))
  {
    TopIsOne(indices, index, leafIndex, size);
  }

  /** The digits taken so far and the position reached make up the leaf index. */
  ghost predicate Reaches(indices: seq<nat>, index: nat, leafIndex: nat) {
    leafIndex == Value(indices) + index * Pow2(|indices|)
  }

  lemma DigitStep(indices: seq<nat>, index: nat, leafIndex: nat, size: nat, left: nat)
    requires left > 0 && AreDigits(indices) && Reaches(indices, index, leafIndex) && size <= Pow2(left)
    ensures AreDigits(indices + [index % 2]) && Reaches(indices + [index % 2], index / 2, leafIndex)
    ensures (size + 1) / 2 <= Pow2(left - 1)
  {
    var k := |indices|;
    assert (indices + [index % 2])[..k] == indices;
    assert Pow2(k + 1) == 2 * Pow2(k) && Pow2(left) == 2 * Pow2(left - 1);
    hide Value, Pow2;
    Regroup(index / 2, index % 2, Pow2(k));
  }

  lemma TopIsOne(indices: seq<nat>, index: nat, leafIndex: nat, size: nat)
    requires index < size <= Pow2(0) && Reaches(indices, index, leafIndex)
    ensures index == 0 && Value(indices) == leafIndex
  {
  }

  lemma PathStep(h: Hash, empty: Field, leaves: seq<Field>, d: nat, index: nat, leaf: Field, elements: seq<Field>,
                 indices: seq<nat>, sibling: Field)
    requires |elements| == |indices| == d
    requires Fold(h, leaf, elements, indices) == Node(h, empty, leaves, d, index)
    requires sibling == Node(h, empty, leaves, d, if index % 2 == 1 then index - 1 else index + 1)
    ensures Fold(h, leaf, elements + [sibling], indices + [index % 2]) == Node(h, empty, leaves, d + 1, index / 2)
  {
  }

  // ----- What the root and a path prove --------------------------------------------------------

  ghost predicate CollisionFree(h: Hash) {
    forall a, b, c, d :: h(a, b) == h(c, d) ==> a == c && b == d
  }

  lemma Regroup(top: nat, bit: nat, p: nat)
    ensures (2 * top + bit) * p == bit * p + top * (2 * p)
  {
  }

  lemma Cancel(h: Hash, a: Field, b: Field, c: Field, d: Field)
    requires CollisionFree(h) && h(a, b) == h(c, d)
    ensures a == c && b == d
  {
  }

  /** Under a hash without collisions, the only leaf a path can open at an index is the one there. */
  lemma {:induction false} PathProvesMembership(h: Hash, empty: Field, leaves: seq<Field>, leaf: Field,
                                                elements: seq<Field>, indices: seq<nat>, top: nat)
    requires CollisionFree(h) && |elements| == |indices| && AreDigits(indices)
    requires Fold(h, leaf, elements, indices) == Node(h, empty, leaves, |elements|, top)
    ensures leaf == Leaf(empty, leaves, Value(indices) + top * Pow2(|indices|))
  {
    hide CollisionFree;
    if elements != [] {
      var n := |elements| - 1;
      var below := Fold(h, leaf, elements[..n], indices[..n]);
      var bit, p := indices[n], Pow2(n);
      var left, right := Node(h, empty, leaves, n, 2 * top), Node(h, empty, leaves, n, 2 * top + 1);
      if bit == 1 { Cancel(h, elements[n], below, left, right); } else { Cancel(h, below, elements[n], left, right); }
      hide Node, Fold;
      PathProvesMembership(h, empty, leaves, leaf, elements[..n], indices[..n], 2 * top + bit);
      Regroup(top, bit, p);
    }
  }

  lemma Halves(top: nat, p: nat)
    ensures (2 * top) * p == top * (2 * p) && (2 * top + 1 + 1) * p == (top + 1) * (2 * p)
  {
  }

  /** Under a hash without collisions, the root fixes every padded leaf: a missing, changed or reordered leaf gives
      another root. */
  lemma {:induction false} RootDeterminesLeaves(h: Hash, empty: Field, a: seq<Field>, b: seq<Field>, d: nat, top: nat,
                                                i: nat)
    requires CollisionFree(h) && Node(h, empty, a, d, top) == Node(h, empty, b, d, top)
    requires top * Pow2(d) <= i < (top + 1) * Pow2(d)
    ensures Leaf(empty, a, i) == Leaf(empty, b, i)
  {
    hide CollisionFree;
    if d > 0 {
      var p := Pow2(d - 1);
      Cancel(h, Node(h, empty, a, d - 1, 2 * top), Node(h, empty, a, d - 1, 2 * top + 1),
             Node(h, empty, b, d - 1, 2 * top), Node(h, empty, b, d - 1, 2 * top + 1));
      hide Node;
      assert Pow2(d) == 2 * p;
      hide Pow2;
      Halves(top, p);
      if i < (2 * top + 1) * p {
        RootDeterminesLeaves(h, empty, a, b, d - 1, 2 * top, i);
      } else {
        RootDeterminesLeaves(h, empty, a, b, d - 1, 2 * top + 1, i);
      }
    }
  }

  // ----- Fetching the leaves -------------------------------------------------------------------

  datatype Commitment = Commitment(leafIndex: nat, commitment: Field)
  datatype FetchError = Gap(at: nat) | CountMismatch(indexed: nat)

  /** What the indexer's API answers: a slice of its rows. */
  function Page(rows: seq<Commitment>, limit: nat, offset: nat): seq<Commitment> {
    if offset >= |rows| then [] else if offset + limit >= |rows| then rows[offset..] else rows[offset..offset + limit]
  }

  /** Row `k` is leaf `k`, below `n`. */
  predicate Contiguous(rows: seq<Commitment>, n: nat)
    requires n <= |rows|
  {
    forall k | 0 <= k < n :: rows[k].leafIndex == k
  }

  function Commitments(rows: seq<Commitment>): seq<Field> {
    seq(|rows|, i requires 0 <= i < |rows| => rows[i].commitment)
  }

  /** The indexed rows when page `k` is asked for; the indexer appends a leaf's row when it has handled its event. */
  function RowsAt(history: seq<seq<Commitment>>, k: nat): seq<Commitment>
    requires history != []
  {
    if k < |history| then history[k] else history[|history| - 1]
  }

  ghost predicate Growing(history: seq<seq<Commitment>>) {
    history != [] && forall j, k :: 0 <= j <= k ==> RowsAt(history, j) <= RowsAt(history, k)
  }

  /** Page `k` is the first that the rows of its time do not fill. */
  ghost predicate IsLastPage(history: seq<seq<Commitment>>, pageSize: nat, k: nat)
    requires history != []
  {
    |RowsAt(history, k)| < (k + 1) * pageSize && forall j | 0 <= j < k :: |RowsAt(history, j)| >= (j + 1) * pageSize
  }

  /** What a reader of pages sees in the end: the rows of the time of the last page. */
  ghost predicate Fetched(history: seq<seq<Commitment>>, onChainLeafCount: nat, last: nat,
                          r: Result<seq<Field>, FetchError>)
    requires history != []
  {
    var rows := RowsAt(history, last);
    match r
    case Ok(leaves) =>
      && |leaves| == |rows| == onChainLeafCount
      && forall k | 0 <= k < |rows| :: rows[k].leafIndex == k && rows[k].commitment == leaves[k]
    case Err(Gap(at)) =>
      at < |rows| && rows[at].leafIndex != at && forall k | 0 <= k < at :: rows[k].leafIndex == k
    case Err(CountMismatch(indexed)) =>
      indexed == |rows| != onChainLeafCount && forall k | 0 <= k < |rows| :: rows[k].leafIndex == k
  }

  /** Pages follow one another without a gap or an overlap even while rows arrive: row `i` of any page's time is
      row `i` of every later time. */
  lemma PageOfLaterRows(history: seq<seq<Commitment>>, pageSize: nat, k: nat, last: nat)
    requires Growing(history) && pageSize > 0 && IsLastPage(history, pageSize, last) && k <= last
    requires |RowsAt(history, k)| >= k * pageSize
    ensures var offset, page := k * pageSize, Page(RowsAt(history, k), pageSize, k * pageSize);
            && offset + |page| <= |RowsAt(history, last)|
            && page == RowsAt(history, last)[offset..offset + |page|]
            && (k < last ==> |page| == pageSize && offset + pageSize == (k + 1) * pageSize <= |RowsAt(history, k + 1)|)
            && (k == last ==> |page| < pageSize && offset + |page| == |RowsAt(history, last)|)
  {
    assert (k + 1) * pageSize == k * pageSize + pageSize;
    assert RowsAt(history, k) <= RowsAt(history, last);
    assert RowsAt(history, k) <= RowsAt(history, k + 1);
  }

  lemma {:induction false} LastPageFrom(history: seq<seq<Commitment>>, pageSize: nat, k: nat) returns (last: nat)
    requires history != [] && pageSize > 0
    requires forall j | 0 <= j < k :: |RowsAt(history, j)| >= (j + 1) * pageSize
    ensures last >= k && IsLastPage(history, pageSize, last)
    decreases |history| + |history[|history| - 1]| - k
  {
    if |RowsAt(history, k)| < (k + 1) * pageSize {
      return k;
    }
    assert (k + 1) * pageSize >= k + 1;
    last := LastPageFrom(history, pageSize, k + 1);
  }

  /** One page onto the leaves fetched so far, up to a gap if there is one. */
  method AppendPage(ghost rows: seq<Commitment>, leaves: seq<Field>, page: seq<Commitment>)
    returns (more: seq<Field>, gap: bool)
    requires |leaves| + |page| <= |rows| && page == rows[|leaves|..|leaves| + |page|]
    requires leaves == Commitments(rows[..|leaves|]) && Contiguous(rows, |leaves|)
    ensures gap ==> |more| < |rows| && Contiguous(rows, |more|) && rows[|more|].leafIndex != |more|
    ensures !gap ==> |more| == |leaves| + |page| && more == Commitments(rows[..|more|]) && Contiguous(rows, |more|)
  {
    more := leaves;
    for j := 0 to |page|
      invariant |more| == |leaves| + j && more == Commitments(rows[..|more|]) && Contiguous(rows, |more|)
    {
      assert page[j] == rows[|more|];
      if page[j].leafIndex != |more| {
        return more, true;
      }
      assert rows[..|more| + 1] == rows[..|more|] + [page[j]];
      more := more + [page[j].commitment];
    }
    return more, false;
  }

  /** Whatever the page size and however the rows grow meanwhile: every leaf in order, and an error unless the rows are
      exactly leaves 0 to n - 1. */
  method FetchAllLeaves(history: seq<seq<Commitment>>, onChainLeafCount: nat, pageSize: nat)
    returns (r: Result<seq<Field>, FetchError>)
    requires Growing(history) && pageSize > 0
    ensures exists last :: IsLastPage(history, pageSize, last) && Fetched(history, onChainLeafCount, last, r)
  {
    ghost var last := LastPageFrom(history, pageSize, 0);
    hide Growing, RowsAt, IsLastPage, Page;
    ghost var rows := RowsAt(history, last);
    var leaves: seq<Field> := [];
    var offset := 0;
    var k := 0;
    while true
      invariant k <= last && offset == k * pageSize == |leaves| <= |RowsAt(history, k)|
      invariant |leaves| <= |rows| && leaves == Commitments(rows[..|leaves|]) && Contiguous(rows, |leaves|)
      decreases last - k
    {
      var page := Page(RowsAt(history, k), pageSize, offset);
      PageOfLaterRows(history, pageSize, k, last);
      var gap;
      leaves, gap := AppendPage(rows, leaves, page);
      if gap {
        assert Fetched(history, onChainLeafCount, last, Err(Gap(|leaves|)));
        return Err(Gap(|leaves|));
      }
      if |page| < pageSize {
        break;
      }
      offset, k := offset + pageSize, k + 1;
    }
    assert |leaves| == |rows| && rows[..|rows|] == rows;
    assert Fetched(history, onChainLeafCount, last, if |leaves| != onChainLeafCount then Err(CountMismatch(|leaves|))
                   else Ok(leaves));
    if |leaves| != onChainLeafCount {
      return Err(CountMismatch(|leaves|));
    }
    return Ok(leaves);
  }
}
