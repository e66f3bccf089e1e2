/** Vault share conversion with one virtual asset and 10^offset virtual shares, floored both ways, and what it
    guarantees over every run of deposits, withdrawals and donations. */
module VaultShares {
  import opened Arithmetic
  import opened Options
  import opened WideDivision

  function ConvertToShares(assets: nat, totalAssets: nat, totalShares: nat, offset: nat): nat {
    assets * (totalShares + Pow10(offset)) / (totalAssets + 1)
  }

  function ConvertToAssets(shares: nat, totalAssets: nat, totalShares: nat, offset: nat): nat {
    var supply := totalShares + Pow10(offset);
    shares * (totalAssets + 1) / supply
  }

  // ----- The program's conversions, on its own integers ----------------------------------------

  const VIRTUAL_SHARES_OFFSET := 3

  type U64 = x: int | 0 <= x < HALF

  lemma OneThousand()
    ensures Pow10(VIRTUAL_SHARES_OFFSET) == 1000
  {
    assert Pow10(1) == 10;
  }

  /** The exact conversion, or a refusal when it does not fit: no intermediate product is ever lost. */
  method ConvertToSharesOnChain(assets: U64, totalAssets: U64, totalShares: U128) returns (r: Option<U128>)
    ensures var shares := ConvertToShares(assets, totalAssets, totalShares, VIRTUAL_SHARES_OFFSET);
            r == if totalShares + 1000 < WORD && shares < WORD then Some(shares) else None
  {
    OneThousand();
    if totalShares + 1000 >= WORD {
      return None;
    }
    r := MulDivFloor(assets, totalShares + 1000, totalAssets + 1);
  }

  method ConvertToAssetsOnChain(shares: U128, totalAssets: U64, totalShares: U128) returns (r: Option<U64>)
    ensures var assets := ConvertToAssets(shares, totalAssets, totalShares, VIRTUAL_SHARES_OFFSET);
            r == if totalShares + 1000 < WORD && assets < HALF then Some(assets) else None
  {
    OneThousand();
    if totalShares + 1000 >= WORD {
      return None;
    }
    var assets := MulDivFloor(shares, totalAssets + 1, totalShares + 1000);
    if assets.Some? && assets.value < HALF {
      return Some(assets.value);
    }
    return None;
  }

  // ----- The vault -----------------------------------------------------------------------------

  /** Each holder's shares, and the tokens the vault holds. */
  datatype Vault = Vault(assets: nat, positions: seq<nat>)

  /** `Refused` is any call the program turns away: paused, over the cap, below the minimum, past the slippage
      bound, or too large for its integers. A donation is a plain token transfer to the vault. */
  datatype Op = Deposit(who: nat, amount: nat) | Withdraw(who: nat, shares: nat) | Donate(amount: nat) | Refused

  function Total(positions: seq<nat>): nat {
    if positions == [] then 0 else Total(positions[..|positions| - 1]) + positions[|positions| - 1]
  }

  function Minted(v: Vault, op: Op, offset: nat): nat
    requires op.Deposit?
  {
    ConvertToShares(op.amount, v.assets, Total(v.positions), offset)
  }

  function Paid(v: Vault, op: Op, offset: nat): nat
    requires op.Withdraw?
  {
    ConvertToAssets(op.shares, v.assets, Total(v.positions), offset)
  }

  /** A deposit must mint, a withdrawal must pay and cannot exceed the position. */
  predicate Goes(v: Vault, op: Op, offset: nat) {
    match op
    case Deposit(who, amount) => who < |v.positions| && amount > 0 && Minted(v, op, offset) > 0
    case Withdraw(who, shares) => who < |v.positions| && 0 < shares <= v.positions[who] && Paid(v, op, offset) > 0
    case Donate(_) => true
    case Refused => false
  }

  function Step(v: Vault, op: Op, offset: nat): Vault {
    if !Goes(v, op, offset) then v else
    match op
    case Deposit(who, amount) => Vault(v.assets + amount, v.positions[who := v.positions[who] + Minted(v, op, offset)])
    case Withdraw(who, shares) =>
      PayoutIsCovered(v, op, offset);
      Vault(v.assets - Paid(v, op, offset), v.positions[who := v.positions[who] - shares])
    case Donate(amount) => v.(assets := v.assets + amount)
  }

  function Run(v: Vault, ops: seq<Op>, offset: nat): Vault {
    if ops == [] then v else Step(Run(v, ops[..|ops| - 1], offset), ops[|ops| - 1], offset)
  }

  lemma {:induction false} TotalUpdates(positions: seq<nat>, i: nat, x: nat)
    requires i < |positions|
    ensures Total(positions[i := x]) == Total(positions) - positions[i] + x
    ensures positions[i] <= Total(positions)
  {
    var n := |positions| - 1;
    if i == n {
      assert positions[i := x][..n] == positions[..n];
    } else {
      assert positions[i := x][..n] == positions[..n][i := x];
      TotalUpdates(positions[..n], i, x);
    }
  }

  /** No more leaves than is there. */
  lemma PayoutIsCovered(v: Vault, op: Op, offset: nat)
    requires op.Withdraw? && op.who < |v.positions| && op.shares <= v.positions[op.who]
    ensures Paid(v, op, offset) <= v.assets
  {
    TotalUpdates(v.positions, op.who, 0);
    hide Total, Pow10;
    PartOfTheWhole(op.shares, Total(v.positions) + Pow10(offset), v.assets + 1);
  }

  lemma PartOfTheWhole(shares: nat, d: nat, a: nat)
    requires shares < d && a > 0
    ensures shares * a / d < a
  {
    MulStrict(shares, d, a);
    QuotientBelow(shares * a, d, a);
  }

  // ----- The operations in full ----------------------------------------------------------------

  /** Tokens for shares: refused for an unknown holder or when no whole share comes out, otherwise the largest number of
      shares worth no more than the deposit goes to the depositor and to nobody else. */
  lemma DepositInFull(v: Vault, who: nat, amount: nat, offset: nat)
    ensures var w := Step(v, Deposit(who, amount), offset);
            var supply := Total(v.positions) + Pow10(offset);
            if who < |v.positions| && amount * supply >= v.assets + 1 then
              && w.assets == v.assets + amount && OnlyMoves(v, w, who) && w.positions[who] > v.positions[who]
              && var minted := w.positions[who] - v.positions[who];
                 minted * (v.assets + 1) <= amount * supply < (minted + 1) * (v.assets + 1)
            else w == v
  {
    var supply := Total(v.positions) + Pow10(offset);
    hide Total, Pow10;
    FloorInFull(amount * supply, v.assets + 1);
  }

  /** Shares for tokens: refused beyond the position or when no whole token comes out, otherwise the largest amount
      worth no more than the shares leaves the vault, and the shares are the holder's. */
  lemma WithdrawalInFull(v: Vault, who: nat, shares: nat, offset: nat)
    ensures var w := Step(v, Withdraw(who, shares), offset);
            var supply := Total(v.positions) + Pow10(offset);
            if who < |v.positions| && shares <= v.positions[who] && shares * (v.assets + 1) >= supply then
              && w.positions[who] == v.positions[who] - shares && OnlyMoves(v, w, who) && w.assets < v.assets
              && var paid := v.assets - w.assets;
                 paid * supply <= shares * (v.assets + 1) < (paid + 1) * supply
            else w == v
  {
    var supply := Total(v.positions) + Pow10(offset);
    hide Total, Pow10;
    FloorInFull(shares * (v.assets + 1), supply);
    if who < |v.positions| && shares <= v.positions[who] {
      PayoutIsCovered(v, Withdraw(who, shares), offset);
    }
    assert Paid(v, Withdraw(who, shares), offset) == shares * (v.assets + 1) / supply;
    hide Paid, ConvertToAssets;
  }

  lemma DonationInFull(v: Vault, amount: nat, offset: nat)
    ensures Step(v, Donate(amount), offset) == Vault(v.assets + amount, v.positions)
    ensures Step(v, Refused, offset) == v
  {
  }

  ghost predicate OnlyMoves(v: Vault, w: Vault, who: nat) {
    && who < |v.positions| == |w.positions|
    && forall i | 0 <= i < |v.positions| && i != who :: w.positions[i] == v.positions[i]
  }

  lemma FloorInFull(n: nat, d: nat)
    requires d > 0
    ensures n / d * d <= n < (n / d + 1) * d && (n / d > 0 <==> n >= d)
  {
    FloorBelow(n, d);
    if n / d == 0 { assert n == n % d; }
  }

  /** With TotalUpdates this fixes the total. */
  lemma {:induction false} NobodyHoldsNothing(positions: seq<nat>)
    requires forall i | 0 <= i < |positions| :: positions[i] == 0
    ensures Total(positions) == 0
  {
    if positions != [] { NobodyHoldsNothing(positions[..|positions| - 1]); }
  }

  /** A run goes operation by operation from its vault to its result. */
  lemma {:induction false} RunInFull(v: Vault, ops: seq<Op>, offset: nat) returns (states: seq<Vault>)
    ensures |states| == |ops| + 1 && states[0] == v && states[|ops|] == Run(v, ops, offset)
    ensures forall i | 0 <= i < |ops| :: states[i + 1] == Step(states[i], ops[i], offset)
  {
    if ops == [] {
      states := [v];
    } else {
      var before := RunInFull(v, ops[..|ops| - 1], offset);
      states := before + [Run(v, ops, offset)];
      hide Step;
    }
  }

  // ----- Solvency ------------------------------------------------------------------------------

  /** What all holders could redeem, each at the current price. */
  function Claims(positions: seq<nat>, totalAssets: nat, totalShares: nat, offset: nat): nat {
    if positions == [] then 0
    else
      var n := |positions| - 1;
      Claims(positions[..n], totalAssets, totalShares, offset)
          + ConvertToAssets(positions[n], totalAssets, totalShares, offset)
  }

  /** Each holder's claim is the largest amount worth no more than the position, and the claims are added up. */
  lemma {:induction false} ClaimsInFull(positions: seq<nat>, totalAssets: nat, totalShares: nat, offset: nat,
                                        claims: seq<nat>)
    requires |claims| == |positions|
    requires forall i | 0 <= i < |claims| ::
               claims[i] * (totalShares + Pow10(offset)) <= positions[i] * (totalAssets + 1)
               < (claims[i] + 1) * (totalShares + Pow10(offset))
    ensures Claims(positions, totalAssets, totalShares, offset) == Total(claims)
  {
    if positions != [] {
      var n := |positions| - 1;
      ClaimsInFull(positions[..n], totalAssets, totalShares, offset, claims[..n]);
      hide Pow10;
      var d := totalShares + Pow10(offset);
      FloorIsUnique(positions[n] * (totalAssets + 1), d, claims[n]);
    }
  }

  lemma FloorIsUnique(n: nat, d: nat, q: nat)
    requires d > 0 && q * d <= n < (q + 1) * d
    ensures n / d == q
  {
    FloorBelow(n, d);
    if n / d < q { MulMonotone(n / d + 1, q, d); }
    if n / d > q { MulMonotone(q + 1, n / d, d); }
  }

  lemma {:induction false} ClaimsAreShares(positions: seq<nat>, totalAssets: nat, totalShares: nat, offset: nat)
    ensures Claims(positions, totalAssets, totalShares, offset) * (totalShares + Pow10(offset))
         <= Total(positions) * (totalAssets + 1)
  {
    if positions != [] {
      var init, last := positions[..|positions| - 1], positions[|positions| - 1];
      var d := totalShares + Pow10(offset);
      ClaimsAreShares(init, totalAssets, totalShares, offset);
      FloorBelow(last * (totalAssets + 1), d);
      Distribute(Claims(init, totalAssets, totalShares, offset),
                 ConvertToAssets(last, totalAssets, totalShares, offset), d);
      Distribute(Total(init), last, totalAssets + 1);
    }
  }

  lemma Distribute(a: nat, b: nat, c: nat)
    ensures (a + b) * c == a * c + b * c
  {
  }

  /** In every state, whatever led to it, the vault can pay every holder at once. */
  lemma VaultIsSolvent(v: Vault, offset: nat)
    ensures Claims(v.positions, v.assets, Total(v.positions), offset) <= v.assets
  {
    var s := Total(v.positions);
    ClaimsAreShares(v.positions, v.assets, s, offset);
    ShareOfTheWhole(Claims(v.positions, v.assets, s, offset), s, s + Pow10(offset), v.assets + 1);
  }

  lemma ShareOfTheWhole(claims: nat, s: nat, d: nat, a: nat)
    requires claims * d <= s * a && s < d && a > 0
    ensures claims < a
  {
    MulStrict(s, d, a);
    if claims >= a { MulMonotone(a, claims, d); }
  }

  // ----- The share price -----------------------------------------------------------------------

  /** The price of a share in `v`, assets + 1 over shares + virtual shares, is at most its price in `w`. */
  predicate PriceAtMost(v: Vault, w: Vault, offset: nat) {
    (v.assets + 1) * (Total(w.positions) + Pow10(offset)) <= (w.assets + 1) * (Total(v.positions) + Pow10(offset))
  }

  lemma DepositPrice(a: nat, d: nat, amount: nat, minted: nat)
    requires a > 0 && minted == amount * d / a
    ensures a * (d + minted) <= (a + amount) * d
  {
    FloorBelow(amount * d, a);
    Distribute(d, minted, a);
    Distribute(a, amount, d);
  }

  lemma WithdrawalPrice(a: nat, d: nat, shares: nat, paid: nat)
    requires d > 0 && shares <= d && paid <= a && paid == shares * a / d
    ensures a * (d - shares) <= (a - paid) * d
  {
    FloorBelow(shares * a, d);
    Distribute(d - shares, shares, a);
    Distribute(a - paid, paid, d);
  }

  lemma PriceNeverFalls(v: Vault, op: Op, offset: nat)
    ensures PriceAtMost(v, Step(v, op, offset), offset)
  {
    var a, d := v.assets + 1, Total(v.positions) + Pow10(offset);
    hide Total, Pow10;
    if Goes(v, op, offset) {
      match op {
        case Deposit(who, amount) =>
          TotalUpdates(v.positions, who, v.positions[who] + Minted(v, op, offset));
          DepositPrice(a, d, amount, Minted(v, op, offset));
        case Withdraw(who, shares) =>
          TotalUpdates(v.positions, who, v.positions[who] - shares);
          PayoutIsCovered(v, op, offset);
          WithdrawalPrice(a, d, shares, Paid(v, op, offset));
        case Donate(amount) =>
          MulMonotone(a, a + amount, d);
      }
    }
  }

  lemma FractionsChain(a: nat, b: nat, c: nat, d: nat, e: nat, f: nat)
    requires d > 0 && a * d <= c * b && c * f <= e * d
    ensures a * f <= e * b
  {
    MulMonotone(a * d, c * b, f);
    MulMonotone(c * f, e * d, b);
    assert a * d * f == a * f * d && c * b * f == c * f * b && e * d * b == e * b * d;
    if a * f > e * b { MulStrict(e * b, a * f, d); }
  }

  lemma {:induction false} PriceNeverFallsOverARun(v: Vault, ops: seq<Op>, offset: nat)
    ensures PriceAtMost(v, Run(v, ops, offset), offset)
  {
    if ops != [] {
      var u := Run(v, ops[..|ops| - 1], offset);
      var w := Run(v, ops, offset);
      PriceNeverFallsOverARun(v, ops[..|ops| - 1], offset);
      PriceNeverFalls(u, ops[|ops| - 1], offset);
      var x := Pow10(offset);
      FractionsChain(v.assets + 1, Total(v.positions) + x, u.assets + 1, Total(u.positions) + x, w.assets + 1,
                     Total(w.positions) + x);
    }
  }

  // ----- No profit from rounding ---------------------------------------------------------------

  /** Depositing and redeeming at once never pays more than was put in. */
  lemma RoundTripNeverProfits(amount: nat, totalAssets: nat, totalShares: nat, offset: nat)
    ensures var shares := ConvertToShares(amount, totalAssets, totalShares, offset);
            ConvertToAssets(shares, totalAssets + amount, totalShares + shares, offset) <= amount
  {
    hide Pow10;
    var shares := ConvertToShares(amount, totalAssets, totalShares, offset);
    BackForLess(amount, totalShares + Pow10(offset), totalAssets + 1, shares);
  }

  lemma BackForLess(amount: nat, d: nat, a: nat, shares: nat)
    requires a > 0 && d > 0 && shares == amount * d / a
    ensures shares * (a + amount) / (d + shares) <= amount
  {
    FloorBelow(amount * d, a);
    Distribute(a, amount, shares);
    Distribute(d, shares, amount);
    MulStrict(amount, amount + 1, d + shares);
    QuotientBelow(shares * (a + amount), d + shares, amount + 1);
  }

  /** A sole holder of `shares`, in a vault holding `assets`, redeems at most `assets` after someone else deposits,
      whatever the deposit and however the assets came there. */
  lemma SoleHolderNeverProfits(shares: nat, assets: nat, deposit: nat, offset: nat)
    ensures var minted := ConvertToShares(deposit, assets, shares, offset);
            ConvertToAssets(shares, assets + deposit, shares + minted, offset) <= assets
  {
    var x, a := Pow10(offset), assets + 1;
    var minted := ConvertToShares(deposit, assets, shares, offset);
    hide Pow10;
    FloorBelow(deposit * (shares + x), a);
    // deposit * (shares + x) < (minted + 1) * a, so shares * deposit < (minted + x) * a.
    Distribute(shares, x, deposit);
    Distribute(minted, 1, a);
    Distribute(minted, x, a);
    VirtualSharesCover(deposit, x, a, minted, shares);
    Distribute(a, deposit, shares);
    Distribute(shares, minted + x, a);
    QuotientBelow(shares * (a + deposit), shares + minted + x, a);
  }

  lemma VirtualSharesCover(deposit: nat, x: nat, a: nat, minted: nat, shares: nat)
    requires x > 0 && a > 0 && shares * deposit + x * deposit < minted * a + a
    ensures shares * deposit < minted * a + x * a
  {
    MulMonotone(1, x, a);
  }
}
