/** The first depositor while others only deposit: exactly how many deposits are harmless. */
module DepositsAlone {
  import opened Arithmetic
  import opened WideDivision
  import opened VaultShares
  import opened FirstDepositor

  // ----- Many later deposits -------------------------------------------------------------------

  predicate DepositsByOthers(ops: seq<Op>, who: nat) {
    forall op | op in ops :: op.Deposit? && op.who != who
  }

  /** From `v` to `w` in `k` deposits the price grew by less than (d + k + 1) / (d + 1), where d is `v`'s supply. */
  predicate GrewLittle(v: Vault, w: Vault, k: nat, offset: nat) {
    var d, e := Supply(v, offset), Supply(w, offset);
    if k == 0 then w == v
    else e >= d + k && (w.assets + 1) * (d * (d + 1)) < (v.assets + 1) * (e * (d + k + 1))
  }

  /** A deposit leaves behind less than the price of one share. */
  lemma OneDepositAdds(a0: nat, q: nat, n: nat, a: nat, d: nat, amount: nat, minted: nat)
    requires a > 0 && d > 0 && q > 0 && a * q <= a0 * (d * n)
    requires minted == amount * d / a && n <= d + minted
    ensures (a + amount) * q < a0 * ((d + minted) * (n + 1))
  {
    OneDepositLeaves(a, d, amount, minted);
    Scaled(a0, q, n, a, d, a + amount, d + minted);
    OneMoreEach(n, d + minted, a0);
  }

  lemma OneMoreEach(n: nat, e: nat, a0: nat)
    requires n <= e
    ensures a0 * (n * (e + 1)) <= a0 * (e * (n + 1))
  {
    assert n * (e + 1) == n * e + n && e * (n + 1) == n * e + e;
    MulMonotone(n * (e + 1), e * (n + 1), a0);
  }

  lemma Scaled(a0: nat, q: nat, n: nat, a: nat, d: nat, b: nat, e: nat)
    requires d > 0 && q > 0 && a * q <= a0 * (d * n) && b * d < (e + 1) * a
    ensures b * q < a0 * (n * (e + 1))
  {
    MulStrict(b * d, (e + 1) * a, q);
    MulMonotone(a * q, a0 * (d * n), e + 1);
    Rearranged(b, d, q, a, e + 1);
    var bound := a0 * (n * (e + 1));
    Shuffled(a0, d, n, e + 1);
    if b * q >= bound { MulMonotone(bound, b * q, d); }
  }

  lemma Rearranged(b: nat, d: nat, q: nat, a: nat, f: nat)
    ensures b * d * q == b * q * d && f * a * q == a * q * f
  {
  }

  lemma Shuffled(a: nat, b: nat, c: nat, d: nat)
    ensures a * (b * c) * d == a * (c * d) * b
  {
  }

  /** However large the deposits; only how many there are matters. */
  lemma {:induction false} DepositsAddLittle(v: Vault, later: seq<Op>, who: nat, offset: nat) returns (k: nat)
    requires who < |v.positions| && DepositsByOthers(later, who)
    ensures k <= |later| && GrewLittle(v, Run(v, later, offset), k, offset)
    ensures |Run(v, later, offset).positions| == |v.positions|
    ensures Run(v, later, offset).positions[who] == v.positions[who]
  {
    k := 0;
    if later != [] {
      var n := |later| - 1;
      assert later[n] in later && forall op | op in later[..n] :: op in later;
      k := DepositsAddLittle(v, later[..n], who, offset);
      var u, op := Run(v, later[..n], offset), later[n];
      if Goes(u, op, offset) {
        hide Run, DepositsByOthers;
        OneMoreDeposit(v, u, op, k, offset);
        k := k + 1;
      }
    }
  }

  lemma OneMoreDeposit(v: Vault, u: Vault, op: Op, k: nat, offset: nat)
    requires GrewLittle(v, u, k, offset) && op.Deposit? && Goes(u, op, offset)
    ensures GrewLittle(v, Step(u, op, offset), k + 1, offset)
  {
    var d := Supply(v, offset);
    TotalUpdates(u.positions, op.who, u.positions[op.who] + Minted(u, op, offset));
    hide Total, Pow10;
    OneDepositAdds(v.assets + 1, d * (d + 1), d + k + 1, u.assets + 1, Supply(u, offset), op.amount,
                   Minted(u, op, offset));
  }

  /** So few deposits that what they leave behind stays below the virtual shares' part of the vault. */
  predicate FewDeposits(k: nat, shares: nat, x: nat) {
    k * shares <= x * (shares + x + 1)
  }

  lemma FirstOnesAreFew(k: nat, shares: nat, x: nat)
    requires k <= x
    ensures FewDeposits(k, shares, x)
  {
    MulMonotone(k, x, shares);
    Distribute(shares, x + 1, x);
  }

  lemma FewerAreFew(j: nat, k: nat, shares: nat, x: nat)
    requires j <= k && FewDeposits(k, shares, x)
    ensures FewDeposits(j, shares, x)
  {
    MulMonotone(j, k, shares);
  }

  lemma FewLeaveLittle(k: nat, s: nat, x: nat)
    ensures var q := (s + x) * (s + x + 1);
            if FewDeposits(k, s, x) then s * (s + x + k + 1) <= q else s * (s + x + k + 1) > q
  {
    Distribute(s, x, s + x + 1);
    assert s * (s + x + k + 1) == s * (s + x + 1) + k * s;
  }

  lemma LittleIsNoProfit(s: nat, a0: nat, q: nat, n: nat, a: nat, e: nat)
    requires e > 0 && a0 > 0 && a * q < a0 * (e * n) && s * n <= q
    ensures s * a / e < a0
  {
    if s == 0 {
      MulMonotone(1, a0, e);
    } else {
      MulStrict(a * q, a0 * (e * n), s);
      MulMonotone(s * n, q, a0 * e);
      Associates(a0, e, n);
      Swapped(a0 * e, n, s);
      Swapped(a, q, s);
      if s * a >= a0 * e { MulMonotone(a0 * e, s * a, q); }
    }
    QuotientBelow(s * a, e, a0);
  }

  lemma GrewLittleIsNoProfit(v: Vault, w: Vault, k: nat, who: nat, offset: nat)
    requires who < |v.positions| == |w.positions| && w.positions[who] == v.positions[who] == Total(v.positions)
    requires GrewLittle(v, w, k, offset) && FewDeposits(k, v.positions[who], Pow10(offset))
    ensures ConvertToAssets(w.positions[who], w.assets, Total(w.positions), offset) <= v.assets
  {
    var s, x := v.positions[who], Pow10(offset);
    if k == 0 {
      PartOfTheWhole(s, s + x, v.assets + 1);
    } else {
      FewLeaveLittle(k, s, x);
      hide FewDeposits, Pow10, Total;
      LittleIsNoProfit(s, v.assets + 1, (s + x) * (s + x + 1), s + x + k + 1, w.assets + 1, Supply(w, offset));
    }
  }

  /** When others only deposit, a first depositor redeems no more than they have put in, however large those deposits,
      while they are few for the shares held. The first 10^offset always are. */
  lemma DepositsAloneNeverProfit(holders: nat, ops: seq<Op>, later: seq<Op>, who: nat, offset: nat)
    requires who < holders && OnlyBy(ops, who) && DepositsByOthers(later, who)
    ensures var v := Run(Vault(0, Zeros(holders)), ops, offset); var w := Run(v, later, offset);
            && |v.positions| == |w.positions| == holders
            && (|later| <= Pow10(offset) ==> FewDeposits(|later|, v.positions[who], Pow10(offset)))
            && (FewDeposits(|later|, v.positions[who], Pow10(offset)) ==>
                  ConvertToAssets(w.positions[who], w.assets, Total(w.positions), offset)
                    <= NetFlow(Vault(0, Zeros(holders)), ops, offset))
  {
    var v := Run(Vault(0, Zeros(holders)), ops, offset);
    OthersHoldNothing(holders, ops, who, offset);
    TotalOfOne(v.positions, who);
    AssetsAreTheNetFlow(Vault(0, Zeros(holders)), ops, offset);
    var k := DepositsAddLittle(v, later, who, offset);
    var w, x, shares := Run(v, later, offset), Pow10(offset), v.positions[who];
    hide Run, NetFlow, Total, OnlyBy, DepositsByOthers, Zeros, Pow10, ConvertToAssets, GrewLittle, FewDeposits;
    if |later| <= x {
      FirstOnesAreFew(|later|, shares, x);
    }
    if FewDeposits(|later|, shares, x) {
      FewerAreFew(k, |later|, shares, x);
      GrewLittleIsNoProfit(v, w, k, who, offset);
    }
  }

  // ----- The bound is exact --------------------------------------------------------------------

  /** The largest deposit that still mints a single share, at `a` over `d`. */
  function ForOneShare(a: nat, d: nat): (amount: nat)
    requires a > 0 && d > 0
    ensures amount * d < 2 * a <= amount * d + d
  {
    var n: nat := 2 * a - 1;
    FloorBelow(n, d);
    Distribute(n / d, 1, d);
    DivMod(n, d);
    n / d
  }

  /** `k` deposits, each the largest that still mints a single share. */
  function SingleShares(v: Vault, who: nat, k: nat, offset: nat): seq<Op> {
    if k == 0 then []
    else
      var ops := SingleShares(v, who, k - 1, offset);
      var u := Run(v, ops, offset);
      ops + [Deposit(who, ForOneShare(u.assets + 1, Supply(u, offset)))]
  }

  /** From `v`, `k` shares more and all but `k` of the growth that leaving a share's price behind each time would
      give. */
  predicate GrewMuch(v: Vault, w: Vault, k: nat, offset: nat) {
    var d := Supply(v, offset);
    Supply(w, offset) == d + k && k <= v.assets + 1 && AtLeast(w.assets + 1, Pair(d), v.assets + 1 - k, d + k)
  }

  function Pair(d: nat): nat {
    d * (d + 1)
  }

  /** a over d * (d + 1) is at least c over `q`. */
  predicate AtLeast(a: nat, q: nat, c: nat, d: nat) {
    a * q >= c * Pair(d)
  }

  lemma PairGrows(d: nat, k: nat)
    ensures Pair(d) <= Pair(d + k) && (d > 0 ==> Pair(d) > 0)
  {
    MulMonotone(d, d + k, d + 1);
    MulMonotone(d + 1, d + k + 1, d + k);
  }

  lemma AtLeastTheSupply(a: nat, d: nat, q: nat, c: nat)
    requires d > 0 && c >= q > 0 && AtLeast(a, q, c, d)
    ensures a >= d
  {
    MulMonotone(q, c, Pair(d));
    if a < Pair(d) { MulStrict(a, Pair(d), q); }
    MulMonotone(1, d + 1, d);
  }

  lemma SingleShare(a: nat, d: nat, q: nat, c: nat)
    requires d > 0 && c >= q > 0 && AtLeast(a, q, c, d)
    ensures a >= d && ForOneShare(a, d) > 0 && ForOneShare(a, d) * d / a == 1
  {
    AtLeastTheSupply(a, d, q, c);
    var amount := ForOneShare(a, d);
    Quotient(amount * d, a, 1, amount * d - a);
  }

  lemma SingleShareAdds(a: nat, d: nat, q: nat, c: nat, amount: nat)
    requires d > 0 && c >= 1 && AtLeast(a, q, c, d) && q <= Pair(d + 1)
    requires a > 0 && amount == ForOneShare(a, d)
    ensures AtLeast(a + amount, q, c - 1, d + 1)
  {
    TwoPricesMore(a, d, amount);
    hide ForOneShare;
    Cancelled(a, a + amount, c, d, q);
    hide Pair;
    Distribute(c - 1, 1, Pair(d + 1));
  }

  lemma TwoPricesMore(a: nat, d: nat, amount: nat)
    requires a > 0 && d > 0 && amount == ForOneShare(a, d)
    ensures (a + amount) * d + d >= a * (d + 2)
  {
    Distribute(a, amount, d);
    Distribute(d, 2, a);
  }

  lemma Cancelled(a: nat, b: nat, c: nat, d: nat, q: nat)
    requires d > 0 && b * d + d >= a * (d + 2) && AtLeast(a, q, c, d)
    ensures b * q + q >= c * Pair(d + 1)
  {
    hide Pair;
    MulMonotone(a * (d + 2), b * d + d, q);
    MulMonotone(c * Pair(d), a * q, d + 2);
    Spread(a, b, c, d, q);
    if b * q + q < c * Pair(d + 1) { MulStrict(b * q + q, c * Pair(d + 1), d); }
  }

  lemma Spread(a: nat, b: nat, c: nat, d: nat, q: nat)
    ensures (b * d + d) * q == (b * q + q) * d && a * (d + 2) * q == a * q * (d + 2)
    ensures c * Pair(d) * (d + 2) == c * Pair(d + 1) * d
  {
    PairsMeet(d);
    hide Pair;
    Associates(c, Pair(d), d + 2);
    Associates(c, Pair(d + 1), d);
    Swapped(a, d + 2, q);
    Distribute(b * d, d, q);
    Distribute(b * q, q, d);
    Swapped(b, d, q);
  }

  lemma PairsMeet(d: nat)
    ensures Pair(d) * (d + 2) == Pair(d + 1) * d
  {
    assert d * (d + 1) * (d + 2) == (d + 1) * (d + 2) * d by { Swapped(d, d + 1, d + 2); }
  }

  /** With assets enough, each of the `k` mints one share and leaves almost a share's price behind. */
  lemma {:induction false} SingleSharesGrow(v: Vault, who: nat, k: nat, offset: nat)
    requires who < |v.positions| && v.assets + 1 >= k + Pair(Supply(v, offset))
    ensures var ops := SingleShares(v, who, k, offset); var w := Run(v, ops, offset);
            && |ops| == k && (forall op | op in ops :: op.Deposit? && op.who == who)
            && w.positions == v.positions[who := v.positions[who] + k] && GrewMuch(v, w, k, offset)
  {
    hide Goes, Step, GrewMuch, Supply, ForOneShare, Pair, Run;
    if k == 0 {
      RunNone(v, offset);
      GrewNothing(v, offset);
    } else {
      SingleSharesGrow(v, who, k - 1, offset);
      var ops := SingleShares(v, who, k - 1, offset);
      var u := Run(v, ops, offset);
      var op := Deposit(who, ForOneShare(u.assets + 1, Supply(u, offset)));
      RunOneMore(v, ops, op, offset);
      OneSingleShare(v, u, op, k - 1, offset);
    }
  }

  lemma GrewNothing(v: Vault, offset: nat)
    ensures GrewMuch(v, v, 0, offset)
  {
  }

  lemma OneSingleShare(v: Vault, u: Vault, op: Op, k: nat, offset: nat)
    requires v.assets + 1 >= k + 1 + Pair(Supply(v, offset)) && GrewMuch(v, u, k, offset)
    requires op.Deposit? && op.who < |u.positions| && op.amount == ForOneShare(u.assets + 1, Supply(u, offset))
    ensures Step(u, op, offset).positions == u.positions[op.who := u.positions[op.who] + 1]
    ensures GrewMuch(v, Step(u, op, offset), k + 1, offset)
  {
    var d, a, c := Supply(v, offset), u.assets + 1, v.assets + 1 - k;
    PairGrows(d, k + 1);
    hide Pair, AtLeast;
    SingleShare(a, d + k, Pair(d), c);
    OneMinted(u, op, offset);
    hide Total, Pow10, ForOneShare, Step, Supply;
    SingleShareAdds(a, d + k, Pair(d), c, op.amount);
  }

  lemma OneMinted(u: Vault, op: Op, offset: nat)
    requires op.Deposit? && op.who < |u.positions| && op.amount > 0 && Minted(u, op, offset) == 1
    ensures Step(u, op, offset) == Vault(u.assets + op.amount, u.positions[op.who := u.positions[op.who] + 1])
    ensures Supply(Step(u, op, offset), offset) == Supply(u, offset) + 1
  {
    TotalUpdates(u.positions, op.who, u.positions[op.who] + 1);
  }

  lemma MuchIsProfit(s: nat, k: nat, q: nat, a: nat, e: nat)
    requires e > 0 && q > 0 && AtLeast(a, q, k * q, e) && s * (e + 1) > q
    ensures s * a / e >= k * (q + 1)
  {
    hide Pair;
    MulMonotone(k * q * Pair(e), a * q, s);
    MulMonotone(q + 1, s * (e + 1), k * q * e);
    Profit(s, k, q, a, e);
    if s * a < k * (q + 1) * e { MulStrict(s * a, k * (q + 1) * e, q); }
    QuotientAtLeast(s * a, e, k * (q + 1));
  }

  lemma Profit(s: nat, k: nat, q: nat, a: nat, e: nat)
    ensures a * q * s == s * a * q && k * q * Pair(e) * s == s * (e + 1) * (k * q * e)
    ensures (q + 1) * (k * q * e) == k * (q + 1) * e * q
  {
    assert k * q * Pair(e) == k * q * e * (e + 1) by { Associates(k * q, e, e + 1); }
    hide Pair;
    Swapped(k * q * e, e + 1, s);
    Swapped(a, q, s);
    Swapped(k, q, e);
    Swapped(k, q + 1, e);
    Associates(q + 1, k * e, q);
    assert k * q * e == k * e * q && k * (q + 1) * e == (q + 1) * (k * e);
  }

  ghost predicate NeverProfits(holders: nat, first: nat, k: nat, offset: nat)
    requires holders > 0
  {
    forall donation: nat, later: seq<Op> | |later| == k && DepositsByOthers(later, 0) ::
      Redeemed(holders, first, donation, later, offset) <= first + donation
  }

  lemma FewForAFirstDeposit(first: nat, k: nat, x: nat)
    requires x > 0
    ensures FewDeposits(k, first * x, x) <==> k * first <= first * x + x + 1
  {
    assert k * (first * x) == k * first * x && x * (first * x + x + 1) == (first * x + x + 1) * x;
    MulStrict(first * x + x + 1, k * first, x);
    if k * first <= first * x + x + 1 { MulMonotone(k * first, first * x + x + 1, x); }
  }

  /** Deposit `first`, donate anything, let others make `k` deposits of any size: whether the first depositor can then
      redeem more than first and donation together depends on `first` and `k` alone. */
  lemma DepositsAloneNeverProfitExactlyWhen(holders: nat, first: nat, k: nat, offset: nat)
    requires holders >= 2 && first > 0
    ensures NeverProfits(holders, first, k, offset) <==> k * first <= first * Pow10(offset) + Pow10(offset) + 1
  {
    var x := Pow10(offset);
    FewForAFirstDeposit(first, k, x);
    if k * first <= first * x + x + 1 {
      forall donation: nat, later: seq<Op> | |later| == k && DepositsByOthers(later, 0)
        ensures Redeemed(holders, first, donation, later, offset) <= first + donation
      {
        DepositAndDonate(holders, first, donation, offset);
        DepositsAloneNeverProfit(holders, [Deposit(0, first), Donate(donation)], later, 0, offset);
      }
    } else {
      var donation, later := TooManyDeposits(holders, first, k, offset);
    }
  }

  lemma TooManyDeposits(holders: nat, first: nat, k: nat, offset: nat) returns (donation: nat, later: seq<Op>)
    requires holders >= 2 && first > 0 && !FewDeposits(k, first * Pow10(offset), Pow10(offset))
    ensures |later| == k && DepositsByOthers(later, 0)
    ensures Redeemed(holders, first, donation, later, offset) > first + donation
    ensures first + donation + 1 == k * (Pair(first * Pow10(offset) + Pow10(offset)) + 1)
    ensures later == SingleShares(Vault(first + donation, Zeros(holders)[0 := first * Pow10(offset)]), 1, k, offset)
  {
    var s := first * Pow10(offset);
    DonationIsEnough(first, k, Pow10(offset));
    donation := k * (Pair(s + Pow10(offset)) + 1) - first - 1;
    DepositAndDonate(holders, first, donation, offset);
    var v := Vault(first + donation, Zeros(holders)[0 := s]);
    later := SingleShares(v, 1, k, offset);
    FewLeaveLittle(k, s, Pow10(offset));
    assert s * (Supply(v, offset) + k + 1) > Pair(Supply(v, offset));
    hide Pair, FewDeposits, SingleShares, Redeemed, Run, NetFlow, Total, Pow10, ConvertToAssets;
    ManyDepositsProfit(v, k, offset);
    RedeemedIs(holders, first, donation, later, offset);
  }

  lemma ManyDepositsProfit(v: Vault, k: nat, offset: nat)
    requires |v.positions| >= 2 && v.positions[0] * (Supply(v, offset) + k + 1) > Pair(Supply(v, offset))
    requires k > 0 && v.assets + 1 == k * (Pair(Supply(v, offset)) + 1)
    ensures var later := SingleShares(v, 1, k, offset); var w := Run(v, later, offset);
            && |later| == k && DepositsByOthers(later, 0) && |w.positions| == |v.positions|
            && ConvertToAssets(w.positions[0], w.assets, Total(w.positions), offset) > v.assets
  {
    Products(k, Pair(Supply(v, offset)));
    hide Pair, Supply, GrewMuch, Run, SingleShares;
    SingleSharesGrow(v, 1, k, offset);
    GrewMuchIsProfit(v, Run(v, SingleShares(v, 1, k, offset), offset), k, offset);
  }

  lemma GrewMuchIsProfit(v: Vault, w: Vault, k: nat, offset: nat)
    requires |v.positions| == |w.positions| >= 2 && w.positions[0] == v.positions[0] && GrewMuch(v, w, k, offset)
    requires v.positions[0] * (Supply(v, offset) + k + 1) > Pair(Supply(v, offset))
    requires k > 0 && v.assets + 1 == k * (Pair(Supply(v, offset)) + 1)
    ensures ConvertToAssets(w.positions[0], w.assets, Total(w.positions), offset) > v.assets
  {
    var d := Supply(v, offset);
    Products(k, Pair(d));
    PairGrows(d, 0);
    hide Pair, Total, Pow10, AtLeast;
    MuchIsProfit(v.positions[0], k, Pair(d), w.assets + 1, d + k);
  }

  lemma Products(k: nat, q: nat)
    requires k > 0
    ensures k * (q + 1) == k * q + k && k * q >= q
  {
    MulMonotone(1, k, q);
  }

  lemma DonationIsEnough(first: nat, k: nat, x: nat)
    requires x > 0 && first > 0 && !FewDeposits(k, first * x, x)
    ensures k > 0 && k * (Pair(first * x + x) + 1) >= first + 1
  {
    var q := Pair(first * x + x);
    MulMonotone(1, x, first);
    MulMonotone(1, first * x + x + 1, first * x + x);
    MulMonotone(1, k, q + 1);
  }

  /** At the program's offset a deposit of one token is safe from others' first 2001 deposits, whatever is donated,
      while nobody withdraws; with one more it need not be, on amounts well within the program's integers. */
  lemma OneTokenDeposited() returns (donation: nat, later: seq<Op>)
    ensures NeverProfits(2, 1, 2001, VIRTUAL_SHARES_OFFSET)
    ensures |later| == 2002 && DepositsByOthers(later, 0)
    ensures Redeemed(2, 1, donation, later, VIRTUAL_SHARES_OFFSET) > 1 + donation
    ensures Run(Vault(1 + donation, Zeros(2)[0 := 1000]), later, VIRTUAL_SHARES_OFFSET).assets < HALF
  {
    OneThousand();
    DepositsAloneNeverProfitExactlyWhen(2, 1, 2001, VIRTUAL_SHARES_OFFSET);
    FewForAFirstDeposit(1, 2002, 1000);
    donation, later := TooManyDeposits(2, 1, 2002, VIRTUAL_SHARES_OFFSET);
    var v := Vault(1 + donation, Zeros(2)[0 := 1000]);
    TotalOfOne(v.positions, 0);
    assert Pair(2000) == 4002000;
    hide Run, NetFlow, Redeemed, NeverProfits, DepositsByOthers, SingleShares, Total, Pow10, Zeros, Pair, FewDeposits,
         AtLeast;
    SingleSharesGrow(v, 1, 2002, VIRTUAL_SHARES_OFFSET);
    var k := DepositsAddLittle(v, later, 0, VIRTUAL_SHARES_OFFSET);
    var w := Run(v, later, VIRTUAL_SHARES_OFFSET);
    assert Supply(v, VIRTUAL_SHARES_OFFSET) == 2000 && Supply(w, VIRTUAL_SHARES_OFFSET) == 4002;
  }
}
