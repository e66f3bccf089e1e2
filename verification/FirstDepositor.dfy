/** What a first depositor can redeem after others have come and gone: when rounding in their favour can outweigh what
    the virtual shares cost them. */
module FirstDepositor {
  import opened Arithmetic
  import opened VaultShares

  // ----- From an empty vault -------------------------------------------------------------------

  function Zeros(holders: nat): (z: seq<nat>)
    ensures |z| == holders && forall i | 0 <= i < holders :: z[i] == 0
  {
    seq(holders, _ => 0)
  }

  /** What an operation moves into the vault, negative when it moves out. */
  function Flow(v: Vault, op: Op, offset: nat): int {
    if !Goes(v, op, offset) then 0 else
    match op
    case Deposit(_, amount) => amount
    case Withdraw(_, _) => var paid: int := Paid(v, op, offset); -paid
    case Donate(amount) => amount
  }

  function NetFlow(v: Vault, ops: seq<Op>, offset: nat): int {
    if ops == [] then 0
    else NetFlow(v, ops[..|ops| - 1], offset) + Flow(Run(v, ops[..|ops| - 1], offset), ops[|ops| - 1], offset)
  }

  lemma {:induction false} AssetsAreTheNetFlow(v: Vault, ops: seq<Op>, offset: nat)
    ensures Run(v, ops, offset).assets == v.assets + NetFlow(v, ops, offset)
  {
    if ops != [] { AssetsAreTheNetFlow(v, ops[..|ops| - 1], offset); }
  }

  predicate OnlyBy(ops: seq<Op>, who: nat) {
    forall op | op in ops :: (op.Deposit? || op.Withdraw?) ==> op.who == who
  }

  lemma {:induction false} OthersHoldNothing(holders: nat, ops: seq<Op>, who: nat, offset: nat)
    requires who < holders && OnlyBy(ops, who)
    ensures var v := Run(Vault(0, Zeros(holders)), ops, offset);
            |v.positions| == holders && forall i | 0 <= i < holders && i != who :: v.positions[i] == 0
  {
    if ops != [] {
      assert ops[|ops| - 1] in ops && forall op | op in ops[..|ops| - 1] :: op in ops;
      OthersHoldNothing(holders, ops[..|ops| - 1], who, offset);
    }
  }

  lemma {:induction false} TotalOfOne(positions: seq<nat>, who: nat)
    requires who < |positions| && forall i | 0 <= i < |positions| && i != who :: positions[i] == 0
    ensures Total(positions) == positions[who]
  {
    var n := |positions| - 1;
    if who < n {
      TotalOfOne(positions[..n], who);
    } else {
      NobodyHoldsNothing(positions[..n]);
    }
  }

  function Supply(v: Vault, offset: nat): (d: nat)
    ensures d > 0
  {
    Total(v.positions) + Pow10(offset)
  }

  lemma RunOneMore(v: Vault, ops: seq<Op>, op: Op, offset: nat)
    ensures Run(v, ops + [op], offset) == Step(Run(v, ops, offset), op, offset)
  {
    assert (ops + [op])[..|ops|] == ops;
  }

  lemma RunNone(v: Vault, offset: nat)
    ensures Run(v, [], offset) == v
  {
  }

  lemma {:induction false} RunKeepsHolders(v: Vault, ops: seq<Op>, offset: nat)
    ensures |Run(v, ops, offset).positions| == |v.positions|
  {
    if ops != [] { RunKeepsHolders(v, ops[..|ops| - 1], offset); }
  }

  /** What the first depositor redeems after depositing, donating, and seeing `later` happen. */
  function Redeemed(holders: nat, first: nat, donation: nat, later: seq<Op>, offset: nat): nat
    requires holders > 0
  {
    var w := Run(Run(Vault(0, Zeros(holders)), [Deposit(0, first), Donate(donation)], offset), later, offset);
    RunKeepsHolders(Vault(0, Zeros(holders)), [Deposit(0, first), Donate(donation)], offset);
    RunKeepsHolders(Run(Vault(0, Zeros(holders)), [Deposit(0, first), Donate(donation)], offset), later, offset);
    ConvertToAssets(w.positions[0], w.assets, Total(w.positions), offset)
  }

  lemma RedeemedIs(holders: nat, first: nat, donation: nat, later: seq<Op>, offset: nat)
    requires holders > 0 && first > 0
    ensures var w := Run(Vault(first + donation, Zeros(holders)[0 := first * Pow10(offset)]), later, offset);
            |w.positions| == holders
            && Redeemed(holders, first, donation, later, offset)
                == ConvertToAssets(w.positions[0], w.assets, Total(w.positions), offset)
  {
    DepositAndDonate(holders, first, donation, offset);
    RunKeepsHolders(Vault(first + donation, Zeros(holders)[0 := first * Pow10(offset)]), later, offset);
  }

  lemma DepositAndDonate(holders: nat, first: nat, donation: nat, offset: nat)
    requires holders > 0 && first > 0
    ensures var ops, empty := [Deposit(0, first), Donate(donation)], Vault(0, Zeros(holders));
            && Run(empty, ops, offset) == Vault(first + donation, Zeros(holders)[0 := first * Pow10(offset)])
            && NetFlow(empty, ops, offset) == first + donation && OnlyBy(ops, 0)
            && Total(Zeros(holders)[0 := first * Pow10(offset)]) == first * Pow10(offset)
  {
    var ops, empty := [Deposit(0, first), Donate(donation)], Vault(0, Zeros(holders));
    FirstDeposit(holders, first, offset);
    hide Zeros, Pow10, Total, Minted, Step, Flow;
    var one := Step(empty, ops[0], offset);
    assert ops[..1] == [ops[0]] && ops[..1][..0] == [] && ops[0] == Deposit(0, first) && ops[1] == Donate(donation);
    assert Run(empty, ops[..1], offset) == one by { assert Run(empty, ops[..1][..0], offset) == empty; }
    assert Run(empty, ops, offset) == Step(one, ops[1], offset);
    assert NetFlow(empty, ops[..1], offset)
           == Flow(empty, ops[0], offset) by { assert NetFlow(empty, ops[..1][..0], offset) == 0; }
    assert NetFlow(empty, ops, offset) == NetFlow(empty, ops[..1], offset) + Flow(one, ops[1], offset);
    DonationStep(one, donation, offset);
  }

  lemma DonationStep(v: Vault, donation: nat, offset: nat)
    ensures Step(v, Donate(donation), offset) == v.(assets := v.assets + donation)
    ensures Flow(v, Donate(donation), offset) == donation
  {
  }

  lemma FirstDeposit(holders: nat, first: nat, offset: nat)
    requires holders > 0 && first > 0
    ensures var empty, op, shares := Vault(0, Zeros(holders)), Deposit(0, first), first * Pow10(offset);
            && Step(empty, op, offset) == Vault(first, Zeros(holders)[0 := shares]) && Flow(empty, op, offset) == first
            && Total(Zeros(holders)[0 := shares]) == shares
  {
    var shares := first * Pow10(offset);
    NobodyHoldsNothing(Zeros(holders));
    TotalOfOne(Zeros(holders)[0 := shares], 0);
    MulMonotone(1, Pow10(offset), first);
    hide Total, Pow10;
    assert Minted(Vault(0, Zeros(holders)), Deposit(0, first), offset) == shares by { Quotient(shares, 1, shares, 0); }
  }

  lemma OneDepositLeaves(a: nat, d: nat, amount: nat, minted: nat)
    requires a > 0 && minted == amount * d / a
    ensures (a + amount) * d < (d + minted + 1) * a
  {
    FloorBelow(amount * d, a);
    Distribute(a, amount, d);
    Distribute(d, minted + 1, a);
  }

  lemma Associates(a: nat, b: nat, c: nat)
    ensures a * (b * c) == a * b * c
  {
  }

  lemma Swapped(a: nat, b: nat, c: nat)
    ensures a * b * c == a * c * b == b * c * a == c * b * a
  {
  }

  // ----- While others deposit and withdraw -----------------------------------------------------

  predicate CallsByOthers(ops: seq<Op>, who: nat) {
    forall op | op in ops :: (op.Deposit? || op.Withdraw?) && op.who != who
  }

  function Deposits(ops: seq<Op>): nat {
    if ops == [] then 0 else Deposits(ops[..|ops| - 1]) + if ops[|ops| - 1].Deposit? then 1 else 0
  }

  function Withdrawals(ops: seq<Op>): nat {
    if ops == [] then 0 else Withdrawals(ops[..|ops| - 1]) + if ops[|ops| - 1].Withdraw? then 1 else 0
  }

  function Power(b: nat, k: nat): (p: nat)
    ensures b > 0 ==> p > 0
  {
    if k == 0 then 1 else b * Power(b, k - 1)
  }

  lemma {:induction false} PowerMonotone(b: nat, c: nat, k: nat)
    requires b <= c
    ensures Power(b, k) <= Power(c, k)
  {
    if k > 0 {
      PowerMonotone(b, c, k - 1);
      MulMonotone(b, c, Power(b, k - 1));
      MulMonotone(Power(b, k - 1), Power(c, k - 1), c);
    }
  }

  /** a over e is below c * q over p. */
  predicate PriceBelow(a: nat, e: nat, c: nat, p: nat, q: nat) {
    a * p < c * (e * q)
  }

  /** From `v` to `w` in `k` deposits and `j` withdrawals, refused ones counted, the price rose from a0 / d to less than
      (a0 + j) / d times ((d + 2) / (d + 1))^k. */
  predicate Rose(v: Vault, w: Vault, k: nat, j: nat, offset: nat) {
    var d := Supply(v, offset);
    Supply(w, offset) >= d
    && if k + j == 0 then w == v
       else PriceBelow(w.assets + 1, Supply(w, offset), v.assets + 1 + j, d * Power(d + 1, k), Power(d + 2, k))
  }

  /** A price at a bound stays below the bound widened by one more deposit. */
  lemma DepositRaises(a: nat, e: nat, c: nat, p: nat, q: nat, d: nat, b: nat, f: nat)
    requires a * p <= c * (e * q) && d > 0 && e > 0 && p > 0 && f > d
    requires b * e < (f + 1) * a
    ensures PriceBelow(b, f, c, p * (d + 1), q * (d + 2))
  {
    var m := f * (d + 2);
    assert (f + 1) * (d + 1) <= m;
    MulStrict(b * e, (f + 1) * a, p * (d + 1));
    MulMonotone((f + 1) * (d + 1), m, a * p);
    MulMonotone(a * p, c * (e * q), m);
    Deposited(a, e, c, p, q, b, f + 1, d + 1, m);
    if b * (p * (d + 1)) >= c * (m * q) { MulMonotone(c * (m * q), b * (p * (d + 1)), e); }
    Associates(f, d + 2, q);
    Swapped(f, d + 2, q);
    assert f * (q * (d + 2)) == m * q;
  }

  lemma Deposited(a: nat, e: nat, c: nat, p: nat, q: nat, b: nat, g: nat, h: nat, m: nat)
    ensures b * e * (p * h) == b * (p * h) * e && g * a * (p * h) == g * h * (a * p)
    ensures m * (a * p) == a * p * m && c * (e * q) * m == c * (m * q) * e
  {
    Swapped(b, e, p * h);
    FourSwapped(g, a, p, h);
    FourSwapped(c, e, q, m);
  }

  lemma FourSwapped(a: nat, b: nat, c: nat, d: nat)
    ensures a * b * (c * d) == a * d * (b * c) && a * (b * c) * d == a * (d * c) * b
  {
  }

  lemma RefusedStaysBelow(a: nat, e: nat, c: nat, p: nat, q: nat, d: nat)
    requires a * p <= c * (e * q) && c > 0 && e > 0 && q > 0
    ensures PriceBelow(a, e, c, p * (d + 1), q * (d + 2)) && PriceBelow(a, e, c + 1, p, q)
  {
    MulMonotone(1, e, q);
    MulMonotone(1, c, e * q);
    MulMonotone(a * p, c * (e * q), d + 1);
    Distribute(c, 1, e * q);
    Associates(a, p, d + 1);
    assert c * (e * (q * (d + 2))) == c * (e * q) * (d + 2) by {
      Associates(e, q, d + 2);
      Associates(c, e * q, d + 2);
    }
    MulStrict(d + 1, d + 2, c * (e * q));
  }

  /** A withdrawal leaves behind less than one token. */
  lemma WithdrawalRaises(a: nat, e: nat, c: nat, p: nat, q: nat, b: nat, f: nat)
    requires a * p <= c * (e * q) && e > 0 && p > 0 && p <= f * q
    requires b * e < a * f + e
    ensures PriceBelow(b, f, c + 1, p, q)
  {
    MulStrict(b * e, a * f + e, p);
    Distribute(a * f, e, p);
    MulMonotone(a * p, c * (e * q), f);
    MulMonotone(p, f * q, e);
    Withdrawn(a, e, c, p, q, b, f);
    Distribute(c, 1, f * q);
    Distribute(c * (f * q), f * q, e);
    if b * p >= (c + 1) * (f * q) { MulMonotone((c + 1) * (f * q), b * p, e); }
  }

  lemma Withdrawn(a: nat, e: nat, c: nat, p: nat, q: nat, b: nat, f: nat)
    ensures b * e * p == b * p * e && a * f * p == a * p * f && e * p == p * e
    ensures c * (e * q) * f == c * (f * q) * e
  {
    FourSwapped(c, e, q, f);
  }

  lemma WithdrawalLeaves(a: nat, e: nat, shares: nat, paid: nat)
    requires e > 0 && shares <= e && paid <= a && paid == shares * a / e
    ensures (a - paid) * e < a * (e - shares) + e
  {
    FloorBelow(shares * a, e);
    Distribute(a - paid, paid, e);
    Distribute(e - shares, shares, a);
    Distribute(paid, 1, e);
  }

  /** Where a call by someone else takes a price bounded so far. */
  lemma CallRaises(v: Vault, u: Vault, op: Op, who: nat, k: nat, j: nat, offset: nat)
    requires who < |u.positions| && u.positions[who] == Total(v.positions) && Rose(v, u, k, j, offset)
    requires (op.Deposit? || op.Withdraw?) && op.who != who
    ensures var w := Step(u, op, offset);
            && |w.positions| == |u.positions| && w.positions[who] == u.positions[who]
            && if op.Deposit? then Rose(v, w, k + 1, j, offset) else Rose(v, w, k, j + 1, offset)
  {
    TotalUpdates(Step(u, op, offset).positions, who, 0);
    if !Goes(u, op, offset) {
      RefusalRose(v, u, k, j, offset);
    } else if op.Deposit? {
      DepositRose(v, u, op, k, j, offset);
    } else {
      WithdrawalRose(v, u, op, k, j, offset);
    }
    hide Rose, Total, Minted, Paid, Pow10;
  }

  lemma RefusalRose(v: Vault, u: Vault, k: nat, j: nat, offset: nat)
    requires Rose(v, u, k, j, offset)
    ensures Rose(v, u, k + 1, j, offset) && Rose(v, u, k, j + 1, offset)
  {
    var d := Supply(v, offset);
    BoundSoFar(v, u, k, j, offset);
    NextPowers(d, k);
    hide Supply, Power;
    RefusedStaysBelow(u.assets + 1, Supply(u, offset), v.assets + 1 + j, d * Power(d + 1, k), Power(d + 2, k), d);
  }

  lemma DepositRose(v: Vault, u: Vault, op: Op, k: nat, j: nat, offset: nat)
    requires Rose(v, u, k, j, offset) && op.Deposit? && Goes(u, op, offset)
    ensures Rose(v, Step(u, op, offset), k + 1, j, offset)
  {
    var w, d := Step(u, op, offset), Supply(v, offset);
    BoundSoFar(v, u, k, j, offset);
    NextPowers(d, k);
    DepositMoves(u, op, offset);
    hide Step, Goes, Supply, Power;
    DepositRaises(u.assets + 1, Supply(u, offset), v.assets + 1 + j, d * Power(d + 1, k), Power(d + 2, k), d,
                  w.assets + 1, Supply(w, offset));
  }

  lemma WithdrawalRose(v: Vault, u: Vault, op: Op, k: nat, j: nat, offset: nat)
    requires Rose(v, u, k, j, offset) && op.Withdraw? && Goes(u, op, offset)
    requires Supply(Step(u, op, offset), offset) >= Supply(v, offset)
    ensures Rose(v, Step(u, op, offset), k, j + 1, offset)
  {
    var w, d := Step(u, op, offset), Supply(v, offset);
    BoundSoFar(v, u, k, j, offset);
    WithdrawalMoves(u, op, offset);
    PowerMonotone(d + 1, d + 2, k);
    hide Step, Goes, Supply, Power;
    MulMonotone(d, Supply(w, offset), Power(d + 2, k));
    MulMonotone(Power(d + 1, k), Power(d + 2, k), d);
    WithdrawalRaises(u.assets + 1, Supply(u, offset), v.assets + 1 + j, d * Power(d + 1, k), Power(d + 2, k),
                     w.assets + 1, Supply(w, offset));
  }

  lemma NextPowers(d: nat, k: nat)
    ensures d * Power(d + 1, k + 1) == d * Power(d + 1, k) * (d + 1) && Power(d + 2, k + 1) == Power(d + 2, k) * (d + 2)
  {
    var p := Power(d + 1, k);
    assert Power(d + 1, k + 1) == (d + 1) * p;
    Swapped(d, p, d + 1);
    Associates(d, d + 1, p);
  }

  lemma BoundSoFar(v: Vault, u: Vault, k: nat, j: nat, offset: nat)
    requires Rose(v, u, k, j, offset)
    ensures var d := Supply(v, offset); var p, q := d * Power(d + 1, k), Power(d + 2, k);
            p > 0 && q > 0 && (u.assets + 1) * p <= (v.assets + 1 + j) * (Supply(u, offset) * q)
  {
    var d := Supply(v, offset);
    MulMonotone(1, d, Power(d + 1, k));
  }

  lemma DepositMoves(u: Vault, op: Op, offset: nat)
    requires op.Deposit? && Goes(u, op, offset)
    ensures var w := Step(u, op, offset);
            Supply(w, offset) > Supply(u, offset)
                && (w.assets + 1) * Supply(u, offset) < (Supply(w, offset) + 1) * (u.assets + 1)
  {
    var minted := Minted(u, op, offset);
    TotalUpdates(u.positions, op.who, u.positions[op.who] + minted);
    OneDepositLeaves(u.assets + 1, Supply(u, offset), op.amount, minted);
  }

  lemma WithdrawalMoves(u: Vault, op: Op, offset: nat)
    requires op.Withdraw? && Goes(u, op, offset)
    ensures var w := Step(u, op, offset);
            (w.assets + 1) * Supply(u, offset) < (u.assets + 1) * Supply(w, offset) + Supply(u, offset)
  {
    var paid := Paid(u, op, offset);
    TotalUpdates(u.positions, op.who, u.positions[op.who] - op.shares);
    PayoutIsCovered(u, op, offset);
    WithdrawalLeaves(u.assets + 1, Supply(u, offset), op.shares, paid);
  }

  /** However large the amounts; only how many calls there are matters. */
  lemma {:induction false} CallsRaiseLittle(v: Vault, later: seq<Op>, who: nat, offset: nat)
    requires who < |v.positions| && v.positions[who] == Total(v.positions) && CallsByOthers(later, who)
    ensures var w := Run(v, later, offset);
            && |w.positions| == |v.positions| && w.positions[who] == v.positions[who]
            && Rose(v, w, Deposits(later), Withdrawals(later), offset)
  {
    if later != [] {
      var n := |later| - 1;
      assert later[n] in later && forall op | op in later[..n] :: op in later;
      CallsRaiseLittle(v, later[..n], who, offset);
      CallRaises(v, Run(v, later[..n], offset), later[n], who, Deposits(later[..n]), Withdrawals(later[..n]), offset);
      hide Rose, Step;
    }
  }

  /** So few calls that what they leave behind stays below the virtual shares' part of the vault: `a0` is one more than
      the assets there were, and `x` the virtual shares. */
  predicate FewCalls(a0: nat, shares: nat, x: nat, k: nat, j: nat) {
    (a0 + j) * shares * Power(shares + x + 2, k) <= a0 * ((shares + x) * Power(shares + x + 1, k))
  }

  lemma BelowIsNoProfit(s: nat, a0: nat, c: nat, p: nat, q: nat, a: nat, e: nat)
    requires a0 > 0 && e > 0 && p > 0 && PriceBelow(a, e, c, p, q) && c * s * q <= a0 * p
    ensures s * a / e < a0
  {
    if s == 0 {
      MulMonotone(1, a0, e);
    } else {
      MulStrict(a * p, c * (e * q), s);
      MulMonotone(c * s * q, a0 * p, e);
      BelowSwapped(s, a0, c, p, q, a, e);
      if s * a >= a0 * e { MulMonotone(a0 * e, s * a, p); }
    }
    QuotientBelow(s * a, e, a0);
  }

  lemma BelowSwapped(s: nat, a0: nat, c: nat, p: nat, q: nat, a: nat, e: nat)
    ensures a * p * s == s * a * p && a0 * p * e == a0 * e * p
    ensures c * (e * q) * s == c * s * q * e
  {
    FourSwapped(c, e, q, s);
    Associates(c, s, q);
  }

  lemma RoseIsNoProfit(v: Vault, w: Vault, who: nat, k: nat, j: nat, offset: nat)
    requires who < |v.positions| == |w.positions| && w.positions[who] == v.positions[who] == Total(v.positions)
    requires Rose(v, w, k, j, offset) && FewCalls(v.assets + 1, v.positions[who], Pow10(offset), k, j)
    ensures ConvertToAssets(w.positions[who], w.assets, Total(w.positions), offset) <= v.assets
  {
    var s, d := v.positions[who], Supply(v, offset);
    if k + j == 0 {
      PartOfTheWhole(s, d, v.assets + 1);
    } else {
      BoundSoFar(v, w, k, j, offset);
      hide Pow10, Total;
      BelowIsNoProfit(s, v.assets + 1, v.assets + 1 + j, d * Power(d + 1, k), Power(d + 2, k), w.assets + 1,
                      Supply(w, offset));
    }
  }

  /** From an empty vault, a first depositor who deposits, withdraws and donates in any way before anyone else's first
      deposit, then redeems no more than they have put in, whatever others deposit and withdraw meanwhile, as long as
      their calls are few. */
  lemma FirstDepositorNeverProfits(holders: nat, ops: seq<Op>, later: seq<Op>, who: nat, offset: nat)
    requires who < holders && OnlyBy(ops, who) && CallsByOthers(later, who)
    ensures var v := Run(Vault(0, Zeros(holders)), ops, offset); var w := Run(v, later, offset);
            && |v.positions| == |w.positions| == holders
            && (FewCalls(v.assets + 1, v.positions[who], Pow10(offset), Deposits(later), Withdrawals(later)) ==>
                  ConvertToAssets(w.positions[who], w.assets, Total(w.positions), offset)
                    <= NetFlow(Vault(0, Zeros(holders)), ops, offset))
  {
    var v := Run(Vault(0, Zeros(holders)), ops, offset);
    OthersHoldNothing(holders, ops, who, offset);
    TotalOfOne(v.positions, who);
    AssetsAreTheNetFlow(Vault(0, Zeros(holders)), ops, offset);
    CallsRaiseLittle(v, later, who, offset);
    hide Run, NetFlow, Total, OnlyBy, CallsByOthers, Zeros, Pow10, ConvertToAssets, Rose, FewCalls;
    if FewCalls(v.assets + 1, v.positions[who], Pow10(offset), Deposits(later), Withdrawals(later)) {
      RoseIsNoProfit(v, Run(v, later, offset), who, Deposits(later), Withdrawals(later), offset);
    }
  }

  // ----- One later deposit is enough -----------------------------------------------------------

  /** One deposit, and then `j` withdrawals of `shares` each. */
  function InAndOut(who: nat, amount: nat, shares: nat, j: nat): (ops: seq<Op>)
    ensures |ops| == j + 1 && CallsByOthers(ops, if who == 0 then 1 else 0)
    ensures Deposits(ops) == 1 && Withdrawals(ops) == j
  {
    if j == 0 then
      assert [Deposit(who, amount)][..0] == [];
      [Deposit(who, amount)]
    else
      var ops := InAndOut(who, amount, shares, j - 1);
      assert (ops + [Withdraw(who, shares)])[..j] == ops;
      ops + [Withdraw(who, shares)]
  }

  /** At a over e, `j` withdrawals of `shares` shares each are all worth at least one token and less than two. */
  predicate WorthOne(a: nat, e: nat, shares: nat, j: nat) {
    e <= shares * a && shares * a + shares * j < 2 * e + shares
  }

  lemma WorthOneBefore(a: nat, e: nat, shares: nat, j: nat)
    requires j > 0 && WorthOne(a, e, shares, j)
    ensures WorthOne(a, e, shares, j - 1) && shares * j == shares * (j - 1) + shares
  {
    Distribute(j - 1, 1, shares);
  }

  /** The deposit, and then one token for each withdrawal. */
  lemma {:induction false} OneTokenEach(v: Vault, who: nat, amount: nat, minted: nat, shares: nat, j: nat, offset: nat)
    requires who < |v.positions| && v.positions[who] == 0 && amount > 0 && minted > 0 && shares > 0
    requires Minted(v, Deposit(who, amount), offset) == minted
    requires shares * j <= minted && j <= v.assets + amount
    requires WorthOne(v.assets + 1 + amount, Supply(v, offset) + minted, shares, j)
    ensures Run(v, InAndOut(who, amount, shares, j), offset)
            == Vault(v.assets + amount - j, v.positions[who := minted - shares * j])
  {
    hide WorthOne, Step, Supply, Total, Minted, Run, InAndOut;
    if j == 0 {
      JustIn(v, who, amount, minted, shares, offset);
    } else {
      WorthOneBefore(v.assets + 1 + amount, Supply(v, offset) + minted, shares, j);
      OneTokenEach(v, who, amount, minted, shares, j - 1, offset);
      RunOneMore(v, InAndOut(who, amount, shares, j - 1), Withdraw(who, shares), offset);
      OneMoreOut(who, amount, shares, j);
      OneTokenMore(v, who, amount, minted, shares, j, shares * (j - 1), offset);
    }
  }

  lemma OneMoreOut(who: nat, amount: nat, shares: nat, j: nat)
    requires j > 0
    ensures InAndOut(who, amount, shares, j) == InAndOut(who, amount, shares, j - 1) + [Withdraw(who, shares)]
  {
  }

  lemma JustIn(v: Vault, who: nat, amount: nat, minted: nat, shares: nat, offset: nat)
    requires who < |v.positions| && v.positions[who] == 0 && amount > 0 && minted > 0
    requires Minted(v, Deposit(who, amount), offset) == minted
    ensures Run(v, InAndOut(who, amount, shares, 0), offset) == Vault(v.assets + amount, v.positions[who := minted])
  {
    assert [] + [Deposit(who, amount)] == [Deposit(who, amount)];
    RunOneMore(v, [], Deposit(who, amount), offset);
    RunNone(v, offset);
    hide Run, Total, Pow10, Minted;
  }

  /** The `j`-th withdrawal, when `had` shares are gone. */
  lemma OneTokenMore(v: Vault, who: nat, amount: nat, minted: nat, shares: nat, j: nat, had: nat, offset: nat)
    requires who < |v.positions| && v.positions[who] == 0 && shares > 0 && 0 < j <= v.assets + amount
    requires had == shares * (j - 1) && shares * j == had + shares <= minted
    requires WorthOne(v.assets + 1 + amount, Supply(v, offset) + minted, shares, j)
    ensures Step(Vault(v.assets + amount - (j - 1), v.positions[who := minted - had]), Withdraw(who, shares), offset)
         == Vault(v.assets + amount - j, v.positions[who := minted - (had + shares)])
  {
    TotalUpdates(v.positions, who, minted - had);
    var u, op := Vault(v.assets + amount - (j - 1), v.positions[who := minted - had]), Withdraw(who, shares);
    PaysOne(v.assets + 1 + amount, Supply(v, offset) + minted, shares, j, had);
    assert Supply(u, offset) == Supply(v, offset) + minted - had;
    assert Paid(u, op, offset) == 1;
    hide Total, Pow10, Paid;
  }

  lemma PaysOne(a: nat, e: nat, shares: nat, j: nat, had: nat)
    requires WorthOne(a, e, shares, j) && j > 0 && had == shares * (j - 1) && shares * j == had + shares && had < e
    requires j <= a
    ensures shares * (a - (j - 1)) / (e - had) == 1
  {
    Distribute(a - (j - 1), j - 1, shares);
    var n := shares * (a - (j - 1));
    assert n == shares * a - had;
    Quotient(n, e - had, 1, n - (e - had));
  }

  /** The holder's part is then worth more than all there was before. */
  lemma EndsAhead(v: Vault, amount: nat, minted: nat, shares: nat, j: nat, offset: nat)
    requires |v.positions| >= 2 && v.positions[1] == 0 && amount > 0 && minted > 0 && shares > 0
    requires Minted(v, Deposit(1, amount), offset) == minted && minted == shares * j && j <= v.assets + amount
    requires WorthOne(v.assets + 1 + amount, Supply(v, offset) + minted, shares, j)
    requires v.positions[0] * (v.assets + 1 + amount - j) / Supply(v, offset) > v.assets
    ensures var w := Run(v, InAndOut(1, amount, shares, j), offset);
            |w.positions| >= 2 && ConvertToAssets(w.positions[0], w.assets, Total(w.positions), offset) > v.assets
  {
    hide Run, InAndOut, WorthOne, Minted;
    OneTokenEach(v, 1, amount, minted, shares, j, offset);
    var w := Run(v, InAndOut(1, amount, shares, j), offset);
    assert w == Vault(v.assets + amount - j, v.positions) && w.assets + 1 == v.assets + 1 + amount - j;
    hide Total, Pow10;
  }

  /** The deposit is for `n` times the assets there are and mints exactly `n` times the supply. */
  lemma ExactDeposit(a: nat, d: nat, n: nat)
    requires a > 0
    ensures a * n * d / a == d * n
  {
    Swapped(a, n, d);
    Quotient(a * n * d, a, d * n, 0);
  }

  /** A deposit of more than one token: from just above one token a share, withdrawals of single shares double the
      price. */
  lemma DoublesFromOne(d: nat, s: nat)
    requires d > 1 && 2 * s > d
    ensures var a, n := d + 1, d - 1;
            && a * n * d / a == d * n && d * n > 0 && a * n > 0 && d * n <= d + a * n
            && WorthOne(a + a * n, d + d * n, 1, d * n) && a + a * n - d * n == 2 * d && s * (2 * d) / d > d
  {
    var a, n := d + 1, d - 1;
    ExactDeposit(a, d, n);
    MulMonotone(1, n, d);
    Distribute(d, 1, n);
    Distribute(1, n, d);
    Swapped(s, 2, d);
    Quotient(s * (2 * d), d, 2 * s, 0);
  }

  /** A deposit of one token: from just above a third of a token a share, withdrawals of three shares double the
      price. */
  lemma DoublesFromAThird(y: nat)
    requires y > 0
    ensures var x, a := 3 * y + 1, 2 * y + 1; var d, n := 2 * x, 2 * x + 1;
            && a * n * d / a == d * n && d * n > 0 && a * n > 0 && d * n == 3 * (d * a) && d * a <= a - 1 + a * n
            && WorthOne(a + a * n, d + d * n, 3, d * a) && a + a * n - d * a == 2 * a && x * (2 * a) / d == a
  {
    var x, a := 3 * y + 1, 2 * y + 1;
    var d, n := 2 * x, 2 * x + 1;
    ExactDeposit(a, d, n);
    ThirdsAddUp(a, d, n);
    MulMonotone(1, n, d);
    MulMonotone(1, n, a);
    Quotient(x * (2 * a), d, a, 0);
  }

  lemma ThirdsAddUp(a: nat, d: nat, n: nat)
    requires a > 0 && n == 3 * a == d + 1
    ensures d * n == 3 * (d * a) && a * n == d * a + a
    ensures WorthOne(a + a * n, d + d * n, 3, d * a)
  {
    var aa, da := a * a, d * a;
    assert a * n == 3 * aa && d * n == 3 * da && da == 3 * aa - a;
  }

  lemma {:induction false} PowersOfTen(k: nat) returns (y: nat)
    ensures Pow10(k) == 3 * y + 1 && (k > 0 ==> y > 0)
  {
    y := 0;
    if k > 0 {
      y := PowersOfTen(k - 1);
      y := 10 * y + 3;
    }
  }

  lemma EndsAheadOf(holders: nat, first: nat, donation: nat, amount: nat, minted: nat, shares: nat, j: nat, offset: nat)
    requires holders >= 2 && first > 0 && amount > 0 && minted > 0 && shares > 0
    requires var d, a := first * Pow10(offset) + Pow10(offset), first + donation + 1;
             && amount * d / a == minted && minted == shares * j && j <= first + donation + amount
             && WorthOne(a + amount, d + minted, shares, j)
                 && first * Pow10(offset) * (a + amount - j) / d > first + donation
    ensures Redeemed(holders, first, donation, InAndOut(1, amount, shares, j), offset) > first + donation
  {
    var s := first * Pow10(offset);
    DepositAndDonate(holders, first, donation, offset);
    var v := Vault(first + donation, Zeros(holders)[0 := s]);
    assert Supply(v, offset) == s + Pow10(offset);
    hide WorthOne, Run, NetFlow, Redeemed, InAndOut, Pow10, Total;
    EndsAhead(v, amount, minted, shares, j, offset);
    RedeemedIs(holders, first, donation, InAndOut(1, amount, shares, j), offset);
  }

  /** However little was deposited first, some donation and one later deposit, withdrawn in small parts, leave the first
      depositor ahead. Only the single token deposited at offset 0 is set aside. */
  lemma OneLaterDepositIsEnough(holders: nat, first: nat, offset: nat) returns (donation: nat, later: seq<Op>)
    requires holders >= 2 && first > 0 && (first > 1 || offset > 0)
    ensures CallsByOthers(later, 0) && Deposits(later) == 1
    ensures Redeemed(holders, first, donation, later, offset) > first + donation
  {
    var x := Pow10(offset);
    var s := first * x;
    var d := s + x;
    if first > 1 {
      MulMonotone(2, first, x);
      MulMonotone(1, x, first);
      donation := d - first;
      hide Pow10, Redeemed, InAndOut, WorthOne;
      DoublesFromOne(d, s);
      var n := d - 1;
      EndsAheadOf(holders, first, donation, (d + 1) * n, d * n, 1, d * n, offset);
      later := InAndOut(1, (d + 1) * n, 1, d * n);
    } else {
      var y := PowersOfTen(offset);
      hide Pow10, Redeemed, InAndOut, WorthOne;
      DoublesFromAThird(y);
      var a, n := 2 * y + 1, d + 1;
      donation := a - 2;
      EndsAheadOf(holders, first, donation, a * n, d * n, 3, d * a, offset);
      later := InAndOut(1, a * n, 3, d * a);
    }
  }

  /** Not ahead after any donation and any calls by others with at most `k` deposits among them. */
  ghost predicate NeverAhead(holders: nat, first: nat, k: nat, offset: nat)
    requires holders > 0
  {
    forall donation: nat, later: seq<Op> | CallsByOthers(later, 0) && Deposits(later) <= k ::
      Redeemed(holders, first, donation, later, offset) <= first + donation
  }

  /** When others may withdraw as often as they like, only their staying away altogether is safe. */
  lemma NeverAheadExactlyWhen(holders: nat, first: nat, k: nat, offset: nat)
    requires holders >= 2 && first > 0 && (first > 1 || offset > 0)
    ensures NeverAhead(holders, first, k, offset) <==> k == 0
  {
    hide Redeemed;
    if k == 0 {
      forall donation: nat, later: seq<Op> | CallsByOthers(later, 0) && Deposits(later) <= k
        ensures Redeemed(holders, first, donation, later, offset) <= first + donation
      {
        AloneIsNotAhead(holders, first, donation, later, offset);
      }
    } else {
      var donation, later := OneLaterDepositIsEnough(holders, first, offset);
    }
  }

  lemma AloneIsNotAhead(holders: nat, first: nat, donation: nat, later: seq<Op>, offset: nat)
    requires holders > 0 && first > 0 && CallsByOthers(later, 0) && Deposits(later) == 0
    ensures Redeemed(holders, first, donation, later, offset) <= first + donation
  {
    var s := first * Pow10(offset);
    var v := Vault(first + donation, Zeros(holders)[0 := s]);
    DepositAndDonate(holders, first, donation, offset);
    RedeemedIs(holders, first, donation, later, offset);
    NothingToWithdraw(v, later, offset);
    hide Total, Pow10, Redeemed, Run;
    PartOfTheWhole(s, s + Pow10(offset), v.assets + 1);
  }

  lemma {:induction false} NothingToWithdraw(v: Vault, later: seq<Op>, offset: nat)
    requires CallsByOthers(later, 0) && Deposits(later) == 0 && forall i | 0 < i < |v.positions| :: v.positions[i] == 0
    ensures Run(v, later, offset) == v
  {
    if later != [] {
      var n := |later| - 1;
      assert later[n] in later && forall op | op in later[..n] :: op in later;
      NothingToWithdraw(v, later[..n], offset);
    }
  }

  function WithTen(assets: nat, others: nat): Vault {
    Vault(assets, [10, others])
  }

  /** One more withdrawal worth almost two tokens, at offset 1, where the first depositor holds ten shares. */
  lemma OneOut(v: Vault, ops: seq<Op>, a: nat, q: nat, w: nat) returns (all: seq<Op>)
    requires Run(v, ops, 1) == WithTen(a, q) && CallsByOthers(ops, 0)
    requires a > 0 && 0 < w <= q && q + 20 <= w * (a + 1) < 2 * (q + 20)
    ensures Run(v, all, 1) == WithTen(a - 1, q - w) && CallsByOthers(all, 0)
    ensures Deposits(all) == Deposits(ops) && Withdrawals(all) == Withdrawals(ops) + 1
  {
    all := ops + [Withdraw(1, w)];
    var u, op := Vault(a, [10, q]), Withdraw(1, w);
    RunOneMore(v, ops, op, 1);
    assert all[..|ops|] == ops;
    TwoHolders(10, q);
    OffsetOne();
    hide Run, Total;
    Quotient(w * (a + 1), q + 20, 1, w * (a + 1) - (q + 20));
    assert Paid(u, op, 1) == 1;
    assert u.positions[1 := q - w] == [10, q - w];
  }

  lemma TwoHolders(p: nat, q: nat)
    ensures Total([p, q]) == p + q
  {
    assert [p][..0] == [] && Total([p]) == p;
    assert [p, q][..1] == [p];
  }

  /** At offset 1, after one token deposited and one donated: one deposit of fifteen, eleven withdrawals for a token
      each, and the first depositor redeems three. The condition on deposits alone holds. */
  lemma ElevenWithdrawals() returns (later: seq<Op>)
    ensures CallsByOthers(later, 0) && Deposits(later) == 1 && Withdrawals(later) == 11
    ensures Redeemed(2, 1, 1, later, 1) == 3
  {
    var v := Vault(2, Zeros(2)[0 := 10]);
    later := JustFifteen(v);
    hide Run, Redeemed, Deposits, Withdrawals, CallsByOthers, Total, Pow10, Zeros, WithTen;
    later := OneOut(v, later, 17, 100, 10);
    later := OneOut(v, later, 16, 90, 10);
    later := OneOut(v, later, 15, 80, 10);
    later := OneOut(v, later, 14, 70, 10);
    later := OneOut(v, later, 13, 60, 10);
    later := OneOut(v, later, 12, 50, 10);
    later := OneOut(v, later, 11, 40, 9);
    later := OneOut(v, later, 10, 31, 9);
    later := OneOut(v, later, 9, 22, 8);
    later := OneOut(v, later, 8, 14, 7);
    later := OneOut(v, later, 7, 7, 6);
    RedeemedOf(v, later);
  }

  lemma JustFifteen(v: Vault) returns (ops: seq<Op>)
    requires v == Vault(2, Zeros(2)[0 := 10])
    ensures Run(v, ops, 1) == WithTen(17, 100) && CallsByOthers(ops, 0) && Deposits(ops) == 1 && Withdrawals(ops) == 0
  {
    OffsetOne();
    TwoHolders(10, 0);
    assert v.positions == [10, 0];
    hide Total, Pow10;
    assert Minted(v, Deposit(1, 15), 1) == 100;
    ops := InAndOut(1, 15, 1, 0);
    JustIn(v, 1, 15, 100, 1, 1);
    assert v.positions[1 := 100] == [10, 100];
  }

  lemma OffsetOne()
    ensures Pow10(1) == 10
  {
  }

  lemma RedeemedOf(v: Vault, later: seq<Op>)
    requires v == Vault(2, Zeros(2)[0 := 10]) && Run(v, later, 1) == WithTen(6, 1)
    ensures Redeemed(2, 1, 1, later, 1) == 3
  {
    OffsetOne();
    RedeemedIs(2, 1, 1, later, 1);
    TwoHolders(10, 1);
  }

  /** At the program's offset, after one token deposited and 665 donated: one deposit, 1,334,000 withdrawals of three
      shares, and the first depositor redeems 667. */
  lemma OneTokenAndOneLaterDeposit()
    ensures var later := InAndOut(1, 1_334_667, 3, 1_334_000);
            && CallsByOthers(later, 0) && Deposits(later) == 1 && Withdrawals(later) == 1_334_000
            && Redeemed(2, 1, 665, later, VIRTUAL_SHARES_OFFSET) > 666
  {
    OneThousand();
    DoublesFromAThird(333);
    hide Redeemed, InAndOut, Pow10, Deposits, Withdrawals, CallsByOthers;
    assert WorthOne(667 + 1_334_667, 2000 + 4_002_000, 3, 1_334_000);
    EndsAheadOf(2, 1, 665, 1_334_667, 4_002_000, 3, 1_334_000, VIRTUAL_SHARES_OFFSET);
  }
}
