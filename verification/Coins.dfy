/** Optimal change for coins 1, 4 and 5, as a histomorphism on unary numbers. */
module Coins {
  import opened Wrappers
  import opened Functors
  import opened Schemes

  /** Unary numbers: zero has no position, a successor has one. */
  datatype NatF = Zero | Succ

  type Nat = Fix<NatF>

  type CoinHistory = Cofree<NatF, int>

  function NatCoalg(): int -> RoseF<NatF, int> {
    (m: int) => if m <= 0 then RoseF(Zero, []) else RoseF(Succ, [m - 1])
  }

  /** An amount below zero counts as zero. */
  function Amount(n: int): nat { if n < 0 then 0 else n }

  lemma NatHalts(n: int)
    ensures Halts(NatCoalg(), n, Amount(n) + 1)
  {
    RankHalts(NatCoalg(), (m: int) => Amount(m), n);
  }

  function NatFromInt(n: int): Nat {
    NatHalts(n);
    Unfold(NatCoalg(), n, Amount(n) + 1)
  }

  /** The annotation some steps further back, or None past the front. */
  function LookBack(c: CoinHistory, steps: nat): Option<int>
    decreases steps
  {
    if steps == 0 then Some(c.head)
    else if c.tail.children == [] then None
    else LookBack(c.tail.children[0], steps - 1)
  }

  /** One coin on top of the best of the histories 1, 4 and 5 back, where they exist. */
  function OneMore(m1: int, m4: Option<int>, m5: Option<int>): int {
    var best := if m4.Some? && m4.value < m1 then m4.value else m1;
    var best := if m5.Some? && m5.value < best then m5.value else best;
    best + 1
  }

  function Step(l: RoseF<NatF, CoinHistory>, back4: nat, back5: nat): int {
    if l.children == [] then 0
    else OneMore(l.children[0].head, LookBack(l.children[0], back4), LookBack(l.children[0], back5))
  }

  function CoinAlg(back4: nat, back5: nat): RoseF<NatF, CoinHistory> -> int {
    (l: RoseF<NatF, CoinHistory>) => Step(l, back4, back5)
  }

  /** From the number below, three further steps for coin 4 and four for coin 5. */
  function MinCoinsAlg(): RoseF<NatF, CoinHistory> -> int {
    CoinAlg(3, 4)
  }

  /** The algebra's body, updating its running best. */
  method MinCoinsStep(l: RoseF<NatF, CoinHistory>) returns (coins: int)
    ensures coins == Step(l, 3, 4)
  {
    if l.children == [] {
      return 0;
    }
    var pred := l.children[0];
    var best := pred.head;
    var m4 := LookBack(pred, 3);
    if m4.Some? && m4.value < best {
      best := m4.value;
    }
    var m5 := LookBack(pred, 4);
    if m5.Some? && m5.value < best {
      best := m5.value;
    }
    coins := best + 1;
  }

  function MinCoins(n: int): int {
    Histo(MinCoinsAlg(), NatFromInt(n))
  }

  // ---------------------------------------------------------------------
  // Optimality
  // ---------------------------------------------------------------------

  /** The chain of n successors. */
  function Chain(n: nat): Nat {
    if n == 0 then In(RoseF(Zero, [])) else In(RoseF(Succ, [Chain(n - 1)]))
  }

  lemma NatFromIntIsChain(n: int)
    ensures NatFromInt(n) == Chain(Amount(n))
  {
    NatHalts(n);
    ChainAnswers(Amount(n));
    assert n < 0 ==> Unfolds(NatCoalg(), n, Chain(0));
    UnfoldIsUnique(NatCoalg(), n, Chain(Amount(n)), Amount(n) + 1);
  }

  lemma {:induction false} ChainAnswers(n: nat)
    ensures Unfolds(NatCoalg(), n, Chain(n))
    decreases n
  {
    if n > 0 {
      ChainAnswers(n - 1);
    }
  }

  /** Looking back reaches the result for n - steps exactly when there is such a number. */
  lemma {:induction false} LookBackReaches(alg: RoseF<NatF, CoinHistory> -> int, n: nat, steps: nat)
    ensures LookBack(History(alg, Chain(n)), steps)
         == if steps <= n then Some(Histo(alg, Chain(n - steps))) else None
    decreases steps
  {
    HistoryStep(alg, Chain(n));
    if steps > 0 && n > 0 {
      LookBackReaches(alg, n - 1, steps - 1);
    }
  }

  function Best(back4: nat, back5: nat): nat -> int {
    (n: nat) => Histo(CoinAlg(back4, back5), Chain(n))
  }

  /** The recurrence of the result: zero for zero, else one coin on top of what is left of it. */
  ghost predicate Change(best: nat -> int, back4: nat, back5: nat, n: nat) {
    best(n) == if n == 0 then 0
               else OneMore(best(n - 1),
                            if back4 <= n - 1 then Some(best(n - 1 - back4)) else None,
                            if back5 <= n - 1 then Some(best(n - 1 - back5)) else None)
  }

  lemma BestIsChange(back4: nat, back5: nat, n: nat)
    ensures Change(Best(back4, back5), back4, back5, n)
  {
    var alg := CoinAlg(back4, back5);
    HistoryStep(alg, Chain(n));
    var l := Folded(HistoAlg(alg), Chain(n).out);
    assert Best(back4, back5)(n) == Step(l, back4, back5);
    if n > 0 {
      var below := History(alg, Chain(n - 1));
      assert l.children == [below];
      LookBackReaches(alg, n - 1, back4);
      LookBackReaches(alg, n - 1, back5);
      assert Step(l, back4, back5) == OneMore(below.head, LookBack(below, back4), LookBack(below, back5));
    }
  }

  ghost predicate Pays(n: nat, a: nat, b: nat, c: nat) { a + 4 * b + 5 * c == n }

  lemma {:induction false} NothingSmaller(best: nat -> int, n: nat, a: nat, b: nat, c: nat)
    requires forall k: nat :: Change(best, 3, 4, k)
    requires Pays(n, a, b, c)
    ensures best(n) <= a + b + c
    decreases n
  {
    assert Change(best, 3, 4, n);
    if a > 0 {
      NothingSmaller(best, n - 1, a - 1, b, c);
    } else if b > 0 {
      NothingSmaller(best, n - 4, a, b - 1, c);
    } else if c > 0 {
      NothingSmaller(best, n - 5, a, b, c - 1);
    }
  }

  lemma {:induction false} Reached(best: nat -> int, n: nat) returns (a: nat, b: nat, c: nat)
    requires forall k: nat :: Change(best, 3, 4, k)
    ensures Pays(n, a, b, c) && best(n) == a + b + c
    decreases n
  {
    assert Change(best, 3, 4, n);
    a, b, c := 0, 0, 0;
    if n >= 5 && best(n) == 1 + best(n - 5) {
      a, b, c := Reached(best, n - 5);
      c := c + 1;
    } else if n >= 4 && best(n) == 1 + best(n - 4) {
      a, b, c := Reached(best, n - 4);
      b := b + 1;
    } else if n >= 1 {
      a, b, c := Reached(best, n - 1);
      a := a + 1;
    }
  }

  /** For every amount the result is the least number of coins that pays it. */
  lemma MinCoinsOptimal(n: int)
    ensures exists a: nat, b: nat, c: nat :: Pays(Amount(n), a, b, c) && MinCoins(n) == a + b + c
    ensures forall a: nat, b: nat, c: nat | Pays(Amount(n), a, b, c) :: MinCoins(n) <= a + b + c
  {
    var best := Best(3, 4);
    NatFromIntIsChain(n);
    forall k: nat
      ensures Change(best, 3, 4, k)
    {
      BestIsChange(3, 4, k);
    }
    assert MinCoins(n) == best(Amount(n));
    var a, b, c := Reached(best, Amount(n));
    forall a: nat, b: nat, c: nat | Pays(Amount(n), a, b, c)
      ensures MinCoins(n) <= a + b + c
    {
      NothingSmaller(best, Amount(n), a, b, c);
    }
  }

  /** The same algebra in the fused refold gives the same number. */
  lemma DynaAgrees(n: int)
    ensures Halts(NatCoalg(), n, Amount(n) + 1)
    ensures Dyna(MinCoinsAlg(), NatCoalg(), n, Amount(n) + 1) == MinCoins(n)
  {
    NatHalts(n);
    DynaIsHistoAfterUnfold(MinCoinsAlg(), NatCoalg(), n, Amount(n) + 1);
  }
}
