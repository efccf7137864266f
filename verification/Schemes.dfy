/** The specialised recursion schemes. Folds recurse on the tree. Unfolds recurse on a
    seed, which need not stop; every unfold therefore takes, as ghost evidence, a bound
    on its own recursion. Layers have finitely many positions, so a bound exists for
    exactly the seeds on which the recursion stops. */
module Schemes {
  import opened Wrappers
  import opened Functors

  // ---------------------------------------------------------------------
  // Folds
  // ---------------------------------------------------------------------

  function Fold<E, R>(alg: RoseF<E, R> -> R, t: Fix<E>): R
    decreases t
  {
    alg(FMap((c: Fix<E>) requires t.out.Has(c) => Fold(alg, c), t.out))
  }

  /** A layer of trees folded at every position. */
  function Folded<E, R>(alg: RoseF<E, R> -> R, l: RoseF<E, Fix<E>>): RoseF<E, R> {
    FMap((c: Fix<E>) => Fold(alg, c), l)
  }

  lemma FoldStep<E, R>(alg: RoseF<E, R> -> R, t: Fix<E>)
    ensures Fold(alg, t) == alg(Folded(alg, t.out))
  {
    SameLayer(FMap((c: Fix<E>) requires t.out.Has(c) => Fold(alg, c), t.out), Folded(alg, t.out));
  }

  function Para<E, R>(alg: RoseF<E, (Fix<E>, R)> -> R, t: Fix<E>): R
    decreases t
  {
    alg(FMap((c: Fix<E>) requires t.out.Has(c) => (c, Para(alg, c)), t.out))
  }

  function Firsts<E, H, R>(l: RoseF<E, (H, R)>): RoseF<E, H> {
    FMap((p: (H, R)) => p.0, l)
  }

  function Seconds<E, H, R>(l: RoseF<E, (H, R)>): RoseF<E, R> {
    FMap((p: (H, R)) => p.1, l)
  }

  /** The paired algebra: helper value first, main value second. */
  function ZygoAlg<E, H, R>(helper: RoseF<E, H> -> H, main: RoseF<E, (H, R)> -> R): RoseF<E, (H, R)> -> (H, R) {
    (l: RoseF<E, (H, R)>) => (helper(Firsts(l)), main(l))
  }

  function Zygo<E, H, R>(helper: RoseF<E, H> -> H, main: RoseF<E, (H, R)> -> R, t: Fix<E>): R {
    Fold(ZygoAlg(helper, main), t).1
  }

  function HistoAlg<E, R>(alg: RoseF<E, Cofree<E, R>> -> R): RoseF<E, Cofree<E, R>> -> Cofree<E, R> {
    (l: RoseF<E, Cofree<E, R>>) => Cofree(alg(l), l)
  }

  /** The annotated tree a histomorphism builds. */
  function History<E, R>(alg: RoseF<E, Cofree<E, R>> -> R, t: Fix<E>): Cofree<E, R> {
    Fold(HistoAlg(alg), t)
  }

  function Histo<E, R>(alg: RoseF<E, Cofree<E, R>> -> R, t: Fix<E>): R {
    History(alg, t).head
  }

  /** Each child under the helper's own fold and the main result, independently. */
  function ZygoBelow<E, H, R>(
      helper: RoseF<E, H> -> H, main: RoseF<E, (H, R)> -> R, l: RoseF<E, Fix<E>>): RoseF<E, (H, R)>
  {
    FMap((c: Fix<E>) => (Fold(helper, c), Zygo(helper, main, c)), l)
  }

  /** The helper half of a zygomorphism is the helper's own fold, so the main algebra sees
      at each child the helper's fold of that child beside its own result for it. */
  lemma {:induction false} ZygoIsMutual<E, H, R>(helper: RoseF<E, H> -> H, main: RoseF<E, (H, R)> -> R, t: Fix<E>)
    ensures Fold(ZygoAlg(helper, main), t).0 == Fold(helper, t)
    ensures Zygo(helper, main, t) == main(ZygoBelow(helper, main, t.out))
    decreases t
  {
    var alg := ZygoAlg(helper, main);
    forall c | t.out.Has(c)
      ensures Fold(alg, c) == (Fold(helper, c), Zygo(helper, main, c))
    {
      ZygoIsMutual(helper, main, c);
    }
    SameLayer(Folded(alg, t.out), ZygoBelow(helper, main, t.out));
    SameLayer(Firsts(Folded(alg, t.out)), Folded(helper, t.out));
    FoldStep(alg, t);
    FoldStep(helper, t);
  }

  /** The history of a tree is its result on top of the histories of its children. */
  lemma HistoryStep<E, R>(alg: RoseF<E, Cofree<E, R>> -> R, t: Fix<E>)
    ensures History(alg, t) == Cofree(alg(Folded(HistoAlg(alg), t.out)), Folded(HistoAlg(alg), t.out))
  {
    FoldStep(HistoAlg(alg), t);
  }

  ghost predicate IsPath<E>(t: Fix<E>, path: seq<nat>)
    decreases path
  {
    path != [] ==> path[0] < |t.out.children| && IsPath(t.out.children[path[0]], path[1..])
  }

  ghost function SubtreeAt<E>(t: Fix<E>, path: seq<nat>): Fix<E>
    requires IsPath(t, path)
    decreases path
  {
    if path == [] then t else SubtreeAt(t.out.children[path[0]], path[1..])
  }

  ghost predicate CellAt<E, A>(c: Cofree<E, A>, path: seq<nat>, cell: Cofree<E, A>)
    decreases path
  {
    if path == [] then cell == c
    else path[0] < |c.tail.children| && CellAt(c.tail.children[path[0]], path[1..], cell)
  }

  /** However deep an algebra looks back, the cell it finds is the history of the subtree
      standing at that place, and its head is that subtree's result. */
  lemma {:induction false} HistoryHoldsEveryResult<E, R>(
      alg: RoseF<E, Cofree<E, R>> -> R, t: Fix<E>, path: seq<nat>)
    requires IsPath(t, path)
    ensures CellAt(History(alg, t), path, History(alg, SubtreeAt(t, path)))
    decreases path
  {
    HistoryStep(alg, t);
    if path != [] {
      HistoryHoldsEveryResult(alg, t.out.children[path[0]], path[1..]);
    }
  }

  // ---------------------------------------------------------------------
  // Unfolds
  // ---------------------------------------------------------------------

  /** Unfolding s stops within n levels. */
  ghost predicate Halts<E, S>(psi: S -> RoseF<E, S>, s: S, n: nat)
    decreases n
  {
    n > 0 && forall i | 0 <= i < |psi(s).children| :: Halts(psi, psi(s).children[i], n - 1)
  }

  function Unfold<E, S>(psi: S -> RoseF<E, S>, s: S, ghost n: nat): Fix<E>
    requires Halts(psi, s, n)
    decreases n
  {
    In(FMap((c: S) requires psi(s).Has(c) => Unfold(psi, c, n - 1), psi(s)))
  }

  function Refold<E, S, R>(alg: RoseF<E, R> -> R, psi: S -> RoseF<E, S>, s: S, ghost n: nat): R
    requires Halts(psi, s, n)
    decreases n
  {
    alg(FMap((c: S) requires psi(s).Has(c) => Refold(alg, psi, c, n - 1), psi(s)))
  }

  /** Evidence from a rank on seeds that drops at every child. */
  lemma {:induction false} RankHalts<E, S>(psi: S -> RoseF<E, S>, rank: S -> nat, s: S)
    requires forall x: S, i | 0 <= i < |psi(x).children| :: rank(psi(x).children[i]) < rank(x)
    ensures Halts(psi, s, rank(s) + 1)
    decreases rank(s)
  {
    forall i | 0 <= i < |psi(s).children|
      ensures Halts(psi, psi(s).children[i], rank(s))
    {
      RankHalts(psi, rank, psi(s).children[i]);
      HaltsMore(psi, psi(s).children[i], rank(psi(s).children[i]) + 1, rank(s));
    }
  }

  lemma {:induction false} HaltsMore<E, S>(psi: S -> RoseF<E, S>, s: S, n: nat, m: nat)
    requires Halts(psi, s, n) && n <= m
    ensures Halts(psi, s, m)
    decreases n
  {
    forall i | 0 <= i < |psi(s).children|
      ensures Halts(psi, psi(s).children[i], m - 1)
    {
      HaltsMore(psi, psi(s).children[i], n - 1, m - 1);
    }
  }

  // ---- the evidence exists exactly where the recursion stops -----------

  ghost predicate HasBound(within: nat -> bool) {
    exists n: nat :: within(n)
  }

  ghost predicate Upward(within: nat -> bool) {
    forall n: nat, m: nat | within(n) && n <= m :: within(m)
  }

  /** Finitely many bounds have a common one. */
  lemma {:induction false} CommonBound(withins: seq<nat -> bool>) returns (top: nat)
    requires forall i | 0 <= i < |withins| :: HasBound(withins[i]) && Upward(withins[i])
    ensures forall i | 0 <= i < |withins| :: withins[i](top)
    decreases withins
  {
    top := 0;
    if withins != [] {
      var rest := CommonBound(withins[1..]);
      var n: nat :| withins[0](n);
      top := if rest < n then n else rest;
      forall i | 0 <= i < |withins|
        ensures withins[i](top)
      {
        assert i > 0 ==> withins[i] == withins[1..][i - 1];
      }
    }
  }

  /** The recursion from s stops: it does from every child seed. */
  least predicate Stops<E, S>(psi: S -> RoseF<E, S>, s: S) {
    forall i | 0 <= i < |psi(s).children| :: Stops(psi, psi(s).children[i])
  }

  ghost function Within<E, S>(psi: S -> RoseF<E, S>, s: S): nat -> bool {
    (n: nat) => Halts(psi, s, n)
  }

  least lemma StopsWithin<E, S>(psi: S -> RoseF<E, S>, s: S)
    requires Stops(psi, s)
    ensures HasBound(Within(psi, s))
  {
    var kids := psi(s).children;
    forall i, n: nat, m: nat | 0 <= i < |kids| && Halts(psi, kids[i], n) && n <= m
      ensures Halts(psi, kids[i], m)
    {
      HaltsMore(psi, kids[i], n, m);
    }
    forall i | 0 <= i < |kids|
      ensures HasBound(Within(psi, kids[i]))
    {
      StopsWithin(psi, kids[i]);
    }
    var withins := seq(|kids|, i requires 0 <= i < |kids| => Within(psi, kids[i]));
    var top := CommonBound(withins);
    assert forall i | 0 <= i < |kids| :: withins[i] == Within(psi, kids[i]) && withins[i](top);
    assert Within(psi, s)(top + 1);
  }

  lemma {:induction false} WithinStops<E, S>(psi: S -> RoseF<E, S>, s: S, n: nat)
    requires Halts(psi, s, n)
    ensures Stops(psi, s)
    decreases n
  {
    forall i | 0 <= i < |psi(s).children|
      ensures Stops(psi, psi(s).children[i])
    {
      WithinStops(psi, psi(s).children[i], n - 1);
    }
  }

  /** A bound exists for exactly the seeds on which unfolding stops. */
  lemma StopsIffBound<E, S>(psi: S -> RoseF<E, S>, s: S)
    ensures Stops(psi, s) <==> exists n: nat :: Halts(psi, s, n)
  {
    if Stops(psi, s) {
      StopsWithin(psi, s);
      var n: nat :| Within(psi, s)(n);
      assert Halts(psi, s, n);
    }
    if n: nat :| Halts(psi, s, n) {
      WithinStops(psi, s, n);
    }
  }

  /** The fused refold is the fold of the unfolded tree, whatever evidence either is given. */
  lemma {:induction false} RefoldIsFoldAfterUnfold<E, S, R>(
      alg: RoseF<E, R> -> R, psi: S -> RoseF<E, S>, s: S, n: nat, m: nat)
    requires Halts(psi, s, n) && Halts(psi, s, m)
    ensures Refold(alg, psi, s, n) == Fold(alg, Unfold(psi, s, m))
    decreases n
  {
    var t := Unfold(psi, s, m);
    var fused := FMap((c: S) requires psi(s).Has(c) => Refold(alg, psi, c, n - 1), psi(s));
    var folded := FMap((c: Fix<E>) requires t.out.Has(c) => Fold(alg, c), t.out);
    forall i | 0 <= i < |psi(s).children|
      ensures fused.children[i] == folded.children[i]
    {
      RefoldIsFoldAfterUnfold(alg, psi, psi(s).children[i], n - 1, m - 1);
    }
    SameLayer(fused, folded);
  }

  /** The finished tree t answers psi layer by layer from s on. */
  ghost predicate Unfolds<E, S>(psi: S -> RoseF<E, S>, s: S, t: Fix<E>)
    decreases t
  {
    && t.out.lbl == psi(s).lbl
    && |t.out.children| == |psi(s).children|
    && forall i | 0 <= i < |t.out.children| :: Unfolds(psi, psi(s).children[i], t.out.children[i])
  }

  /** A finished tree bounds the recursion, so the unfold stops. */
  lemma {:induction false} UnfoldsHalts<E, S>(psi: S -> RoseF<E, S>, s: S, t: Fix<E>)
    requires Unfolds(psi, s, t)
    ensures Halts(psi, s, Height(t))
    decreases t
  {
    forall i | 0 <= i < |psi(s).children|
      ensures Halts(psi, psi(s).children[i], Height(t) - 1)
    {
      UnfoldsHalts(psi, psi(s).children[i], t.out.children[i]);
      HaltsMore(psi, psi(s).children[i], Height(t.out.children[i]), Height(t) - 1);
    }
  }

  lemma {:induction false} AnswerIsUnique<E, S>(psi: S -> RoseF<E, S>, s: S, t: Fix<E>, u: Fix<E>)
    requires Unfolds(psi, s, t) && Unfolds(psi, s, u)
    ensures t == u
    decreases t
  {
    forall i | 0 <= i < |t.out.children|
      ensures t.out.children[i] == u.out.children[i]
    {
      AnswerIsUnique(psi, psi(s).children[i], t.out.children[i], u.out.children[i]);
    }
    SameLayer(t.out, u.out);
  }

  lemma {:induction false} UnfoldAnswers<E, S>(psi: S -> RoseF<E, S>, s: S, n: nat)
    requires Halts(psi, s, n)
    ensures Unfolds(psi, s, Unfold(psi, s, n))
    decreases n
  {
    forall i | 0 <= i < |psi(s).children|
      ensures Unfolds(psi, psi(s).children[i], Unfold(psi, s, n).out.children[i])
    {
      UnfoldAnswers(psi, psi(s).children[i], n - 1);
    }
  }

  /** Unfolding is unique: a tree that answers psi everywhere is the unfolded tree. */
  lemma UnfoldIsUnique<E, S>(psi: S -> RoseF<E, S>, s: S, t: Fix<E>, n: nat)
    requires Unfolds(psi, s, t) && Halts(psi, s, n)
    ensures Unfold(psi, s, n) == t
  {
    UnfoldAnswers(psi, s, n);
    AnswerIsUnique(psi, s, Unfold(psi, s, n), t);
  }

  /** The bounds that work are exactly those from the height of the finished tree up. */
  lemma {:induction false} HaltsIffHeight<E, S>(psi: S -> RoseF<E, S>, s: S, n: nat, m: nat)
    requires Halts(psi, s, n)
    ensures Halts(psi, s, m) <==> Height(Unfold(psi, s, n)) <= m
    decreases n, m
  {
    var t := Unfold(psi, s, n);
    var heights := FMap((c: Fix<E>) requires t.out.Has(c) => Height(c), t.out).children;
    if m > 0 {
      forall i | 0 <= i < |psi(s).children|
        ensures Halts(psi, psi(s).children[i], m - 1) <==> heights[i] <= m - 1
      {
        HaltsIffHeight(psi, psi(s).children[i], n - 1, m - 1);
      }
      if heights != [] {
        var i :| 0 <= i < |heights| && heights[i] == MaxOf(heights);
        assert Halts(psi, s, m) ==> Halts(psi, psi(s).children[i], m - 1);
      }
    }
  }

  // ---------------------------------------------------------------------
  // Apo: a child is a finished subtree or a seed
  // ---------------------------------------------------------------------

  ghost predicate ApoHalts<E, S>(psi: S -> RoseF<E, Either<Fix<E>, S>>, s: S, n: nat)
    decreases n
  {
    n > 0 && forall i | 0 <= i < |psi(s).children| && psi(s).children[i].Right? ::
               ApoHalts(psi, psi(s).children[i].right, n - 1)
  }

  function Apo<E, S>(psi: S -> RoseF<E, Either<Fix<E>, S>>, s: S, ghost n: nat): Fix<E>
    requires ApoHalts(psi, s, n)
    decreases n
  {
    In(FMap((c: Either<Fix<E>, S>) requires psi(s).Has(c) =>
              match c case Left(t) => t case Right(x) => Apo(psi, x, n - 1),
            psi(s)))
  }

  lemma {:induction false} ApoHaltsMore<E, S>(psi: S -> RoseF<E, Either<Fix<E>, S>>, s: S, n: nat, m: nat)
    requires ApoHalts(psi, s, n) && n <= m
    ensures ApoHalts(psi, s, m)
    decreases n
  {
    forall i | 0 <= i < |psi(s).children| && psi(s).children[i].Right?
      ensures ApoHalts(psi, psi(s).children[i].right, m - 1)
    {
      ApoHaltsMore(psi, psi(s).children[i].right, n - 1, m - 1);
    }
  }

  least predicate ApoStops<E, S>(psi: S -> RoseF<E, Either<Fix<E>, S>>, s: S) {
    forall i | 0 <= i < |psi(s).children| && psi(s).children[i].Right? :: ApoStops(psi, psi(s).children[i].right)
  }

  /** A finished subtree needs no bound. */
  ghost function ApoWithin<E, S>(psi: S -> RoseF<E, Either<Fix<E>, S>>, c: Either<Fix<E>, S>): nat -> bool {
    (n: nat) => c.Right? ==> ApoHalts(psi, c.right, n)
  }

  least lemma ApoStopsWithin<E, S>(psi: S -> RoseF<E, Either<Fix<E>, S>>, s: S)
    requires ApoStops(psi, s)
    ensures HasBound(ApoWithin(psi, Right(s)))
  {
    var kids := psi(s).children;
    forall i, n: nat, m: nat | 0 <= i < |kids| && ApoWithin(psi, kids[i])(n) && n <= m
      ensures ApoWithin(psi, kids[i])(m)
    {
      if kids[i].Right? {
        ApoHaltsMore(psi, kids[i].right, n, m);
      }
    }
    forall i | 0 <= i < |kids|
      ensures HasBound(ApoWithin(psi, kids[i]))
    {
      if kids[i].Right? {
        ApoStopsWithin(psi, kids[i].right);
        assert kids[i] == Right(kids[i].right);
      } else {
        assert ApoWithin(psi, kids[i])(0);
      }
    }
    var withins := seq(|kids|, i requires 0 <= i < |kids| => ApoWithin(psi, kids[i]));
    var top := CommonBound(withins);
    assert forall i | 0 <= i < |kids| :: withins[i] == ApoWithin(psi, kids[i]) && withins[i](top);
    assert ApoWithin(psi, Right(s))(top + 1);
  }

  lemma {:induction false} ApoWithinStops<E, S>(psi: S -> RoseF<E, Either<Fix<E>, S>>, s: S, n: nat)
    requires ApoHalts(psi, s, n)
    ensures ApoStops(psi, s)
    decreases n
  {
    forall i | 0 <= i < |psi(s).children| && psi(s).children[i].Right?
      ensures ApoStops(psi, psi(s).children[i].right)
    {
      ApoWithinStops(psi, psi(s).children[i].right, n - 1);
    }
  }

  lemma ApoStopsIffBound<E, S>(psi: S -> RoseF<E, Either<Fix<E>, S>>, s: S)
    ensures ApoStops(psi, s) <==> exists n: nat :: ApoHalts(psi, s, n)
  {
    if ApoStops(psi, s) {
      ApoStopsWithin(psi, s);
      var n: nat :| ApoWithin(psi, Right(s))(n);
      assert ApoHalts(psi, s, n);
    }
    if n: nat :| ApoHalts(psi, s, n) {
      ApoWithinStops(psi, s, n);
    }
  }

  // ---------------------------------------------------------------------
  // Futu: a child is a whole chunk of layers with seeds at its leaves
  // ---------------------------------------------------------------------

  /** Every seed of the chunk stops within n expansions. */
  ghost predicate ChunkHalts<E, S>(psi: S -> RoseF<E, Free<E, S>>, c: Free<E, S>, n: nat)
    decreases n, c
  {
    match c
    case Pure(s) => n > 0 && forall i | 0 <= i < |psi(s).children| :: ChunkHalts(psi, psi(s).children[i], n - 1)
    case Roll(l) => forall i | 0 <= i < |l.children| :: ChunkHalts(psi, l.children[i], n)
  }

  function Futu<E, S>(psi: S -> RoseF<E, Free<E, S>>, s: S, ghost n: nat): Fix<E>
    requires ChunkHalts(psi, Pure(s), n)
    decreases n, Free<E, S>.Pure(s), 0
  {
    In(FMap((c: Free<E, S>) requires psi(s).Has(c) => FutuWorker(psi, c, n - 1), psi(s)))
  }

  function FutuWorker<E, S>(psi: S -> RoseF<E, Free<E, S>>, c: Free<E, S>, ghost n: nat): Fix<E>
    requires ChunkHalts(psi, c, n)
    decreases n, c, 1
  {
    match c
    case Pure(s) => Futu(psi, s, n)
    case Roll(l) => In(FMap((k: Free<E, S>) requires l.Has(k) => FutuWorker(psi, k, n), l))
  }

  /** The tree does not depend on the evidence. */
  lemma FutuEvidence<E, S>(psi: S -> RoseF<E, Free<E, S>>, c: Free<E, S>, n: nat, m: nat)
    requires ChunkHalts(psi, c, n) && ChunkHalts(psi, c, m)
    ensures FutuWorker(psi, c, n) == FutuWorker(psi, c, m)
  {
    UnrollIsFutu(psi, c, n);
    UnrollIsFutu(psi, c, m);
    AnswerIsUnique(Unroll(psi), c, FutuWorker(psi, c, n), FutuWorker(psi, c, m));
  }

  lemma {:induction false} ChunkHaltsMore<E, S>(
      psi: S -> RoseF<E, Free<E, S>>, c: Free<E, S>, n: nat, m: nat)
    requires ChunkHalts(psi, c, n) && n <= m
    ensures ChunkHalts(psi, c, m)
    decreases n, c
  {
    match c
    case Pure(s) =>
      forall i | 0 <= i < |psi(s).children|
        ensures ChunkHalts(psi, psi(s).children[i], m - 1)
      {
        ChunkHaltsMore(psi, psi(s).children[i], n - 1, m - 1);
      }
    case Roll(l) =>
      forall i | 0 <= i < |l.children|
        ensures ChunkHalts(psi, l.children[i], m)
      {
        ChunkHaltsMore(psi, l.children[i], n, m);
      }
  }

  /** The seeds or chunks one step of futu's worker leaves to do. */
  function Below<E, S>(psi: S -> RoseF<E, Free<E, S>>, c: Free<E, S>): seq<Free<E, S>> {
    match c case Pure(s) => psi(s).children case Roll(l) => l.children
  }

  least predicate ChunkStops<E, S>(psi: S -> RoseF<E, Free<E, S>>, c: Free<E, S>) {
    forall i | 0 <= i < |Below(psi, c)| :: ChunkStops(psi, Below(psi, c)[i])
  }

  ghost function ChunkWithin<E, S>(psi: S -> RoseF<E, Free<E, S>>, c: Free<E, S>): nat -> bool {
    (n: nat) => ChunkHalts(psi, c, n)
  }

  least lemma ChunkStopsWithin<E, S>(psi: S -> RoseF<E, Free<E, S>>, c: Free<E, S>)
    requires ChunkStops(psi, c)
    ensures HasBound(ChunkWithin(psi, c))
  {
    var kids := Below(psi, c);
    forall i, n: nat, m: nat | 0 <= i < |kids| && ChunkHalts(psi, kids[i], n) && n <= m
      ensures ChunkHalts(psi, kids[i], m)
    {
      ChunkHaltsMore(psi, kids[i], n, m);
    }
    forall i | 0 <= i < |kids|
      ensures HasBound(ChunkWithin(psi, kids[i]))
    {
      ChunkStopsWithin(psi, kids[i]);
    }
    var withins := seq(|kids|, i requires 0 <= i < |kids| => ChunkWithin(psi, kids[i]));
    var top := CommonBound(withins);
    assert forall i | 0 <= i < |kids| :: withins[i] == ChunkWithin(psi, kids[i]) && withins[i](top);
    assert ChunkWithin(psi, c)(if c.Pure? then top + 1 else top);
  }

  lemma {:induction false} ChunkWithinStops<E, S>(psi: S -> RoseF<E, Free<E, S>>, c: Free<E, S>, n: nat)
    requires ChunkHalts(psi, c, n)
    ensures ChunkStops(psi, c)
    decreases n, c
  {
    var kids := Below(psi, c);
    forall i | 0 <= i < |kids|
      ensures ChunkStops(psi, kids[i])
    {
      ChunkWithinStops(psi, kids[i], if c.Pure? then n - 1 else n);
    }
  }

  lemma ChunkStopsIffBound<E, S>(psi: S -> RoseF<E, Free<E, S>>, c: Free<E, S>)
    ensures ChunkStops(psi, c) <==> exists n: nat :: ChunkHalts(psi, c, n)
  {
    if ChunkStops(psi, c) {
      ChunkStopsWithin(psi, c);
      var n: nat :| ChunkWithin(psi, c)(n);
      assert ChunkHalts(psi, c, n);
    }
    if n: nat :| ChunkHalts(psi, c, n) {
      ChunkWithinStops(psi, c, n);
    }
  }

  // ---------------------------------------------------------------------
  // The fused refolds
  // ---------------------------------------------------------------------

  /** One layer off a chunk: a seed is expanded, a built layer is handed back. */
  function Unroll<E, S>(psi: S -> RoseF<E, Free<E, S>>): Free<E, S> -> RoseF<E, Free<E, S>> {
    (c: Free<E, S>) => match c case Pure(s) => psi(s) case Roll(l) => l
  }

  function Dyna<E, S, R>(alg: RoseF<E, Cofree<E, R>> -> R, psi: S -> RoseF<E, S>, s: S, ghost n: nat): R
    requires Halts(psi, s, n)
  {
    Refold(HistoAlg(alg), psi, s, n).head
  }

  function Codyna<E, S, R>(alg: RoseF<E, R> -> R, psi: S -> RoseF<E, Free<E, S>>, s: S, ghost n: nat): R
    requires Halts(Unroll(psi), Pure(s), n)
  {
    Refold(alg, Unroll(psi), Pure(s), n)
  }

  function Chrono<E, S, R>(
      alg: RoseF<E, Cofree<E, R>> -> R, psi: S -> RoseF<E, Free<E, S>>, s: S, ghost n: nat): R
    requires Halts(Unroll(psi), Pure(s), n)
  {
    Refold(HistoAlg(alg), Unroll(psi), Pure(s), n).head
  }

  /** Dyna is the histomorphism of the unfolded tree. */
  lemma DynaIsHistoAfterUnfold<E, S, R>(
      alg: RoseF<E, Cofree<E, R>> -> R, psi: S -> RoseF<E, S>, s: S, n: nat)
    requires Halts(psi, s, n)
    ensures Dyna(alg, psi, s, n) == Histo(alg, Unfold(psi, s, n))
  {
    RefoldIsFoldAfterUnfold(HistoAlg(alg), psi, s, n, n);
  }

  /** Peeling a chunk layer by layer builds the tree futu builds from it. */
  lemma {:induction false} UnrollIsFutu<E, S>(psi: S -> RoseF<E, Free<E, S>>, c: Free<E, S>, n: nat)
    requires ChunkHalts(psi, c, n)
    ensures Unfolds(Unroll(psi), c, FutuWorker(psi, c, n))
    decreases n, c
  {
    match c
    case Pure(s) =>
      assert FutuWorker(psi, c, n) == Futu(psi, s, n);
      forall i | 0 <= i < |psi(s).children|
        ensures Unfolds(Unroll(psi), psi(s).children[i], Futu(psi, s, n).out.children[i])
      {
        UnrollIsFutu(psi, psi(s).children[i], n - 1);
      }
    case Roll(l) =>
      forall i | 0 <= i < |l.children|
        ensures Unfolds(Unroll(psi), l.children[i], FutuWorker(psi, c, n).out.children[i])
      {
        UnrollIsFutu(psi, l.children[i], n);
      }
  }

  /** Codyna and chrono are the fold and the histomorphism of futu's tree. */
  lemma ChronoIsHistoAfterFutu<E, S, R, Q>(
      alg: RoseF<E, R> -> R, halg: RoseF<E, Cofree<E, Q>> -> Q, psi: S -> RoseF<E, Free<E, S>>, s: S, n: nat, m: nat)
    requires ChunkHalts(psi, Pure(s), n) && Halts(Unroll(psi), Pure(s), m)
    ensures Codyna(alg, psi, s, m) == Fold(alg, Futu(psi, s, n))
    ensures Chrono(halg, psi, s, m) == Histo(halg, Futu(psi, s, n))
  {
    UnrollIsFutu(psi, Pure(s), n);
    UnfoldIsUnique(Unroll(psi), Pure(s), FutuWorker(psi, Pure(s), n), m);
    RefoldIsFoldAfterUnfold(alg, Unroll(psi), Pure(s), m, m);
    RefoldIsFoldAfterUnfold(HistoAlg(halg), Unroll(psi), Pure(s), m, m);
  }

  /** Peeling stops on the chunks futu stops on, and on no others. */
  lemma {:induction false} UnrollHaltsOnlyIfFutu<E, S>(
      psi: S -> RoseF<E, Free<E, S>>, c: Free<E, S>, n: nat)
    requires Halts(Unroll(psi), c, n)
    ensures ChunkHalts(psi, c, n)
    decreases n, c
  {
    var l := Unroll(psi)(c);
    forall i | 0 <= i < |l.children|
      ensures ChunkHalts(psi, l.children[i], n - 1) && ChunkHalts(psi, l.children[i], n)
    {
      UnrollHaltsOnlyIfFutu(psi, l.children[i], n - 1);
      ChunkHaltsMore(psi, l.children[i], n - 1, n);
    }
  }
}
