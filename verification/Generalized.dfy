/** One comonadic fold worker and one monadic unfold worker, each given its effect and its
    distributive law as values, and the proofs that they recover every specialised scheme. */
module Generalized {
  import opened Wrappers
  import opened Functors
  import opened Schemes
  import opened DistLaws

  // ---------------------------------------------------------------------
  // The comonadic fold
  // ---------------------------------------------------------------------

  /** A comonad at the types one fold uses it at: WR is w of a result, WWR is w of w of a
      result, and C is w of a layer of w of results. */
  datatype ComonadAt<!E, !R, !WR, !WWR, !C> = ComonadAt(
    extract: C -> RoseF<E, WR>,
    fmap: (RoseF<E, WR> -> R, C) -> WR,
    duplicate: WR -> WWR)

  function GcataWorker<E, R, WR, WWR, C>(
      w: ComonadAt<E, R, WR, WWR, C>, dist: RoseF<E, WWR> -> C, alg: RoseF<E, WR> -> R, t: Fix<E>): C
    decreases t
  {
    dist(FMap((c: Fix<E>) requires t.out.Has(c) =>
                w.duplicate(w.fmap(alg, GcataWorker(w, dist, alg, c))),
              t.out))
  }

  function Gcata<E, R, WR, WWR, C>(
      w: ComonadAt<E, R, WR, WWR, C>, dist: RoseF<E, WWR> -> C, alg: RoseF<E, WR> -> R, t: Fix<E>): R
  {
    alg(w.extract(GcataWorker(w, dist, alg, t)))
  }

  /** The layer the worker hands to the distributive law. */
  function GcataBelow<E, R, WR, WWR, C>(
      w: ComonadAt<E, R, WR, WWR, C>, dist: RoseF<E, WWR> -> C, alg: RoseF<E, WR> -> R,
      l: RoseF<E, Fix<E>>): RoseF<E, WWR>
  {
    FMap((c: Fix<E>) => w.duplicate(w.fmap(alg, GcataWorker(w, dist, alg, c))), l)
  }

  lemma GcataStep<E, R, WR, WWR, C>(
      w: ComonadAt<E, R, WR, WWR, C>, dist: RoseF<E, WWR> -> C, alg: RoseF<E, WR> -> R, t: Fix<E>)
    ensures GcataWorker(w, dist, alg, t) == dist(GcataBelow(w, dist, alg, t.out))
  {
    SameLayer(FMap((c: Fix<E>) requires t.out.Has(c) =>
                     w.duplicate(w.fmap(alg, GcataWorker(w, dist, alg, c))),
                   t.out),
              GcataBelow(w, dist, alg, t.out));
  }

  function IdentityComonad<E, R>()
    : ComonadAt<E, R, Identity<R>, Identity<Identity<R>>, Identity<RoseF<E, Identity<R>>>>
  {
    ComonadAt((c: Identity<RoseF<E, Identity<R>>>) => c.value,
              (f: RoseF<E, Identity<R>> -> R, c: Identity<RoseF<E, Identity<R>>>) => Identity(f(c.value)),
              (i: Identity<R>) => Identity(i))
  }

  /** The environment comonad: the first slot rides along. */
  function PairComonad<E, H, R>(): ComonadAt<E, R, (H, R), (H, (H, R)), (H, RoseF<E, (H, R)>)> {
    ComonadAt((c: (H, RoseF<E, (H, R)>)) => c.1,
              (f: RoseF<E, (H, R)> -> R, c: (H, RoseF<E, (H, R)>)) => (c.0, f(c.1)),
              (p: (H, R)) => (p.0, p))
  }

  function CofreeComonad<E, R>()
    : ComonadAt<E, R, Cofree<E, R>, Cofree<E, Cofree<E, R>>, Cofree<E, RoseF<E, Cofree<E, R>>>>
  {
    ComonadAt((c: Cofree<E, RoseF<E, Cofree<E, R>>>) => c.head,
              (f: RoseF<E, Cofree<E, R>> -> R, c: Cofree<E, RoseF<E, Cofree<E, R>>>) => CofreeMap(f, c),
              (c: Cofree<E, R>) => Duplicate(c))
  }

  /** A plain algebra, read through the identity wrapper. */
  function LiftAlg<E, R>(alg: RoseF<E, R> -> R): RoseF<E, Identity<R>> -> R {
    (l: RoseF<E, Identity<R>>) => alg(FMap((i: Identity<R>) => i.value, l))
  }

  function CataDist<E, R>(): RoseF<E, Identity<Identity<R>>> -> Identity<RoseF<E, Identity<R>>> {
    (l: RoseF<E, Identity<Identity<R>>>) => DistCata(l)
  }

  function ZygoDist<E, H, R>(helper: RoseF<E, H> -> H): RoseF<E, (H, (H, R))> -> (H, RoseF<E, (H, R)>) {
    (l: RoseF<E, (H, (H, R))>) => DistZygo(helper, l)
  }

  function ParaDist<E, R>(): RoseF<E, (Fix<E>, (Fix<E>, R))> -> (Fix<E>, RoseF<E, (Fix<E>, R)>) {
    (l: RoseF<E, (Fix<E>, (Fix<E>, R))>) => DistPara(l)
  }

  function HistoDist<E, R>(): RoseF<E, Cofree<E, Cofree<E, R>>> -> Cofree<E, RoseF<E, Cofree<E, R>>> {
    (l: RoseF<E, Cofree<E, Cofree<E, R>>>) => DistHisto(l)
  }

  function CataViaGcata<E, R>(alg: RoseF<E, R> -> R, t: Fix<E>): R {
    Gcata(IdentityComonad(), CataDist(), LiftAlg(alg), t)
  }

  function ZygoViaGcata<E, H, R>(helper: RoseF<E, H> -> H, main: RoseF<E, (H, R)> -> R, t: Fix<E>): R {
    Gcata(PairComonad(), ZygoDist(helper), main, t)
  }

  function ParaViaGcata<E, R>(alg: RoseF<E, (Fix<E>, R)> -> R, t: Fix<E>): R {
    Gcata(PairComonad(), ParaDist(), alg, t)
  }

  function HistoViaGcata<E, R>(alg: RoseF<E, Cofree<E, R>> -> R, t: Fix<E>): R {
    Gcata(CofreeComonad(), HistoDist(), alg, t)
  }

  lemma {:induction false} CataViaGcataIsFold<E, R>(alg: RoseF<E, R> -> R, t: Fix<E>)
    ensures CataViaGcata(alg, t) == Fold(alg, t)
    decreases t
  {
    var c := GcataWorker(IdentityComonad(), CataDist(), LiftAlg(alg), t);
    forall i | 0 <= i < |t.out.children|
      ensures c.value.children[i] == Identity(Fold(alg, t.out.children[i]))
    {
      CataViaGcataIsFold(alg, t.out.children[i]);
    }
    SameLayer(FMap((i: Identity<R>) => i.value, c.value), Folded(alg, t.out));
    FoldStep(alg, t);
  }

  /** The worker carries the helper's fold in its first slot. */
  lemma {:induction false} ZygoWorker<E, H, R>(helper: RoseF<E, H> -> H, main: RoseF<E, (H, R)> -> R, t: Fix<E>)
    ensures GcataWorker(PairComonad(), ZygoDist(helper), main, t)
         == (Fold(helper, t), ZygoBelow(helper, main, t.out))
    decreases t
  {
    var below := GcataBelow(PairComonad(), ZygoDist(helper), main, t.out);
    forall i | 0 <= i < |t.out.children|
      ensures below.children[i].0 == Fold(helper, t.out.children[i])
      ensures below.children[i].1 == ZygoBelow(helper, main, t.out).children[i]
    {
      ZygoWorker(helper, main, t.out.children[i]);
      ZygoIsMutual(helper, main, t.out.children[i]);
    }
    SameLayer(Firsts(below), Folded(helper, t.out));
    SameLayer(Seconds(below), ZygoBelow(helper, main, t.out));
    FoldStep(helper, t);
    GcataStep(PairComonad(), ZygoDist(helper), main, t);
  }

  lemma ZygoViaGcataIsZygo<E, H, R>(helper: RoseF<E, H> -> H, main: RoseF<E, (H, R)> -> R, t: Fix<E>)
    ensures ZygoViaGcata(helper, main, t) == Zygo(helper, main, t)
  {
    ZygoWorker(helper, main, t);
    ZygoIsMutual(helper, main, t);
  }

  /** The worker rebuilds the original tree in its first slot. */
  lemma {:induction false} ParaViaGcataIsPara<E, R>(alg: RoseF<E, (Fix<E>, R)> -> R, t: Fix<E>)
    ensures GcataWorker(PairComonad(), ParaDist(), alg, t).0 == t
    ensures ParaViaGcata(alg, t) == Para(alg, t)
    decreases t
  {
    var c := GcataWorker(PairComonad(), ParaDist(), alg, t);
    var paired := FMap((k: Fix<E>) requires t.out.Has(k) => (k, Para(alg, k)), t.out);
    forall k | t.out.Has(k)
      ensures GcataWorker(PairComonad(), ParaDist(), alg, k).0 == k
      ensures alg(GcataWorker(PairComonad(), ParaDist(), alg, k).1) == Para(alg, k)
    {
      ParaViaGcataIsPara(alg, k);
    }
    SameLayer(c.1, paired);
    SameLayer(Firsts(c.1), t.out);
  }

  /** At every node, the layer of histories of the children there. */
  function HistoryLayers<E, R>(alg: RoseF<E, Cofree<E, R>> -> R, t: Fix<E>): Cofree<E, RoseF<E, Cofree<E, R>>>
    decreases t
  {
    Cofree(Folded(HistoAlg(alg), t.out),
           FMap((c: Fix<E>) requires t.out.Has(c) => HistoryLayers(alg, c), t.out))
  }

  /** Running the algebra on those layers gives the history, at every depth. */
  lemma {:induction false} HistoryFromLayers<E, R>(alg: RoseF<E, Cofree<E, R>> -> R, t: Fix<E>)
    ensures CofreeMap(alg, HistoryLayers(alg, t)) == History(alg, t)
    decreases t
  {
    HistoryStep(alg, t);
    forall i | 0 <= i < |t.out.children|
      ensures CofreeMap(alg, HistoryLayers(alg, t.out.children[i])) == History(alg, t.out.children[i])
    {
      HistoryFromLayers(alg, t.out.children[i]);
    }
    SameLayer(CofreeMap(alg, HistoryLayers(alg, t)).tail, History(alg, t).tail);
  }

  /** Distributing the duplicated histories of the children gives the layers. */
  lemma {:induction false} LayersFromDuplicates<E, R>(alg: RoseF<E, Cofree<E, R>> -> R, t: Fix<E>)
    ensures DistHisto(FMap((c: Fix<E>) => Duplicate(History(alg, c)), t.out)) == HistoryLayers(alg, t)
    decreases t
  {
    var dups := FMap((c: Fix<E>) => Duplicate(History(alg, c)), t.out);
    forall i | 0 <= i < |t.out.children|
      ensures DistHisto(dups.children[i].tail) == HistoryLayers(alg, t.out.children[i])
    {
      var c := t.out.children[i];
      LayersFromDuplicates(alg, c);
      HistoryStep(alg, c);
      SameLayer(dups.children[i].tail, FMap((k: Fix<E>) => Duplicate(History(alg, k)), c.out));
    }
    SameLayer(DistHisto(dups).head, HistoryLayers(alg, t).head);
    SameLayer(DistHisto(dups).tail, HistoryLayers(alg, t).tail);
  }

  lemma {:induction false} HistoWorker<E, R>(alg: RoseF<E, Cofree<E, R>> -> R, t: Fix<E>)
    ensures GcataWorker(CofreeComonad(), HistoDist(), alg, t) == HistoryLayers(alg, t)
    decreases t
  {
    var below := GcataBelow(CofreeComonad(), HistoDist(), alg, t.out);
    forall i | 0 <= i < |t.out.children|
      ensures below.children[i] == Duplicate(History(alg, t.out.children[i]))
    {
      HistoWorker(alg, t.out.children[i]);
      HistoryFromLayers(alg, t.out.children[i]);
    }
    SameLayer(below, FMap((c: Fix<E>) => Duplicate(History(alg, c)), t.out));
    LayersFromDuplicates(alg, t);
    GcataStep(CofreeComonad(), HistoDist(), alg, t);
  }

  /** The worker's annotated tree, mapped by the algebra, is histo's history at every depth. */
  lemma HistoViaGcataIsHisto<E, R>(alg: RoseF<E, Cofree<E, R>> -> R, t: Fix<E>)
    ensures CofreeMap(alg, GcataWorker(CofreeComonad(), HistoDist(), alg, t)) == History(alg, t)
    ensures HistoViaGcata(alg, t) == Histo(alg, t)
  {
    HistoWorker(alg, t);
    HistoryFromLayers(alg, t);
  }

  // ---------------------------------------------------------------------
  // The monadic unfold
  // ---------------------------------------------------------------------

  /** A monad at the types one unfold uses it at: MS is m of a seed, MMS is m of m of a seed,
      and M is m of a layer of m of seeds. */
  datatype MonadAt<!E, !S, !MS, !MMS, !M> = MonadAt(
    pure: RoseF<E, MS> -> M,
    join: MMS -> MS,
    fmap: (S -> RoseF<E, MS>, MS) -> M)

  /** What one step of the worker leaves to do: the next worker argument at each position. */
  function GanaStep<E, S, MS, MMS, M>(
      m: MonadAt<E, S, MS, MMS, M>, dist: M -> RoseF<E, MMS>, psi: S -> RoseF<E, MS>): M -> RoseF<E, M>
  {
    (x: M) => FMap((y: MMS) => m.fmap(psi, m.join(y)), dist(x))
  }

  lemma StepAt<E, S, MS, MMS, M>(
      m: MonadAt<E, S, MS, MMS, M>, dist: M -> RoseF<E, MMS>, psi: S -> RoseF<E, MS>, x: M)
    ensures GanaStep(m, dist, psi)(x).lbl == dist(x).lbl
    ensures |GanaStep(m, dist, psi)(x).children| == |dist(x).children|
    ensures forall i | 0 <= i < |dist(x).children| ::
              GanaStep(m, dist, psi)(x).children[i] == m.fmap(psi, m.join(dist(x).children[i]))
  {
  }

  function GanaWorker<E, S, MS, MMS, M>(
      m: MonadAt<E, S, MS, MMS, M>, dist: M -> RoseF<E, MMS>, psi: S -> RoseF<E, MS>, x: M, ghost n: nat): Fix<E>
    requires Halts(GanaStep(m, dist, psi), x, n)
    decreases n
  {
    In(FMap((y: MMS) requires dist(x).Has(y) =>
              (StepReaches(m, dist, psi, x, y, n); GanaWorker(m, dist, psi, m.fmap(psi, m.join(y)), n - 1)),
            dist(x)))
  }

  lemma StepReaches<E, S, MS, MMS, M>(
      m: MonadAt<E, S, MS, MMS, M>, dist: M -> RoseF<E, MMS>, psi: S -> RoseF<E, MS>, x: M, y: MMS, n: nat)
    requires Halts(GanaStep(m, dist, psi), x, n) && dist(x).Has(y)
    ensures n > 0 && Halts(GanaStep(m, dist, psi), m.fmap(psi, m.join(y)), n - 1)
  {
    var i :| 0 <= i < |dist(x).children| && dist(x).children[i] == y;
    assert GanaStep(m, dist, psi)(x).children[i] == m.fmap(psi, m.join(y));
  }

  function Gana<E, S, MS, MMS, M>(
      m: MonadAt<E, S, MS, MMS, M>, dist: M -> RoseF<E, MMS>, psi: S -> RoseF<E, MS>, s: S, ghost n: nat): Fix<E>
    requires Halts(GanaStep(m, dist, psi), m.pure(psi(s)), n)
  {
    GanaWorker(m, dist, psi, m.pure(psi(s)), n)
  }

  /** The worker is the unfold of its step. */
  lemma {:induction false} GanaWorkerIsUnfold<E, S, MS, MMS, M>(
      m: MonadAt<E, S, MS, MMS, M>, dist: M -> RoseF<E, MMS>, psi: S -> RoseF<E, MS>, x: M, n: nat)
    requires Halts(GanaStep(m, dist, psi), x, n)
    ensures GanaWorker(m, dist, psi, x, n) == Unfold(GanaStep(m, dist, psi), x, n)
    decreases n
  {
    var step := GanaStep(m, dist, psi);
    var lhs, rhs := GanaWorker(m, dist, psi, x, n), Unfold(step, x, n);
    forall i | 0 <= i < |dist(x).children|
      ensures lhs.out.children[i] == rhs.out.children[i]
    {
      GanaWorkerIsUnfold(m, dist, psi, step(x).children[i], n - 1);
    }
    SameLayer(lhs.out, rhs.out);
  }

  /** A tree that answers the step is what the worker builds, with any evidence. */
  lemma GanaWorkerBuilds<E, S, MS, MMS, M>(
      m: MonadAt<E, S, MS, MMS, M>, dist: M -> RoseF<E, MMS>, psi: S -> RoseF<E, MS>, x: M, t: Fix<E>, n: nat)
    requires Unfolds(GanaStep(m, dist, psi), x, t)
    ensures Halts(GanaStep(m, dist, psi), x, n) <==> Height(t) <= n
    ensures Halts(GanaStep(m, dist, psi), x, n) ==> GanaWorker(m, dist, psi, x, n) == t
  {
    var step := GanaStep(m, dist, psi);
    UnfoldsHalts(step, x, t);
    UnfoldIsUnique(step, x, t, Height(t));
    HaltsIffHeight(step, x, Height(t), n);
    if Halts(step, x, n) {
      GanaWorkerIsUnfold(m, dist, psi, x, n);
      UnfoldIsUnique(step, x, t, n);
    }
  }

  // ---- plain unfolding ------------------------------------------------

  function IdentityMonad<E, S>()
    : MonadAt<E, S, Identity<S>, Identity<Identity<S>>, Identity<RoseF<E, Identity<S>>>>
  {
    MonadAt((l: RoseF<E, Identity<S>>) => Identity(l),
            (i: Identity<Identity<S>>) => i.value,
            (f: S -> RoseF<E, Identity<S>>, i: Identity<S>) => Identity(f(i.value)))
  }

  function AnaDist<E, S>(): Identity<RoseF<E, Identity<S>>> -> RoseF<E, Identity<Identity<S>>> {
    (i: Identity<RoseF<E, Identity<S>>>) => DistAna(i)
  }

  function LiftCoalg<E, S>(psi: S -> RoseF<E, S>): S -> RoseF<E, Identity<S>> {
    (s: S) => FMap((x: S) => Identity(x), psi(s))
  }

  function AnaStep<E, S>(psi: S -> RoseF<E, S>)
    : Identity<RoseF<E, Identity<S>>> -> RoseF<E, Identity<RoseF<E, Identity<S>>>>
  {
    GanaStep(IdentityMonad(), AnaDist(), LiftCoalg(psi))
  }

  function AnaViaGana<E, S>(psi: S -> RoseF<E, S>, s: S, ghost n: nat): Fix<E>
    requires Halts(AnaStep(psi), Identity(LiftCoalg(psi)(s)), n)
  {
    Gana(IdentityMonad(), AnaDist(), LiftCoalg(psi), s, n)
  }

  lemma {:induction false} AnaAnswers<E, S>(psi: S -> RoseF<E, S>, s: S, t: Fix<E>)
    ensures Unfolds(AnaStep(psi), Identity(LiftCoalg(psi)(s)), t) <==> Unfolds(psi, s, t)
    decreases t
  {
    StepAt(IdentityMonad(), AnaDist(), LiftCoalg(psi), Identity(LiftCoalg(psi)(s)));
    if |t.out.children| == |psi(s).children| {
      forall i | 0 <= i < |t.out.children|
        ensures AnaStep(psi)(Identity(LiftCoalg(psi)(s))).children[i] == Identity(LiftCoalg(psi)(psi(s).children[i]))
        ensures Unfolds(AnaStep(psi), Identity(LiftCoalg(psi)(psi(s).children[i])), t.out.children[i])
           <==> Unfolds(psi, psi(s).children[i], t.out.children[i])
      {
        AnaAnswers(psi, psi(s).children[i], t.out.children[i]);
      }
    }
  }

  /** With the identity monad the worker stops on the seeds the plain unfold stops on, and
      builds the same tree. */
  lemma AnaViaGanaIsUnfold<E, S>(psi: S -> RoseF<E, S>, s: S, n: nat)
    ensures Halts(AnaStep(psi), Identity(LiftCoalg(psi)(s)), n) <==> Halts(psi, s, n)
    ensures Halts(psi, s, n) ==> AnaViaGana(psi, s, n) == Unfold(psi, s, n)
  {
    var start := Identity(LiftCoalg(psi)(s));
    if Halts(AnaStep(psi), start, n) {
      UnfoldAnswers(AnaStep(psi), start, n);
      AnaAnswers(psi, s, Unfold(AnaStep(psi), start, n));
      UnfoldsHalts(psi, s, Unfold(AnaStep(psi), start, n));
      HaltsIffHeight(AnaStep(psi), start, n, n);
      HaltsMore(psi, s, Height(Unfold(AnaStep(psi), start, n)), n);
    }
    if Halts(psi, s, n) {
      UnfoldAnswers(psi, s, n);
      AnaAnswers(psi, s, Unfold(psi, s, n));
      HaltsIffHeight(psi, s, n, n);
      GanaWorkerBuilds(IdentityMonad(), AnaDist(), LiftCoalg(psi), start, Unfold(psi, s, n), n);
    }
  }

  // ---- unfolding with finished subtrees -------------------------------

  function EitherMonad<E, S>(): MonadAt<E, S, Either<Fix<E>, S>, Either<Fix<E>, Either<Fix<E>, S>>,
                                        Either<Fix<E>, RoseF<E, Either<Fix<E>, S>>>>
  {
    MonadAt((l: RoseF<E, Either<Fix<E>, S>>) => Either<Fix<E>, RoseF<E, Either<Fix<E>, S>>>.Right(l),
            (e: Either<Fix<E>, Either<Fix<E>, S>>) => EitherJoin(e),
            (f: S -> RoseF<E, Either<Fix<E>, S>>, e: Either<Fix<E>, S>) => EitherMap(f, e))
  }

  function ApoDist<E, S>(): Either<Fix<E>, RoseF<E, Either<Fix<E>, S>>> -> RoseF<E, Either<Fix<E>, Either<Fix<E>, S>>> {
    (e: Either<Fix<E>, RoseF<E, Either<Fix<E>, S>>>) => DistApo(e)
  }

  function ApoStep<E, S>(psi: S -> RoseF<E, Either<Fix<E>, S>>)
    : Either<Fix<E>, RoseF<E, Either<Fix<E>, S>>> -> RoseF<E, Either<Fix<E>, RoseF<E, Either<Fix<E>, S>>>>
  {
    GanaStep(EitherMonad(), ApoDist(), psi)
  }

  function ApoViaGana<E, S>(psi: S -> RoseF<E, Either<Fix<E>, S>>, s: S, ghost n: nat): Fix<E>
    requires Halts(ApoStep(psi), Right(psi(s)), n)
  {
    Gana(EitherMonad(), ApoDist(), psi, s, n)
  }

  /** A finished subtree is rebuilt node for node, whatever the coalgebra. */
  lemma {:induction false} LeftIsRebuilt<E, S>(psi: S -> RoseF<E, Either<Fix<E>, S>>, t: Fix<E>)
    ensures Unfolds(ApoStep(psi), Left(t), t)
    decreases t
  {
    StepAt(EitherMonad(), ApoDist(), psi, Left(t));
    forall i | 0 <= i < |t.out.children|
      ensures Unfolds(ApoStep(psi), ApoStep(psi)(Left(t)).children[i], t.out.children[i])
    {
      LeftIsRebuilt(psi, t.out.children[i]);
    }
  }

  lemma {:induction false} ApoAnswers<E, S>(psi: S -> RoseF<E, Either<Fix<E>, S>>, s: S, n: nat)
    requires ApoHalts(psi, s, n)
    ensures Unfolds(ApoStep(psi), Right(psi(s)), Apo(psi, s, n))
    decreases n
  {
    var t := Apo(psi, s, n);
    StepAt(EitherMonad(), ApoDist(), psi, Right(psi(s)));
    forall i | 0 <= i < |t.out.children|
      ensures Unfolds(ApoStep(psi), ApoStep(psi)(Right(psi(s))).children[i], t.out.children[i])
    {
      match psi(s).children[i]
      case Left(u) => LeftIsRebuilt(psi, u);
      case Right(x) => ApoAnswers(psi, x, n - 1);
    }
  }

  lemma {:induction false} ApoHaltsIfGana<E, S>(psi: S -> RoseF<E, Either<Fix<E>, S>>, s: S, n: nat)
    requires Halts(ApoStep(psi), Right(psi(s)), n)
    ensures ApoHalts(psi, s, n)
    decreases n
  {
    StepAt(EitherMonad(), ApoDist(), psi, Right(psi(s)));
    forall i | 0 <= i < |psi(s).children| && psi(s).children[i].Right?
      ensures ApoHalts(psi, psi(s).children[i].right, n - 1)
    {
      assert ApoStep(psi)(Right(psi(s))).children[i] == Right(psi(psi(s).children[i].right));
      ApoHaltsIfGana(psi, psi(s).children[i].right, n - 1);
    }
  }

  /** With the either monad the worker stops on exactly the seeds apo stops on, needs exactly
      the height of apo's tree to do so, and builds that tree. */
  lemma ApoViaGanaIsApo<E, S>(psi: S -> RoseF<E, Either<Fix<E>, S>>, s: S, n: nat, m: nat)
    ensures Halts(ApoStep(psi), Right(psi(s)), m) ==> ApoHalts(psi, s, m)
    ensures ApoHalts(psi, s, n) ==> (Halts(ApoStep(psi), Right(psi(s)), m) <==> Height(Apo(psi, s, n)) <= m)
    ensures ApoHalts(psi, s, n) && Halts(ApoStep(psi), Right(psi(s)), m) ==> ApoViaGana(psi, s, m) == Apo(psi, s, n)
  {
    if Halts(ApoStep(psi), Right(psi(s)), m) {
      ApoHaltsIfGana(psi, s, m);
    }
    if ApoHalts(psi, s, n) {
      ApoAnswers(psi, s, n);
      GanaWorkerBuilds(EitherMonad(), ApoDist(), psi, Right(psi(s)), Apo(psi, s, n), m);
    }
  }

  // ---- unfolding by chunks --------------------------------------------

  function FreeMonad<E, S>(): MonadAt<E, S, Free<E, S>, Free<E, Free<E, S>>, Free<E, RoseF<E, Free<E, S>>>> {
    MonadAt((l: RoseF<E, Free<E, S>>) => Free<E, RoseF<E, Free<E, S>>>.Pure(l),
            (m: Free<E, Free<E, S>>) => FreeJoin(m),
            (f: S -> RoseF<E, Free<E, S>>, m: Free<E, S>) => FreeMap(f, m))
  }

  function FutuDist<E, S>(): Free<E, RoseF<E, Free<E, S>>> -> RoseF<E, Free<E, Free<E, S>>> {
    (m: Free<E, RoseF<E, Free<E, S>>>) => DistFutu(m)
  }

  function FutuStep<E, S>(psi: S -> RoseF<E, Free<E, S>>)
    : Free<E, RoseF<E, Free<E, S>>> -> RoseF<E, Free<E, RoseF<E, Free<E, S>>>>
  {
    GanaStep(FreeMonad(), FutuDist(), psi)
  }

  function FutuViaGana<E, S>(psi: S -> RoseF<E, Free<E, S>>, s: S, ghost n: nat): Fix<E>
    requires Halts(FutuStep(psi), Pure(psi(s)), n)
  {
    Gana(FreeMonad(), FutuDist(), psi, s, n)
  }

  /** A chunk with every seed in it replaced by the layer it grows into. */
  function Expand<E, S>(psi: S -> RoseF<E, Free<E, S>>, c: Free<E, S>): Free<E, S> {
    FreeBind(c, (s: S) => Free<E, S>.Roll(psi(s)))
  }

  /** Distributing and joining re-expands the whole chunk, not only its top. */
  lemma {:induction false} JoinAfterDistExpands<E, S>(psi: S -> RoseF<E, Free<E, S>>, c: Free<E, S>)
    ensures FreeJoin(Free<E, Free<E, S>>.Roll(DistFutu(FreeMap(psi, c)))) == Expand(psi, c)
    decreases c
  {
    var d := DistFutu(FreeMap(psi, c));
    var joined := FreeJoin(Free<E, Free<E, S>>.Roll(d));
    match c
    case Pure(s) =>
      forall i | 0 <= i < |psi(s).children|
        ensures joined.layer.children[i] == psi(s).children[i]
      {
        assert d.children[i] == Free<E, Free<E, S>>.Pure(psi(s).children[i]);
        assert joined.layer.children[i] == FreeJoin(d.children[i]);
      }
      SameLayer(joined.layer, psi(s));
    case Roll(l) =>
      forall i | 0 <= i < |l.children|
        ensures joined.layer.children[i] == Expand(psi, l.children[i])
      {
        JoinAfterDistExpands(psi, l.children[i]);
        assert d.children[i] == Free<E, Free<E, S>>.Roll(DistFutu(FreeMap(psi, l.children[i])));
      }
      SameLayer(joined.layer, Expand(psi, c).layer);
  }

  /** Re-expansion costs one bound at most and leaves the finished tree unchanged. */
  lemma {:induction false} ExpandKeepsTree<E, S>(psi: S -> RoseF<E, Free<E, S>>, c: Free<E, S>, n: nat)
    requires ChunkHalts(psi, c, n)
    ensures ChunkHalts(psi, Expand(psi, c), n)
    ensures FutuWorker(psi, Expand(psi, c), n) == FutuWorker(psi, c, n)
    decreases c
  {
    match c
    case Pure(s) =>
      assert Expand(psi, c) == Roll(psi(s));
      assert FutuWorker(psi, c, n) == Futu(psi, s, n);
      forall i | 0 <= i < |psi(s).children|
        ensures ChunkHalts(psi, psi(s).children[i], n)
        ensures FutuWorker(psi, psi(s).children[i], n) == FutuWorker(psi, psi(s).children[i], n - 1)
      {
        ChunkHaltsMore(psi, psi(s).children[i], n - 1, n);
        FutuEvidence(psi, psi(s).children[i], n - 1, n);
      }
      SameLayer(FutuWorker(psi, Roll(psi(s)), n).out, Futu(psi, s, n).out);
    case Roll(l) =>
      forall i | 0 <= i < |l.children|
        ensures ChunkHalts(psi, Expand(psi, l.children[i]), n)
        ensures FutuWorker(psi, Expand(psi, l.children[i]), n) == FutuWorker(psi, l.children[i], n)
      {
        ExpandKeepsTree(psi, l.children[i], n);
      }
      SameLayer(FutuWorker(psi, Expand(psi, c), n).out, FutuWorker(psi, c, n).out);
  }

  lemma {:induction false} ExpandHaltsOnlyIf<E, S>(psi: S -> RoseF<E, Free<E, S>>, c: Free<E, S>, n: nat)
    requires ChunkHalts(psi, Expand(psi, c), n)
    ensures ChunkHalts(psi, c, n + 1)
    decreases c
  {
    if c.Roll? {
      forall i | 0 <= i < |c.layer.children|
        ensures ChunkHalts(psi, c.layer.children[i], n + 1)
      {
        assert Expand(psi, c).layer.children[i] == Expand(psi, c.layer.children[i]);
        ExpandHaltsOnlyIf(psi, c.layer.children[i], n);
      }
    } else {
      assert Expand(psi, c) == Roll(psi(c.a));
    }
  }

  /** One worker step on a mapped chunk: a seed opens into its own layer, a built layer is
      peeled and each chunk under it expanded once more. */
  lemma FutuStepPeels<E, S>(psi: S -> RoseF<E, Free<E, S>>, c: Free<E, S>)
    ensures FutuStep(psi)(FreeMap(psi, c)).lbl == Unroll(psi)(c).lbl
    ensures |FutuStep(psi)(FreeMap(psi, c)).children| == |Unroll(psi)(c).children|
    ensures forall i | 0 <= i < |Unroll(psi)(c).children| ::
              FutuStep(psi)(FreeMap(psi, c)).children[i]
              == FreeMap(psi, if c.Pure? then psi(c.a).children[i] else Expand(psi, c.layer.children[i]))
  {
    StepAt(FreeMonad(), FutuDist(), psi, FreeMap(psi, c));
    if c.Roll? {
      forall i | 0 <= i < |c.layer.children|
        ensures FutuStep(psi)(FreeMap(psi, c)).children[i] == FreeMap(psi, Expand(psi, c.layer.children[i]))
      {
        JoinAfterDistExpands(psi, c.layer.children[i]);
        assert DistFutu(FreeMap(psi, c)).children[i]
            == Free<E, Free<E, S>>.Roll(DistFutu(FreeMap(psi, c.layer.children[i])));
      }
    }
  }

  lemma {:induction false} FutuAnswers<E, S>(psi: S -> RoseF<E, Free<E, S>>, c: Free<E, S>, n: nat)
    requires ChunkHalts(psi, c, n)
    ensures Unfolds(FutuStep(psi), FreeMap(psi, c), FutuWorker(psi, c, n))
    decreases FutuWorker(psi, c, n)
  {
    var t, next := FutuWorker(psi, c, n), FutuStep(psi)(FreeMap(psi, c));
    assert c.Pure? ==> t == Futu(psi, c.a, n);
    FutuStepPeels(psi, c);
    forall i | 0 <= i < |t.out.children|
      ensures Unfolds(FutuStep(psi), next.children[i], t.out.children[i])
    {
      match c
      case Pure(s) =>
        FutuAnswers(psi, psi(s).children[i], n - 1);
      case Roll(l) =>
        ExpandKeepsTree(psi, l.children[i], n);
        FutuAnswers(psi, Expand(psi, l.children[i]), n);
    }
  }

  lemma {:induction false} FutuHaltsIfGana<E, S>(psi: S -> RoseF<E, Free<E, S>>, c: Free<E, S>, n: nat)
    requires Halts(FutuStep(psi), FreeMap(psi, c), n)
    ensures ChunkHalts(psi, c, n)
    decreases n
  {
    FutuStepPeels(psi, c);
    var next := FutuStep(psi)(FreeMap(psi, c)).children;
    match c
    case Pure(s) =>
      forall i | 0 <= i < |psi(s).children|
        ensures ChunkHalts(psi, psi(s).children[i], n - 1)
      {
        assert Halts(FutuStep(psi), next[i], n - 1);
        FutuHaltsIfGana(psi, psi(s).children[i], n - 1);
      }
    case Roll(l) =>
      forall i | 0 <= i < |l.children|
        ensures ChunkHalts(psi, l.children[i], n)
      {
        assert Halts(FutuStep(psi), next[i], n - 1);
        FutuHaltsIfGana(psi, Expand(psi, l.children[i]), n - 1);
        ExpandHaltsOnlyIf(psi, l.children[i], n - 1);
      }
  }

  /** With the free monad the worker re-expands every seed of the remaining chunk at each
      step, and still stops on exactly the seeds futu stops on, after exactly as many levels
      as futu's tree has, with that tree. */
  lemma FutuViaGanaIsFutu<E, S>(psi: S -> RoseF<E, Free<E, S>>, s: S, n: nat, m: nat)
    ensures Halts(FutuStep(psi), Pure(psi(s)), m) ==> ChunkHalts(psi, Pure(s), m)
    ensures ChunkHalts(psi, Pure(s), n) ==>
              (Halts(FutuStep(psi), Pure(psi(s)), m) <==> Height(Futu(psi, s, n)) <= m)
    ensures ChunkHalts(psi, Pure(s), n) && Halts(FutuStep(psi), Pure(psi(s)), m) ==>
              FutuViaGana(psi, s, m) == Futu(psi, s, n)
  {
    var seed := Free<E, S>.Pure(s);
    assert FreeMap(psi, seed) == Pure(psi(s));
    if Halts(FutuStep(psi), Pure(psi(s)), m) {
      FutuHaltsIfGana(psi, seed, m);
    }
    if ChunkHalts(psi, seed, n) {
      FutuAnswers(psi, seed, n);
      assert FutuWorker(psi, seed, n) == Futu(psi, s, n);
      GanaWorkerBuilds(FreeMonad(), FutuDist(), psi, Pure(psi(s)), Futu(psi, s, n), m);
    }
  }

  // ---------------------------------------------------------------------
  // The generalized refold
  // ---------------------------------------------------------------------

  function Ghylo<E, S, MS, MMS, M, R, WR, WWR, C>(
      w: ComonadAt<E, R, WR, WWR, C>, wdist: RoseF<E, WWR> -> C, alg: RoseF<E, WR> -> R,
      m: MonadAt<E, S, MS, MMS, M>, mdist: M -> RoseF<E, MMS>, psi: S -> RoseF<E, MS>, s: S, ghost n: nat): R
    requires Halts(GanaStep(m, mdist, psi), m.pure(psi(s)), n)
  {
    Gcata(w, wdist, alg, Gana(m, mdist, psi, s, n))
  }

  /** Over a plain unfold: the fused refold and dyna. */
  lemma GhyloAnaRecovers<E, S, R, Q>(
      alg: RoseF<E, R> -> R, halg: RoseF<E, Cofree<E, Q>> -> Q, psi: S -> RoseF<E, S>, s: S, n: nat)
    requires Halts(psi, s, n)
    ensures Halts(AnaStep(psi), Identity(LiftCoalg(psi)(s)), n)
    ensures Ghylo(IdentityComonad(), CataDist(), LiftAlg(alg), IdentityMonad(), AnaDist(), LiftCoalg(psi), s, n)
         == Refold(alg, psi, s, n)
    ensures Ghylo(CofreeComonad(), HistoDist(), halg, IdentityMonad(), AnaDist(), LiftCoalg(psi), s, n)
         == Dyna(halg, psi, s, n)
  {
    AnaViaGanaIsUnfold(psi, s, n);
    CataViaGcataIsFold(alg, Unfold(psi, s, n));
    HistoViaGcataIsHisto(halg, Unfold(psi, s, n));
    RefoldIsFoldAfterUnfold(alg, psi, s, n, n);
    DynaIsHistoAfterUnfold(halg, psi, s, n);
  }

  /** Over a chunked unfold: codyna and chrono. The materialising and the fused form stop on
      the same seeds, after the same number of levels. */
  lemma GhyloFutuRecovers<E, S, R, Q>(
      alg: RoseF<E, R> -> R, halg: RoseF<E, Cofree<E, Q>> -> Q, psi: S -> RoseF<E, Free<E, S>>, s: S, n: nat)
    ensures Halts(FutuStep(psi), Pure(psi(s)), n) <==> Halts(Unroll(psi), Pure(s), n)
    ensures Halts(Unroll(psi), Pure(s), n) ==>
              (Ghylo(IdentityComonad(), CataDist(), LiftAlg(alg), FreeMonad(), FutuDist(), psi, s, n)
               == Codyna(alg, psi, s, n))
    ensures Halts(Unroll(psi), Pure(s), n) ==>
              (Ghylo(CofreeComonad(), HistoDist(), halg, FreeMonad(), FutuDist(), psi, s, n)
               == Chrono(halg, psi, s, n))
  {
    var seed := Free<E, S>.Pure(s);
    FutuViaGanaIsFutu(psi, s, n, n);
    if Halts(Unroll(psi), seed, n) {
      UnrollHaltsOnlyIfFutu(psi, seed, n);
    }
    if ChunkHalts(psi, seed, n) {
      var t := Futu(psi, s, n);
      assert FutuWorker(psi, seed, n) == t;
      UnrollIsFutu(psi, seed, n);
      UnfoldsHalts(Unroll(psi), seed, t);
      UnfoldIsUnique(Unroll(psi), seed, t, Height(t));
      HaltsIffHeight(Unroll(psi), seed, Height(t), n);
      CataViaGcataIsFold(alg, t);
      HistoViaGcataIsHisto(halg, t);
      if Halts(Unroll(psi), seed, n) {
        ChronoIsHistoAfterFutu(alg, halg, psi, s, n, n);
      }
    }
  }
}
