/** Folds and unfolds that rewrite the tree on the way, by natural transformations of layers. */
module Rewriting {
  import opened Functors
  import opened Schemes
  import opened DistLaws
  import opened Generalized

  /** A natural transformation of layers cannot look at what stands in the positions, so it is
      a new label and a choice of old positions for the new ones, both computed from the old
      label and the number of positions. It may drop, repeat and reorder. A choice out of
      range means the first position, so that every value of this type is a transformation. */
  datatype NatTrans<!E, !G> = NatTrans(relabel: (E, nat) -> G, pick: (E, nat) -> seq<nat>) {

    function Picks(lbl: E, n: nat): (r: seq<nat>)
      ensures n == 0 ==> r == []
      ensures forall i | 0 <= i < |r| :: r[i] < n
    {
      var p := pick(lbl, n);
      if n == 0 then [] else seq(|p|, i requires 0 <= i < |p| => if p[i] < n then p[i] else 0)
    }

    function At<A>(l: RoseF<E, A>): (r: RoseF<G, A>)
      ensures |r.children| == |Picks(l.lbl, |l.children|)|
      ensures forall i | 0 <= i < |r.children| ::
                r.children[i] == l.children[Picks(l.lbl, |l.children|)[i]]
    {
      var p := Picks(l.lbl, |l.children|);
      RoseF(relabel(l.lbl, |l.children|), seq(|p|, i requires 0 <= i < |p| => l.children[p[i]]))
    }
  }

  lemma Natural<E, G, A, B>(e: NatTrans<E, G>, f: A --> B, l: RoseF<E, A>)
    requires forall i | 0 <= i < |l.children| :: f.requires(l.children[i])
    ensures e.At(FMap(f, l)) == FMap(f, e.At(l))
  {
    SameLayer(e.At(FMap(f, l)), FMap(f, e.At(l)));
  }

  // ---- the form loses nothing ------------------------------------------

  /** Positions 0 to n - 1 under a label: the layer every other one of its shape is an image of. */
  function Generic<E>(lbl: E, n: nat): RoseF<E, nat> {
    RoseF(lbl, seq(n, i requires 0 <= i < n => i))
  }

  /** One instance of a template commutes with changing the elements, from numbers to A. */
  ghost predicate NaturalTo<E(!new), G, A(!new)>(
      numbers: RoseF<E, nat> -> RoseF<G, nat>, eta: RoseF<E, A> -> RoseF<G, A>)
  {
    forall f: nat -> A, l: RoseF<E, nat> :: eta(FMap(f, l)) == FMap(f, numbers(l))
  }

  /** Read a transformation off what it does to the generic layers. */
  function Represent<E, G>(numbers: RoseF<E, nat> -> RoseF<G, nat>): NatTrans<E, G> {
    NatTrans((lbl: E, n: nat) => numbers(Generic(lbl, n)).lbl, (lbl: E, n: nat) => numbers(Generic(lbl, n)).children)
  }

  /** It can only give back positions it was given. */
  lemma OnlyGivenPositions<E(!new), G>(numbers: RoseF<E, nat> -> RoseF<G, nat>, lbl: E, n: nat)
    requires NaturalTo(numbers, numbers)
    ensures forall i | 0 <= i < |numbers(Generic(lbl, n)).children| :: numbers(Generic(lbl, n)).children[i] < n
    ensures n == 0 ==> numbers(Generic(lbl, n)).children == []
  {
    var l := Generic(lbl, n);
    var push: nat -> nat := (k: nat) => if k < n then k else k + 1;
    SameLayer(FMap(push, l), l);
    assert numbers(FMap(push, l)) == FMap(push, numbers(l));
    var given := numbers(l).children;
    assert forall i | 0 <= i < |given| :: given[i] == push(given[i]);
    if given != [] {
      assert given[0] < n;
    }
  }

  /** Every transformation that cannot look at the elements, at whatever type they have, is a
      label map with a choice of positions. */
  lemma NaturalIsRepresented<E(!new), G, A(!new)>(
      numbers: RoseF<E, nat> -> RoseF<G, nat>, eta: RoseF<E, A> -> RoseF<G, A>, l: RoseF<E, A>, some: A)
    requires NaturalTo(numbers, numbers) && NaturalTo(numbers, eta)
    ensures eta(l) == Represent(numbers).At(l)
  {
    var n := |l.children|;
    var generic := Generic(l.lbl, n);
    var f := (k: nat) => if k < n then l.children[k] else some;
    OnlyGivenPositions(numbers, l.lbl, n);
    SameLayer(FMap(f, generic), l);
    assert eta(FMap(f, generic)) == FMap(f, numbers(generic));
    var e := Represent(numbers);
    assert e.pick(l.lbl, n) == numbers(generic).children;
    assert e.Picks(l.lbl, n) == numbers(generic).children;
    SameLayer(eta(l), e.At(l));
  }

  /** e2 after e1, again as a label map and a position map. */
  function Compose<E, F, G>(e2: NatTrans<F, G>, e1: NatTrans<E, F>): NatTrans<E, G> {
    NatTrans((lbl: E, n: nat) => e2.relabel(e1.relabel(lbl, n), |e1.Picks(lbl, n)|),
             (lbl: E, n: nat) =>
               var p := e1.Picks(lbl, n);
               var q := e2.Picks(e1.relabel(lbl, n), |p|);
               seq(|q|, i requires 0 <= i < |q| => p[q[i]]))
  }

  lemma ComposeAt<E, F, G, A>(e2: NatTrans<F, G>, e1: NatTrans<E, F>, l: RoseF<E, A>)
    ensures Compose(e2, e1).At(l) == e2.At(e1.At(l))
  {
    SameLayer(Compose(e2, e1).At(l), e2.At(e1.At(l)));
  }

  // ---------------------------------------------------------------------
  // hoist
  // ---------------------------------------------------------------------

  function Hoist<E, G>(e: NatTrans<E, G>, t: Fix<E>): Fix<G> {
    Fold((l: RoseF<E, Fix<G>>) => In(e.At(l)), t)
  }

  function Hoisted<L, E, G>(e: NatTrans<E, G>, l: RoseF<L, Fix<E>>): RoseF<L, Fix<G>> {
    FMap((c: Fix<E>) => Hoist(e, c), l)
  }

  lemma HoistStep<E, G>(e: NatTrans<E, G>, t: Fix<E>)
    ensures Hoist(e, t).out == e.At(Hoisted(e, t.out))
    ensures Hoist(e, t).out == Hoisted(e, e.At(t.out))
  {
    var alg := (l: RoseF<E, Fix<G>>) => In(e.At(l));
    FoldStep(alg, t);
    SameLayer(Folded(alg, t.out), Hoisted(e, t.out));
    Natural(e, (c: Fix<E>) => Hoist(e, c), t.out);
    SameLayer(FMap((c: Fix<E>) => Hoist(e, c), e.At(t.out)), Hoisted(e, e.At(t.out)));
  }

  lemma HoistAt<E, G>(e: NatTrans<E, G>, t: Fix<E>)
    ensures Hoist(e, t).out.lbl == e.relabel(t.out.lbl, |t.out.children|)
    ensures |Hoist(e, t).out.children| == |e.Picks(t.out.lbl, |t.out.children|)|
    ensures forall i | 0 <= i < |Hoist(e, t).out.children| ::
              Hoist(e, t).out.children[i] == Hoist(e, t.out.children[e.Picks(t.out.lbl, |t.out.children|)[i]])
  {
    HoistStep(e, t);
  }

  /** Rewriting from the root down. */
  function HoistDown<E, G>(e: NatTrans<E, G>, t: Fix<E>): Fix<G>
    decreases t
  {
    In(FMap((c: Fix<E>) requires t.out.Has(c) => HoistDown(e, c), e.At(t.out)))
  }

  /** The fold rewrites from the leaves up; a natural transformation cannot tell. */
  lemma {:induction false} HoistIsTopDown<E, G>(e: NatTrans<E, G>, t: Fix<E>)
    ensures Hoist(e, t) == HoistDown(e, t)
    decreases t
  {
    HoistStep(e, t);
    var l := e.At(t.out);
    forall i | 0 <= i < |l.children|
      ensures Hoist(e, l.children[i]) == HoistDown(e, l.children[i])
    {
      HoistIsTopDown(e, l.children[i]);
    }
    SameLayer(Hoist(e, t).out, HoistDown(e, t).out);
  }

  /** Two rewritings in a row are one. */
  lemma {:induction false} HoistFusion<E, F, G>(e2: NatTrans<F, G>, e1: NatTrans<E, F>, t: Fix<E>)
    ensures Hoist(e2, Hoist(e1, t)) == Hoist(Compose(e2, e1), t)
    decreases t
  {
    var u, l := Hoist(e1, t), Compose(e2, e1).At(t.out);
    HoistStep(e1, t);
    HoistStep(e2, u);
    HoistStep(Compose(e2, e1), t);
    ComposeAt(e2, e1, t.out);
    Natural(e2, (c: Fix<E>) => Hoist(e1, c), e1.At(t.out));
    SameLayer(u.out, FMap((c: Fix<E>) => Hoist(e1, c), e1.At(t.out)));
    forall i | 0 <= i < |l.children|
      ensures Hoist(e2, Hoist(e1, l.children[i])) == Hoist(Compose(e2, e1), l.children[i])
    {
      HoistFusion(e2, e1, l.children[i]);
    }
    SameLayer(Hoist(e2, u).out, Hoist(Compose(e2, e1), t).out);
  }

  /** Rewriting never makes a tree higher, which is why the schemes below stop. */
  lemma {:induction false} HoistNotHigher<E, G>(e: NatTrans<E, G>, t: Fix<E>)
    ensures Height(Hoist(e, t)) <= Height(t)
    decreases t
  {
    HoistStep(e, t);
    var u := Hoist(e, t);
    forall i | 0 <= i < |u.out.children|
      ensures Height(u.out.children[i]) < Height(t)
    {
      HoistNotHigher(e, e.At(t.out).children[i]);
    }
    var heights := FMap((c: Fix<G>) requires u.out.Has(c) => Height(c), u.out).children;
    assert forall i | 0 <= i < |heights| :: heights[i] < Height(t);
  }

  // ---------------------------------------------------------------------
  // The four schemes
  // ---------------------------------------------------------------------

  function Prepro<E, R>(e: NatTrans<E, E>, alg: RoseF<E, R> -> R, t: Fix<E>): R
    decreases Height(t)
  {
    alg(FMap((c: Fix<E>) requires t.out.Has(c) => (HoistNotHigher(e, c); Prepro(e, alg, Hoist(e, c))), t.out))
  }

  function Postpro<E, S>(e: NatTrans<E, E>, psi: S -> RoseF<E, S>, s: S, ghost n: nat): Fix<E>
    requires Halts(psi, s, n)
    decreases n
  {
    In(FMap((c: S) requires psi(s).Has(c) => Hoist(e, Postpro(e, psi, c, n - 1)), psi(s)))
  }

  function GpreproWorker<E, R, WR, WWR, C>(
      w: ComonadAt<E, R, WR, WWR, C>, dist: RoseF<E, WWR> -> C, e: NatTrans<E, E>, alg: RoseF<E, WR> -> R,
      t: Fix<E>): C
    decreases Height(t)
  {
    dist(FMap((c: Fix<E>) requires t.out.Has(c) =>
                (HoistNotHigher(e, c);
                 w.duplicate(w.fmap(alg, GpreproWorker(w, dist, e, alg, Hoist(e, c))))),
              t.out))
  }

  function Gprepro<E, R, WR, WWR, C>(
      w: ComonadAt<E, R, WR, WWR, C>, dist: RoseF<E, WWR> -> C, e: NatTrans<E, E>, alg: RoseF<E, WR> -> R,
      t: Fix<E>): R
  {
    alg(w.extract(GpreproWorker(w, dist, e, alg, t)))
  }

  function GpostproWorker<E, S, MS, MMS, M>(
      m: MonadAt<E, S, MS, MMS, M>, dist: M -> RoseF<E, MMS>, e: NatTrans<E, E>, psi: S -> RoseF<E, MS>,
      x: M, ghost n: nat): Fix<E>
    requires Halts(GanaStep(m, dist, psi), x, n)
    decreases n
  {
    In(FMap((y: MMS) requires dist(x).Has(y) =>
              (StepReaches(m, dist, psi, x, y, n);
               Hoist(e, GpostproWorker(m, dist, e, psi, m.fmap(psi, m.join(y)), n - 1))),
            dist(x)))
  }

  function Gpostpro<E, S, MS, MMS, M>(
      m: MonadAt<E, S, MS, MMS, M>, dist: M -> RoseF<E, MMS>, e: NatTrans<E, E>, psi: S -> RoseF<E, MS>,
      s: S, ghost n: nat): Fix<E>
    requires Halts(GanaStep(m, dist, psi), m.pure(psi(s)), n)
  {
    GpostproWorker(m, dist, e, psi, m.pure(psi(s)), n)
  }

  // ---------------------------------------------------------------------
  // What they compute
  // ---------------------------------------------------------------------

  /** The root layer is kept; every child is deepened and then rewritten once as a whole. */
  function Deepen<E>(e: NatTrans<E, E>, t: Fix<E>): Fix<E>
    decreases t
  {
    In(FMap((c: Fix<E>) requires t.out.Has(c) => Hoist(e, Deepen(e, c)), t.out))
  }

  lemma DeepenStep<E>(e: NatTrans<E, E>, t: Fix<E>)
    ensures Deepen(e, t).out.lbl == t.out.lbl && |Deepen(e, t).out.children| == |t.out.children|
    ensures forall i | 0 <= i < |t.out.children| ::
              Deepen(e, t).out.children[i] == Hoist(e, Deepen(e, t.out.children[i]))
  {
  }

  /** Rewriting once more commutes with deepening. */
  lemma {:induction false} DeepenHoistCommute<E>(e: NatTrans<E, E>, t: Fix<E>)
    ensures Deepen(e, Hoist(e, t)) == Hoist(e, Deepen(e, t))
    decreases t
  {
    HoistAt(e, t);
    HoistAt(e, Deepen(e, t));
    DeepenStep(e, t);
    DeepenStep(e, Hoist(e, t));
    var picks := e.Picks(t.out.lbl, |t.out.children|);
    forall i | 0 <= i < |picks|
      ensures Deepen(e, Hoist(e, t)).out.children[i] == Hoist(e, Deepen(e, t)).out.children[i]
    {
      DeepenHoistCommute(e, t.out.children[picks[i]]);
    }
    SameLayer(Deepen(e, Hoist(e, t)).out, Hoist(e, Deepen(e, t)).out);
  }

  lemma {:induction false} GpreproWorkerDeepens<E, R, WR, WWR, C>(
      w: ComonadAt<E, R, WR, WWR, C>, dist: RoseF<E, WWR> -> C, e: NatTrans<E, E>, alg: RoseF<E, WR> -> R, t: Fix<E>)
    ensures GpreproWorker(w, dist, e, alg, t) == GcataWorker(w, dist, alg, Deepen(e, t))
    decreases Height(t)
  {
    DeepenStep(e, t);
    GcataStep(w, dist, alg, Deepen(e, t));
    forall i | 0 <= i < |t.out.children|
      ensures GpreproWorker(w, dist, e, alg, Hoist(e, t.out.children[i]))
           == GcataWorker(w, dist, alg, Deepen(e, t).out.children[i])
    {
      var c := t.out.children[i];
      HoistNotHigher(e, c);
      GpreproWorkerDeepens(w, dist, e, alg, Hoist(e, c));
      DeepenHoistCommute(e, c);
    }
    SameLayer(FMap((c: Fix<E>) requires t.out.Has(c) =>
                     (HoistNotHigher(e, c); w.duplicate(w.fmap(alg, GpreproWorker(w, dist, e, alg, Hoist(e, c))))),
                   t.out),
              GcataBelow(w, dist, alg, Deepen(e, t).out));
  }

  /** For every comonad and law, folding with rewriting is folding the deepened tree. */
  lemma GpreproIsGcataOfDeepened<E, R, WR, WWR, C>(
      w: ComonadAt<E, R, WR, WWR, C>, dist: RoseF<E, WWR> -> C, e: NatTrans<E, E>, alg: RoseF<E, WR> -> R, t: Fix<E>)
    ensures Gprepro(w, dist, e, alg, t) == Gcata(w, dist, alg, Deepen(e, t))
  {
    GpreproWorkerDeepens(w, dist, e, alg, t);
  }

  lemma {:induction false} PreproIsFoldOfDeepened<E, R>(e: NatTrans<E, E>, alg: RoseF<E, R> -> R, t: Fix<E>)
    ensures Prepro(e, alg, t) == Fold(alg, Deepen(e, t))
    decreases Height(t)
  {
    DeepenStep(e, t);
    FoldStep(alg, Deepen(e, t));
    forall i | 0 <= i < |t.out.children|
      ensures Prepro(e, alg, Hoist(e, t.out.children[i])) == Fold(alg, Deepen(e, t).out.children[i])
    {
      var c := t.out.children[i];
      HoistNotHigher(e, c);
      PreproIsFoldOfDeepened(e, alg, Hoist(e, c));
      DeepenHoistCommute(e, c);
    }
    SameLayer(FMap((c: Fix<E>) requires t.out.Has(c) => (HoistNotHigher(e, c); Prepro(e, alg, Hoist(e, c))), t.out),
              Folded(alg, Deepen(e, t).out));
  }

  /** For every monad and law, unfolding with rewriting is deepening the unfolded tree. */
  lemma {:induction false} GpostproIsDeepenedGana<E, S, MS, MMS, M>(
      m: MonadAt<E, S, MS, MMS, M>, dist: M -> RoseF<E, MMS>, e: NatTrans<E, E>, psi: S -> RoseF<E, MS>, x: M, n: nat)
    requires Halts(GanaStep(m, dist, psi), x, n)
    ensures GpostproWorker(m, dist, e, psi, x, n) == Deepen(e, GanaWorker(m, dist, psi, x, n))
    decreases n
  {
    var t := GanaWorker(m, dist, psi, x, n);
    DeepenStep(e, t);
    forall i | 0 <= i < |dist(x).children|
      ensures GpostproWorker(m, dist, e, psi, x, n).out.children[i] == Deepen(e, t).out.children[i]
    {
      var next := m.fmap(psi, m.join(dist(x).children[i]));
      StepReaches(m, dist, psi, x, dist(x).children[i], n);
      GpostproIsDeepenedGana(m, dist, e, psi, next, n - 1);
    }
    SameLayer(GpostproWorker(m, dist, e, psi, x, n).out, Deepen(e, t).out);
  }

  lemma {:induction false} PostproIsDeepenedUnfold<E, S>(e: NatTrans<E, E>, psi: S -> RoseF<E, S>, s: S, n: nat)
    requires Halts(psi, s, n)
    ensures Postpro(e, psi, s, n) == Deepen(e, Unfold(psi, s, n))
    decreases n
  {
    var t := Unfold(psi, s, n);
    DeepenStep(e, t);
    forall i | 0 <= i < |psi(s).children|
      ensures Postpro(e, psi, s, n).out.children[i] == Deepen(e, t).out.children[i]
    {
      PostproIsDeepenedUnfold(e, psi, psi(s).children[i], n - 1);
    }
    SameLayer(Postpro(e, psi, s, n).out, Deepen(e, t).out);
  }

  /** Rewriting on the way out of an unfold and on the way into a fold are the same rewriting. */
  lemma PreproAfterUnfoldIsFoldAfterPostpro<E, S, R>(
      e: NatTrans<E, E>, alg: RoseF<E, R> -> R, psi: S -> RoseF<E, S>, s: S, n: nat)
    requires Halts(psi, s, n)
    ensures Prepro(e, alg, Unfold(psi, s, n)) == Fold(alg, Postpro(e, psi, s, n))
  {
    PreproIsFoldOfDeepened(e, alg, Unfold(psi, s, n));
    PostproIsDeepenedUnfold(e, psi, s, n);
  }

  /** At the plain laws the generalized forms are prepro and postpro. */
  lemma GeneralizedRecoversPlain<E, S, R>(
      e: NatTrans<E, E>, alg: RoseF<E, R> -> R, t: Fix<E>, psi: S -> RoseF<E, S>, s: S, n: nat)
    requires Halts(psi, s, n)
    ensures Gprepro(IdentityComonad(), CataDist(), e, LiftAlg(alg), t) == Prepro(e, alg, t)
    ensures Halts(AnaStep(psi), Identity(LiftCoalg(psi)(s)), n)
    ensures Gpostpro(IdentityMonad(), AnaDist(), e, LiftCoalg(psi), s, n) == Postpro(e, psi, s, n)
  {
    GpreproIsGcataOfDeepened(IdentityComonad(), CataDist(), e, LiftAlg(alg), t);
    CataViaGcataIsFold(alg, Deepen(e, t));
    PreproIsFoldOfDeepened(e, alg, t);
    AnaViaGanaIsUnfold(psi, s, n);
    GpostproIsDeepenedGana(IdentityMonad(), AnaDist(), e, LiftCoalg(psi), Identity(LiftCoalg(psi)(s)), n);
    PostproIsDeepenedUnfold(e, psi, s, n);
  }

  function Unchanged<E>(): NatTrans<E, E> {
    NatTrans((lbl: E, n: nat) => lbl, (lbl: E, n: nat) => seq(n, i requires 0 <= i < n => i))
  }

  lemma UnchangedAt<E, A>(l: RoseF<E, A>)
    ensures Unchanged<E>().At(l) == l
  {
    SameLayer(Unchanged<E>().At(l), l);
  }

  lemma {:induction false} HoistUnchanged<E>(t: Fix<E>)
    ensures Hoist(Unchanged(), t) == t
    decreases t
  {
    HoistStep(Unchanged(), t);
    UnchangedAt(t.out);
    forall i | 0 <= i < |t.out.children|
      ensures Hoist(Unchanged(), t.out.children[i]) == t.out.children[i]
    {
      HoistUnchanged(t.out.children[i]);
    }
    SameLayer(Hoisted(Unchanged(), t.out), t.out);
  }

  lemma {:induction false} DeepenUnchanged<E>(t: Fix<E>)
    ensures Deepen(Unchanged(), t) == t
    decreases t
  {
    DeepenStep(Unchanged(), t);
    forall i | 0 <= i < |t.out.children|
      ensures Hoist(Unchanged(), Deepen(Unchanged(), t.out.children[i])) == t.out.children[i]
    {
      DeepenUnchanged(t.out.children[i]);
      HoistUnchanged(t.out.children[i]);
    }
    SameLayer(Deepen(Unchanged(), t).out, t.out);
  }

  /** With nothing to rewrite, the generalized forms are gcata and gana, at every law. */
  lemma UnchangedRecoversGeneralized<E, R, WR, WWR, C, S, MS, MMS, M>(
      w: ComonadAt<E, R, WR, WWR, C>, wdist: RoseF<E, WWR> -> C, alg: RoseF<E, WR> -> R, t: Fix<E>,
      m: MonadAt<E, S, MS, MMS, M>, mdist: M -> RoseF<E, MMS>, psi: S -> RoseF<E, MS>, s: S, n: nat)
    requires Halts(GanaStep(m, mdist, psi), m.pure(psi(s)), n)
    ensures Gprepro(w, wdist, Unchanged(), alg, t) == Gcata(w, wdist, alg, t)
    ensures Gpostpro(m, mdist, Unchanged(), psi, s, n) == Gana(m, mdist, psi, s, n)
  {
    GpreproIsGcataOfDeepened(w, wdist, Unchanged(), alg, t);
    DeepenUnchanged(t);
    GpostproIsDeepenedGana(m, mdist, Unchanged(), psi, m.pure(psi(s)), n);
    DeepenUnchanged(Gana(m, mdist, psi, s, n));
  }

  // ---------------------------------------------------------------------
  // How often each layer is rewritten
  // ---------------------------------------------------------------------

  function Times<E>(e: NatTrans<E, E>, k: nat): NatTrans<E, E> {
    if k == 0 then Unchanged() else Compose(Times(e, k - 1), e)
  }

  /** t stands k levels down: its layer is rewritten k times, and its children once more each. */
  function ByDepth<E>(e: NatTrans<E, E>, k: nat, t: Fix<E>): Fix<E>
    decreases t
  {
    In(FMap((c: Fix<E>) requires t.out.Has(c) => ByDepth(e, k + 1, c), Times(e, k).At(t.out)))
  }

  lemma {:induction false} HoistTimesDeepens<E>(e: NatTrans<E, E>, k: nat, t: Fix<E>)
    ensures Hoist(Times(e, k), Deepen(e, t)) == ByDepth(e, k, t)
    decreases t
  {
    var r, u := Times(e, k), Deepen(e, t);
    HoistAt(r, u);
    DeepenStep(e, t);
    var picks := r.Picks(t.out.lbl, |t.out.children|);
    forall i | 0 <= i < |picks|
      ensures Hoist(r, u).out.children[i] == ByDepth(e, k + 1, t.out.children[picks[i]])
    {
      var c := t.out.children[picks[i]];
      HoistFusion(r, e, Deepen(e, c));
      HoistTimesDeepens(e, k + 1, c);
    }
    SameLayer(Hoist(r, u).out, ByDepth(e, k, t).out);
  }

  /** In a deepened tree a layer at depth k was rewritten exactly k times, the root never. */
  lemma DeepenIsByDepth<E>(e: NatTrans<E, E>, t: Fix<E>)
    ensures Deepen(e, t) == ByDepth(e, 0, t)
  {
    HoistTimesDeepens(e, 0, t);
    HoistUnchanged(Deepen(e, t));
  }

  // ---- relabelling, the case where depth can be read off a path --------

  function Relabel<E>(f: E -> E): NatTrans<E, E> {
    NatTrans((lbl: E, n: nat) => f(lbl), (lbl: E, n: nat) => seq(n, i requires 0 <= i < n => i))
  }

  function Iterate<A>(f: A -> A, k: nat, a: A): A {
    if k == 0 then a else f(Iterate(f, k - 1, a))
  }

  /** u is t with every label changed once per level, counting from k at the root. */
  ghost predicate ChangedByDepth<E>(f: E -> E, k: nat, t: Fix<E>, u: Fix<E>)
    decreases t
  {
    && u.out.lbl == Iterate(f, k, t.out.lbl)
    && |u.out.children| == |t.out.children|
    && forall i | 0 <= i < |t.out.children| :: ChangedByDepth(f, k + 1, t.out.children[i], u.out.children[i])
  }

  lemma {:induction false} RelabelAddsOne<E>(f: E -> E, k: nat, t: Fix<E>, u: Fix<E>)
    requires ChangedByDepth(f, k, t, u)
    ensures ChangedByDepth(f, k + 1, t, Hoist(Relabel(f), u))
    decreases t
  {
    HoistAt(Relabel(f), u);
    forall i | 0 <= i < |t.out.children|
      ensures ChangedByDepth(f, k + 2, t.out.children[i], Hoist(Relabel(f), u).out.children[i])
    {
      RelabelAddsOne(f, k + 1, t.out.children[i], u.out.children[i]);
    }
  }

  /** t relabelled as a whole k times. */
  function Relabelled<E>(f: E -> E, k: nat, t: Fix<E>): Fix<E> {
    if k == 0 then t else Hoist(Relabel(f), Relabelled(f, k - 1, t))
  }

  lemma {:induction false} RelabelledFrom<E>(f: E -> E, k: nat, t: Fix<E>)
    ensures ChangedByDepth(f, k, t, Relabelled(f, k, Deepen(Relabel(f), t)))
    decreases t, k
  {
    if k > 0 {
      RelabelledFrom(f, k - 1, t);
      RelabelAddsOne(f, k - 1, t, Relabelled(f, k - 1, Deepen(Relabel(f), t)));
    } else {
      DeepenStep(Relabel(f), t);
      forall i | 0 <= i < |t.out.children|
        ensures ChangedByDepth(f, k + 1, t.out.children[i], Deepen(Relabel(f), t).out.children[i])
      {
        RelabelledFrom(f, k, t.out.children[i]);
        RelabelAddsOne(f, k, t.out.children[i], Deepen(Relabel(f), t.out.children[i]));
      }
    }
  }

  /** Under a relabelling the root's label is kept, a label d levels down is changed exactly d
      times, and no node moves. */
  lemma RelabelledOncePerLevel<E>(f: E -> E, t: Fix<E>)
    ensures ChangedByDepth(f, 0, t, Deepen(Relabel(f), t))
  {
    RelabelledFrom(f, 0, t);
  }
}
