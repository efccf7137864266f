/** The capstone scheme: a fold with a helper fold beside it, a history, and rewriting. */
module ZygoHisto {
  import opened Functors
  import opened Schemes
  import opened DistLaws
  import opened Generalized
  import opened Rewriting

  /** Duplicating a history under an environment: every position gets the same environment. */
  function Attach<E, H, X>(env: H, c: Cofree<E, X>): Cofree<E, (H, Cofree<E, X>)> {
    CofreeMap((k: Cofree<E, X>) => (env, k), Duplicate(c))
  }

  function EnvCofreeComonad<E, H, R>()
    : ComonadAt<E, R, (H, Cofree<E, R>), (H, Cofree<E, (H, Cofree<E, R>)>), (H, Cofree<E, RoseF<E, (H, Cofree<E, R>)>>)>
  {
    ComonadAt((c: (H, Cofree<E, RoseF<E, (H, Cofree<E, R>)>>)) => c.1.head,
              (f: RoseF<E, (H, Cofree<E, R>)> -> R, c: (H, Cofree<E, RoseF<E, (H, Cofree<E, R>)>>)) =>
                (c.0, CofreeMap(f, c.1)),
              (w: (H, Cofree<E, R>)) => (w.0, Attach(w.0, w.1)))
  }

  function DistZygoHisto<E, H, X>(
      helper: RoseF<E, H> -> H, l: RoseF<E, (H, Cofree<E, X>)>): (H, Cofree<E, RoseF<E, X>>)
  {
    (helper(Firsts(l)), DistHisto(Seconds(l)))
  }

  function ZygoHistoDist<E, H, R>(helper: RoseF<E, H> -> H)
    : RoseF<E, (H, Cofree<E, (H, Cofree<E, R>)>)> -> (H, Cofree<E, RoseF<E, (H, Cofree<E, R>)>>)
  {
    (l: RoseF<E, (H, Cofree<E, (H, Cofree<E, R>)>)>) => DistZygoHisto(helper, l)
  }

  function ZygoHistoPrepro<E, H, R>(
      helper: RoseF<E, H> -> H, e: NatTrans<E, E>, main: RoseF<E, (H, Cofree<E, R>)> -> R, t: Fix<E>): R
  {
    Gprepro(EnvCofreeComonad(), ZygoHistoDist(helper), e, main, t)
  }

  // ---------------------------------------------------------------------
  // What it computes, for every main algebra
  // ---------------------------------------------------------------------

  function UnderEnv<E, H, R>(env: H, l: RoseF<E, Cofree<E, R>>): RoseF<E, (H, Cofree<E, R>)> {
    FMap((y: Cofree<E, R>) => (env, y), l)
  }

  /** A history with every head recomputed as if env were the helper value everywhere below. */
  function Redo<E, H, R>(main: RoseF<E, (H, Cofree<E, R>)> -> R, env: H, c: Cofree<E, R>): Cofree<E, R>
    decreases c
  {
    Cofree(main(UnderEnv(env, c.tail)),
           FMap((k: Cofree<E, R>) requires c.tail.Has(k) => Redo(main, env, k), c.tail))
  }

  /** The history the scheme builds: the result on top is computed from each child's own helper
      value and history, but the cells kept below it are recomputed under the child's value. */
  function EnvHistory<E, H, R>(
      helper: RoseF<E, H> -> H, main: RoseF<E, (H, Cofree<E, R>)> -> R, t: Fix<E>): Cofree<E, R>
    decreases t
  {
    Cofree(main(FMap((c: Fix<E>) requires t.out.Has(c) => (Fold(helper, c), EnvHistory(helper, main, c)), t.out)),
           FMap((c: Fix<E>) requires t.out.Has(c) => Redo(main, Fold(helper, c), EnvHistory(helper, main, c)), t.out))
  }

  function EnvBelow<E, H, R>(
      helper: RoseF<E, H> -> H, main: RoseF<E, (H, Cofree<E, R>)> -> R, l: RoseF<E, Fix<E>>)
    : RoseF<E, (H, Cofree<E, R>)>
  {
    FMap((c: Fix<E>) => (Fold(helper, c), EnvHistory(helper, main, c)), l)
  }

  lemma EnvHistoryStep<E, H, R>(
      helper: RoseF<E, H> -> H, main: RoseF<E, (H, Cofree<E, R>)> -> R, t: Fix<E>)
    ensures EnvHistory(helper, main, t).head == main(EnvBelow(helper, main, t.out))
  {
    SameLayer(FMap((c: Fix<E>) requires t.out.Has(c) => (Fold(helper, c), EnvHistory(helper, main, c)), t.out),
              EnvBelow(helper, main, t.out));
  }

  lemma {:induction false} RedoFromAttached<E, H, R>(
      main: RoseF<E, (H, Cofree<E, R>)> -> R, env: H, c: Cofree<E, R>)
    ensures CofreeMap(main, DistHisto(Attach(env, c).tail)) == Redo(main, env, c)
    decreases c
  {
    var below := Attach(env, c).tail;
    forall i | 0 <= i < |c.tail.children|
      ensures below.children[i] == Attach(env, c.tail.children[i])
      ensures below.children[i].head == (env, c.tail.children[i])
    {
    }
    SameLayer(DistHisto(below).head, UnderEnv(env, c.tail));
    forall i | 0 <= i < |c.tail.children|
      ensures CofreeMap(main, DistHisto(below)).tail.children[i] == Redo(main, env, c.tail.children[i])
    {
      RedoFromAttached(main, env, c.tail.children[i]);
    }
    SameLayer(CofreeMap(main, DistHisto(below)).tail, Redo(main, env, c).tail);
  }

  lemma {:induction false} EnvWorker<E, H, R>(
      helper: RoseF<E, H> -> H, main: RoseF<E, (H, Cofree<E, R>)> -> R, t: Fix<E>)
    ensures GcataWorker(EnvCofreeComonad(), ZygoHistoDist(helper), main, t).0 == Fold(helper, t)
    ensures GcataWorker(EnvCofreeComonad(), ZygoHistoDist(helper), main, t).1.head == EnvBelow(helper, main, t.out)
    ensures CofreeMap(main, GcataWorker(EnvCofreeComonad(), ZygoHistoDist(helper), main, t).1)
         == EnvHistory(helper, main, t)
    decreases t
  {
    var w := GcataWorker(EnvCofreeComonad(), ZygoHistoDist(helper), main, t);
    var below := GcataBelow(EnvCofreeComonad(), ZygoHistoDist(helper), main, t.out);
    GcataStep(EnvCofreeComonad(), ZygoHistoDist(helper), main, t);
    forall i | 0 <= i < |t.out.children|
      ensures var c := t.out.children[i];
              below.children[i] == (Fold(helper, c), Attach(Fold(helper, c), EnvHistory(helper, main, c)))
    {
      EnvWorker(helper, main, t.out.children[i]);
    }
    FoldStep(helper, t);
    SameLayer(Firsts(below), Folded(helper, t.out));
    SameLayer(w.1.head, EnvBelow(helper, main, t.out));
    EnvHistoryStep(helper, main, t);
    forall i | 0 <= i < |t.out.children|
      ensures CofreeMap(main, w.1).tail.children[i] == EnvHistory(helper, main, t).tail.children[i]
    {
      var c := t.out.children[i];
      RedoFromAttached(main, Fold(helper, c), EnvHistory(helper, main, c));
      assert w.1.tail.children[i] == DistHisto(Seconds(below).children[i].tail);
    }
    SameLayer(CofreeMap(main, w.1).tail, EnvHistory(helper, main, t).tail);
  }

  /** For every helper, rewriting and main algebra: the scheme is the history above, taken over
      the tree whose layers are rewritten as often as they are deep. */
  lemma ZygoHistoPreproIsEnvHistory<E, H, R>(
      helper: RoseF<E, H> -> H, e: NatTrans<E, E>, main: RoseF<E, (H, Cofree<E, R>)> -> R, t: Fix<E>)
    ensures ZygoHistoPrepro(helper, e, main, t) == EnvHistory(helper, main, Deepen(e, t)).head
  {
    GpreproIsGcataOfDeepened(EnvCofreeComonad(), ZygoHistoDist(helper), e, main, t);
    EnvWorker(helper, main, Deepen(e, t));
    EnvHistoryStep(helper, main, Deepen(e, t));
  }

  // ---------------------------------------------------------------------
  // Algebras that stay within one layer of the history
  // ---------------------------------------------------------------------

  function OneLayerView<E, H, R>(l: RoseF<E, (H, Cofree<E, R>)>): RoseF<E, (H, R)> {
    FMap((p: (H, Cofree<E, R>)) => (p.0, p.1.head), l)
  }

  /** A main algebra that reads the helper value and the last result of each child, no more. */
  function ReadsOneLayer<E, H, R>(main: RoseF<E, (H, R)> -> R): RoseF<E, (H, Cofree<E, R>)> -> R {
    (l: RoseF<E, (H, Cofree<E, R>)>) => main(OneLayerView(l))
  }

  /** Direct recursion: rewrite each child, then pair the helper's prepro with the result. */
  function RewritingZygo<E, H, R>(
      helper: RoseF<E, H> -> H, e: NatTrans<E, E>, main: RoseF<E, (H, R)> -> R, t: Fix<E>): R
    decreases Height(t)
  {
    main(FMap((c: Fix<E>) requires t.out.Has(c) =>
                (HoistNotHigher(e, c);
                 (Prepro(e, helper, Hoist(e, c)), RewritingZygo(helper, e, main, Hoist(e, c)))),
              t.out))
  }

  lemma {:induction false} RewritingZygoIsZygoOfDeepened<E, H, R>(
      helper: RoseF<E, H> -> H, e: NatTrans<E, E>, main: RoseF<E, (H, R)> -> R, t: Fix<E>)
    ensures RewritingZygo(helper, e, main, t) == Zygo(helper, main, Deepen(e, t))
    decreases Height(t)
  {
    var u := Deepen(e, t);
    DeepenStep(e, t);
    ZygoIsMutual(helper, main, u);
    forall i | 0 <= i < |t.out.children|
      ensures Prepro(e, helper, Hoist(e, t.out.children[i])) == Fold(helper, u.out.children[i])
      ensures RewritingZygo(helper, e, main, Hoist(e, t.out.children[i])) == Zygo(helper, main, u.out.children[i])
    {
      var c := t.out.children[i];
      HoistNotHigher(e, c);
      RewritingZygoIsZygoOfDeepened(helper, e, main, Hoist(e, c));
      PreproIsFoldOfDeepened(e, helper, Hoist(e, c));
      DeepenHoistCommute(e, c);
    }
    SameLayer(FMap((c: Fix<E>) requires t.out.Has(c) =>
                     (HoistNotHigher(e, c);
                      (Prepro(e, helper, Hoist(e, c)), RewritingZygo(helper, e, main, Hoist(e, c)))),
                   t.out),
              ZygoBelow(helper, main, u.out));
  }

  lemma {:induction false} OneLayerHistory<E, H, R>(
      helper: RoseF<E, H> -> H, main: RoseF<E, (H, R)> -> R, t: Fix<E>)
    ensures EnvHistory(helper, ReadsOneLayer(main), t).head == Zygo(helper, main, t)
    decreases t
  {
    EnvHistoryStep(helper, ReadsOneLayer(main), t);
    ZygoIsMutual(helper, main, t);
    forall i | 0 <= i < |t.out.children|
      ensures EnvHistory(helper, ReadsOneLayer(main), t.out.children[i]).head == Zygo(helper, main, t.out.children[i])
    {
      OneLayerHistory(helper, main, t.out.children[i]);
    }
    SameLayer(OneLayerView(EnvBelow(helper, ReadsOneLayer(main), t.out)), ZygoBelow(helper, main, t.out));
  }

  /** Then the scheme is the direct recursion, and the zygomorphism of the rewritten tree. */
  lemma OneLayerAlgebrasAreDirect<E, H, R>(
      helper: RoseF<E, H> -> H, e: NatTrans<E, E>, main: RoseF<E, (H, R)> -> R, t: Fix<E>)
    ensures ZygoHistoPrepro(helper, e, ReadsOneLayer(main), t) == RewritingZygo(helper, e, main, t)
    ensures ZygoHistoPrepro(helper, e, ReadsOneLayer(main), t) == Zygo(helper, main, Deepen(e, t))
  {
    ZygoHistoPreproIsEnvHistory(helper, e, ReadsOneLayer(main), t);
    OneLayerHistory(helper, main, Deepen(e, t));
    RewritingZygoIsZygoOfDeepened(helper, e, main, t);
  }

  /** An algebra on the results alone. */
  function SeesHeads<E, H, R>(alg: RoseF<E, R> -> R): RoseF<E, (H, R)> -> R {
    (l: RoseF<E, (H, R)>) => alg(Seconds(l))
  }

  lemma {:induction false} ZygoOfHeadsIsFold<E, H, R>(helper: RoseF<E, H> -> H, alg: RoseF<E, R> -> R, t: Fix<E>)
    ensures Zygo(helper, SeesHeads(alg), t) == Fold(alg, t)
    decreases t
  {
    ZygoIsMutual(helper, SeesHeads(alg), t);
    FoldStep(alg, t);
    forall i | 0 <= i < |t.out.children|
      ensures Zygo(helper, SeesHeads(alg), t.out.children[i]) == Fold(alg, t.out.children[i])
    {
      ZygoOfHeadsIsFold(helper, alg, t.out.children[i]);
    }
    SameLayer(Seconds(ZygoBelow(helper, SeesHeads(alg), t.out)), Folded(alg, t.out));
  }

  /** The degenerate case: nothing rewritten, the helper ignored and only results read is a
      plain fold; with rewriting it is the prepromorphism. */
  lemma DegeneratesToFold<E, H, R>(helper: RoseF<E, H> -> H, e: NatTrans<E, E>, alg: RoseF<E, R> -> R, t: Fix<E>)
    ensures ZygoHistoPrepro(helper, Unchanged(), ReadsOneLayer(SeesHeads(alg)), t) == Fold(alg, t)
    ensures ZygoHistoPrepro(helper, e, ReadsOneLayer(SeesHeads(alg)), t) == Prepro(e, alg, t)
  {
    OneLayerAlgebrasAreDirect(helper, Unchanged(), SeesHeads(alg), t);
    DeepenUnchanged(t);
    ZygoOfHeadsIsFold(helper, alg, t);
    OneLayerAlgebrasAreDirect(helper, e, SeesHeads(alg), t);
    ZygoOfHeadsIsFold(helper, alg, Deepen(e, t));
    PreproIsFoldOfDeepened(e, alg, t);
  }

  // ---------------------------------------------------------------------
  // Algebras that ignore the helper
  // ---------------------------------------------------------------------

  function IgnoresHelper<E, H, R>(main: RoseF<E, Cofree<E, R>> -> R): RoseF<E, (H, Cofree<E, R>)> -> R {
    (l: RoseF<E, (H, Cofree<E, R>)>) => main(Seconds(l))
  }

  lemma {:induction false} RedoKeepsHistory<E, H, R>(
      main: RoseF<E, Cofree<E, R>> -> R, env: H, t: Fix<E>)
    ensures Redo(IgnoresHelper(main), env, History(main, t)) == History(main, t)
    decreases t
  {
    var h := History(main, t);
    HistoryStep(main, t);
    SameLayer(Seconds(UnderEnv(env, h.tail)), h.tail);
    forall i | 0 <= i < |t.out.children|
      ensures Redo(IgnoresHelper(main), env, h.tail.children[i]) == h.tail.children[i]
    {
      RedoKeepsHistory(main, env, t.out.children[i]);
    }
    SameLayer(Redo(IgnoresHelper(main), env, h).tail, h.tail);
  }

  lemma {:induction false} HelperlessHistory<E, H, R>(
      helper: RoseF<E, H> -> H, main: RoseF<E, Cofree<E, R>> -> R, t: Fix<E>)
    ensures EnvHistory(helper, IgnoresHelper(main), t) == History(main, t)
    decreases t
  {
    var g := IgnoresHelper<E, H, R>(main);
    var h := EnvHistory(helper, g, t);
    HistoryStep(main, t);
    EnvHistoryStep(helper, g, t);
    forall i | 0 <= i < |t.out.children|
      ensures EnvHistory(helper, g, t.out.children[i]) == History(main, t.out.children[i])
      ensures h.tail.children[i] == History(main, t.out.children[i])
    {
      HelperlessHistory(helper, main, t.out.children[i]);
      RedoKeepsHistory(main, Fold(helper, t.out.children[i]), t.out.children[i]);
    }
    SameLayer(Seconds(EnvBelow(helper, g, t.out)), Folded(HistoAlg(main), t.out));
    SameLayer(h.tail, History(main, t).tail);
  }

  /** Then the history is exact at every depth, and the scheme is the histomorphism. */
  lemma HelperlessAlgebrasAreHisto<E, H, R>(
      helper: RoseF<E, H> -> H, e: NatTrans<E, E>, main: RoseF<E, Cofree<E, R>> -> R, t: Fix<E>)
    ensures ZygoHistoPrepro(helper, e, IgnoresHelper(main), t) == Histo(main, Deepen(e, t))
  {
    ZygoHistoPreproIsEnvHistory<E, H, R>(helper, e, IgnoresHelper(main), t);
    HelperlessHistory(helper, main, Deepen(e, t));
  }

  // ---------------------------------------------------------------------
  // Where the deeper cells stop being the subtrees' results
  // ---------------------------------------------------------------------

  /** The history in which every cell is the result of the subtree it stands for. */
  function TrueHistory<E, H, R>(
      helper: RoseF<E, H> -> H, main: RoseF<E, (H, Cofree<E, R>)> -> R, t: Fix<E>): Cofree<E, R>
    decreases t
  {
    Cofree(main(FMap((c: Fix<E>) requires t.out.Has(c) => (Fold(helper, c), TrueHistory(helper, main, c)), t.out)),
           FMap((c: Fix<E>) requires t.out.Has(c) => TrueHistory(helper, main, c), t.out))
  }

  function TrueBelow<E, H, R>(
      helper: RoseF<E, H> -> H, main: RoseF<E, (H, Cofree<E, R>)> -> R, l: RoseF<E, Fix<E>>)
    : RoseF<E, (H, Cofree<E, R>)>
  {
    FMap((c: Fix<E>) => (Fold(helper, c), TrueHistory(helper, main, c)), l)
  }

  lemma TrueHistoryStep<E, H, R>(
      helper: RoseF<E, H> -> H, main: RoseF<E, (H, Cofree<E, R>)> -> R, t: Fix<E>)
    ensures TrueHistory(helper, main, t).head == main(TrueBelow(helper, main, t.out))
  {
    SameLayer(FMap((c: Fix<E>) requires t.out.Has(c) => (Fold(helper, c), TrueHistory(helper, main, c)), t.out),
              TrueBelow(helper, main, t.out));
  }

  lemma {:induction false} TwoLayersAreTrue<E, H, R>(
      helper: RoseF<E, H> -> H, main: RoseF<E, (H, Cofree<E, R>)> -> R, t: Fix<E>)
    requires Height(t) <= 2
    ensures EnvHistory(helper, main, t) == TrueHistory(helper, main, t)
    decreases t
  {
    var h, u := EnvHistory(helper, main, t), TrueHistory(helper, main, t);
    EnvHistoryStep(helper, main, t);
    TrueHistoryStep(helper, main, t);
    forall i | 0 <= i < |t.out.children|
      ensures EnvHistory(helper, main, t.out.children[i]) == TrueHistory(helper, main, t.out.children[i])
      ensures h.tail.children[i] == u.tail.children[i]
    {
      var c := t.out.children[i];
      assert Height(c) == 1;
      LeafHasNoChildren(c);
      TwoLayersAreTrue(helper, main, c);
      var hc := EnvHistory(helper, main, c);
      EnvHistoryStep(helper, main, c);
      SameLayer(UnderEnv(Fold(helper, c), hc.tail), EnvBelow(helper, main, c.out));
      SameLayer(Redo(main, Fold(helper, c), hc).tail, hc.tail);
    }
    SameLayer(EnvBelow(helper, main, t.out), TrueBelow(helper, main, t.out));
    SameLayer(h.tail, u.tail);
  }

  lemma LeafHasNoChildren<E>(t: Fix<E>)
    requires Height(t) == 1
    ensures t.out.children == []
  {
    assert t.out.children != [] ==> Height(t.out.children[0]) < Height(t);
  }

  lemma ThreeLayersAreTrue<E, H, R>(
      helper: RoseF<E, H> -> H, main: RoseF<E, (H, Cofree<E, R>)> -> R, t: Fix<E>)
    requires Height(t) <= 3
    ensures EnvHistory(helper, main, t).head == TrueHistory(helper, main, t).head
  {
    EnvHistoryStep(helper, main, t);
    TrueHistoryStep(helper, main, t);
    forall i | 0 <= i < |t.out.children|
      ensures EnvHistory(helper, main, t.out.children[i]) == TrueHistory(helper, main, t.out.children[i])
    {
      TwoLayersAreTrue(helper, main, t.out.children[i]);
    }
    SameLayer(EnvBelow(helper, main, t.out), TrueBelow(helper, main, t.out));
  }

  // ---- an algebra that tells them apart on any higher tree -------------

  /** A layer over leaves, at least one. */
  ghost predicate IsTwig<E, A>(l: RoseF<E, Cofree<E, A>>) {
    l.children != [] && forall i | 0 <= i < |l.children| :: l.children[i].tail.children == []
  }

  /** Somewhere in the history a cell stands over leaves only. */
  ghost predicate HasTwig<E, A>(c: Cofree<E, A>)
    decreases c
  {
    IsTwig(c.tail) || exists i | 0 <= i < |c.tail.children| :: HasTwig(c.tail.children[i])
  }

  /** Somewhere in the history a cell over leaves only holds the mark. */
  ghost predicate HasMark<E, A>(mark: A, c: Cofree<E, A>)
    decreases c
  {
    (IsTwig(c.tail) && c.head == mark) || exists i | 0 <= i < |c.tail.children| :: HasMark(mark, c.tail.children[i])
  }

  /** Tells leaves from other nodes. */
  function LeafOrNot<E, H>(leaf: H, other: H): RoseF<E, H> -> H {
    (l: RoseF<E, H>) => if l.children == [] then leaf else other
  }

  /** Over leaves only, marks a helper value that is not a leaf's; higher up, passes a mark on. */
  ghost function Marking<E, H, R>(leaf: H, plain: R, mark: R): RoseF<E, (H, Cofree<E, R>)> -> R {
    (l: RoseF<E, (H, Cofree<E, R>)>) => if Marks(leaf, mark, l) then mark else plain
  }

  ghost predicate Marks<E, H, R>(leaf: H, mark: R, l: RoseF<E, (H, Cofree<E, R>)>) {
    if IsTwig(Seconds(l)) then l.children[0].0 != leaf
    else exists i | 0 <= i < |l.children| :: HasMark(mark, l.children[i].1)
  }

  /** Each child of a node over leaves only has a leaf's helper value, so nothing is marked. */
  lemma {:induction false} TrueHistoryUnmarked<E, H, R>(leaf: H, other: H, plain: R, mark: R, t: Fix<E>)
    requires plain != mark
    ensures !HasMark(mark, TrueHistory(LeafOrNot(leaf, other), Marking(leaf, plain, mark), t))
    ensures TrueHistory(LeafOrNot(leaf, other), Marking(leaf, plain, mark), t).head == plain
    decreases t
  {
    var helper, main := LeafOrNot<E, H>(leaf, other), Marking<E, H, R>(leaf, plain, mark);
    var l := TrueBelow(helper, main, t.out);
    TrueHistoryStep(helper, main, t);
    forall i | 0 <= i < |t.out.children|
      ensures !HasMark(mark, l.children[i].1)
    {
      TrueHistoryUnmarked(leaf, other, plain, mark, t.out.children[i]);
    }
    if IsTwig(Seconds(l)) {
      FoldStep(helper, t.out.children[0]);
      assert Seconds(l).children[0].tail.children == [];
    }
    SameLayer(TrueHistory(helper, main, t).tail, Seconds(l));
  }

  lemma RedoKeepsLeaf<E, H, R>(main: RoseF<E, (H, Cofree<E, R>)> -> R, env: H, c: Cofree<E, R>)
    requires c.tail.children == []
    ensures Redo(main, env, c).tail.children == []
  {
  }

  lemma RedoKeepsTwig<E, H, R>(main: RoseF<E, (H, Cofree<E, R>)> -> R, env: H, c: Cofree<E, R>)
    requires IsTwig(c.tail)
    ensures IsTwig(Redo(main, env, c).tail)
  {
    forall i | 0 <= i < |c.tail.children|
      ensures Redo(main, env, c).tail.children[i].tail.children == []
    {
      RedoKeepsLeaf(main, env, c.tail.children[i]);
    }
  }

  /** Recomputed under another value, the first node over leaves only is marked. */
  lemma {:induction false} RedoneIsMarked<E, H, R>(leaf: H, plain: R, mark: R, env: H, c: Cofree<E, R>)
    requires env != leaf && HasTwig(c)
    ensures HasMark(mark, Redo(Marking(leaf, plain, mark), env, c))
    decreases c
  {
    var main := Marking<E, H, R>(leaf, plain, mark);
    var u := Redo(main, env, c);
    if IsTwig(c.tail) {
      SameLayer(Seconds(UnderEnv(env, c.tail)), c.tail);
      RedoKeepsTwig(main, env, c);
    } else {
      var i :| 0 <= i < |c.tail.children| && HasTwig(c.tail.children[i]);
      RedoneIsMarked(leaf, plain, mark, env, c.tail.children[i]);
      assert HasMark(mark, u.tail.children[i]);
    }
  }

  lemma {:induction false} RedoKeepsTwigs<E, H, R>(main: RoseF<E, (H, Cofree<E, R>)> -> R, env: H, c: Cofree<E, R>)
    requires HasTwig(c)
    ensures HasTwig(Redo(main, env, c))
    decreases c
  {
    var u := Redo(main, env, c);
    if IsTwig(c.tail) {
      RedoKeepsTwig(main, env, c);
    } else {
      var i :| 0 <= i < |c.tail.children| && HasTwig(c.tail.children[i]);
      RedoKeepsTwigs(main, env, c.tail.children[i]);
      assert HasTwig(u.tail.children[i]);
    }
  }

  /** The history of a node with children has a node over leaves only. */
  lemma {:induction false} HistoryHasTwig<E, H, R>(
      helper: RoseF<E, H> -> H, main: RoseF<E, (H, Cofree<E, R>)> -> R, t: Fix<E>)
    requires t.out.children != []
    ensures HasTwig(EnvHistory(helper, main, t))
    decreases t
  {
    var c := EnvHistory(helper, main, t);
    if i :| 0 <= i < |t.out.children| && t.out.children[i].out.children != [] {
      var k := t.out.children[i];
      HistoryHasTwig(helper, main, k);
      RedoKeepsTwigs(main, Fold(helper, k), EnvHistory(helper, main, k));
      assert HasTwig(c.tail.children[i]);
    } else {
      forall i | 0 <= i < |c.tail.children|
        ensures c.tail.children[i].tail.children == []
      {
        assert t.out.children[i].out.children == [];
      }
    }
  }

  lemma HighestChild<E>(t: Fix<E>) returns (i: nat)
    requires Height(t) > 1
    ensures i < |t.out.children| && Height(t.out.children[i]) == Height(t) - 1
  {
    var heights := FMap((c: Fix<E>) requires t.out.Has(c) => Height(c), t.out).children;
    i :| 0 <= i < |heights| && heights[i] == MaxOf(heights);
  }

  /** Below c the cells are recomputed under the value of a child of c, which is no leaf. */
  lemma ChildIsMarked<E, H, R>(leaf: H, other: H, plain: R, mark: R, c: Fix<E>)
    requires Height(c) >= 3 && leaf != other
    ensures HasMark(mark, EnvHistory(LeafOrNot(leaf, other), Marking(leaf, plain, mark), c))
  {
    var helper, main := LeafOrNot<E, H>(leaf, other), Marking<E, H, R>(leaf, plain, mark);
    var i := HighestChild(c);
    var y := c.out.children[i];
    var below := HighestChild(y);
    HistoryHasTwig(helper, main, y);
    FoldStep(helper, y);
    RedoneIsMarked(leaf, plain, mark, Fold(helper, y), EnvHistory(helper, main, y));
    assert HasMark(mark, EnvHistory(helper, main, c).tail.children[i]);
  }

  /** On every tree of four layers or more, and for any two values of each type, the scheme
      gives this algebra the one where the true history gives it the other. */
  lemma HigherTreesDiffer<E, H, R>(leaf: H, other: H, plain: R, mark: R, t: Fix<E>)
    requires Height(t) >= 4 && leaf != other && plain != mark
    ensures EnvHistory(LeafOrNot(leaf, other), Marking(leaf, plain, mark), t).head == mark
    ensures TrueHistory(LeafOrNot(leaf, other), Marking(leaf, plain, mark), t).head == plain
  {
    var helper, main := LeafOrNot<E, H>(leaf, other), Marking<E, H, R>(leaf, plain, mark);
    var l := EnvBelow(helper, main, t.out);
    var i := HighestChild(t);
    var c := t.out.children[i];
    TrueHistoryUnmarked(leaf, other, plain, mark, t);
    EnvHistoryStep(helper, main, t);
    ChildIsMarked(leaf, other, plain, mark, c);
    assert HasMark(mark, l.children[i].1);
    var below := HighestChild(c);
    assert Seconds(l).children[i].tail.children != [];
  }

  ghost predicate Same<T>(x: T, y: T) { x == y }

  /** The type has no two values that differ. */
  ghost predicate OneValue<T(!new)>(some: T) {
    forall x: T :: Same(x, some)
  }

  /** With a single helper value it does not matter whose is used. */
  lemma {:induction false} OneHelperValueIsTrue<E, H(!new), R>(
      helper: RoseF<E, H> -> H, main: RoseF<E, (H, Cofree<E, R>)> -> R, env: H, t: Fix<E>)
    requires OneValue(env)
    ensures EnvHistory(helper, main, t) == TrueHistory(helper, main, t)
    ensures Redo(main, env, TrueHistory(helper, main, t)) == TrueHistory(helper, main, t)
    decreases t
  {
    var h, u := EnvHistory(helper, main, t), TrueHistory(helper, main, t);
    EnvHistoryStep(helper, main, t);
    TrueHistoryStep(helper, main, t);
    forall i | 0 <= i < |t.out.children|
      ensures EnvHistory(helper, main, t.out.children[i]) == TrueHistory(helper, main, t.out.children[i])
      ensures Redo(main, env, u.tail.children[i]) == u.tail.children[i]
      ensures Same(Fold(helper, t.out.children[i]), env)
    {
      OneHelperValueIsTrue(helper, main, env, t.out.children[i]);
    }
    SameLayer(EnvBelow(helper, main, t.out), TrueBelow(helper, main, t.out));
    SameLayer(UnderEnv(env, u.tail), TrueBelow(helper, main, t.out));
    SameLayer(h.tail, u.tail);
    SameLayer(Redo(main, env, u).tail, u.tail);
  }

  /** The history the scheme builds gives the true result, for every helper and main algebra,
      exactly on the trees of at most three layers, unless a type has but one value. */
  lemma HistoriesAgreeIff<E(!new), H(!new), R(!new)>(h: H, r: R, t: Fix<E>)
    ensures (forall helper: RoseF<E, H> -> H, main: RoseF<E, (H, Cofree<E, R>)> -> R ::
               EnvHistory(helper, main, t).head == TrueHistory(helper, main, t).head)
            <==> Height(t) <= 3 || OneValue(h) || OneValue(r)
  {
    if Height(t) <= 3 || OneValue(h) || OneValue(r) {
      forall helper: RoseF<E, H> -> H, main: RoseF<E, (H, Cofree<E, R>)> -> R
        ensures EnvHistory(helper, main, t).head == TrueHistory(helper, main, t).head
      {
        if Height(t) <= 3 {
          ThreeLayersAreTrue(helper, main, t);
        } else if OneValue(h) {
          OneHelperValueIsTrue(helper, main, h, t);
        } else {
          assert Same(EnvHistory(helper, main, t).head, r) && Same(TrueHistory(helper, main, t).head, r);
        }
      }
    } else {
      var other: H :| !Same(other, h);
      var mark: R :| !Same(mark, r);
      HigherTreesDiffer(h, other, r, mark, t);
    }
  }

  /** Whatever the rewriting, the scheme agrees with the true history of the rewritten tree for
      every helper and every main algebra, to whatever depth it looks, exactly when that tree has
      at most three layers. The one other way is a type, of helper values or of results, with
      nothing in it but h or r. */
  lemma TrueForEveryAlgebraIff<E(!new), H(!new), R(!new)>(h: H, r: R, e: NatTrans<E, E>, t: Fix<E>)
    ensures (forall helper: RoseF<E, H> -> H, main: RoseF<E, (H, Cofree<E, R>)> -> R ::
               ZygoHistoPrepro(helper, e, main, t) == TrueHistory(helper, main, Deepen(e, t)).head)
            <==> Height(Deepen(e, t)) <= 3 || OneValue(h) || OneValue(r)
  {
    HistoriesAgreeIff(h, r, Deepen(e, t));
    forall helper: RoseF<E, H> -> H, main: RoseF<E, (H, Cofree<E, R>)> -> R
      ensures ZygoHistoPrepro(helper, e, main, t) == EnvHistory(helper, main, Deepen(e, t)).head
    {
      ZygoHistoPreproIsEnvHistory(helper, e, main, t);
    }
  }

  /** A chain of four layers. */
  function FourChain(): Fix<int> {
    In(RoseF(1, [In(RoseF(2, [In(RoseF(3, [In(RoseF(4, []))]))]))]))
  }

  /** On the chain, asked whether some lowest node has a child that is no leaf: the scheme says
      yes, although the only one has a leaf. */
  lemma FourChainDiffers()
    ensures ZygoHistoPrepro(LeafOrNot(true, false), Unchanged(), Marking(true, false, true), FourChain()) == true
    ensures TrueHistory(LeafOrNot(true, false), Marking(true, false, true), FourChain()).head == false
  {
    var t := FourChain();
    assert Height(t) > Height(t.out.children[0]) > Height(t.out.children[0].out.children[0]) > 1;
    DeepenUnchanged(t);
    ZygoHistoPreproIsEnvHistory(LeafOrNot(true, false), Unchanged(), Marking(true, false, true), t);
    HigherTreesDiffer(true, false, false, true, t);
  }
}
