/** Distributive laws of the base functor over the comonads and monads the generalized
    schemes are run at, and the laws that make them lawful. */
module DistLaws {
  import opened Wrappers
  import opened Functors
  import opened Schemes

  datatype Identity<+A> = Identity(value: A)

  function DistCata<E, A>(l: RoseF<E, Identity<A>>): Identity<RoseF<E, A>> {
    Identity(FMap((i: Identity<A>) => i.value, l))
  }

  function DistAna<E, A>(m: Identity<RoseF<E, A>>): RoseF<E, Identity<A>> {
    FMap((a: A) => Identity(a), m.value)
  }

  function DistZygo<E, H, A>(helper: RoseF<E, H> -> H, l: RoseF<E, (H, A)>): (H, RoseF<E, A>) {
    (helper(Firsts(l)), Seconds(l))
  }

  function DistPara<E, A>(l: RoseF<E, (Fix<E>, A)>): (Fix<E>, RoseF<E, A>) {
    (In(Firsts(l)), Seconds(l))
  }

  function DistHisto<E, A>(l: RoseF<E, Cofree<E, A>>): Cofree<E, RoseF<E, A>>
    decreases l
  {
    Cofree(FMap((c: Cofree<E, A>) => c.head, l),
           FMap((c: Cofree<E, A>) requires l.Has(c) => DistHisto(c.tail), l))
  }

  function DistApo<E, A>(e: Either<Fix<E>, RoseF<E, A>>): RoseF<E, Either<Fix<E>, A>> {
    match e
    case Left(t) => FMap((c: Fix<E>) => Either<Fix<E>, A>.Left(c), t.out)
    case Right(l) => FMap((a: A) => Either<Fix<E>, A>.Right(a), l)
  }

  function DistFutu<E, A>(m: Free<E, RoseF<E, A>>): RoseF<E, Free<E, A>>
    decreases m
  {
    match m
    case Pure(l) => FMap((a: A) => Free<E, A>.Pure(a), l)
    case Roll(l) => FMap((c: Free<E, RoseF<E, A>>) requires l.Has(c) => Free<E, A>.Roll(DistFutu(c)), l)
  }

  // ---------------------------------------------------------------------
  // Laws
  // ---------------------------------------------------------------------

  /** DistHisto commutes with extract and with duplicate, on every layer of annotated trees. */
  lemma {:induction false} DistHistoLawful<E, A>(l: RoseF<E, Cofree<E, A>>)
    ensures DistHisto(l).head == FMap((c: Cofree<E, A>) => c.head, l)
    ensures Duplicate(DistHisto(l))
         == CofreeMap((k: RoseF<E, Cofree<E, A>>) => DistHisto(k),
                      DistHisto(FMap((c: Cofree<E, A>) => Duplicate(c), l)))
    decreases l
  {
    var dist := (k: RoseF<E, Cofree<E, A>>) => DistHisto(k);
    var dups := FMap((c: Cofree<E, A>) => Duplicate(c), l);
    var lhs, rhs := Duplicate(DistHisto(l)), CofreeMap(dist, DistHisto(dups));
    SameLayer(DistHisto(dups).head, l);
    forall i | 0 <= i < |l.children|
      ensures lhs.tail.children[i] == rhs.tail.children[i]
    {
      var k := l.children[i].tail;
      DistHistoLawful(k);
      SameLayer(dups.children[i].tail, FMap((c: Cofree<E, A>) => Duplicate(c), k));
      assert DistHisto(dups).tail.children[i] == DistHisto(dups.children[i].tail);
    }
    SameLayer(lhs.tail, rhs.tail);
  }

  lemma {:induction false} DistHistoNatural<E, A, B>(f: A -> B, l: RoseF<E, Cofree<E, A>>)
    ensures DistHisto(FMap((c: Cofree<E, A>) => CofreeMap(f, c), l))
         == CofreeMap((k: RoseF<E, A>) => FMap(f, k), DistHisto(l))
    decreases l
  {
    var mapped := FMap((c: Cofree<E, A>) => CofreeMap(f, c), l);
    var layerwise := (k: RoseF<E, A>) => FMap(f, k);
    var lhs, rhs := DistHisto(mapped), CofreeMap(layerwise, DistHisto(l));
    SameLayer(lhs.head, rhs.head);
    forall i | 0 <= i < |l.children|
      ensures lhs.tail.children[i] == rhs.tail.children[i]
    {
      var k := l.children[i].tail;
      DistHistoNatural(f, k);
      SameLayer(mapped.children[i].tail, FMap((c: Cofree<E, A>) => CofreeMap(f, c), k));
      assert lhs.tail.children[i] == DistHisto(mapped.children[i].tail);
      assert DistHisto(l).tail.children[i] == DistHisto(k);
    }
    SameLayer(lhs.tail, rhs.tail);
  }

  /** DistFutu commutes with pure and with join, on every chunk. */
  lemma {:induction false} DistFutuLawful<E, A>(l: RoseF<E, A>, mm: Free<E, Free<E, RoseF<E, A>>>)
    ensures DistFutu(Pure(l)) == FMap((a: A) => Free<E, A>.Pure(a), l)
    ensures DistFutu(FreeJoin(mm))
         == FMap((m: Free<E, Free<E, A>>) => FreeJoin(m),
                 DistFutu(FreeMap((m: Free<E, RoseF<E, A>>) => DistFutu(m), mm)))
    decreases mm
  {
    var dist := (m: Free<E, RoseF<E, A>>) => DistFutu(m);
    var join := (m: Free<E, Free<E, A>>) => FreeJoin(m);
    var lhs, rhs := DistFutu(FreeJoin(mm)), FMap(join, DistFutu(FreeMap(dist, mm)));
    if mm.Roll? {
      forall i | 0 <= i < |mm.layer.children|
        ensures lhs.children[i] == rhs.children[i]
      {
        var c := mm.layer.children[i];
        DistFutuLawful(l, c);
        var down := DistFutu(FreeMap(dist, c));
        assert lhs.children[i] == Free<E, A>.Roll(DistFutu(FreeJoin(c)));
        assert rhs.children[i] == FreeJoin(Free<E, Free<E, A>>.Roll(down));
        SameLayer(FreeJoin(Free<E, Free<E, A>>.Roll(down)).layer, FMap(join, down));
      }
    }
    SameLayer(lhs, rhs);
  }

  lemma {:induction false} DistFutuNatural<E, A, B>(f: A -> B, m: Free<E, RoseF<E, A>>)
    ensures DistFutu(FreeMap((l: RoseF<E, A>) => FMap(f, l), m))
         == FMap((c: Free<E, A>) => FreeMap(f, c), DistFutu(m))
    decreases m
  {
    var layerwise := (l: RoseF<E, A>) => FMap(f, l);
    var inside := (c: Free<E, A>) => FreeMap(f, c);
    var lhs, rhs := DistFutu(FreeMap(layerwise, m)), FMap(inside, DistFutu(m));
    if m.Roll? {
      forall i | 0 <= i < |m.layer.children|
        ensures lhs.children[i] == rhs.children[i]
      {
        var c := m.layer.children[i];
        DistFutuNatural(f, c);
        assert lhs.children[i] == Free<E, B>.Roll(DistFutu(FreeMap(layerwise, c)));
        SameLayer(FreeMap(f, Free<E, A>.Roll(DistFutu(c))).layer, FMap(inside, DistFutu(c)));
      }
    }
    SameLayer(lhs, rhs);
  }

  function EitherJoin<L, A>(e: Either<L, Either<L, A>>): Either<L, A> {
    match e case Left(l) => Left(l) case Right(r) => r
  }

  function EitherMap<L, A, B>(f: A -> B, e: Either<L, A>): Either<L, B> {
    match e case Left(l) => Left(l) case Right(a) => Right(f(a))
  }

  /** DistApo commutes with pure and with join; a finished subtree stays finished. */
  lemma DistApoLawful<E, A>(l: RoseF<E, A>, e: Either<Fix<E>, Either<Fix<E>, RoseF<E, A>>>)
    ensures DistApo(Either<Fix<E>, RoseF<E, A>>.Right(l)) == FMap((a: A) => Either<Fix<E>, A>.Right(a), l)
    ensures DistApo(EitherJoin(e))
         == FMap((x: Either<Fix<E>, Either<Fix<E>, A>>) => EitherJoin(x),
                 DistApo(EitherMap((x: Either<Fix<E>, RoseF<E, A>>) => DistApo(x), e)))
  {
    SameLayer(DistApo(EitherJoin(e)),
              FMap((x: Either<Fix<E>, Either<Fix<E>, A>>) => EitherJoin(x),
                   DistApo(EitherMap((x: Either<Fix<E>, RoseF<E, A>>) => DistApo(x), e))));
  }
}
