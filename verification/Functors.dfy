/** One base functor, the labelled rose layer, with the three types built on it:
    the fixed point, the annotated tree (Cofree) and the unfinished tree (Free).
    A layer is a label and a sequence of positions, so every functor with finitely
    many positions is this one at a suitable label type. */
module Functors {

  datatype RoseF<+E, +A> = RoseF(lbl: E, children: seq<A>) {
    ghost predicate Has(x: A) { x in children }
  }

  function FMap<E, A, B>(f: A --> B, l: RoseF<E, A>): (r: RoseF<E, B>)
    requires forall i | 0 <= i < |l.children| :: f.requires(l.children[i])
    ensures r.lbl == l.lbl && |r.children| == |l.children|
    ensures forall i | 0 <= i < |l.children| :: r.children[i] == f(l.children[i])
  {
    RoseF(l.lbl, seq(|l.children|, i requires 0 <= i < |l.children| => f(l.children[i])))
  }

  /** Layers are equal when their labels are and their positions agree one by one. */
  lemma SameLayer<E, A>(a: RoseF<E, A>, b: RoseF<E, A>)
    requires a.lbl == b.lbl && |a.children| == |b.children|
    requires forall i | 0 <= i < |a.children| :: a.children[i] == b.children[i]
    ensures a == b
  {
    assert a.children == b.children;
  }

  // ---------------------------------------------------------------------
  // Fixed points
  // ---------------------------------------------------------------------

  datatype Fix<+E> = In(out: RoseF<E, Fix<E>>)

  function MaxOf(xs: seq<nat>): (m: nat)
    ensures forall i | 0 <= i < |xs| :: xs[i] <= m
    ensures xs == [] ==> m == 0
    ensures xs != [] ==> m in xs
  {
    if xs == [] then 0 else var m := MaxOf(xs[1..]); if xs[0] < m then m else xs[0]
  }

  /** The number of layers on the longest branch. */
  function Height<E>(t: Fix<E>): (h: nat)
    ensures forall i | 0 <= i < |t.out.children| :: Height(t.out.children[i]) < h
    ensures h > 0
    decreases t
  {
    1 + MaxOf(FMap((c: Fix<E>) requires t.out.Has(c) => Height(c), t.out).children)
  }

  // ---------------------------------------------------------------------
  // Cofree: an annotation at every node
  // ---------------------------------------------------------------------

  datatype Cofree<+E, +A> = Cofree(head: A, tail: RoseF<E, Cofree<E, A>>)

  function CofreeMap<E, A, B>(f: A -> B, c: Cofree<E, A>): Cofree<E, B>
    decreases c
  {
    Cofree(f(c.head), FMap((k: Cofree<E, A>) requires c.tail.Has(k) => CofreeMap(f, k), c.tail))
  }

  /** Annotates every node with the tree rooted there. */
  function Duplicate<E, A>(c: Cofree<E, A>): Cofree<E, Cofree<E, A>>
    decreases c
  {
    Cofree(c, FMap((k: Cofree<E, A>) requires c.tail.Has(k) => Duplicate(k), c.tail))
  }

  lemma {:induction false} CofreeMapCompose<E, A, B, C>(f: A -> B, g: B -> C, c: Cofree<E, A>)
    ensures CofreeMap(g, CofreeMap(f, c)) == CofreeMap((a: A) => g(f(a)), c)
    decreases c
  {
    forall k | c.tail.Has(k)
      ensures CofreeMap(g, CofreeMap(f, k)) == CofreeMap((a: A) => g(f(a)), k)
    {
      CofreeMapCompose(f, g, k);
    }
    SameLayer(CofreeMap(g, CofreeMap(f, c)).tail, CofreeMap((a: A) => g(f(a)), c).tail);
  }

  lemma {:induction false} DuplicateNatural<E, A, B>(f: A -> B, c: Cofree<E, A>)
    ensures Duplicate(CofreeMap(f, c)) == CofreeMap((k: Cofree<E, A>) => CofreeMap(f, k), Duplicate(c))
    decreases c
  {
    var lhs := Duplicate(CofreeMap(f, c));
    var rhs := CofreeMap((k: Cofree<E, A>) => CofreeMap(f, k), Duplicate(c));
    forall k | c.tail.Has(k)
      ensures Duplicate(CofreeMap(f, k)) == CofreeMap((j: Cofree<E, A>) => CofreeMap(f, j), Duplicate(k))
    {
      DuplicateNatural(f, k);
    }
    SameLayer(lhs.tail, rhs.tail);
  }

  /** The counit laws: reading the heads of a duplicated tree, at the root or everywhere,
      gives the tree back. */
  lemma {:induction false} DuplicateCounit<E, A>(c: Cofree<E, A>)
    ensures Duplicate(c).head == c
    ensures CofreeMap((k: Cofree<E, A>) => k.head, Duplicate(c)) == c
    decreases c
  {
    var heads := CofreeMap((k: Cofree<E, A>) => k.head, Duplicate(c));
    forall k | c.tail.Has(k)
      ensures CofreeMap((j: Cofree<E, A>) => j.head, Duplicate(k)) == k
    {
      DuplicateCounit(k);
    }
    SameLayer(heads.tail, c.tail);
  }

  /** Duplicating again from outside or inside is the same. */
  lemma {:induction false} DuplicateCoassociative<E, A>(c: Cofree<E, A>)
    ensures Duplicate(Duplicate(c)) == CofreeMap((k: Cofree<E, A>) => Duplicate(k), Duplicate(c))
    decreases c
  {
    var again := (k: Cofree<E, A>) => Duplicate(k);
    var lhs, rhs := Duplicate(Duplicate(c)), CofreeMap(again, Duplicate(c));
    forall i | 0 <= i < |c.tail.children|
      ensures lhs.tail.children[i] == rhs.tail.children[i]
    {
      DuplicateCoassociative(c.tail.children[i]);
      assert Duplicate(c).tail.children[i] == Duplicate(c.tail.children[i]);
    }
    SameLayer(lhs.tail, rhs.tail);
  }

  // ---------------------------------------------------------------------
  // Free: a tree whose leaves may still be seeds
  // ---------------------------------------------------------------------

  datatype Free<+E, +A> = Pure(a: A) | Roll(layer: RoseF<E, Free<E, A>>)

  function FreeMap<E, A, B>(f: A -> B, m: Free<E, A>): Free<E, B>
    decreases m
  {
    match m
    case Pure(a) => Pure(f(a))
    case Roll(l) => Roll(FMap((k: Free<E, A>) requires l.Has(k) => FreeMap(f, k), l))
  }

  function FreeBind<E, A, B>(m: Free<E, A>, f: A -> Free<E, B>): Free<E, B>
    decreases m
  {
    match m
    case Pure(a) => f(a)
    case Roll(l) => Roll(FMap((k: Free<E, A>) requires l.Has(k) => FreeBind(k, f), l))
  }

  function FreeJoin<E, A>(m: Free<E, Free<E, A>>): Free<E, A> {
    FreeBind(m, (k: Free<E, A>) => k)
  }

  lemma {:induction false} FreeBindRightIdentity<E, A>(m: Free<E, A>)
    ensures FreeBind(m, (a: A) => Free<E, A>.Pure(a)) == m
    decreases m
  {
    if m.Roll? {
      var leaf := (a: A) => Free<E, A>.Pure(a);
      forall k | m.layer.Has(k)
        ensures FreeBind(k, leaf) == k
      {
        FreeBindRightIdentity(k);
      }
      SameLayer(FreeBind(m, leaf).layer, m.layer);
    }
  }

  lemma {:induction false} FreeBindAssociative<E, A, B, C>(m: Free<E, A>, f: A -> Free<E, B>, g: B -> Free<E, C>)
    ensures FreeBind(FreeBind(m, f), g) == FreeBind(m, (a: A) => FreeBind(f(a), g))
    decreases m
  {
    if m.Roll? {
      forall k | m.layer.Has(k)
        ensures FreeBind(FreeBind(k, f), g) == FreeBind(k, (a: A) => FreeBind(f(a), g))
      {
        FreeBindAssociative(k, f, g);
      }
      SameLayer(FreeBind(FreeBind(m, f), g).layer, FreeBind(m, (a: A) => FreeBind(f(a), g)).layer);
    }
  }

  /** Mapping is binding to a leaf, so fmap and bind are one instance. */
  lemma {:induction false} FreeMapIsBind<E, A, B>(f: A -> B, m: Free<E, A>)
    ensures FreeMap(f, m) == FreeBind(m, (a: A) => Free<E, B>.Pure(f(a)))
    decreases m
  {
    if m.Roll? {
      forall k | m.layer.Has(k)
        ensures FreeMap(f, k) == FreeBind(k, (a: A) => Free<E, B>.Pure(f(a)))
      {
        FreeMapIsBind(f, k);
      }
      SameLayer(FreeMap(f, m).layer, FreeBind(m, (a: A) => Free<E, B>.Pure(f(a))).layer);
    }
  }
}
