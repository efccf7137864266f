/** A second interpreter: a program paired with an annotated tree of prepared answers. */
module Pairing {
  import opened Freer
  import opened Running

  /** One responder for every operation, giving a response and what comes next. */
  type Responders<!Op, +R, +X> = Op -> (R, X)

  /** Composes fn after every responder without asking any of them. */
  function FMapLayer<Op, R, X, Y>(fn: X -> Y, layer: Responders<Op, R, X>): Responders<Op, R, Y> {
    (op: Op) => (layer(op).0, fn(layer(op).1))
  }

  /** An annotated tree over responders is infinite, so it is given by what can be read off it:
      M are its nodes, head the annotation, tail the layer of responders. */
  datatype Tree<!M, !Op, +R, +B> = Tree(head: M -> B, tail: M -> Responders<Op, R, M>)

  /** build is the tree unfolded from seeds: the annotation is headFn of the seed, and the
      layer is the coalgebra's with every next seed unfolded. */
  ghost predicate IsUnfolding<M(!new), S(!new), Op(!new), R, B>(
      tree: Tree<M, Op, R, B>, headFn: S -> B, coalg: S -> Responders<Op, R, S>, build: S -> M)
  {
    forall s: S :: tree.head(build(s)) == headFn(s)
                && forall op: Op :: tree.tail(build(s))(op) == FMapLayer(build, coalg(s))(op)
  }

  datatype Unfolded<+S> = Unfolded(seed: S)

  /** The unfolding kept as its seed, the layer below opened only when a responder is asked. */
  function UnfoldTree<S, Op, R, B>(headFn: S -> B, coalg: S -> Responders<Op, R, S>): Tree<Unfolded<S>, Op, R, B> {
    Tree((u: Unfolded<S>) => headFn(u.seed),
         (u: Unfolded<S>) => FMapLayer((s: S) => Unfolded(s), coalg(u.seed)))
  }

  lemma UnfoldTreeUnfolds<S(!new), Op(!new), R, B>(headFn: S -> B, coalg: S -> Responders<Op, R, S>)
    ensures IsUnfolding(UnfoldTree(headFn, coalg), headFn, coalg, (s: S) => Unfolded(s))
  {
  }

  /** Asking responders is handling with the node as state. */
  function Asking<S, Op, R>(layerAt: S -> Responders<Op, R, S>): Handler<S, Op, R> {
    (s: S, op: Op) => layerAt(s)(op)
  }

  /** The pairing loop: each operation is answered by the current node, which is then replaced
      by the responder's next one. */
  method PairRun<M, Op, R(==), A, B>(tree: Tree<M, Op, R, B>, mock: M, prog: Program<Op, R, A>)
    returns (value: A, head: B)
    requires Answers(Asking(tree.tail), prog, mock)
    ensures value == Interpret(Asking(tree.tail), prog, mock).value
    ensures head == tree.head(Interpret(Asking(tree.tail), prog, mock).state)
  {
    var current, state := prog, mock;
    ghost var done: seq<Op> := [];
    while current.Roll?
      invariant Answers(Asking(tree.tail), current, state)
      invariant Interpret(Asking(tree.tail), prog, mock) == After(done, Interpret(Asking(tree.tail), current, state))
      decreases current
    {
      ghost var rest := Interpret(Asking(tree.tail), current, state);
      assert After(done, rest).ops == (done + [current.op]) + rest.ops[1..];
      done := done + [current.op];
      var (response, next) := tree.tail(state)(current.op);
      state := next;
      current := current.k[response];
    }
    value, head := current.a, tree.head(state);
  }

  method PairRunTrace<M, Op, R(==), A, B>(
      tree: Tree<M, Op, R, B>, render: Op -> string, mock: M, prog: Program<Op, R, A>)
    returns (value: A, head: B, log: seq<string>)
    requires Answers(Asking(tree.tail), prog, mock)
    ensures value == Interpret(Asking(tree.tail), prog, mock).value
    ensures head == tree.head(Interpret(Asking(tree.tail), prog, mock).state)
    ensures log == Rendered(render, Interpret(Asking(tree.tail), prog, mock).ops)
  {
    log := [];
    var current, state := prog, mock;
    ghost var done: seq<Op> := [];
    while current.Roll?
      invariant Answers(Asking(tree.tail), current, state)
      invariant Interpret(Asking(tree.tail), prog, mock) == After(done, Interpret(Asking(tree.tail), current, state))
      invariant log == Rendered(render, done)
      decreases current
    {
      ghost var rest := Interpret(Asking(tree.tail), current, state);
      assert After(done, rest).ops == (done + [current.op]) + rest.ops[1..];
      done := done + [current.op];
      log := log + [render(current.op)];
      var (response, next) := tree.tail(state)(current.op);
      state := next;
      current := current.k[response];
    }
    assert done + [] == done;
    value, head := current.a, tree.head(state);
  }

  /** Pairing with a tree unfolded from a coalgebra is running with the coalgebra as a handler
      that keeps the seed as its state: the same programs stop, with the same value and
      operations, and the node reached is the one unfolded from the final seed. */
  lemma {:induction false} PairingIsRunning<M(!new), S(!new), Op(!new), R, A, B>(
      tree: Tree<M, Op, R, B>, headFn: S -> B, coalg: S -> Responders<Op, R, S>, build: S -> M,
      p: Program<Op, R, A>, s: S)
    requires IsUnfolding(tree, headFn, coalg, build)
    ensures Answers(Asking(tree.tail), p, build(s)) <==> Answers(Asking(coalg), p, s)
    ensures Answers(Asking(coalg), p, s) ==>
              var o := Interpret(Asking(coalg), p, s);
              Interpret(Asking(tree.tail), p, build(s)) == Outcome(o.value, build(o.state), o.ops)
              && tree.head(build(o.state)) == headFn(o.state)
    decreases p
  {
    if p.Roll? {
      var (r, next) := coalg(s)(p.op);
      assert tree.tail(build(s))(p.op) == FMapLayer(build, coalg(s))(p.op) == (r, build(next));
      if r in p.k {
        PairingIsRunning(tree, headFn, coalg, build, p.k[r], next);
      }
    }
  }

  /** The two interpreters side by side: the same value, the head of the final state, and the
      same log line by line. */
  method PairAndRun<S(!new), Op(!new), R(==), A, B>(
      headFn: S -> B, coalg: S -> Responders<Op, R, S>, render: Op -> string, seed: S, prog: Program<Op, R, A>)
    returns (paired: (A, B, seq<string>), ran: (A, S, seq<string>))
    requires Answers(Asking(coalg), prog, seed)
    ensures paired == (ran.0, headFn(ran.1), ran.2)
    ensures ran.0 == Interpret(Asking(coalg), prog, seed).value
    ensures ran.1 == Interpret(Asking(coalg), prog, seed).state
    ensures ran.2 == Rendered(render, Interpret(Asking(coalg), prog, seed).ops)
  {
    var tree := UnfoldTree(headFn, coalg);
    UnfoldTreeUnfolds(headFn, coalg);
    PairingIsRunning(tree, headFn, coalg, (s: S) => Unfolded(s), prog, seed);
    var value, head, log := PairRunTrace(tree, render, Unfolded(seed), prog);
    paired := (value, head, log);
    var value', state', log' := RunTrace(seed, Asking(coalg), render, prog);
    ran := (value', state', log');
  }
}
