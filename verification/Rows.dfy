/** Rows of signatures: handling the operations of one signature and leaving a program over
    the rest. Each operation belongs to exactly one signature of a row, so a signature is a
    test on operations and the rest of the row is its complement. */
module Rows {
  import opened Freer
  import opened Running

  /** Handling can be carried up to the first operation of another signature. */
  ghost predicate Ready<S, Op, R, A>(mine: Op -> bool, h: Handler<S, Op, R>, s: S, p: Program<Op, R, A>)
    decreases p
  {
    p.Roll? && mine(p.op) ==> h(s, p.op).0 in p.k && Ready(mine, h, h(s, p.op).1, p.k[h(s, p.op).0])
  }

  /** Operations of the signature are answered on the spot. The first other one is emitted
      again, and what follows it keeps the handler, at the state it has reached, for later.
      The value is paired with the state the handler is in when the program ends. */
  ghost function Discharge<S, Op, R, A>(mine: Op -> bool, h: Handler<S, Op, R>, s: S, p: Program<Op, R, A>)
    : Program<Op, R, (A, S)>
    requires Ready(mine, h, s, p)
    decreases p
  {
    match p
    case Pure(a) => Pure((a, s))
    case Roll(op, k) =>
      if mine(op) then Discharge(mine, h, h(s, op).1, k[h(s, op).0])
      else Roll(op, imap r | r in k && Ready(mine, h, s, k[r]) :: Discharge(mine, h, s, k[r]))
  }

  /** No operation of the program passes the test. */
  ghost predicate Without<Op, R, A>(mine: Op -> bool, p: Program<Op, R, A>)
    decreases p
  {
    p.Roll? ==> !mine(p.op) && forall r | r in p.k :: Without(mine, p.k[r])
  }

  /** What is left is a program over the smaller row. */
  lemma {:induction false} DischargeRemoves<S, Op, R, A>(
      mine: Op -> bool, h: Handler<S, Op, R>, s: S, p: Program<Op, R, A>)
    requires Ready(mine, h, s, p)
    ensures Without(mine, Discharge(mine, h, s, p))
    decreases p
  {
    if p.Roll? {
      if mine(p.op) {
        DischargeRemoves(mine, h, h(s, p.op).1, p.k[h(s, p.op).0]);
      } else {
        forall r | r in p.k && Ready(mine, h, s, p.k[r])
          ensures Without(mine, Discharge(mine, h, s, p.k[r]))
        {
          DischargeRemoves(mine, h, s, p.k[r]);
        }
      }
    }
  }

  /** Two handlers side by side, each with a state of its own. */
  function Stack<S, T, Op, R>(mine: Op -> bool, h: Handler<S, Op, R>, g: Handler<T, Op, R>): Handler<(S, T), Op, R> {
    (st: (S, T), op: Op) =>
      if mine(op) then (h(st.0, op).0, (h(st.0, op).1, st.1)) else (g(st.1, op).0, (st.0, g(st.1, op).1))
  }

  function Filter<Op>(keep: Op -> bool, ops: seq<Op>): seq<Op> {
    if ops == [] then [] else (if keep(ops[0]) then [ops[0]] else []) + Filter(keep, ops[1..])
  }

  function Not<Op>(mine: Op -> bool): Op -> bool {
    (op: Op) => !mine(op)
  }

  /** Discharging a signature and running the rest is one run under the stacked handlers: it
      stops on the same programs, with the same value and both final states, and its trace is
      the whole trace without the discharged operations. */
  lemma {:induction false} DischargeThenRun<S, T, Op, R, A>(
      mine: Op -> bool, h: Handler<S, Op, R>, g: Handler<T, Op, R>, p: Program<Op, R, A>, s: S, t: T)
    ensures Answers(Stack(mine, h, g), p, (s, t)) <==>
              Ready(mine, h, s, p) && Answers(g, Discharge(mine, h, s, p), t)
    ensures Answers(Stack(mine, h, g), p, (s, t)) ==>
              var whole := Interpret(Stack(mine, h, g), p, (s, t));
              Interpret(g, Discharge(mine, h, s, p), t)
              == Outcome((whole.value, whole.state.0), whole.state.1, Filter(Not(mine), whole.ops))
    decreases p
  {
    if p.Roll? {
      var (r, st) := Stack(mine, h, g)((s, t), p.op);
      if r in p.k {
        DischargeThenRun(mine, h, g, p.k[r], st.0, st.1);
        if Answers(Stack(mine, h, g), p.k[r], st) {
          var below := Interpret(Stack(mine, h, g), p.k[r], st).ops;
          assert ([p.op] + below)[1..] == below;
          assert [] + Filter(Not(mine), below) == Filter(Not(mine), below);
        }
      }
    }
  }

  /** The trace the log shows is the whole log without the discharged lines. */
  lemma DischargeThenTrace<S, T, Op, R, A>(
      mine: Op -> bool, h: Handler<S, Op, R>, g: Handler<T, Op, R>, render: Op -> string,
      p: Program<Op, R, A>, s: S, t: T)
    requires Answers(Stack(mine, h, g), p, (s, t))
    ensures Ready(mine, h, s, p) && Answers(Tracing(g, render), Discharge(mine, h, s, p), (t, []))
    ensures Interpret(Tracing(g, render), Discharge(mine, h, s, p), (t, [])).state.1
         == Rendered(render, Filter(Not(mine), Interpret(Stack(mine, h, g), p, (s, t)).ops))
  {
    DischargeThenRun(mine, h, g, p, s, t);
    TracingIsTransparent(g, render, Discharge(mine, h, s, p), t, []);
  }

  // ---------------------------------------------------------------------
  // Order of discharge
  // ---------------------------------------------------------------------

  /** Stacking is symmetric up to the order of the states. */
  lemma {:induction false} StackSwaps<S, T, Op, R, A>(
      mine: Op -> bool, h: Handler<S, Op, R>, g: Handler<T, Op, R>, p: Program<Op, R, A>, s: S, t: T)
    ensures Answers(Stack(mine, h, g), p, (s, t)) <==> Answers(Stack(Not(mine), g, h), p, (t, s))
    ensures Answers(Stack(mine, h, g), p, (s, t)) ==>
              var o := Interpret(Stack(mine, h, g), p, (s, t));
              Interpret(Stack(Not(mine), g, h), p, (t, s)) == Outcome(o.value, (o.state.1, o.state.0), o.ops)
    decreases p
  {
    if p.Roll? {
      var (r, st) := Stack(mine, h, g)((s, t), p.op);
      if r in p.k {
        StackSwaps(mine, h, g, p.k[r], st.0, st.1);
      }
    }
  }

  /** Where every operation is the first handler's, the stack is that handler and leaves the
      other's state alone. */
  lemma {:induction false} StackOfOne<S, T, Op, R, A>(
      mine: Op -> bool, h: Handler<S, Op, R>, g: Handler<T, Op, R>, p: Program<Op, R, A>, s: S, t: T)
    requires Without(Not(mine), p)
    ensures Answers(Stack(mine, h, g), p, (s, t)) <==> Answers(h, p, s)
    ensures Answers(h, p, s) ==>
              var o := Interpret(h, p, s);
              Interpret(Stack(mine, h, g), p, (s, t)) == Outcome(o.value, (o.state, t), o.ops)
    decreases p
  {
    if p.Roll? {
      var (r, s') := h(s, p.op);
      if r in p.k {
        StackOfOne(mine, h, g, p.k[r], s', t);
      }
    }
  }

  /** Discharging the only signature of a row is running the program: what is left is finished. */
  lemma {:induction false} DischargeAlone<S, Op, R, A>(
      mine: Op -> bool, h: Handler<S, Op, R>, p: Program<Op, R, A>, s: S)
    requires Without(Not(mine), p)
    ensures Ready(mine, h, s, p) <==> Answers(h, p, s)
    ensures Ready(mine, h, s, p) ==>
              Discharge(mine, h, s, p) == Pure((Interpret(h, p, s).value, Interpret(h, p, s).state))
    decreases p
  {
    if p.Roll? {
      var (r, s') := h(s, p.op);
      if r in p.k {
        DischargeAlone(mine, h, p.k[r], s');
      }
    }
  }

  /** In a row of two signatures either may be discharged first: same value, same final state
      of each handler. */
  lemma DischargeOrderIrrelevant<S, T, Op, R, A>(
      mine: Op -> bool, h: Handler<S, Op, R>, g: Handler<T, Op, R>, p: Program<Op, R, A>, s: S, t: T)
    ensures Ready(mine, h, s, p) && Answers(g, Discharge(mine, h, s, p), t) <==>
              Ready(Not(mine), g, t, p) && Answers(h, Discharge(Not(mine), g, t, p), s)
    ensures Ready(mine, h, s, p) && Answers(g, Discharge(mine, h, s, p), t) ==>
              var first := Interpret(g, Discharge(mine, h, s, p), t);
              var second := Interpret(h, Discharge(Not(mine), g, t, p), s);
              first.value.0 == second.value.0 && first.value.1 == second.state && first.state == second.value.1
  {
    DischargeThenRun(mine, h, g, p, s, t);
    DischargeThenRun(Not(mine), g, h, p, t, s);
    StackSwaps(mine, h, g, p, s, t);
  }

  function OneOf<Op>(one: Op -> bool, two: Op -> bool): Op -> bool {
    (op: Op) => one(op) || two(op)
  }

  function Regroup<A, S, T>(v: ((A, S), T)): (A, (S, T)) {
    (v.0.0, (v.0.1, v.1))
  }

  /** In a larger row, discharging two signatures one after the other is discharging them
      together with the stacked handlers: the very same program over what remains. */
  lemma {:induction false} DischargesFuse<S, T, Op, R, A>(
      one: Op -> bool, h: Handler<S, Op, R>, two: Op -> bool, g: Handler<T, Op, R>, p: Program<Op, R, A>, s: S, t: T)
    requires forall op :: !(one(op) && two(op))
    ensures Ready(one, h, s, p) && Ready(two, g, t, Discharge(one, h, s, p)) <==>
              Ready(OneOf(one, two), Stack(one, h, g), (s, t), p)
    ensures Ready(OneOf(one, two), Stack(one, h, g), (s, t), p) ==>
              Map((v: ((A, S), T)) => Regroup(v), Discharge(two, g, t, Discharge(one, h, s, p)))
              == Discharge(OneOf(one, two), Stack(one, h, g), (s, t), p)
    decreases p
  {
    var both, st := OneOf(one, two), Stack(one, h, g);
    if p.Roll? {
      var op := p.op;
      if both(op) {
        var (r, next) := st((s, t), op);
        if r in p.k {
          DischargesFuse(one, h, two, g, p.k[r], next.0, next.1);
        }
      } else {
        forall r | r in p.k
          ensures Ready(one, h, s, p.k[r]) && Ready(two, g, t, Discharge(one, h, s, p.k[r])) <==>
                    Ready(both, st, (s, t), p.k[r])
          ensures Ready(both, st, (s, t), p.k[r]) ==>
                    Map((v: ((A, S), T)) => Regroup(v), Discharge(two, g, t, Discharge(one, h, s, p.k[r])))
                    == Discharge(both, st, (s, t), p.k[r])
        {
          DischargesFuse(one, h, two, g, p.k[r], s, t);
        }
        var lhs := Map((v: ((A, S), T)) => Regroup(v), Discharge(two, g, t, Discharge(one, h, s, p)));
        assert lhs.k == Discharge(both, st, (s, t), p).k;
      }
    }
  }

  function HState<A, S, T>(v: ((A, S), T)): (A, S, T) {
    (v.0.0, v.0.1, v.1)
  }

  function TState<A, S, T>(v: ((A, T), S)): (A, S, T) {
    (v.0.0, v.1, v.0.1)
  }

  function Apart<A, S, T>(v: (A, (S, T))): (A, S, T) {
    (v.0, v.1.0, v.1.1)
  }

  function Crossed<A, S, T>(v: (A, (T, S))): (A, S, T) {
    (v.0, v.1.1, v.1.0)
  }

  /** Discharging two signatures together does not depend on which handler is stacked first. */
  lemma {:induction false} StackedEitherWay<S, T, Op, R, A>(
      one: Op -> bool, h: Handler<S, Op, R>, two: Op -> bool, g: Handler<T, Op, R>, p: Program<Op, R, A>, s: S, t: T)
    requires forall op :: !(one(op) && two(op))
    ensures Ready(OneOf(one, two), Stack(one, h, g), (s, t), p) <==>
              Ready(OneOf(two, one), Stack(two, g, h), (t, s), p)
    ensures Ready(OneOf(one, two), Stack(one, h, g), (s, t), p) ==>
              Map((v: (A, (S, T))) => Apart(v), Discharge(OneOf(one, two), Stack(one, h, g), (s, t), p))
              == Map((v: (A, (T, S))) => Crossed(v), Discharge(OneOf(two, one), Stack(two, g, h), (t, s), p))
    decreases p
  {
    if p.Roll? {
      if one(p.op) || two(p.op) {
        var (r, next) := Stack(one, h, g)((s, t), p.op);
        if r in p.k {
          StackedEitherWay(one, h, two, g, p.k[r], next.0, next.1);
        }
      } else {
        forall r | r in p.k
          ensures Ready(OneOf(one, two), Stack(one, h, g), (s, t), p.k[r]) <==>
                    Ready(OneOf(two, one), Stack(two, g, h), (t, s), p.k[r])
          ensures Ready(OneOf(one, two), Stack(one, h, g), (s, t), p.k[r]) ==>
                    Map((v: (A, (S, T))) => Apart(v), Discharge(OneOf(one, two), Stack(one, h, g), (s, t), p.k[r]))
                    == Map((v: (A, (T, S))) => Crossed(v), Discharge(OneOf(two, one), Stack(two, g, h), (t, s), p.k[r]))
        {
          StackedEitherWay(one, h, two, g, p.k[r], s, t);
        }
        var lhs := Map((v: (A, (S, T))) => Apart(v), Discharge(OneOf(one, two), Stack(one, h, g), (s, t), p));
        var rhs := Map((v: (A, (T, S))) => Crossed(v), Discharge(OneOf(two, one), Stack(two, g, h), (t, s), p));
        assert lhs.k == rhs.k;
      }
    }
  }

  lemma {:induction false} MapTwice<Op, R, A, B, C>(f: A -> B, g: B -> C, gf: A -> C, p: Program<Op, R, A>)
    requires forall a :: gf(a) == g(f(a))
    ensures Map(gf, p) == Map(g, Map(f, p))
    decreases p
  {
    if p.Roll? {
      forall r | r in p.k
        ensures Map(gf, p.k[r]) == Map(g, Map(f, p.k[r]))
      {
        MapTwice(f, g, gf, p.k[r]);
      }
      assert Map(gf, p).k == Map(g, Map(f, p)).k;
    }
  }

  /** Hence the order of two discharges does not matter in a larger row either: what remains is
      the same program, so it behaves the same under every interpreter of the rest. */
  lemma DischargesCommute<S, T, Op, R, A>(
      one: Op -> bool, h: Handler<S, Op, R>, two: Op -> bool, g: Handler<T, Op, R>, p: Program<Op, R, A>, s: S, t: T)
    requires forall op :: !(one(op) && two(op))
    ensures Ready(one, h, s, p) && Ready(two, g, t, Discharge(one, h, s, p)) <==>
              Ready(two, g, t, p) && Ready(one, h, s, Discharge(two, g, t, p))
    ensures Ready(one, h, s, p) && Ready(two, g, t, Discharge(one, h, s, p)) ==>
              Map((v: ((A, S), T)) => HState(v), Discharge(two, g, t, Discharge(one, h, s, p)))
              == Map((v: ((A, T), S)) => TState(v), Discharge(one, h, s, Discharge(two, g, t, p)))
  {
    DischargesFuse(one, h, two, g, p, s, t);
    DischargesFuse(two, g, one, h, p, t, s);
    StackedEitherWay(one, h, two, g, p, s, t);
    if Ready(one, h, s, p) && Ready(two, g, t, Discharge(one, h, s, p)) {
      MapTwice((v: ((A, S), T)) => Regroup(v), (v: (A, (S, T))) => Apart(v), (v: ((A, S), T)) => HState(v),
               Discharge(two, g, t, Discharge(one, h, s, p)));
      MapTwice((v: ((A, T), S)) => Regroup(v), (v: (A, (T, S))) => Crossed(v), (v: ((A, T), S)) => TState(v),
               Discharge(one, h, s, Discharge(two, g, t, p)));
    }
  }
}
