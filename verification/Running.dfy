/** The loop that runs a program against a handler with state of its own, and the tracing handler. */
module Running {
  import opened Freer

  /** A callable that answers operations and keeps state between calls. */
  class HandlerObject<S, Op, R> {
    var state: S
    const answer: Handler<S, Op, R>

    constructor (initial: S, answer: Handler<S, Op, R>)
      ensures state == initial && this.answer == answer
    {
      state := initial;
      this.answer := answer;
    }

    method Invoke(op: Op) returns (r: R)
      modifies this
      ensures (r, state) == answer(old(state), op)
    {
      var (response, next) := answer(state, op);
      r, state := response, next;
    }
  }

  /** The operations done so far in front of what the rest of the run shows. */
  ghost function After<A, S, Op>(done: seq<Op>, o: Outcome<A, S, Op>): Outcome<A, S, Op> {
    o.(ops := done + o.ops)
  }

  /** The run loop. */
  method Run<S, Op, R(==), A>(handler: HandlerObject<S, Op, R>, prog: Program<Op, R, A>) returns (value: A)
    requires Answers(handler.answer, prog, handler.state)
    modifies handler
    ensures value == Interpret(handler.answer, prog, old(handler.state)).value
    ensures handler.state == Interpret(handler.answer, prog, old(handler.state)).state
  {
    var current := prog;
    ghost var done: seq<Op> := [];
    while current.Roll?
      invariant Answers(handler.answer, current, handler.state)
      invariant Interpret(handler.answer, prog, old(handler.state))
             == After(done, Interpret(handler.answer, current, handler.state))
      decreases current
    {
      ghost var rest := Interpret(handler.answer, current, handler.state);
      assert After(done, rest).ops == (done + [current.op]) + rest.ops[1..];
      done := done + [current.op];
      var response := handler.Invoke(current.op);
      current := current.k[response];
    }
    value := current.a;
  }

  // ---------------------------------------------------------------------
  // Tracing
  // ---------------------------------------------------------------------

  function Rendered<Op>(render: Op -> string, ops: seq<Op>): (log: seq<string>)
    ensures |log| == |ops|
    ensures forall i | 0 <= i < |ops| :: log[i] == render(ops[i])
  {
    seq(|ops|, i requires 0 <= i < |ops| => render(ops[i]))
  }

  /** Renders each operation into the log before it is answered. */
  function Tracing<S, Op, R>(h: Handler<S, Op, R>, render: Op -> string): Handler<(S, seq<string>), Op, R> {
    (s: (S, seq<string>), op: Op) => (h(s.0, op).0, (h(s.0, op).1, s.1 + [render(op)]))
  }

  /** Tracing changes neither the value nor the handler's state, and logs exactly the
      operations of the run, in order. */
  lemma {:induction false} TracingIsTransparent<S, Op, R, A>(
      h: Handler<S, Op, R>, render: Op -> string, p: Program<Op, R, A>, s: S, log: seq<string>)
    ensures Answers(Tracing(h, render), p, (s, log)) <==> Answers(h, p, s)
    ensures Answers(h, p, s) ==>
              var o := Interpret(h, p, s);
              Interpret(Tracing(h, render), p, (s, log))
              == Outcome(o.value, (o.state, log + Rendered(render, o.ops)), o.ops)
    decreases p
  {
    match p
    case Pure(a) =>
      assert log + Rendered(render, []) == log;
    case Roll(op, k) =>
      var (r, s') := h(s, op);
      if r in k {
        TracingIsTransparent(h, render, k[r], s', log + [render(op)]);
        if Answers(h, k[r], s') {
          var below := Interpret(h, k[r], s').ops;
          assert log + Rendered(render, [op] + below) == (log + [render(op)]) + Rendered(render, below);
        }
      }
  }

  /** A traced run: the handler is taken over together with an empty log. */
  method RunTrace<S, Op, R(==), A>(initial: S, answer: Handler<S, Op, R>, render: Op -> string, prog: Program<Op, R, A>)
    returns (value: A, state: S, log: seq<string>)
    requires Answers(answer, prog, initial)
    ensures value == Interpret(answer, prog, initial).value
    ensures state == Interpret(answer, prog, initial).state
    ensures log == Rendered(render, Interpret(answer, prog, initial).ops)
  {
    TracingIsTransparent(answer, render, prog, initial, []);
    var traced := new HandlerObject((initial, []), Tracing(answer, render));
    value := Run(traced, prog);
    state, log := traced.state.0, traced.state.1;
    assert [] + Rendered(render, Interpret(answer, prog, initial).ops) == log;
  }
}
