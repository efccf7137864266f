/** Programs that suspend on operations, their bind, and what a handler makes of them. */
module Freer {

  /** A finished value, or an operation and what follows each response it may get. The
      responses in the domain of k are those of the operation's own response type; taking
      fewer is how a run that stops is kept apart from the paths it does not take. */
  datatype Program<+Op, !R, +A> = Pure(a: A) | Roll(op: Op, k: imap<R, Program<Op, R, A>>)

  /** A handler answers an operation and moves its own state on. */
  type Handler<!S, !Op, +R> = (S, Op) -> (R, S)

  /** One operation with response type rs, resuming to the response itself. */
  ghost function Send<Op, R>(op: Op, rs: iset<R>): Program<Op, R, R> {
    Roll(op, imap r | r in rs :: Pure(r))
  }

  /** The layer is mapped by composing after its continuation, which is not run. */
  ghost function Bind<Op, R, A, B>(m: Program<Op, R, A>, f: A -> Program<Op, R, B>): Program<Op, R, B>
    decreases m
  {
    match m
    case Pure(a) => f(a)
    case Roll(op, k) => Roll(op, imap r | r in k :: Bind(k[r], f))
  }

  ghost function Map<Op, R, A, B>(f: A -> B, m: Program<Op, R, A>): Program<Op, R, B>
    decreases m
  {
    match m
    case Pure(a) => Pure(f(a))
    case Roll(op, k) => Roll(op, imap r | r in k :: Map(f, k[r]))
  }

  /** Binding after one operation continues with its response. */
  lemma BindSend<Op, R, B>(op: Op, rs: iset<R>, f: R -> Program<Op, R, B>)
    ensures Bind(Send(op, rs), f) == Roll(op, imap r | r in rs :: f(r))
  {
    assert Bind(Send(op, rs), f).k == imap r | r in rs :: f(r);
  }

  lemma {:induction false} BindRightIdentity<Op, R, A>(m: Program<Op, R, A>)
    ensures Bind(m, (a: A) => Program<Op, R, A>.Pure(a)) == m
    decreases m
  {
    if m.Roll? {
      var pure := (a: A) => Program<Op, R, A>.Pure(a);
      forall r | r in m.k
        ensures Bind(m.k[r], pure) == m.k[r]
      {
        BindRightIdentity(m.k[r]);
      }
      assert Bind(m, pure).k == m.k;
    }
  }

  lemma {:induction false} BindAssociative<Op, R, A, B, C>(
      m: Program<Op, R, A>, f: A -> Program<Op, R, B>, g: B -> Program<Op, R, C>)
    ensures Bind(Bind(m, f), g) == Bind(m, (a: A) => Bind(f(a), g))
    decreases m
  {
    if m.Roll? {
      var fg := (a: A) => Bind(f(a), g);
      forall r | r in m.k
        ensures Bind(Bind(m.k[r], f), g) == Bind(m.k[r], fg)
      {
        BindAssociative(m.k[r], f, g);
      }
      assert Bind(Bind(m, f), g).k == Bind(m, fg).k;
    }
  }

  // ---------------------------------------------------------------------
  // Observation
  // ---------------------------------------------------------------------

  /** What a run shows: the value, the handler's final state, the operations in order. */
  datatype Outcome<+A, +S, +Op> = Outcome(value: A, state: S, ops: seq<Op>)

  /** Along this run every response is one the program has a continuation for. */
  ghost predicate Answers<S, Op, R, A>(h: Handler<S, Op, R>, p: Program<Op, R, A>, s: S)
    decreases p
  {
    match p
    case Pure(a) => true
    case Roll(op, k) => h(s, op).0 in k && Answers(h, k[h(s, op).0], h(s, op).1)
  }

  ghost function Interpret<S, Op, R, A>(h: Handler<S, Op, R>, p: Program<Op, R, A>, s: S): Outcome<A, S, Op>
    requires Answers(h, p, s)
    decreases p
  {
    match p
    case Pure(a) => Outcome(a, s, [])
    case Roll(op, k) =>
      var o := Interpret(h, k[h(s, op).0], h(s, op).1);
      o.(ops := [op] + o.ops)
  }

  /** Running a bound program is running the first part and, from the state it leaves, the rest. */
  lemma {:induction false} InterpretBind<S, Op, R, A, B>(
      h: Handler<S, Op, R>, m: Program<Op, R, A>, f: A -> Program<Op, R, B>, s: S)
    ensures Answers(h, Bind(m, f), s) <==>
              Answers(h, m, s) && Answers(h, f(Interpret(h, m, s).value), Interpret(h, m, s).state)
    ensures Answers(h, Bind(m, f), s) ==>
              var first := Interpret(h, m, s);
              var rest := Interpret(h, f(first.value), first.state);
              Interpret(h, Bind(m, f), s) == Outcome(rest.value, rest.state, first.ops + rest.ops)
    decreases m
  {
    match m
    case Pure(a) =>
      if Answers(h, f(a), s) {
        assert [] + Interpret(h, f(a), s).ops == Interpret(h, f(a), s).ops;
      }
    case Roll(op, k) =>
      var (r, s') := h(s, op);
      if r in k {
        InterpretBind(h, k[r], f, s');
        if Answers(h, Bind(m, f), s) {
          var first := Interpret(h, k[r], s');
          InFront(op, first.ops, Interpret(h, f(first.value), first.state).ops);
        }
      }
  }

  lemma InFront<Op>(op: Op, a: seq<Op>, b: seq<Op>)
    ensures [op] + (a + b) == ([op] + a) + b
  {
  }

  /** Mapping is binding to a finished value. */
  lemma {:induction false} MapIsBind<Op, R, A, B>(f: A -> B, m: Program<Op, R, A>)
    ensures Map(f, m) == Bind(m, (a: A) => Program<Op, R, B>.Pure(f(a)))
    decreases m
  {
    if m.Roll? {
      var leaf := (a: A) => Program<Op, R, B>.Pure(f(a));
      forall r | r in m.k
        ensures Map(f, m.k[r]) == Bind(m.k[r], leaf)
      {
        MapIsBind(f, m.k[r]);
      }
      assert Map(f, m).k == Bind(m, leaf).k;
    }
  }

  /** A mapped program runs like the program itself and maps its value. */
  lemma InterpretMap<S, Op, R, A, B>(h: Handler<S, Op, R>, f: A -> B, m: Program<Op, R, A>, s: S)
    ensures Answers(h, Map(f, m), s) <==> Answers(h, m, s)
    ensures Answers(h, m, s) ==>
              var o := Interpret(h, m, s);
              Interpret(h, Map(f, m), s) == Outcome(f(o.value), o.state, o.ops)
  {
    var leaf := (a: A) => Program<Op, R, B>.Pure(f(a));
    MapIsBind(f, m);
    InterpretBind(h, m, leaf, s);
    if Answers(h, m, s) {
      assert Interpret(h, m, s).ops + [] == Interpret(h, m, s).ops;
    }
  }

  // ---------------------------------------------------------------------
  // Observation decides equality
  // ---------------------------------------------------------------------

  /** No operation is left without a possible response. */
  ghost predicate Live<Op, R, A>(p: Program<Op, R, A>)
    decreases p
  {
    p.Roll? ==> p.k.Keys != iset{} && forall r | r in p.k :: Live(p.k[r])
  }

  /** Answers from a script, then always the same. */
  ghost function Scripted<Op, R>(last: R): Handler<seq<R>, Op, R> {
    (script: seq<R>, op: Op) => if script == [] then (last, []) else (script[0], script[1..])
  }

  ghost predicate SameRun<S, Op, R, A>(h: Handler<S, Op, R>, p: Program<Op, R, A>, q: Program<Op, R, A>, s: S) {
    && (Answers(h, p, s) <==> Answers(h, q, s))
    && (Answers(h, p, s) ==> Interpret(h, p, s) == Interpret(h, q, s))
  }

  /** A script that carries a live program to its end. */
  lemma {:induction false} LiveRuns<Op, R, A>(p: Program<Op, R, A>, last: R) returns (script: seq<R>)
    requires Live(p)
    ensures Answers(Scripted(last), p, script)
    decreases p
  {
    if p.Pure? {
      script := [];
    } else {
      var r :| r in p.k;
      var rest := LiveRuns(p.k[r], last);
      script := [r] + rest;
      assert script[1..] == rest;
    }
  }

  /** Live programs that no scripted handler tells apart by value, state and operations are
      equal, so testing through handlers is complete. */
  lemma {:induction false} ObservationsDecide<Op, R, A>(p: Program<Op, R, A>, q: Program<Op, R, A>, last: R)
    requires Live(p) && Live(q)
    requires forall script: seq<R> :: SameRun(Scripted(last), p, q, script)
    ensures p == q
    decreases p
  {
    var h := Scripted<Op, R>(last);
    var sp := LiveRuns(p, last);
    var sq := LiveRuns(q, last);
    assert SameRun(h, p, q, sp) && SameRun(h, p, q, sq);
    if p.Pure? {
      assert Interpret(h, p, sp).ops == [];
    } else {
      assert Interpret(h, p, sp).ops[0] == p.op;
      assert q.Roll? && q.op == p.op;
      forall r
        ensures r in p.k <==> r in q.k
        ensures r in p.k ==> p.k[r] == q.k[r]
      {
        if r in p.k {
          var rest := LiveRuns(p.k[r], last);
          FirstAnswer(p, last, r, rest);
          FirstAnswer(q, last, r, rest);
          assert SameRun(h, p, q, [r] + rest);
        }
        if r in q.k {
          var rest := LiveRuns(q.k[r], last);
          FirstAnswer(p, last, r, rest);
          FirstAnswer(q, last, r, rest);
          assert SameRun(h, p, q, [r] + rest);
        }
        if r in p.k {
          forall script: seq<R>
            ensures SameRun(h, p.k[r], q.k[r], script)
          {
            FirstAnswer(p, last, r, script);
            FirstAnswer(q, last, r, script);
            assert SameRun(h, p, q, [r] + script);
            if Answers(h, p.k[r], script) {
              var a, b := Interpret(h, p.k[r], script).ops, Interpret(h, q.k[r], script).ops;
              assert a == ([p.op] + a)[1..] == ([q.op] + b)[1..] == b;
            }
          }
          ObservationsDecide(p.k[r], q.k[r], last);
        }
      }
      assert p.k == q.k;
    }
  }

  lemma FirstAnswer<Op, R, A>(p: Program<Op, R, A>, last: R, r: R, rest: seq<R>)
    requires p.Roll?
    ensures Answers(Scripted(last), p, [r] + rest) <==> r in p.k && Answers(Scripted(last), p.k[r], rest)
    ensures Answers(Scripted(last), p, [r] + rest) ==>
              var below := Interpret(Scripted(last), p.k[r], rest);
              Interpret(Scripted(last), p, [r] + rest) == below.(ops := [p.op] + below.ops)
  {
    assert ([r] + rest)[1..] == rest;
  }
}
