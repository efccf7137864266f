/** The call-once boxes a program's nodes hold: how sending, binding and discharging fill them
    and move them into one another, and that the interpreters only ever call full ones. */
module Boxes {
  import opened Wrappers
  import opened Freer
  import opened Running
  import opened Rows
  import opened Pairing

  // ---------------------------------------------------------------------
  // Programs as they are written
  // ---------------------------------------------------------------------

  /** A signature's test and handler, and what becomes of a value and the handler's last state. */
  datatype Signature<!V, !Op, !S> = Signature(mine: Op -> bool, handler: Handler<S, Op, V>, finish: (V, S) -> V)

  /** How a program is put together. V holds the values and responses of all operations. */
  datatype Build<!V, !Op, !S> =
    | Done(value: V)
    | Ask(op: Op, responses: iset<V>)
    | Then(first: Build<V, Op, S>, rest: imap<V, Build<V, Op, S>>)
    | Discharged(sig: Signature<V, Op, S>, state: S, inner: Build<V, Op, S>)

  /** Every continuation is defined on every value, and every discharge can be carried up to
      the first operation of another signature. */
  ghost predicate Fit<V(!new), Op, S>(b: Build<V, Op, S>)
    decreases b, 0
  {
    match b
    case Done(v) => true
    case Ask(op, rs) => true
    case Then(first, rest) => Fit(first) && forall v: V :: v in rest && Fit(rest[v])
    case Discharged(sig, s, inner) => Fit(inner) && Ready(sig.mine, sig.handler, s, Meaning(inner))
  }

  /** The program a construction stands for, by bind and discharge on values. */
  ghost function Meaning<V(!new), Op, S>(b: Build<V, Op, S>): Program<Op, V, V>
    requires Fit(b)
    decreases b, 2
  {
    match b
    case Done(v) => Pure(v)
    case Ask(op, rs) => Send(op, rs)
    case Then(first, rest) => Bind(Meaning(first), Sequel(b))
    case Discharged(sig, s, inner) => Map(Finish(sig), Discharge(sig.mine, sig.handler, s, Meaning(inner)))
  }

  ghost function Sequel<V(!new), Op, S>(b: Build<V, Op, S>): V -> Program<Op, V, V>
    requires b.Then? && Fit(b)
    decreases b, 1
  {
    (v: V) => Meaning(b.rest[v])
  }

  function Finish<V, Op, S>(sig: Signature<V, Op, S>): ((V, S)) -> V {
    (p: (V, S)) => sig.finish(p.0, p.1)
  }

  /** Running a discharged construction is one run of what is inside under both handlers; its
      value is finish of that run's value and of the last state of the discharged handler. */
  lemma DischargedRuns<T, V(!new), Op, S>(g: Handler<T, Op, V>, b: Build<V, Op, S>, t: T)
    requires b.Discharged? && Fit(b)
    ensures var both := Stack(b.sig.mine, b.sig.handler, g);
            && (Answers(g, Meaning(b), t) <==> Answers(both, Meaning(b.inner), (b.state, t)))
            && (Answers(g, Meaning(b), t) ==>
                  var whole := Interpret(both, Meaning(b.inner), (b.state, t));
                  Interpret(g, Meaning(b), t)
                  == Outcome(b.sig.finish(whole.value, whole.state.0), whole.state.1,
                             Filter(Not(b.sig.mine), whole.ops)))
  {
    var left := Discharge(b.sig.mine, b.sig.handler, b.state, Meaning(b.inner));
    DischargeThenRun(b.sig.mine, b.sig.handler, g, Meaning(b.inner), b.state, t);
    InterpretMap(g, Finish(b.sig), left, t);
  }

  /** Running a bound construction is running its first part and then what is bound to its value. */
  lemma BoundRuns<T, V(!new), Op, S>(g: Handler<T, Op, V>, b: Build<V, Op, S>, t: T)
    requires b.Then? && Fit(b)
    ensures Answers(g, Meaning(b), t) <==>
              && Answers(g, Meaning(b.first), t)
              && var o := Interpret(g, Meaning(b.first), t); Answers(g, Meaning(b.rest[o.value]), o.state)
    ensures Answers(g, Meaning(b), t) ==>
              var first := Interpret(g, Meaning(b.first), t);
              var rest := Interpret(g, Meaning(b.rest[first.value]), first.state);
              Interpret(g, Meaning(b), t) == Outcome(rest.value, rest.state, first.ops + rest.ops)
  {
    InterpretBind(g, Meaning(b.first), Sequel(b), t);
  }

  /** No more than d discharges stand inside one another. A row has finitely many signatures and
      each discharge takes one away, so there is such a d for every program over a row. */
  ghost predicate Nested<V(!new), Op, S>(b: Build<V, Op, S>, d: nat)
    decreases b
  {
    match b
    case Done(v) => true
    case Ask(op, rs) => true
    case Then(first, rest) => Nested(first, d) && forall v: V | v in rest :: Nested(rest[v], d)
    case Discharged(sig, s, inner) => d > 0 && Nested(inner, d - 1)
  }

  /** What the rest of a bound construction does depends only on what its first part means. */
  lemma SameFirst<V(!new), Op, S>(b: Build<V, Op, S>, first: Build<V, Op, S>)
    requires b.Then? && Fit(b) && Fit(first)
    ensures Fit(Then(first, b.rest))
    ensures Meaning(Then(first, b.rest)) == Bind(Meaning(first), Sequel(b))
  {
    BindCongruent(Meaning(first), Sequel(Then(first, b.rest)), Sequel(b));
  }

  lemma BoundValue<V(!new), Op, S>(b: Build<V, Op, S>, v: V)
    requires b.Then? && Fit(b)
    ensures Fit(Then(Done(v), b.rest))
    ensures Meaning(Then(Done(v), b.rest)) == Meaning(b.rest[v])
  {
    SameFirst(b, Done(v));
  }

  lemma {:induction false} BindCongruent<Op, R, A, B>(
      m: Program<Op, R, A>, f: A -> Program<Op, R, B>, g: A -> Program<Op, R, B>)
    requires forall a :: f(a) == g(a)
    ensures Bind(m, f) == Bind(m, g)
    decreases m
  {
    if m.Roll? {
      forall r | r in m.k
        ensures Bind(m.k[r], f) == Bind(m.k[r], g)
      {
        BindCongruent(m.k[r], f, g);
      }
      assert Bind(m, f).k == Bind(m, g).k;
    }
  }

  // ---------------------------------------------------------------------
  // Boxes and the nodes that hold them
  // ---------------------------------------------------------------------

  /** What a full box holds: the continuation of send, which finishes with its response, or one
      that calls a box of its own and then binds or goes on discharging. */
  datatype Closure<!V(==, !new), !Op, !S> =
    | Respond
    | Binding(inner: OneShot<V, Op, S>, rest: imap<V, Build<V, Op, S>>)
    | Discharging(inner: OneShot<V, Op, S>, sig: Signature<V, Op, S>, state: S)

  /** A program as it stands in memory. */
  datatype Node<!V(==, !new), !Op, !S> = Value(value: V) | Suspended(op: Op, k: OneShot<V, Op, S>)

  /** The construction has come to wait on an operation. */
  ghost predicate Waiting<V(!new), Op, S>(b: Build<V, Op, S>)
    requires Fit(b)
    decreases b
  {
    match b
    case Done(v) => false
    case Ask(op, rs) => true
    case Then(first, rest) => Waiting(first) && Meaning(first).Roll?
    case Discharged(sig, s, inner) => Waiting(inner) && Meaning(inner).Roll? && !sig.mine(Meaning(inner).op)
  }

  /** The chain of boxes, each inside the closure of the one before, is full and holds the
      continuation of the operation b waits on. */
  ghost predicate Holds<V(!new), Op, S>(chain: seq<OneShot<V, Op, S>>, b: Build<V, Op, S>)
    reads chain
    decreases b
  {
    && chain != []
    && match b
       case Done(v) => false
       case Ask(op, rs) => |chain| == 1 && chain[0].target == Some(Respond)
       case Then(first, rest) =>
         |chain| > 1 && chain[0].target == Some(Binding(chain[1], rest)) && Holds(chain[1..], first)
       case Discharged(sig, s, inner) =>
         |chain| > 1 && chain[0].target == Some(Discharging(chain[1], sig, s)) && Holds(chain[1..], inner)
  }

  /** Every box of such a chain is full. */
  lemma {:induction false} ChainIsFull<V(!new), Op, S>(chain: seq<OneShot<V, Op, S>>, b: Build<V, Op, S>)
    requires Holds(chain, b)
    ensures forall i | 0 <= i < |chain| :: chain[i].target.Some?
    decreases b
  {
    if b.Then? {
      ChainIsFull(chain[1..], b.first);
    } else if b.Discharged? {
      ChainIsFull(chain[1..], b.inner);
    }
    assert |chain| > 1 ==> forall i | 1 <= i < |chain| :: chain[i] == chain[1..][i - 1];
  }

  ghost predicate Distinct<T>(xs: seq<T>) {
    forall i, j | 0 <= i < j < |xs| :: xs[i] != xs[j]
  }

  /** The node in memory is the construction b, with all its boxes, and no others, in the chain. */
  ghost predicate Realises<V(!new), Op, S>(
      p: Node<V, Op, S>, chain: seq<OneShot<V, Op, S>>, b: Build<V, Op, S>)
    reads chain
  {
    && Fit(b)
    && match p
       case Value(v) => chain == [] && b == Done(v)
       case Suspended(op, k) =>
         && Waiting(b) && Meaning(b).Roll? && Meaning(b).op == op
         && Holds(chain, b) && Distinct(chain) && chain[0] == k
  }

  /** A box for a continuation that may be called once. Moving out of it or calling it
      empties it; calling an empty box is an error, so Call requires a full one. */
  class OneShot<V(==, !new), Op, S> {
    var target: Option<Closure<V, Op, S>>

    constructor Empty()
      ensures target == None
    {
      target := None;
    }

    constructor Holding(f: Closure<V, Op, S>)
      ensures target == Some(f)
    {
      target := Some(f);
    }

    constructor MovedFrom(other: OneShot<V, Op, S>)
      modifies other
      ensures target == old(other.target)
      ensures other.target == None
    {
      target := other.target;
      new;
      other.target := None;
    }

    method MoveAssign(other: OneShot<V, Op, S>)
      modifies this, other
      ensures this == other ==> target == old(target)
      ensures this != other ==> target == old(other.target) && other.target == None
    {
      if this != other {
        target := other.target;
        other.target := None;
      }
    }

    /** Takes the closure out and runs it. The box and every box inside it were full and are
        empty afterwards; what comes back owns boxes made on the way and no others. */
    method Call(r: V, ghost chain: seq<OneShot<V, Op, S>>, ghost b: Build<V, Op, S>, ghost d: nat)
      returns (p: Node<V, Op, S>, ghost next: seq<OneShot<V, Op, S>>, ghost rest: Build<V, Op, S>)
      requires target.Some?
      requires Fit(b) && Waiting(b) && Meaning(b).Roll?
      requires Realises(Suspended(Meaning(b).op, this), chain, b) && Nested(b, d)
      requires r in Meaning(b).k
      modifies chain
      ensures forall i | 0 <= i < |chain| :: chain[i].target == None
      ensures forall i | 0 <= i < |next| :: fresh(next[i])
      ensures Realises(p, next, rest) && Nested(rest, d)
      ensures Meaning(rest) == Meaning(b).k[r]
      decreases d, 1, b, 2
    {
      ChainIsFull(chain, b);
      var owned := target.value;
      target := None;
      if owned.Respond? {
        p, next, rest := Value(r), [], Done(r);
      } else if owned.Binding? {
        p, next, rest := CallBinding(owned.inner, owned.rest, r, chain[1..], b, d);
      } else {
        p, next, rest := CallDischarging(owned.inner, owned.sig, owned.state, r, chain[1..], b, d);
      }
    }
  }

  /** Running the closure a bind made: call the box inside, then bind what comes back. */
  method CallBinding<V(==, !new), Op, S>(
      inner: OneShot<V, Op, S>, sequel: imap<V, Build<V, Op, S>>, r: V,
      ghost chain: seq<OneShot<V, Op, S>>, ghost b: Build<V, Op, S>, ghost d: nat)
    returns (p: Node<V, Op, S>, ghost next: seq<OneShot<V, Op, S>>, ghost rest: Build<V, Op, S>)
    requires b.Then? && b.rest == sequel && Fit(b) && Waiting(b) && Nested(b, d)
    requires Holds(chain, b.first) && Distinct(chain) && chain[0] == inner
    requires r in Meaning(b).k
    modifies chain
    ensures forall i | 0 <= i < |chain| :: chain[i].target == None
    ensures forall i | 0 <= i < |next| :: fresh(next[i])
    ensures Realises(p, next, rest) && Nested(rest, d)
    ensures Meaning(rest) == Meaning(b).k[r]
    decreases d, 1, b, 1
  {
    ChainIsFull(chain, b.first);
    var x, c, first := inner.Call(r, chain, b.first, d);
    SameFirst(b, first);
    p, next, rest := BindNode(x, sequel, c, first, b, d);
  }

  /** Running the closure a discharge stored: call the box inside, then go on discharging. */
  method CallDischarging<V(==, !new), Op, S>(
      inner: OneShot<V, Op, S>, sig: Signature<V, Op, S>, s: S, r: V,
      ghost chain: seq<OneShot<V, Op, S>>, ghost b: Build<V, Op, S>, ghost d: nat)
    returns (p: Node<V, Op, S>, ghost next: seq<OneShot<V, Op, S>>, ghost rest: Build<V, Op, S>)
    requires b.Discharged? && b.sig == sig && b.state == s && Fit(b) && Waiting(b) && Nested(b, d)
    requires Holds(chain, b.inner) && Distinct(chain) && chain[0] == inner
    requires r in Meaning(b).k
    modifies chain
    ensures forall i | 0 <= i < |chain| :: chain[i].target == None
    ensures forall i | 0 <= i < |next| :: fresh(next[i])
    ensures Realises(p, next, rest) && Nested(rest, d)
    ensures Meaning(rest) == Meaning(b).k[r]
    decreases d, 1, b, 1
  {
    ChainIsFull(chain, b.inner);
    var x, c, left := inner.Call(r, chain, b.inner, d - 1);
    p, next, rest := DischargeNode(x, sig, s, c, left, d);
  }

  /** Binding: a finished value goes on with what is built for it, a suspended node gets a new
      box whose closure has taken over the old one. */
  method BindNode<V(==, !new), Op, S>(
      p: Node<V, Op, S>, sequel: imap<V, Build<V, Op, S>>,
      ghost chain: seq<OneShot<V, Op, S>>, ghost first: Build<V, Op, S>, ghost b: Build<V, Op, S>, ghost d: nat)
    returns (q: Node<V, Op, S>, ghost next: seq<OneShot<V, Op, S>>, ghost rest: Build<V, Op, S>)
    requires Realises(p, chain, first) && Nested(first, d)
    requires b.Then? && b.rest == sequel && Fit(b) && Nested(b, d)
    modifies chain
    ensures forall i | 0 <= i < |chain| :: chain[i].target == None || chain[i] in next
    ensures forall i | 0 <= i < |next| :: fresh(next[i]) || next[i] in chain
    ensures Realises(q, next, rest) && Nested(rest, d)
    ensures Fit(Then(first, sequel)) && Meaning(rest) == Meaning(Then(first, sequel))
    decreases d, 1, b, 0
  {
    if p.Value? {
      BoundValue(b, p.value);
      q, next, rest := Construct(sequel[p.value], d);
    } else {
      q, next := Attach(p.op, p.k, sequel, chain, first);
      rest := Then(first, sequel);
    }
  }

  /** A closure takes a box over by moving out of it; what it holds is kept. */
  method Capture<V(==, !new), Op, S>(
      k: OneShot<V, Op, S>, ghost chain: seq<OneShot<V, Op, S>>, ghost b: Build<V, Op, S>)
    returns (captured: OneShot<V, Op, S>)
    requires Holds(chain, b) && Distinct(chain) && chain[0] == k
    modifies k
    ensures fresh(captured) && k.target == None
    ensures Holds([captured] + chain[1..], b) && Distinct([captured] + chain[1..])
  {
    captured := new OneShot.MovedFrom(k);
    assert ([captured] + chain[1..])[1..] == chain[1..];
    assert forall i | 1 <= i < |chain| :: unchanged(chain[i]);
  }

  /** A suspended node under a bind: its operation again, with the new box. */
  method Attach<V(==, !new), Op, S>(
      op: Op, k: OneShot<V, Op, S>, sequel: imap<V, Build<V, Op, S>>,
      ghost chain: seq<OneShot<V, Op, S>>, ghost first: Build<V, Op, S>)
    returns (q: Node<V, Op, S>, ghost next: seq<OneShot<V, Op, S>>)
    requires Realises(Suspended(op, k), chain, first) && Fit(Then(first, sequel))
    modifies k
    ensures k.target == None && |next| > 1 && fresh(next[0]) && fresh(next[1]) && next[2..] == chain[1..]
    ensures Realises(q, next, Then(first, sequel))
  {
    var captured := Capture(k, chain, first);
    var box := new OneShot.Holding(Binding(captured, sequel));
    q, next := Suspended(op, box), [box] + ([captured] + chain[1..]);
    assert next[1..] == [captured] + chain[1..];
  }

  /** The operation of another signature, emitted again with the new box. */
  method Store<V(==, !new), Op, S>(
      op: Op, k: OneShot<V, Op, S>, sig: Signature<V, Op, S>, s: S,
      ghost chain: seq<OneShot<V, Op, S>>, ghost inner: Build<V, Op, S>)
    returns (q: Node<V, Op, S>, ghost next: seq<OneShot<V, Op, S>>)
    requires Realises(Suspended(op, k), chain, inner) && Fit(Discharged(sig, s, inner)) && !sig.mine(op)
    modifies k
    ensures k.target == None && |next| > 1 && fresh(next[0]) && fresh(next[1]) && next[2..] == chain[1..]
    ensures Realises(q, next, Discharged(sig, s, inner))
  {
    var captured := Capture(k, chain, inner);
    var box := new OneShot.Holding(Discharging(captured, sig, s));
    q, next := Suspended(op, box), [box] + ([captured] + chain[1..]);
    assert next[1..] == [captured] + chain[1..];
  }

  /** Discharging: operations of the signature are answered, calling the node's box each time;
      at another operation a new box takes over the old one together with the handler. */
  method DischargeNode<V(==, !new), Op, S>(
      p: Node<V, Op, S>, sig: Signature<V, Op, S>, s: S,
      ghost chain: seq<OneShot<V, Op, S>>, ghost inner: Build<V, Op, S>, ghost d: nat)
    returns (q: Node<V, Op, S>, ghost next: seq<OneShot<V, Op, S>>, ghost rest: Build<V, Op, S>)
    requires d > 0 && Realises(p, chain, inner) && Nested(inner, d - 1)
    requires Fit(Discharged(sig, s, inner))
    modifies chain
    ensures forall i | 0 <= i < |chain| :: chain[i].target == None || chain[i] in next
    ensures forall i | 0 <= i < |next| :: fresh(next[i]) || next[i] in chain
    ensures Realises(q, next, rest) && Nested(rest, d)
    ensures Meaning(rest) == Meaning(Discharged(sig, s, inner))
    decreases d, 0, Meaning(inner)
  {
    if p.Value? {
      q, next, rest := Value(sig.finish(p.value, s)), [], Done(sig.finish(p.value, s));
    } else if sig.mine(p.op) {
      ChainIsFull(chain, inner);
      var (r, s') := sig.handler(s, p.op);
      var x, c, after := p.k.Call(r, chain, inner, d - 1);
      q, next, rest := DischargeNode(x, sig, s', c, after, d);
    } else {
      q, next := Store(p.op, p.k, sig, s, chain, inner);
      rest := Discharged(sig, s, inner);
    }
  }

  /** Putting a program together, every box made full. */
  method Construct<V(==, !new), Op, S>(b: Build<V, Op, S>, ghost d: nat)
    returns (p: Node<V, Op, S>, ghost chain: seq<OneShot<V, Op, S>>, ghost waiting: Build<V, Op, S>)
    requires Fit(b) && Nested(b, d)
    ensures forall i | 0 <= i < |chain| :: fresh(chain[i])
    ensures Realises(p, chain, waiting) && Nested(waiting, d)
    ensures Meaning(waiting) == Meaning(b)
    decreases d, 1, b, 1
  {
    if b.Done? {
      p, chain, waiting := Value(b.value), [], b;
    } else if b.Ask? {
      var box := new OneShot.Holding(Respond);
      p, chain, waiting := Suspended(b.op, box), [box], b;
    } else if b.Then? {
      var x, c, w := Construct(b.first, d);
      p, chain, waiting := BindNode(x, b.rest, c, w, b, d);
      SameFirst(b, w);
    } else {
      var x, c, w := Construct(b.inner, d - 1);
      p, chain, waiting := DischargeNode(x, b.sig, b.state, c, w, d);
    }
  }

  // ---------------------------------------------------------------------
  // The interpreters over nodes in memory
  // ---------------------------------------------------------------------

  /** The boxes called so far: all empty, no box twice, none of them in use. */
  ghost predicate Spent<V(!new), Op, S>(called: seq<OneShot<V, Op, S>>, chain: seq<OneShot<V, Op, S>>)
    reads called
  {
    && (forall i | 0 <= i < |called| :: called[i].target == None && called[i] !in chain)
    && Distinct(called)
  }

  /** Interpreting an operation, seen from the operations done before it. */
  lemma OneStep<S, Op, R, A>(h: Handler<S, Op, R>, p: Program<Op, R, A>, s: S, done: seq<Op>)
    requires p.Roll? && Answers(h, p, s)
    ensures var (r, s') := h(s, p.op);
            r in p.k && Answers(h, p.k[r], s')
            && After(done, Interpret(h, p, s)) == After(done + [p.op], Interpret(h, p.k[r], s'))
  {
    var rest := Interpret(h, p, s);
    assert done + rest.ops == (done + [p.op]) + rest.ops[1..];
  }

  /** One turn of an interpreter: the node's box, which is full, is called with the response. */
  method Resume<V(==, !new), Op, S>(
      k: OneShot<V, Op, S>, response: V, ghost chain: seq<OneShot<V, Op, S>>, ghost b: Build<V, Op, S>,
      ghost called: seq<OneShot<V, Op, S>>, ghost d: nat)
    returns (p: Node<V, Op, S>, ghost next: seq<OneShot<V, Op, S>>, ghost rest: Build<V, Op, S>,
             ghost called': seq<OneShot<V, Op, S>>)
    requires Fit(b) && Waiting(b) && Meaning(b).Roll? && Nested(b, d)
    requires Holds(chain, b) && Distinct(chain) && chain[0] == k && Spent(called, chain)
    requires response in Meaning(b).k
    modifies chain
    ensures k.target == None && called' == called + [k] && Spent(called', next)
    ensures forall i | 0 <= i < |chain| :: chain[i].target == None
    ensures forall i | 0 <= i < |next| :: fresh(next[i])
    ensures Realises(p, next, rest) && Nested(rest, d)
    ensures Meaning(rest) == Meaning(b).k[response]
  {
    ChainIsFull(chain, b);
    p, next, rest := k.Call(response, chain, b, d);
    called' := called + [k];
  }

  method Turn<T, V(==, !new), Op, S>(
      handler: HandlerObject<T, Op, V>, p: Node<V, Op, S>, ghost chain: seq<OneShot<V, Op, S>>,
      ghost b: Build<V, Op, S>, ghost called: seq<OneShot<V, Op, S>>, ghost d: nat)
    returns (q: Node<V, Op, S>, ghost next: seq<OneShot<V, Op, S>>, ghost rest: Build<V, Op, S>,
             ghost called': seq<OneShot<V, Op, S>>)
    requires p.Suspended? && Realises(p, chain, b) && Nested(b, d) && Spent(called, chain)
    requires handler.answer(handler.state, p.op).0 in Meaning(b).k
    modifies handler, chain
    ensures called' == called + [p.k] && Spent(called', next)
    ensures forall i | 0 <= i < |chain| :: chain[i].target == None
    ensures forall i | 0 <= i < |next| :: fresh(next[i])
    ensures Realises(q, next, rest) && Nested(rest, d)
    ensures var (response, state) := handler.answer(old(handler.state), p.op);
            Meaning(rest) == Meaning(b).k[response] && handler.state == state
  {
    var response := handler.Invoke(p.op);
    q, next, rest, called' := Resume(p.k, response, chain, b, called, d);
  }

  /** The run loop over a node and its boxes. Call demands a full box, so no run calls an empty
      one; the loop calls one box for each operation, none of them twice, and leaves every box
      of the program empty. Value and handler state are those of the program the node means. */
  method RunNode<T, V(==, !new), Op, S>(
      handler: HandlerObject<T, Op, V>, prog: Node<V, Op, S>,
      ghost chain: seq<OneShot<V, Op, S>>, ghost b: Build<V, Op, S>, ghost d: nat)
    returns (value: V, ghost called: seq<OneShot<V, Op, S>>)
    requires Realises(prog, chain, b) && Nested(b, d)
    requires Answers(handler.answer, Meaning(b), handler.state)
    modifies handler, chain
    ensures value == Interpret(handler.answer, Meaning(b), old(handler.state)).value
    ensures handler.state == Interpret(handler.answer, Meaning(b), old(handler.state)).state
    ensures |called| == |Interpret(handler.answer, Meaning(b), old(handler.state)).ops|
    ensures Spent(called, [])
    ensures forall i | 0 <= i < |chain| :: chain[i].target == None
  {
    var current := prog;
    ghost var boxes, left := chain, b;
    ghost var done: seq<Op> := [];
    called := [];
    while current.Suspended?
      invariant Realises(current, boxes, left) && Nested(left, d)
      invariant boxes == chain || forall i | 0 <= i < |boxes| :: fresh(boxes[i])
      invariant boxes == chain || forall i | 0 <= i < |chain| :: chain[i].target == None
      invariant Answers(handler.answer, Meaning(left), handler.state)
      invariant Interpret(handler.answer, Meaning(b), old(handler.state))
             == After(done, Interpret(handler.answer, Meaning(left), handler.state))
      invariant |called| == |done| && Spent(called, boxes)
      decreases Meaning(left)
    {
      OneStep(handler.answer, Meaning(left), handler.state, done);
      done := done + [current.op];
      current, boxes, left, called := Turn(handler, current, boxes, left, called, d);
    }
    value := current.value;
  }

  /** The pairing loop over a node and its boxes. */
  method PairNode<M, T, V(==, !new), Op, S>(
      tree: Tree<M, Op, V, T>, mock: M, prog: Node<V, Op, S>,
      ghost chain: seq<OneShot<V, Op, S>>, ghost b: Build<V, Op, S>, ghost d: nat)
    returns (value: V, head: T, ghost called: seq<OneShot<V, Op, S>>)
    requires Realises(prog, chain, b) && Nested(b, d)
    requires Answers(Asking(tree.tail), Meaning(b), mock)
    modifies chain
    ensures value == Interpret(Asking(tree.tail), Meaning(b), mock).value
    ensures head == tree.head(Interpret(Asking(tree.tail), Meaning(b), mock).state)
    ensures |called| == |Interpret(Asking(tree.tail), Meaning(b), mock).ops|
    ensures Spent(called, [])
    ensures forall i | 0 <= i < |chain| :: chain[i].target == None
  {
    var current, state := prog, mock;
    ghost var boxes, left := chain, b;
    ghost var done: seq<Op> := [];
    called := [];
    while current.Suspended?
      invariant Realises(current, boxes, left) && Nested(left, d)
      invariant boxes == chain || forall i | 0 <= i < |boxes| :: fresh(boxes[i])
      invariant boxes == chain || forall i | 0 <= i < |chain| :: chain[i].target == None
      invariant Answers(Asking(tree.tail), Meaning(left), state)
      invariant Interpret(Asking(tree.tail), Meaning(b), mock)
             == After(done, Interpret(Asking(tree.tail), Meaning(left), state))
      invariant |called| == |done| && Spent(called, boxes)
      decreases Meaning(left)
    {
      OneStep(Asking(tree.tail), Meaning(left), state, done);
      done := done + [current.op];
      var (response, next) := tree.tail(state)(current.op);
      state := next;
      current, boxes, left, called := Resume(current.k, response, boxes, left, called, d);
    }
    value, head := current.value, tree.head(state);
  }

  /** Put together and run: however sends, binds and discharges are nested, the boxes never get
      in the way of what the construction means. */
  method ConstructAndRun<T, V(==, !new), Op, S>(handler: HandlerObject<T, Op, V>, b: Build<V, Op, S>, ghost d: nat)
    returns (value: V)
    requires Fit(b) && Nested(b, d) && Answers(handler.answer, Meaning(b), handler.state)
    modifies handler
    ensures value == Interpret(handler.answer, Meaning(b), old(handler.state)).value
    ensures handler.state == Interpret(handler.answer, Meaning(b), old(handler.state)).state
  {
    var p, chain, waiting := Construct(b, d);
    ghost var called;
    value, called := RunNode(handler, p, chain, waiting, d);
  }

  /** The construction that sends each operation of a program and binds the rest to it. */
  ghost function Written<V(!new), Op, S>(p: Program<Op, V, V>): Build<V, Op, S>
    decreases p
  {
    match p
    case Pure(v) => Done(v)
    case Roll(op, k) => Then(Ask(op, k.Keys), imap v: V | true :: if v in k then Written(k[v]) else Done(v))
  }

  /** Every program is what some construction means, so the above holds of all of them. */
  lemma {:induction false} EveryProgramIsWritten<V(!new), Op, S>(p: Program<Op, V, V>)
    ensures var b: Build<V, Op, S> := Written(p);
            Fit(b) && Nested(b, 0) && Meaning(b) == p
    decreases p
  {
    if p.Roll? {
      var b: Build<V, Op, S> := Written(p);
      forall v: V
        ensures Fit(b.rest[v]) && Nested(b.rest[v], 0)
        ensures v in p.k ==> Meaning(b.rest[v]) == p.k[v]
      {
        if v in p.k {
          EveryProgramIsWritten<V, Op, S>(p.k[v]);
        }
      }
      assert Fit(b);
      BindSend(p.op, p.k.Keys, Sequel(b));
      assert Meaning(b) == Roll(p.op, imap r | r in p.k.Keys :: Sequel(b)(r));
      assert (imap r | r in p.k.Keys :: Sequel(b)(r)) == p.k;
    }
  }
}
