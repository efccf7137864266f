/** The Mendler fold over programs and the interpreter built from it. */
module Tasks {
  import opened Wrappers
  import opened Freer

  /** The algebra asks for the recursion on what follows some response, and on nothing else. */
  ghost predicate AsksBelow<Op(!new), R(!new), A(!new), C(!new)>(
      phi: (Program<Op, R, A> --> C, Op, imap<R, Program<Op, R, A>>) --> C)
  {
    forall recurse: Program<Op, R, A> --> C, op: Op, k: imap<R, Program<Op, R, A>> ::
      (forall r | r in k :: recurse.requires(k[r])) ==> phi.requires(recurse, op, k)
  }

  /** The algebra is given the fold itself and the layer as it stands, not resumed; which of the
      programs below it folds is its own choice. */
  ghost function McataFree<Op(!new), R(!new), A(!new), C(!new)>(
      pureAlg: A -> C, phi: (Program<Op, R, A> --> C, Op, imap<R, Program<Op, R, A>>) --> C, p: Program<Op, R, A>): C
    requires AsksBelow(phi)
    decreases p, 1
  {
    match p
    case Pure(a) => pureAlg(a)
    case Roll(op, k) => phi(FoldBelow(pureAlg, phi, p), op, k)
  }

  /** The fold, callable on the programs that may follow p's operation. */
  ghost function FoldBelow<Op(!new), R(!new), A(!new), C(!new)>(
      pureAlg: A -> C, phi: (Program<Op, R, A> --> C, Op, imap<R, Program<Op, R, A>>) --> C, p: Program<Op, R, A>)
    : (recurse: Program<Op, R, A> --> C)
    requires AsksBelow(phi) && p.Roll?
    ensures forall r | r in p.k :: recurse.requires(p.k[r])
    decreases p, 0
  {
    (q: Program<Op, R, A>) requires q in p.k.Values => McataFree(pureAlg, phi, q)
  }

  /** A task started from a shared state: what it shows, or None where a response has no
      continuation. */
  type Task<!S, +Op, +A> = S -> Option<Outcome<A, S, Op>>

  function DoneTask<S, Op, A>(): A -> Task<S, Op, A> {
    (a: A) => (s: S) => Some(Outcome(a, s, []))
  }

  /** Wait for the response, resume with it, and recurse on what comes back, from the state the
      handler left. */
  ghost function Resume<S, Op, R, A>(
      h: Handler<S, Op, R>, recurse: Program<Op, R, A> --> Task<S, Op, A>, op: Op, k: imap<R, Program<Op, R, A>>, s: S)
    : Option<Outcome<A, S, Op>>
    requires forall r | r in k :: recurse.requires(k[r])
  {
    var (r, s') := h(s, op);
    if r !in k then None else
    match recurse(k[r])(s')
    case None => None
    case Some(o) => Some(o.(ops := [op] + o.ops))
  }

  ghost function TaskPhi<S, Op, R(!new), A>(h: Handler<S, Op, R>)
    : (Program<Op, R, A> --> Task<S, Op, A>, Op, imap<R, Program<Op, R, A>>) --> Task<S, Op, A>
  {
    (recurse: Program<Op, R, A> --> Task<S, Op, A>, op: Op, k: imap<R, Program<Op, R, A>>)
      requires forall r | r in k :: recurse.requires(k[r]) =>
      (s: S) => Resume(h, recurse, op, k, s)
  }

  ghost function RunTask<S(!new), Op(!new), R(!new), A(!new)>(
      h: Handler<S, Op, R>, p: Program<Op, R, A>): Task<S, Op, A>
  {
    McataFree(DoneTask(), TaskPhi(h), p)
  }

  /** Folding a program to a task and starting it is running the program in the loop, when the
      handler's state is shared: it finishes for the same states, with the same outcome. */
  lemma {:induction false} RunTaskIsRun<S(!new), Op(!new), R(!new), A(!new)>(
      h: Handler<S, Op, R>, p: Program<Op, R, A>, s: S)
    ensures RunTask(h, p)(s) == if Answers(h, p, s) then Some(Interpret(h, p, s)) else None
    decreases p
  {
    if p.Roll? {
      var (r, s') := h(s, p.op);
      if r in p.k {
        RunTaskIsRun(h, p.k[r], s');
      }
      assert RunTask(h, p)(s) == Resume(h, FoldBelow(DoneTask(), TaskPhi(h), p), p.op, p.k, s);
    }
  }

  // ---------------------------------------------------------------------
  // State held in the copied handler
  // ---------------------------------------------------------------------

  /** The fold copies the handler afresh for every operation, so state kept inside it is
      always the state it was handed over with. */
  function Copied<S, Op, R>(h: Handler<S, Op, R>): Handler<S, Op, R> {
    (s: S, op: Op) => (h(s, op).0, s)
  }

  ghost function StateAfter<S, Op, R>(h: Handler<S, Op, R>, s: S, ops: seq<Op>): S
    decreases ops
  {
    if ops == [] then s else StateAfter(h, h(s, ops[0]).1, ops[1..])
  }

  /** No sequence of operations changes how the handler answers. */
  ghost predicate AnswersNeverChange<S, Op(!new), R>(h: Handler<S, Op, R>, s: S) {
    forall ops: seq<Op>, op: Op :: h(StateAfter(h, s, ops), op).0 == h(s, op).0
  }

  lemma {:induction false} CopiedSafe<S, Op(!new), R, A>(
      h: Handler<S, Op, R>, s: S, done: seq<Op>, p: Program<Op, R, A>)
    requires AnswersNeverChange(h, s)
    ensures var now := StateAfter(h, s, done);
            && (Answers(Copied(h), p, s) <==> Answers(h, p, now))
            && (Answers(h, p, now) ==>
                  && Interpret(Copied(h), p, s).value == Interpret(h, p, now).value
                  && Interpret(Copied(h), p, s).ops == Interpret(h, p, now).ops)
    decreases p
  {
    if p.Roll? {
      var r := h(s, p.op).0;
      AfterOneMore(h, s, done, p.op);
      if r in p.k {
        CopiedSafe(h, s, done + [p.op], p.k[r]);
      }
    }
  }

  lemma {:induction false} AfterOneMore<S, Op, R>(h: Handler<S, Op, R>, s: S, ops: seq<Op>, op: Op)
    ensures StateAfter(h, s, ops + [op]) == h(StateAfter(h, s, ops), op).1
    decreases ops
  {
    if ops == [] {
      assert StateAfter(h, s, [op]) == StateAfter(h, h(s, op).1, []);
    } else {
      assert (ops + [op])[1..] == ops[1..] + [op];
      AfterOneMore(h, h(s, ops[0]).1, ops[1..], op);
    }
  }

  /** Performs the operations in turn and returns the last response. */
  ghost function Probe<Op, R(!new)>(ops: seq<Op>, last: Op): Program<Op, R, R>
    decreases ops
  {
    Roll(if ops == [] then last else ops[0],
         imap r: R | true :: if ops == [] then Program<Op, R, R>.Pure(r) else Probe(ops[1..], last))
  }

  lemma {:induction false} ProbeReads<S, Op, R(!new)>(h: Handler<S, Op, R>, s: S, ops: seq<Op>, last: Op)
    ensures Answers(h, Probe(ops, last), s)
    ensures Interpret(h, Probe(ops, last), s).value == h(StateAfter(h, s, ops), last).0
    ensures Answers(Copied(h), Probe(ops, last), s)
    ensures Interpret(Copied(h), Probe(ops, last), s).value == h(s, last).0
    decreases ops
  {
    if ops != [] {
      ProbeReads(h, h(s, ops[0]).1, ops[1..], last);
      ProbeReadsCopied(h, s, ops[1..], last);
    }
  }

  lemma {:induction false} ProbeReadsCopied<S, Op, R(!new)>(h: Handler<S, Op, R>, s: S, ops: seq<Op>, last: Op)
    ensures Answers(Copied(h), Probe(ops, last), s)
    ensures Interpret(Copied(h), Probe(ops, last), s).value == h(s, last).0
    decreases ops
  {
    if ops != [] {
      ProbeReadsCopied(h, s, ops[1..], last);
    }
  }

  ghost predicate SameValue<A, S, Op>(task: Option<Outcome<A, S, Op>>, loop: Outcome<A, S, Op>) {
    task.Some? && task.value.value == loop.value
  }

  /** A handler that keeps its state to itself gives the loop's values for every program
      exactly when that state never shows in an answer. */
  lemma CopiedStateAgreesIff<S(!new), Op(!new), R(!new)>(h: Handler<S, Op, R>, s: S)
    ensures AnswersNeverChange(h, s) <==>
              forall p: Program<Op, R, R> | Answers(h, p, s) ::
                SameValue(RunTask(Copied(h), p)(s), Interpret(h, p, s))
  {
    forall p: Program<Op, R, R>
      ensures RunTask(Copied(h), p)(s)
           == if Answers(Copied(h), p, s) then Some(Interpret(Copied(h), p, s)) else None
    {
      RunTaskIsRun(Copied(h), p, s);
    }
    if AnswersNeverChange(h, s) {
      forall p: Program<Op, R, R> | Answers(h, p, s)
        ensures SameValue(RunTask(Copied(h), p)(s), Interpret(h, p, s))
      {
        CopiedSafe(h, s, [], p);
      }
    } else {
      var ops: seq<Op>, op: Op :| h(StateAfter(h, s, ops), op).0 != h(s, op).0;
      ProbeReads(h, s, ops, op);
      var p: Program<Op, R, R> := Probe(ops, op);
      assert Answers(h, p, s);
    }
  }

  // ---- a handler that counts ------------------------------------------

  function Counting(): Handler<nat, int, nat> {
    (count: nat, op: int) => (count, count + 1)
  }

  /** Asking a counter twice: the loop sees it move, a copied handler starts over each time. */
  lemma CountingHandlerDiffers()
    ensures var p: Program<int, nat, nat> := Probe([7], 7);
            && Answers(Counting(), p, 0) && Interpret(Counting(), p, 0).value == 1
            && RunTask(Copied(Counting()), p)(0).Some? && RunTask(Copied(Counting()), p)(0).value.value == 0
  {
    var ops := [7];
    ProbeReads(Counting(), 0, ops, 7);
    assert StateAfter(Counting(), 0, ops) == StateAfter(Counting(), 1, []) == 1;
    RunTaskIsRun(Copied(Counting()), Probe(ops, 7), 0);
  }
}
