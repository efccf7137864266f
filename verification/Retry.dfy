/** The retry-with-backoff program over a clock and a network, against every behaviour of both. */
module Retry {
  import opened Wrappers
  import opened Freer
  import opened Running
  import opened Pairing
  import opened Text

  datatype Op = Now | SleepFor(d: int) | Send(body: string)

  /** What the two signatures answer; Answered carries a reply's body or, failing that, nothing. */
  datatype Response = Time(t: int) | Slept | Answered(reply: Option<string>)

  /** The response type of an operation. */
  ghost function ResponseType(op: Op): iset<Response> {
    match op
    case Now => iset r: Response | r.Time?
    case SleepFor(d) => iset r: Response | r.Slept?
    case Send(body) => iset r: Response | r.Answered?
  }

  /** A handler whose answers have the types the operations ask for. */
  ghost predicate Typed<S(!new)>(h: Handler<S, Op, Response>) {
    forall s: S, op: Op :: h(s, op).0 in ResponseType(op)
  }

  ghost function Perform<A>(op: Op, next: Response -> Program<Op, Response, A>): Program<Op, Response, A> {
    Bind(Freer.Send(op, ResponseType(op)), next)
  }

  /** One attempt: a reply ends it with its length; after a failure either nothing is left to
      try, or the program sleeps as many seconds as attempts were made and tries again. */
  ghost function RetryAttempt(attempt: int): Program<Op, Response, int>
    decreases 3 - attempt, 1
  {
    Perform(Send("hello"), (res: Response) => AfterSend(attempt, res))
  }

  ghost function AfterSend(attempt: int, res: Response): Program<Op, Response, int>
    decreases 3 - attempt, 0
  {
    if res.Answered? && res.reply.Some? then Pure(|res.reply.value|)
    else if attempt >= 3 then Pure(-1)
    else Perform(SleepFor(attempt), (_: Response) => RetryAttempt(attempt + 1))
  }

  ghost function RetryProgram(): Program<Op, Response, int> {
    Perform(Now, (_: Response) => RetryAttempt(1))
  }

  // ---------------------------------------------------------------------
  // What it does
  // ---------------------------------------------------------------------

  function Hello(): Op { Send("hello") }

  /** How many sends there may be from this attempt on. */
  function Limit(attempt: int): nat {
    if attempt >= 3 then 1 else 4 - attempt
  }

  /** The state before send number i, counting from 0, when all before it failed. */
  function StateBefore<S>(h: Handler<S, Op, Response>, s: S, attempt: int, i: nat): S
    decreases i
  {
    if i == 0 then s
    else StateBefore(h, h(h(s, Hello()).1, SleepFor(attempt)).1, attempt + 1, i - 1)
  }

  /** The network's reply to send number i. */
  function Reply<S>(h: Handler<S, Op, Response>, s: S, attempt: int, i: nat): Option<string> {
    var r := h(StateBefore(h, s, attempt, i), Hello()).0;
    if r.Answered? then r.reply else None
  }

  /** n sends with sleeps of attempt, attempt + 1, ... between them. */
  function Schedule(attempt: int, n: nat): seq<Op>
    decreases n
  {
    if n == 0 then []
    else if n == 1 then [Hello()]
    else [Hello(), SleepFor(attempt)] + Schedule(attempt + 1, n - 1)
  }

  /** n sends are made: the first n - 1 fail, and the last succeeds or uses up the limit. */
  ghost predicate Makes<S>(h: Handler<S, Op, Response>, s: S, attempt: int, n: nat) {
    && 1 <= n <= Limit(attempt)
    && (forall i: nat | i < n - 1 :: Reply(h, s, attempt, i) == None)
    && (Reply(h, s, attempt, n - 1).Some? || n == Limit(attempt))
  }

  lemma PerformRuns<S(!new), A>(
      h: Handler<S, Op, Response>, op: Op, next: Response -> Program<Op, Response, A>, s: S)
    requires Typed(h)
    ensures Answers(h, Perform(op, next), s) <==> Answers(h, next(h(s, op).0), h(s, op).1)
    ensures Answers(h, Perform(op, next), s) ==>
              var o := Interpret(h, next(h(s, op).0), h(s, op).1);
              Interpret(h, Perform(op, next), s) == o.(ops := [op] + o.ops)
  {
    BindSend(op, ResponseType(op), next);
    assert h(s, op).0 in ResponseType(op);
  }

  /** One attempt of the program, with what follows it. */
  lemma AttemptStep<S(!new)>(h: Handler<S, Op, Response>, s: S, attempt: int)
    requires Typed(h)
    ensures var (res, s') := h(s, Hello());
            var s'' := h(s', SleepFor(attempt)).1;
            if Reply(h, s, attempt, 0).Some? || attempt >= 3 then
              && Answers(h, RetryAttempt(attempt), s)
              && Interpret(h, RetryAttempt(attempt), s)
                 == Outcome(ValueOf(Reply(h, s, attempt, 0)), s', [Hello()])
            else
              && (Answers(h, RetryAttempt(attempt), s) <==> Answers(h, RetryAttempt(attempt + 1), s''))
              && (Answers(h, RetryAttempt(attempt + 1), s'') ==>
                    var o := Interpret(h, RetryAttempt(attempt + 1), s'');
                    Interpret(h, RetryAttempt(attempt), s) == o.(ops := [Hello(), SleepFor(attempt)] + o.ops))
  {
    var (res, s') := h(s, Hello());
    PerformRuns(h, Hello(), (r: Response) => AfterSend(attempt, r), s);
    if Reply(h, s, attempt, 0).None? && attempt < 3 {
      PerformRuns(h, SleepFor(attempt), (_: Response) => RetryAttempt(attempt + 1), s');
      var s'' := h(s', SleepFor(attempt)).1;
      if Answers(h, RetryAttempt(attempt + 1), s'') {
        var ops := Interpret(h, RetryAttempt(attempt + 1), s'').ops;
        assert [Hello()] + ([SleepFor(attempt)] + ops) == [Hello(), SleepFor(attempt)] + ops;
      }
    }
  }

  /** The length of the reply, or -1. */
  function ValueOf(reply: Option<string>): int {
    if reply.Some? then |reply.value| else -1
  }

  /** The outcome by direct recursion on attempts. */
  function Attempts<S>(h: Handler<S, Op, Response>, s: S, attempt: int): Outcome<int, S, Op>
    decreases 3 - attempt
  {
    var (res, s') := h(s, Hello());
    if (res.Answered? && res.reply.Some?) || attempt >= 3 then
      Outcome(ValueOf(if res.Answered? then res.reply else None), s', [Hello()])
    else
      var o := Attempts(h, h(s', SleepFor(attempt)).1, attempt + 1);
      o.(ops := [Hello(), SleepFor(attempt)] + o.ops)
  }

  lemma {:induction false} RetryAttemptRuns<S(!new)>(h: Handler<S, Op, Response>, s: S, attempt: int)
    requires Typed(h)
    ensures Answers(h, RetryAttempt(attempt), s)
    ensures Interpret(h, RetryAttempt(attempt), s) == Attempts(h, s, attempt)
    decreases 3 - attempt
  {
    AttemptStep(h, s, attempt);
    if Reply(h, s, attempt, 0).None? && attempt < 3 {
      RetryAttemptRuns(h, h(h(s, Hello()).1, SleepFor(attempt)).1, attempt + 1);
    }
  }

  lemma {:induction false} AttemptsMake<S>(h: Handler<S, Op, Response>, s: S, attempt: int) returns (n: nat)
    ensures Makes(h, s, attempt, n)
    ensures Attempts(h, s, attempt)
         == Outcome(ValueOf(Reply(h, s, attempt, n - 1)), h(StateBefore(h, s, attempt, n - 1), Hello()).1,
                    Schedule(attempt, n))
    decreases 3 - attempt
  {
    if Reply(h, s, attempt, 0).Some? || attempt >= 3 {
      n := 1;
    } else {
      var s'' := h(h(s, Hello()).1, SleepFor(attempt)).1;
      var m := AttemptsMake(h, s'', attempt + 1);
      n := m + 1;
      forall i: nat | i < n - 1
        ensures Reply(h, s, attempt, i) == None
      {
        assert i > 0 ==> Reply(h, s, attempt, i) == Reply(h, s'', attempt + 1, i - 1);
      }
    }
  }

  /** From any attempt and any state, whatever the network and the clock answer, the program
      finishes; it makes the sends above and no other, sleeping in between for one second more
      each time; its value is the length of the first successful reply, or -1 without one. */
  lemma RetryBehaviour<S(!new)>(h: Handler<S, Op, Response>, s: S, attempt: int) returns (n: nat)
    requires Typed(h)
    ensures Answers(h, RetryAttempt(attempt), s)
    ensures Makes(h, s, attempt, n)
    ensures var reply := Reply(h, s, attempt, n - 1);
            Interpret(h, RetryAttempt(attempt), s)
            == Outcome(if reply.Some? then |reply.value| else -1,
                       h(StateBefore(h, s, attempt, n - 1), Hello()).1, Schedule(attempt, n))
  {
    RetryAttemptRuns(h, s, attempt);
    n := AttemptsMake(h, s, attempt);
  }

  function CountSends(ops: seq<Op>): nat {
    if ops == [] then 0 else (if ops[0].Send? then 1 else 0) + CountSends(ops[1..])
  }

  lemma {:induction false} ScheduleSends(attempt: int, n: nat)
    ensures CountSends(Schedule(attempt, n)) == n
    decreases n
  {
    if n > 1 {
      var ops := Schedule(attempt, n);
      assert ops[1..][1..] == Schedule(attempt + 1, n - 1);
      ScheduleSends(attempt + 1, n - 1);
    }
  }

  /** No run makes more than max(1, 4 - attempt) sends. */
  lemma SendsAreBounded<S(!new)>(h: Handler<S, Op, Response>, s: S, attempt: int)
    requires Typed(h)
    ensures Answers(h, RetryAttempt(attempt), s)
    ensures 1 <= CountSends(Interpret(h, RetryAttempt(attempt), s).ops) <= Limit(attempt)
  {
    var n := RetryBehaviour(h, s, attempt);
    ScheduleSends(attempt, n);
  }

  // ---------------------------------------------------------------------
  // The direct loop
  // ---------------------------------------------------------------------

  lemma AfterTwo<S>(done: seq<Op>, a: Op, b: Op, o: Outcome<int, S, Op>)
    ensures After(done, o.(ops := [a, b] + o.ops)) == After(done + [a] + [b], o)
  {
    assert done + ([a, b] + o.ops) == done + [a] + [b] + o.ops;
  }

  lemma RetryProgramRuns<S(!new)>(h: Handler<S, Op, Response>, s: S)
    requires Typed(h)
    ensures Answers(h, RetryProgram(), s)
    ensures Interpret(h, RetryProgram(), s) == After([Now], Attempts(h, h(s, Now).1, 1))
  {
    PerformRuns(h, Now, (_: Response) => RetryAttempt(1), s);
    RetryAttemptRuns(h, h(s, Now).1, 1);
  }

  /** The loop over attempts, on the operations done before it. */
  method RetryLoop<S>(handler: HandlerObject<S, Op, Response>, before: seq<Op>) returns (value: int, ops: seq<Op>)
    modifies handler
    ensures Outcome(value, handler.state, ops) == After(before, Attempts(handler.answer, old(handler.state), 1))
  {
    ops := before;
    var attempt := 1;
    while true
      invariant 1 <= attempt <= 3
      invariant After(before, Attempts(handler.answer, old(handler.state), 1))
             == After(ops, Attempts(handler.answer, handler.state, attempt))
      decreases 3 - attempt
    {
      ghost var done := ops;
      var res := handler.Invoke(Hello());
      ops := ops + [Hello()];
      if res.Answered? && res.reply.Some? {
        value := |res.reply.value|;
        return;
      }
      if attempt >= 3 {
        value := -1;
        return;
      }
      var slept := handler.Invoke(SleepFor(attempt));
      AfterTwo(done, Hello(), SleepFor(attempt), Attempts(handler.answer, handler.state, attempt + 1));
      ops := ops + [SleepFor(attempt)];
      attempt := attempt + 1;
    }
  }

  /** The same behaviour written against the two interfaces, without a program in between: the
      same value, final state and operations for every clock and network. */
  method RetryDirectly<S(!new)>(handler: HandlerObject<S, Op, Response>) returns (value: int, ops: seq<Op>)
    requires Typed(handler.answer)
    modifies handler
    ensures Answers(handler.answer, RetryProgram(), old(handler.state))
    ensures Outcome(value, handler.state, ops) == Interpret(handler.answer, RetryProgram(), old(handler.state))
  {
    RetryProgramRuns(handler.answer, handler.state);
    var time := handler.Invoke(Now);
    value, ops := RetryLoop(handler, [Now]);
  }

  // ---------------------------------------------------------------------
  // The scripted mock
  // ---------------------------------------------------------------------

  datatype RetryScript = RetryScript(sendCount: int, virtualTime: int)

  /** The network fails the first sends, as many as given, then replies; time is virtual. */
  function ScriptAnswer(failures: int, state: RetryScript, op: Op): (Response, RetryScript) {
    match op
    case Now => (Time(state.virtualTime), state)
    case SleepFor(d) => (Slept, state.(virtualTime := state.virtualTime + d))
    case Send(body) =>
      var next := state.(sendCount := state.sendCount + 1);
      (Answered(if next.sendCount <= failures then None else Some("hello-reply")), next)
  }

  function RetryCoalg(failures: int): RetryScript -> Responders<Op, Response, RetryScript> {
    (state: RetryScript) => (op: Op) => ScriptAnswer(failures, state, op)
  }

  function RenderOp(op: Op): string {
    match op
    case Now => "Now()"
    case SleepFor(d) => "SleepFor(" + Numeral(d) + ")"
    case Send(body) => "Send(" + body + ")"
  }

  lemma FailingAttempt<S>(h: Handler<S, Op, Response>, s: S, failed: S, slept: S, attempt: int)
    requires h(s, Hello()) == (Answered(None), failed) && h(failed, SleepFor(attempt)) == (Slept, slept)
    requires attempt < 3
    ensures var o := Attempts(h, slept, attempt + 1);
            Attempts(h, s, attempt) == o.(ops := [Hello(), SleepFor(attempt)] + o.ops)
  {
  }

  lemma LastAttempt<S>(h: Handler<S, Op, Response>, s: S, done: S, attempt: int, body: string)
    requires h(s, Hello()) == (Answered(Some(body)), done)
    ensures Attempts(h, s, attempt) == Outcome(|body|, done, [Hello()])
  {
  }

  function ScriptedOps(): seq<Op> {
    [Now, Hello(), SleepFor(1), Hello(), SleepFor(2), Hello()]
  }

  lemma ScriptIsTyped(failures: int)
    ensures Typed(Asking(RetryCoalg(failures)))
  {
  }

  /** Run with the script as a handler that fails the first two sends: six operations, no fourth
      attempt, the reply's length, three sends answered and three seconds slept. */
  lemma ScriptedRetry()
    ensures Answers(Asking(RetryCoalg(2)), RetryProgram(), RetryScript(0, 0))
    ensures Interpret(Asking(RetryCoalg(2)), RetryProgram(), RetryScript(0, 0))
         == Outcome(11, RetryScript(3, 3), ScriptedOps())
  {
    RetryAgainstMock(2);
  }

  /** The log both interpreters show for it. */
  lemma ScriptedLog()
    ensures Rendered(RenderOp, ScriptedOps())
         == ["Now()", "Send(hello)", "SleepFor(1)", "Send(hello)", "SleepFor(2)", "Send(hello)"]
  {
    assert Decimal(1) == "1" && Decimal(2) == "2";
    assert RenderOp(SleepFor(1)) == "SleepFor(1)" && RenderOp(SleepFor(2)) == "SleepFor(2)";
    assert RenderOp(Hello()) == "Send(hello)";
  }

  lemma SleepsLoggedAlike(d: int, e: int)
    requires RenderOp(SleepFor(d)) == RenderOp(SleepFor(e))
    ensures d == e
  {
    var s, t := RenderOp(SleepFor(d)), RenderOp(SleepFor(e));
    assert Numeral(d) == s[9..|s| - 1] && Numeral(e) == t[9..|t| - 1];
    NumeralsDiffer(d, e);
  }

  lemma SendsLoggedAlike(body: string, other: string)
    requires RenderOp(Send(body)) == RenderOp(Send(other))
    ensures body == other
  {
    var s, t := RenderOp(Send(body)), RenderOp(Send(other));
    assert body == s[5..|s| - 1] && other == t[5..|t| - 1];
  }

  lemma LoggedKind(op: Op)
    ensures RenderOp(op)[0] == (if op.Now? then 'N' else 'S')
    ensures RenderOp(op)[1] == (if op.Now? then 'o' else if op.SleepFor? then 'l' else 'e')
  {
  }

  /** Two operations that are logged alike are the same operation. */
  lemma LogTellsApart(a: Op, b: Op)
    requires RenderOp(a) == RenderOp(b)
    ensures a == b
  {
    LoggedKind(a);
    LoggedKind(b);
    if a.SleepFor? {
      SleepsLoggedAlike(a.d, b.d);
    } else if a.Send? {
      SendsLoggedAlike(a.body, b.body);
    }
  }

  // ---- the mock, asked anything ----------------------------------------

  /** The answers to a sequence of operations, in order, and the state they leave. */
  function Asked<S>(h: Handler<S, Op, Response>, s: S, ops: seq<Op>): (seq<Response>, S)
    decreases ops
  {
    if ops == [] then ([], s)
    else
      var (r, s') := h(s, ops[0]);
      var (rs, last) := Asked(h, s', ops[1..]);
      ([r] + rs, last)
  }

  function SleepSum(ops: seq<Op>): int {
    if ops == [] then 0 else (if ops[0].SleepFor? then ops[0].d else 0) + SleepSum(ops[1..])
  }

  /** Answer number i, by what was asked before it. */
  ghost function Due(failures: int, start: RetryScript, ops: seq<Op>, i: nat): Response
    requires i < |ops|
  {
    match ops[i]
    case Now => Time(start.virtualTime + SleepSum(ops[..i]))
    case SleepFor(d) => Slept
    case Send(body) => Answered(if start.sendCount + CountSends(ops[..i]) < failures then None else Some("hello-reply"))
  }

  lemma {:induction false} DueLater(failures: int, start: RetryScript, next: RetryScript, ops: seq<Op>, i: nat)
    requires 0 < i < |ops|
    requires next == RetryScript(start.sendCount + CountSends(ops[..1]), start.virtualTime + SleepSum(ops[..1]))
    ensures Due(failures, start, ops, i) == Due(failures, next, ops[1..], i - 1)
  {
    assert ops[..i][1..] == ops[1..][..i - 1];
    assert ops[..1][1..] == [];
  }

  /** Whatever it is asked: the time is the starting time and all sleeps before, the first sends
      fail, as many as given, every later one is answered, and the counters count. */
  lemma {:induction false} MockAnswers(failures: int, start: RetryScript, ops: seq<Op>)
    ensures var (answers, last) := Asked(Asking(RetryCoalg(failures)), start, ops);
            && |answers| == |ops|
            && (forall i | 0 <= i < |ops| :: answers[i] == Due(failures, start, ops, i))
            && last == RetryScript(start.sendCount + CountSends(ops), start.virtualTime + SleepSum(ops))
    decreases ops
  {
    if ops != [] {
      var h := Asking(RetryCoalg(failures));
      var next := h(start, ops[0]).1;
      MockAnswers(failures, next, ops[1..]);
      assert ops[..1][1..] == [];
      var answers := Asked(h, start, ops).0;
      forall i | 0 <= i < |ops|
        ensures answers[i] == Due(failures, start, ops, i)
      {
        if i > 0 {
          DueLater(failures, start, next, ops, i);
        }
      }
    }
  }

  lemma LastFailure<S>(h: Handler<S, Op, Response>, s: S, failed: S, attempt: int)
    requires h(s, Hello()) == (Answered(None), failed) && attempt >= 3
    ensures Attempts(h, s, attempt) == Outcome(-1, failed, [Hello()])
  {
  }

  lemma MockStep(failures: int, sent: int, time: int, d: int)
    ensures Asking(RetryCoalg(failures))(RetryScript(sent, time), Hello())
         == (Answered(if sent < failures then None else Some("hello-reply")), RetryScript(sent + 1, time))
    ensures Asking(RetryCoalg(failures))(RetryScript(sent, time), SleepFor(d))
         == (Slept, RetryScript(sent, time + d))
  {
    MockIsScript(failures, RetryScript(sent, time), Hello());
    MockIsScript(failures, RetryScript(sent, time), SleepFor(d));
  }

  lemma MockIsScript(failures: int, state: RetryScript, op: Op)
    ensures Asking(RetryCoalg(failures))(state, op) == ScriptAnswer(failures, state, op)
  {
    assert Asking(RetryCoalg(failures))(state, op) == RetryCoalg(failures)(state)(op);
  }

  lemma ThirdSend(failures: int)
    ensures Attempts(Asking(RetryCoalg(failures)), RetryScript(2, 3), 3)
         == Outcome(if failures <= 2 then 11 else -1, RetryScript(3, 3), [Hello()])
  {
    var h := Asking(RetryCoalg(failures));
    MockStep(failures, 2, 3, 3);
    if failures <= 2 {
      LastAttempt(h, RetryScript(2, 3), RetryScript(3, 3), 3, "hello-reply");
    } else {
      LastFailure(h, RetryScript(2, 3), RetryScript(3, 3), 3);
    }
  }

  lemma SecondSend(failures: int)
    ensures Attempts(Asking(RetryCoalg(failures)), RetryScript(1, 1), 2)
         == if failures <= 1 then Outcome(11, RetryScript(2, 1), [Hello()])
            else Outcome(if failures == 2 then 11 else -1, RetryScript(3, 3), [Hello(), SleepFor(2), Hello()])
  {
    var h := Asking(RetryCoalg(failures));
    MockStep(failures, 1, 1, 2);
    MockStep(failures, 2, 1, 2);
    if failures <= 1 {
      LastAttempt(h, RetryScript(1, 1), RetryScript(2, 1), 2, "hello-reply");
    } else {
      FailingAttempt(h, RetryScript(1, 1), RetryScript(2, 1), RetryScript(2, 3), 2);
      ThirdSend(failures);
    }
  }

  /** What the attempts come to: one more send than there are failures but no fourth, the sleeps
      1 and 2 between them, and -1 when all three fail. */
  function MockOutcome(failures: int): Outcome<int, RetryScript, Op> {
    if failures <= 0 then Outcome(11, RetryScript(1, 0), [Hello()])
    else if failures == 1 then Outcome(11, RetryScript(2, 1), [Hello(), SleepFor(1), Hello()])
    else Outcome(if failures == 2 then 11 else -1, RetryScript(3, 3),
                 [Hello(), SleepFor(1), Hello(), SleepFor(2), Hello()])
  }

  lemma FirstSend(failures: int)
    ensures Attempts(Asking(RetryCoalg(failures)), RetryScript(0, 0), 1) == MockOutcome(failures)
  {
    var h := Asking(RetryCoalg(failures));
    MockStep(failures, 0, 0, 1);
    MockStep(failures, 1, 0, 1);
    if failures <= 0 {
      LastAttempt(h, RetryScript(0, 0), RetryScript(1, 0), 1, "hello-reply");
    } else {
      FailingAttempt(h, RetryScript(0, 0), RetryScript(1, 0), RetryScript(1, 1), 1);
      SecondSend(failures);
    }
  }

  lemma AfterNow<S(!new)>(h: Handler<S, Op, Response>, s: S, o: Outcome<int, S, Op>)
    requires Typed(h) && h(s, Now).1 == s && Attempts(h, s, 1) == o
    ensures Answers(h, RetryProgram(), s)
    ensures Interpret(h, RetryProgram(), s) == After([Now], o)
  {
    RetryProgramRuns(h, s);
  }

  /** The program against the mock with any number of failures, fewer than none included. */
  lemma RetryAgainstMock(failures: int)
    ensures Answers(Asking(RetryCoalg(failures)), RetryProgram(), RetryScript(0, 0))
    ensures Interpret(Asking(RetryCoalg(failures)), RetryProgram(), RetryScript(0, 0))
         == After([Now], MockOutcome(failures))
  {
    ScriptIsTyped(failures);
    MockIsScript(failures, RetryScript(0, 0), Now);
    FirstSend(failures);
    AfterNow(Asking(RetryCoalg(failures)), RetryScript(0, 0), MockOutcome(failures));
  }
}
