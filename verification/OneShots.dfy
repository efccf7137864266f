/** A population of call-once boxes under any sequence of moves, calls and destructions. */
module OneShots {
  import opened Wrappers

  /** The boxes made so far, each with the target it holds if any, and the targets gone. */
  datatype Population = Population(boxes: seq<Option<nat>>, called: seq<nat>, destroyed: seq<nat>)

  datatype Step =
    | Construct(target: nat)
    | MoveConstruct(src: nat)
    | MoveAssign(dst: nat, src: nat)
    | Call(box: nat)
    | Destroy(box: nat)

  /** The boxes exist, and a called one is full. */
  predicate Legal(p: Population, step: Step) {
    match step
    case Construct(target) => true
    case MoveConstruct(src) => src < |p.boxes|
    case MoveAssign(dst, src) => dst < |p.boxes| && src < |p.boxes|
    case Call(box) => box < |p.boxes| && p.boxes[box].Some?
    case Destroy(box) => box < |p.boxes|
  }

  /** Emptying a box destroys what it holds. */
  function Emptied(p: Population, box: nat): Population
    requires box < |p.boxes|
  {
    match p.boxes[box]
    case None => p
    case Some(t) => p.(boxes := p.boxes[box := None], destroyed := p.destroyed + [t])
  }

  /** What each operation of the box does to the population. */
  function Do(p: Population, step: Step): Population
    requires Legal(p, step)
  {
    match step
    case Construct(target) => p.(boxes := p.boxes + [Some(target)])
    case MoveConstruct(src) => p.(boxes := p.boxes[src := None] + [p.boxes[src]])
    case MoveAssign(dst, src) =>
      if dst == src then p
      else
        var q := Emptied(p, dst);
        q.(boxes := q.boxes[dst := q.boxes[src]][src := None])
    case Call(box) => p.(boxes := p.boxes[box := None], called := p.called + [p.boxes[box].value])
    case Destroy(box) => Emptied(p, box)
  }

  ghost predicate LegalRun(p: Population, steps: seq<Step>)
    decreases steps
  {
    steps != [] ==> Legal(p, steps[0]) && LegalRun(Do(p, steps[0]), steps[1..])
  }

  ghost function Run(p: Population, steps: seq<Step>): Population
    requires LegalRun(p, steps)
    decreases steps
  {
    if steps == [] then p else Run(Do(p, steps[0]), steps[1..])
  }

  /** In how many places the target is: boxes that hold it, calls of it, destructions of it. */
  ghost function Places(p: Population, t: nat): nat {
    multiset(p.boxes)[Some(t)] + multiset(p.called)[t] + multiset(p.destroyed)[t]
  }

  lemma CountUpdated<T>(s: seq<T>, i: nat, v: T, x: T)
    requires i < |s|
    ensures multiset(s[i := v])[x] + (if s[i] == x then 1 else 0) == multiset(s)[x] + (if v == x then 1 else 0)
  {
  }

  lemma CountAppended<T>(s: seq<T>, v: T, x: T)
    ensures multiset(s + [v])[x] == multiset(s)[x] + (if v == x then 1 else 0)
  {
  }

  lemma EmptiedConserves(p: Population, box: nat, t: nat)
    requires box < |p.boxes|
    ensures Places(Emptied(p, box), t) == Places(p, t)
  {
    if p.boxes[box].Some? {
      CountUpdated(p.boxes, box, None, Some(t));
      CountAppended(p.destroyed, p.boxes[box].value, t);
    }
  }

  /** A step neither loses nor copies a target; construction brings one in. */
  lemma DoConserves(p: Population, step: Step, t: nat)
    requires Legal(p, step)
    ensures Places(Do(p, step), t) == Places(p, t) + (if step == Construct(t) then 1 else 0)
  {
    match step
    case Construct(target) =>
      CountAppended(p.boxes, Some(target), Some(t));
    case MoveConstruct(src) =>
      CountUpdated(p.boxes, src, None, Some(t));
      CountAppended(p.boxes[src := None], p.boxes[src], Some(t));
    case MoveAssign(dst, src) =>
      if dst != src {
        var q := Emptied(p, dst);
        EmptiedConserves(p, dst, t);
        CountUpdated(q.boxes, dst, q.boxes[src], Some(t));
        CountUpdated(q.boxes[dst := q.boxes[src]], src, None, Some(t));
      }
    case Call(box) =>
      CountUpdated(p.boxes, box, None, Some(t));
      CountAppended(p.called, p.boxes[box].value, t);
    case Destroy(box) =>
      EmptiedConserves(p, box, t);
  }

  ghost function Constructions(steps: seq<Step>, t: nat): nat {
    multiset(steps)[Construct(t)]
  }

  lemma {:induction false} RunConserves(p: Population, steps: seq<Step>, t: nat)
    requires LegalRun(p, steps)
    ensures Places(Run(p, steps), t) == Places(p, t) + Constructions(steps, t)
    decreases steps
  {
    if steps != [] {
      DoConserves(p, steps[0], t);
      RunConserves(Do(p, steps[0]), steps[1..], t);
      assert steps == [steps[0]] + steps[1..];
    }
  }

  lemma HeldTwice<T>(s: seq<T>, i: nat, j: nat, x: T)
    requires i < j < |s| && s[i] == s[j] == x
    ensures multiset(s)[x] >= 2
  {
    assert s == s[..j] + [s[j]] + s[j + 1..];
    assert s[..j][i] == x;
  }

  /** Over any run, a target constructed once is called at most once, never both held and called,
      and never held by two boxes, however often it was moved. */
  lemma CalledAtMostOnce(steps: seq<Step>, t: nat)
    requires LegalRun(Population([], [], []), steps)
    requires Constructions(steps, t) == 1
    ensures var p := Run(Population([], [], []), steps);
            && multiset(p.called)[t] <= 1
            && (t in p.called ==> Some(t) !in p.boxes && t !in p.destroyed)
            && (forall i, j | 0 <= i < j < |p.boxes| :: !(p.boxes[i] == p.boxes[j] == Some(t)))
  {
    var p := Run(Population([], [], []), steps);
    RunConserves(Population([], [], []), steps, t);
    assert Places(p, t) == 1;
    assert t in p.called ==> multiset(p.called)[t] >= 1;
    assert Some(t) in p.boxes ==> multiset(p.boxes)[Some(t)] >= 1;
    assert t in p.destroyed ==> multiset(p.destroyed)[t] >= 1;
    forall i, j | 0 <= i < j < |p.boxes|
      ensures !(p.boxes[i] == p.boxes[j] == Some(t))
    {
      if p.boxes[i] == p.boxes[j] == Some(t) {
        HeldTwice(p.boxes, i, j, Some(t));
        assert false;
      }
    }
  }

  // ---------------------------------------------------------------------
  // Who holds what, read backwards off the steps
  // ---------------------------------------------------------------------

  /** How many boxes there are. */
  function Made(steps: seq<Step>): nat {
    if steps == [] then 0
    else
      var last := steps[|steps| - 1];
      Made(steps[..|steps| - 1]) + if last.Construct? || last.MoveConstruct? then 1 else 0
  }

  /** What a box holds, by the last step that touched it: the target it was made with, what was in
      the box it was moved from, or nothing once it was moved out of, called or destroyed. */
  ghost function Held(steps: seq<Step>, box: nat): Option<nat>
    decreases steps
  {
    if steps == [] then None
    else
      var before := steps[..|steps| - 1];
      match steps[|steps| - 1]
      case Construct(target) => if box == Made(before) then Some(target) else Held(before, box)
      case MoveConstruct(src) =>
        if box == src then None else Held(before, if box == Made(before) then src else box)
      case MoveAssign(dst, src) =>
        if dst == src then Held(before, box)
        else if box == src then None
        else Held(before, if box == dst then src else box)
      case Call(called) => if box == called then None else Held(before, box)
      case Destroy(gone) => if box == gone then None else Held(before, box)
  }

  function Listed(held: Option<nat>): seq<nat> {
    match held case None => [] case Some(t) => [t]
  }

  /** What was in the boxes called, at the time of the call, in order. */
  ghost function CalledBy(steps: seq<Step>): seq<nat>
    decreases steps
  {
    if steps == [] then []
    else
      var before, last := steps[..|steps| - 1], steps[|steps| - 1];
      CalledBy(before) + if last.Call? then Listed(Held(before, last.box)) else []
  }

  /** What was in the boxes destroyed or assigned over by another, in order. */
  ghost function DestroyedBy(steps: seq<Step>): seq<nat>
    decreases steps
  {
    if steps == [] then []
    else
      var before, last := steps[..|steps| - 1], steps[|steps| - 1];
      DestroyedBy(before)
      + if last.Destroy? then Listed(Held(before, last.box))
        else if last.MoveAssign? && last.dst != last.src then Listed(Held(before, last.dst))
        else []
  }

  function CountCalls(steps: seq<Step>): nat {
    if steps == [] then 0 else CountCalls(steps[..|steps| - 1]) + if steps[|steps| - 1].Call? then 1 else 0
  }

  lemma {:induction false} RunLast(p: Population, steps: seq<Step>)
    requires steps != [] && LegalRun(p, steps)
    ensures LegalRun(p, steps[..|steps| - 1])
    ensures Legal(Run(p, steps[..|steps| - 1]), steps[|steps| - 1])
    ensures Run(p, steps) == Do(Run(p, steps[..|steps| - 1]), steps[|steps| - 1])
    decreases steps
  {
    var before := steps[..|steps| - 1];
    if |steps| > 1 {
      RunLast(Do(p, steps[0]), steps[1..]);
      assert before[1..] == steps[1..][..|steps| - 2];
    }
  }

  /** Every box holds after a run what the steps say, the called targets are those that were in
      the boxes called, and the destroyed ones those that were in the boxes lost. */
  lemma {:induction false} RunTells(steps: seq<Step>)
    requires LegalRun(Population([], [], []), steps)
    ensures var p := Run(Population([], [], []), steps);
            && |p.boxes| == Made(steps)
            && (forall box | 0 <= box < |p.boxes| :: p.boxes[box] == Held(steps, box))
            && p.called == CalledBy(steps) && p.destroyed == DestroyedBy(steps)
    decreases steps
  {
    if steps != [] {
      RunLast(Population([], [], []), steps);
      RunTells(steps[..|steps| - 1]);
    }
  }

  /** Every call calls a target: no run has a call without one. */
  lemma {:induction false} EveryCallCalls(steps: seq<Step>)
    requires LegalRun(Population([], [], []), steps)
    ensures |Run(Population([], [], []), steps).called| == CountCalls(steps)
    decreases steps
  {
    if steps != [] {
      RunLast(Population([], [], []), steps);
      EveryCallCalls(steps[..|steps| - 1]);
    }
  }
}
