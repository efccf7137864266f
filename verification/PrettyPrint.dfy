/** A paramorphism that prints expressions with few parentheses, and what reading the printed
    text back with ordinary precedence gives. */
module PrettyPrint {
  import opened Wrappers
  import opened Functors
  import opened Schemes
  import opened Text

  datatype ExprF = Const(val: int) | Add | Mul

  type Expr = Fix<ExprF>

  function ConstNode(v: int): Expr { In(RoseF(Const(v), [])) }
  function AddNode(l: Expr, r: Expr): Expr { In(RoseF(Add, [l, r])) }
  function MulNode(l: Expr, r: Expr): Expr { In(RoseF(Mul, [l, r])) }

  /** Constants have no operands, sums and products two. */
  ghost predicate IsExpr(e: Expr)
    decreases e
  {
    if e.out.lbl.Const? then e.out.children == []
    else |e.out.children| == 2 && IsExpr(e.out.children[0]) && IsExpr(e.out.children[1])
  }

  function EvalAlg(l: RoseF<ExprF, int>): int {
    if l.lbl.Const? then l.lbl.val
    else if |l.children| != 2 then 0
    else if l.lbl.Add? then l.children[0] + l.children[1]
    else l.children[0] * l.children[1]
  }

  function Eval(e: Expr): int { Fold(EvalAlg, e) }

  // ---------------------------------------------------------------------
  // The printer
  // ---------------------------------------------------------------------

  predicate IsAdd(e: Expr) { e.out.lbl.Add? }

  function RenderChild(c: (Expr, string)): string {
    if IsAdd(c.0) then "(" + c.1 + ")" else c.1
  }

  function PrettyAlg(l: RoseF<ExprF, (Expr, string)>): string {
    if l.lbl.Const? then Numeral(l.lbl.val)
    else if |l.children| != 2 then ""
    else if l.lbl.Add? then l.children[0].1 + " + " + l.children[1].1
    else RenderChild(l.children[0]) + " * " + RenderChild(l.children[1])
  }

  function Pretty(e: Expr): string { Para(PrettyAlg, e) }

  // ---------------------------------------------------------------------
  // Reading: characters to tokens
  // ---------------------------------------------------------------------

  datatype Token = Num(v: int) | Plus | Times | Open | Close

  function Spelling(t: Token): string {
    match t
    case Num(v) => Numeral(v)
    case Plus => " + "
    case Times => " * "
    case Open => "("
    case Close => ")"
  }

  function Spelled(ts: seq<Token>): string {
    if ts == [] then "" else Spelling(ts[0]) + Spelled(ts[1..])
  }

  /** The first token and what follows it. */
  function LexOne(s: string): (r: Option<(Token, string)>)
    ensures r.Some? ==> |r.value.1| < |s|
  {
    if s == "" then None
    else if s[0] == '(' then Some((Open, s[1..]))
    else if s[0] == ')' then Some((Close, s[1..]))
    else if |s| >= 3 && s[..3] == " + " then Some((Plus, s[3..]))
    else if |s| >= 3 && s[..3] == " * " then Some((Times, s[3..]))
    else if IsDigit(s[0]) then
      var (v, rest) := ReadDigits(DigitValue(s[0]), s[1..]); Some((Num(v), rest))
    else if |s| >= 2 && s[0] == '-' && IsDigit(s[1]) then
      var (v, rest) := ReadDigits(DigitValue(s[1]), s[2..]); Some((Num(-(v as int)), rest))
    else None
  }

  function Lex(s: string): Option<seq<Token>>
    decreases |s|
  {
    if s == "" then Some([])
    else
      match LexOne(s)
      case None => None
      case Some((t, rest)) =>
        match Lex(rest)
        case None => None
        case Some(ts) => Some([t] + ts)
  }

  /** No numeral directly after another, where they would run together. */
  ghost predicate Separated(ts: seq<Token>) {
    forall i | 0 <= i < |ts| - 1 :: !(ts[i].Num? && ts[i + 1].Num?)
  }

  lemma DigitsFromFirst(n: nat, rest: string)
    requires rest == "" || !IsDigit(rest[0])
    ensures var d := Decimal(n) + rest;
            IsDigit(d[0]) && ReadDigits(DigitValue(d[0]), d[1..]) == (n, rest)
  {
    DecimalRoundTrip(n, rest);
  }

  lemma LexDigits(d: string, n: nat, rest: string)
    requires d != "" && IsDigit(d[0]) && ReadDigits(DigitValue(d[0]), d[1..]) == (n, rest)
    ensures LexOne(d) == Some((Num(n), rest))
    ensures LexOne("-" + d) == Some((Num(-(n as int)), rest))
  {
    var s := "-" + d;
    assert s[0] == '-' && s[1] == d[0] && s[2..] == d[1..];
  }

  lemma NumeralRoundTrip(v: int, rest: string)
    requires rest == "" || !IsDigit(rest[0])
    ensures LexOne(Numeral(v) + rest) == Some((Num(v), rest))
  {
    var n := if v < 0 then -v else v;
    DigitsFromFirst(n, rest);
    LexDigits(Decimal(n) + rest, n, rest);
    MinusInFront(Decimal(n), rest);
  }

  lemma MinusInFront(a: string, b: string)
    ensures "-" + a + b == "-" + (a + b)
  {
  }

  lemma TokenRoundTrip(t: Token, rest: string)
    requires t.Num? ==> rest == "" || !IsDigit(rest[0])
    ensures LexOne(Spelling(t) + rest) == Some((t, rest))
  {
    if t.Num? {
      NumeralRoundTrip(t.v, rest);
    } else {
      var s := Spelling(t) + rest;
      assert s[|Spelling(t)|..] == rest;
      assert t.Plus? || t.Times? ==> s[..3] == Spelling(t);
    }
  }

  lemma SpellingStarts(ts: seq<Token>)
    requires ts != []
    ensures Spelled(ts) != ""
    ensures !ts[0].Num? ==> !IsDigit(Spelled(ts)[0])
  {
    assert Spelled(ts)[0] == Spelling(ts[0])[0];
  }

  lemma LexCons(t: Token, rest: string, ts: seq<Token>)
    requires LexOne(Spelling(t) + rest) == Some((t, rest)) && Lex(rest) == Some(ts)
    ensures Lex(Spelling(t) + rest) == Some([t] + ts)
  {
  }

  lemma {:induction false} LexRoundTrip(ts: seq<Token>)
    requires Separated(ts)
    ensures Lex(Spelled(ts)) == Some(ts)
    decreases ts
  {
    if ts != [] {
      var t, later := ts[0], ts[1..];
      if later != [] {
        assert !(ts[0].Num? && ts[0 + 1].Num?);
        SpellingStarts(later);
      }
      TokenRoundTrip(t, Spelled(later));
      LexRoundTrip(later);
      LexCons(t, Spelled(later), later);
      assert ts == [t] + later;
    }
  }

  // ---------------------------------------------------------------------
  // What is printed, token by token
  // ---------------------------------------------------------------------

  ghost function Tokens(e: Expr): seq<Token>
    requires IsExpr(e)
    decreases e, 0
  {
    var lbl, kids := e.out.lbl, e.out.children;
    match lbl
    case Const(v) => [Num(v)]
    case Add => Tokens(kids[0]) + [Plus] + Tokens(kids[1])
    case Mul => Operand(kids[0]) + [Times] + Operand(kids[1])
  }

  /** A sum under a product stands in parentheses. */
  ghost function Operand(e: Expr): seq<Token>
    requires IsExpr(e)
    decreases e, 1
  {
    if IsAdd(e) then [Open] + Tokens(e) + [Close] else Tokens(e)
  }

  lemma {:induction false} SpelledConcat(a: seq<Token>, b: seq<Token>)
    ensures Spelled(a + b) == Spelled(a) + Spelled(b)
    decreases a
  {
    if a == [] {
      assert a + b == b;
    } else {
      assert (a + b)[1..] == a[1..] + b;
      SpelledConcat(a[1..], b);
    }
  }

  lemma SpelledThree(a: seq<Token>, t: Token, b: seq<Token>)
    ensures Spelled(a + [t] + b) == Spelled(a) + Spelling(t) + Spelled(b)
  {
    SpelledConcat(a + [t], b);
    SpelledConcat(a, [t]);
    assert Spelled([t]) == Spelling(t) + Spelled([]) == Spelling(t);
  }

  lemma OperandSpelled(e: Expr, s: string)
    requires IsExpr(e) && s == Spelled(Tokens(e))
    ensures RenderChild((e, s)) == Spelled(Operand(e))
  {
    if IsAdd(e) {
      var ts := Tokens(e);
      SpelledConcat([Open] + ts, [Close]);
      SpelledConcat([Open], ts);
      assert Spelled([Open]) == "(" + Spelled([]) == "(";
      assert Spelled([Close]) == ")" + Spelled([]) == ")";
    }
  }

  lemma PrettyOperands(e: Expr)
    requires IsExpr(e) && !e.out.lbl.Const?
    ensures var l, r := e.out.children[0], e.out.children[1];
            Pretty(e) == if IsAdd(e) then Pretty(l) + " + " + Pretty(r)
                         else RenderChild((l, Pretty(l))) + " * " + RenderChild((r, Pretty(r)))
  {
    var l := FMap((c: Expr) requires e.out.Has(c) => (c, Para(PrettyAlg, c)), e.out);
    assert Pretty(e) == PrettyAlg(l);
    assert l.children[0] == (e.out.children[0], Pretty(e.out.children[0]));
    assert l.children[1] == (e.out.children[1], Pretty(e.out.children[1]));
  }

  /** The printed text is the expression's tokens spelled out. */
  lemma {:induction false} PrettyIsTokens(e: Expr)
    requires IsExpr(e)
    ensures Pretty(e) == Spelled(Tokens(e))
    decreases e
  {
    if e.out.lbl.Const? {
      var v := e.out.lbl.val;
      assert Spelled([Num(v)]) == Numeral(v) + Spelled([]) == Numeral(v);
    } else {
      var l, r := e.out.children[0], e.out.children[1];
      PrettyIsTokens(l);
      PrettyIsTokens(r);
      PrettyOperands(e);
      if IsAdd(e) {
        SpelledThree(Tokens(l), Plus, Tokens(r));
      } else {
        OperandSpelled(l, Pretty(l));
        OperandSpelled(r, Pretty(r));
        SpelledThree(Operand(l), Times, Operand(r));
      }
    }
  }

  lemma {:induction false} TokensSeparated(e: Expr)
    requires IsExpr(e)
    ensures Separated(Tokens(e))
    decreases e
  {
    if !e.out.lbl.Const? {
      TokensSeparated(e.out.children[0]);
      TokensSeparated(e.out.children[1]);
    }
  }

  // ---------------------------------------------------------------------
  // Reading: tokens to an expression
  // ---------------------------------------------------------------------

  /** The next operand on top of what has been read so far. */
  function Onto(op: ExprF, acc: Option<Expr>, e: Expr): Expr {
    if acc.Some? then In(RoseF(op, [acc.value, e])) else e
  }

  function ParseFactor(ts: seq<Token>): (r: Option<(Expr, seq<Token>)>)
    ensures r.Some? ==> |r.value.1| < |ts|
    decreases |ts|, 0
  {
    if ts == [] then None
    else if ts[0].Num? then Some((ConstNode(ts[0].v), ts[1..]))
    else if ts[0].Open? then
      match ParseSum(None, ts[1..])
      case None => None
      case Some((e, rest)) => if rest != [] && rest[0].Close? then Some((e, rest[1..])) else None
    else None
  }

  /** Factors joined by times, to the left. */
  function ParseProduct(acc: Option<Expr>, ts: seq<Token>): (r: Option<(Expr, seq<Token>)>)
    ensures r.Some? ==> |r.value.1| < |ts|
    decreases |ts|, 1
  {
    match ParseFactor(ts)
    case None => None
    case Some((e, rest)) => MoreFactors(Onto(Mul, acc, e), rest)
  }

  function MoreFactors(acc: Expr, ts: seq<Token>): (r: Option<(Expr, seq<Token>)>)
    ensures r.Some? ==> |r.value.1| <= |ts|
    decreases |ts|, 2
  {
    if ts != [] && ts[0].Times? then ParseProduct(Some(acc), ts[1..]) else Some((acc, ts))
  }

  /** Products joined by plus, to the left. */
  function ParseSum(acc: Option<Expr>, ts: seq<Token>): (r: Option<(Expr, seq<Token>)>)
    ensures r.Some? ==> |r.value.1| < |ts|
    decreases |ts|, 3
  {
    match ParseProduct(None, ts)
    case None => None
    case Some((e, rest)) => MoreTerms(Onto(Add, acc, e), rest)
  }

  function MoreTerms(acc: Expr, ts: seq<Token>): (r: Option<(Expr, seq<Token>)>)
    ensures r.Some? ==> |r.value.1| <= |ts|
    decreases |ts|, 4
  {
    if ts != [] && ts[0].Plus? then ParseSum(Some(acc), ts[1..]) else Some((acc, ts))
  }

  function Parse(s: string): Option<Expr> {
    match Lex(s)
    case None => None
    case Some(ts) =>
      match ParseSum(None, ts)
      case None => None
      case Some((e, rest)) => if rest == [] then Some(e) else None
  }

  /** e added to acc the way its printed terms are read: one by one, from the left. */
  ghost function SumOnto(acc: Option<Expr>, e: Expr): Expr
    requires IsExpr(e)
    decreases e, if IsAdd(e) then 0 else 2
  {
    if IsAdd(e) then SumOnto(Some(SumOnto(acc, e.out.children[0])), e.out.children[1])
    else Onto(Add, acc, ProductOnto(None, e))
  }

  /** e multiplied onto acc the way its printed factors are read. */
  ghost function ProductOnto(acc: Option<Expr>, e: Expr): Expr
    requires IsExpr(e)
    decreases e, 1
  {
    if e.out.lbl.Mul? then ProductOnto(Some(ProductOnto(acc, e.out.children[0])), e.out.children[1])
    else Onto(Mul, acc, if IsAdd(e) then SumOnto(None, e) else e)
  }

  lemma {:induction false} SumParses(acc: Option<Expr>, e: Expr, rest: seq<Token>)
    requires IsExpr(e)
    requires rest == [] || !rest[0].Times?
    ensures ParseSum(acc, Tokens(e) + rest) == MoreTerms(SumOnto(acc, e), rest)
    decreases e, if IsAdd(e) then 0 else 2
  {
    if IsAdd(e) {
      var l, r := e.out.children[0], e.out.children[1];
      var later := [Plus] + (Tokens(r) + rest);
      assert Tokens(e) + rest == Tokens(l) + later;
      SumParses(acc, l, later);
      assert later[1..] == Tokens(r) + rest;
      SumParses(Some(SumOnto(acc, l)), r, rest);
    } else {
      ProductParses(None, e, rest);
    }
  }

  lemma {:induction false} ProductParses(acc: Option<Expr>, e: Expr, rest: seq<Token>)
    requires IsExpr(e)
    ensures ParseProduct(acc, Operand(e) + rest) == MoreFactors(ProductOnto(acc, e), rest)
    decreases e, 1
  {
    match e.out.lbl
    case Const(v) =>
      assert (Operand(e) + rest)[1..] == rest;
      assert e.out == RoseF(Const(v), []);
    case Mul =>
      var l, r := e.out.children[0], e.out.children[1];
      var later := [Times] + (Operand(r) + rest);
      assert Operand(e) + rest == Operand(l) + later;
      ProductParses(acc, l, later);
      assert later[1..] == Operand(r) + rest;
      ProductParses(Some(ProductOnto(acc, l)), r, rest);
    case Add =>
      var later := [Close] + rest;
      assert (Operand(e) + rest)[1..] == Tokens(e) + later;
      SumParses(None, e, later);
      assert later[1..] == rest;
  }

  // ---------------------------------------------------------------------
  // Meaning
  // ---------------------------------------------------------------------

  lemma EvalNode(op: ExprF, l: Expr, r: Expr)
    requires !op.Const?
    ensures Eval(In(RoseF(op, [l, r]))) == if op.Add? then Eval(l) + Eval(r) else Eval(l) * Eval(r)
  {
    FoldStep(EvalAlg, In(RoseF(op, [l, r])));
    assert Folded(EvalAlg, RoseF(op, [l, r])).children == [Eval(l), Eval(r)];
  }

  lemma EvalOperands(e: Expr)
    requires IsExpr(e) && !e.out.lbl.Const?
    ensures var l, r := e.out.children[0], e.out.children[1];
            Eval(e) == if IsAdd(e) then Eval(l) + Eval(r) else Eval(l) * Eval(r)
  {
    var l, r := e.out.children[0], e.out.children[1];
    assert e.out.children == [l, r];
    assert e == In(RoseF(e.out.lbl, [l, r]));
    EvalNode(e.out.lbl, l, r);
  }

  lemma TimesAssociative(a: int, b: int, c: int)
    ensures a * b * c == a * (b * c)
  {
  }

  lemma {:induction false} SumOntoValue(acc: Option<Expr>, e: Expr)
    requires IsExpr(e)
    ensures Eval(SumOnto(acc, e)) == (if acc.Some? then Eval(acc.value) else 0) + Eval(e)
    decreases e, if IsAdd(e) then 0 else 2
  {
    if IsAdd(e) {
      EvalOperands(e);
      SumOntoValue(acc, e.out.children[0]);
      SumOntoValue(Some(SumOnto(acc, e.out.children[0])), e.out.children[1]);
    } else {
      ProductOntoValue(None, e);
      if acc.Some? {
        EvalNode(Add, acc.value, ProductOnto(None, e));
      }
    }
  }

  lemma {:induction false} ProductOntoValue(acc: Option<Expr>, e: Expr)
    requires IsExpr(e)
    ensures Eval(ProductOnto(acc, e)) == (if acc.Some? then Eval(acc.value) else 1) * Eval(e)
    decreases e, 1
  {
    if e.out.lbl.Mul? {
      var l, r := e.out.children[0], e.out.children[1];
      EvalOperands(e);
      ProductOntoValue(acc, l);
      ProductOntoValue(Some(ProductOnto(acc, l)), r);
      TimesAssociative(if acc.Some? then Eval(acc.value) else 1, Eval(l), Eval(r));
    } else {
      if IsAdd(e) {
        SumOntoValue(None, e);
      }
      if acc.Some? {
        EvalNode(Mul, acc.value, if IsAdd(e) then SumOnto(None, e) else e);
      }
    }
  }

  /** What an expression is worth, read straight off the tree. */
  ghost function Worth(e: Expr): int
    requires IsExpr(e)
    decreases e
  {
    match e.out.lbl
    case Const(v) => v
    case Add => Worth(e.out.children[0]) + Worth(e.out.children[1])
    case Mul => Worth(e.out.children[0]) * Worth(e.out.children[1])
  }

  lemma EvalConst(v: int)
    ensures Eval(ConstNode(v)) == v
  {
    FoldStep(EvalAlg, ConstNode(v));
  }

  lemma {:induction false} EvalIsWorth(e: Expr)
    requires IsExpr(e)
    ensures Eval(e) == Worth(e)
    decreases e
  {
    if e.out.lbl.Const? {
      EvalConst(e.out.lbl.val);
      assert e == ConstNode(e.out.lbl.val);
    } else {
      EvalOperands(e);
      EvalIsWorth(e.out.children[0]);
      EvalIsWorth(e.out.children[1]);
    }
  }

  /** 2 + 3 * 4 is 14. */
  lemma EvalMixed()
    ensures Eval(AddNode(ConstNode(2), MulNode(ConstNode(3), ConstNode(4)))) == 14
  {
    EvalConst(2);
    EvalConst(3);
    EvalConst(4);
    EvalNode(Mul, ConstNode(3), ConstNode(4));
    EvalNode(Add, ConstNode(2), MulNode(ConstNode(3), ConstNode(4)));
  }

  /** No sum is the right operand of a sum and no product of a product. */
  ghost predicate LeftNested(e: Expr)
    requires IsExpr(e)
    decreases e
  {
    !e.out.lbl.Const? ==>
      && e.out.children[1].out.lbl != e.out.lbl
      && LeftNested(e.out.children[0]) && LeftNested(e.out.children[1])
  }

  /** What is read as a sum never has a sum on its right, nor a product a product. */
  lemma {:induction false} RightOperand(acc: Option<Expr>, e: Expr)
    requires IsExpr(e)
    ensures !IsAdd(ProductOnto(None, e)) || IsAdd(e)
    ensures !IsAdd(e) ==> (ProductOnto(None, e).out.lbl.Mul? <==> e.out.lbl.Mul?)
    ensures acc.Some? || IsAdd(e) ==>
              var s := SumOnto(acc, e);
              IsAdd(s) && |s.out.children| == 2 && !IsAdd(s.out.children[1])
    ensures acc.Some? || e.out.lbl.Mul? ==>
              var p := ProductOnto(acc, e);
              p.out.lbl.Mul? && |p.out.children| == 2 && !p.out.children[1].out.lbl.Mul?
    decreases e
  {
    if IsAdd(e) {
      RightOperand(acc, e.out.children[0]);
      RightOperand(None, e.out.children[0]);
      RightOperand(Some(SumOnto(acc, e.out.children[0])), e.out.children[1]);
      RightOperand(Some(SumOnto(None, e.out.children[0])), e.out.children[1]);
    } else if e.out.lbl.Mul? {
      RightOperand(acc, e.out.children[0]);
      RightOperand(None, e.out.children[0]);
      RightOperand(Some(ProductOnto(acc, e.out.children[0])), e.out.children[1]);
      RightOperand(Some(ProductOnto(None, e.out.children[0])), e.out.children[1]);
    }
  }

  lemma {:induction false} SameTreeIff(e: Expr)
    requires IsExpr(e)
    ensures SumOnto(None, e) == e <==> LeftNested(e)
    ensures !IsAdd(e) ==> (ProductOnto(None, e) == e <==> LeftNested(e))
    decreases e
  {
    if !e.out.lbl.Const? {
      var l, r := e.out.children[0], e.out.children[1];
      assert e.out.children == [l, r];
      SameTreeIff(l);
      SameTreeIff(r);
      RightOperand(None, e);
      RightOperand(None, l);
      RightOperand(None, r);
    }
  }

  /** What is read back is the expression with its sums and products regrouped to the left. */
  lemma ParsedIsSumOnto(e: Expr)
    requires IsExpr(e)
    ensures Parse(Pretty(e)) == Some(SumOnto(None, e))
  {
    PrettyIsTokens(e);
    TokensSeparated(e);
    LexRoundTrip(Tokens(e));
    assert Tokens(e) + [] == Tokens(e);
    SumParses(None, e, []);
  }

  /** Every printed expression is read back as one expression with the same value; the very
      same tree comes back exactly when nothing is nested to the right under its own operator,
      which is where the printer drops parentheses that the reader then associates to the left. */
  lemma PrettyRoundTrip(e: Expr)
    requires IsExpr(e)
    ensures Parse(Pretty(e)).Some?
    ensures Eval(Parse(Pretty(e)).value) == Eval(e)
    ensures Parse(Pretty(e)) == Some(e) <==> LeftNested(e)
  {
    ParsedIsSumOnto(e);
    SumOntoValue(None, e);
    SameTreeIff(e);
  }

  /** 1 + (2 + 3) is printed without parentheses and read as (1 + 2) + 3; so it is with times. */
  lemma RightNestingIsLost()
    ensures Parse(Pretty(AddNode(ConstNode(1), AddNode(ConstNode(2), ConstNode(3)))))
         == Some(AddNode(AddNode(ConstNode(1), ConstNode(2)), ConstNode(3)))
    ensures Parse(Pretty(MulNode(ConstNode(1), MulNode(ConstNode(2), ConstNode(3)))))
         == Some(MulNode(MulNode(ConstNode(1), ConstNode(2)), ConstNode(3)))
  {
    ParsedIsSumOnto(AddNode(ConstNode(1), AddNode(ConstNode(2), ConstNode(3))));
    ParsedIsSumOnto(MulNode(ConstNode(1), MulNode(ConstNode(2), ConstNode(3))));
  }

  lemma PrettyConst(v: int)
    ensures Pretty(ConstNode(v)) == Numeral(v)
  {
  }

  /** The two expressions of the example, as printed: a product under a sum stands bare, a sum
      under a product in parentheses. */
  lemma ExamplesArePrinted()
    ensures Pretty(AddNode(MulNode(ConstNode(2), ConstNode(3)), ConstNode(4))) == "2 * 3 + 4"
    ensures Pretty(MulNode(ConstNode(2), AddNode(ConstNode(3), ConstNode(4)))) == "2 * (3 + 4)"
  {
    PrettyConst(2);
    PrettyConst(3);
    PrettyConst(4);
    PrettyOperands(MulNode(ConstNode(2), ConstNode(3)));
    PrettyOperands(AddNode(MulNode(ConstNode(2), ConstNode(3)), ConstNode(4)));
    PrettyOperands(AddNode(ConstNode(3), ConstNode(4)));
    PrettyOperands(MulNode(ConstNode(2), AddNode(ConstNode(3), ConstNode(4))));
  }

  // ---------------------------------------------------------------------
  // No fewer parentheses would do
  // ---------------------------------------------------------------------

  /** How many sums stand directly under a product. */
  function SumsUnder(e: Expr): nat
    decreases e, 0
  {
    if |e.out.children| != 2 then 0
    else if e.out.lbl.Mul? then AsOperand(e.out.children[0]) + AsOperand(e.out.children[1])
    else SumsUnder(e.out.children[0]) + SumsUnder(e.out.children[1])
  }

  /** The same with e itself under a product. */
  function AsOperand(e: Expr): nat
    decreases e, 1
  {
    SumsUnder(e) + if IsAdd(e) then 1 else 0
  }

  function Opens(ts: seq<Token>): nat {
    if ts == [] then 0 else (if ts[0].Open? then 1 else 0) + Opens(ts[1..])
  }

  /** Opening parentheses in a text. */
  function Parentheses(s: string): nat {
    if s == "" then 0 else (if s[0] == '(' then 1 else 0) + Parentheses(s[1..])
  }

  lemma {:induction false} OpensConcat(a: seq<Token>, b: seq<Token>)
    ensures Opens(a + b) == Opens(a) + Opens(b)
    decreases a
  {
    if a == [] {
      assert a + b == b;
    } else {
      assert (a + b)[1..] == a[1..] + b;
      OpensConcat(a[1..], b);
    }
  }

  lemma {:induction false} DigitsHoldNone(acc: nat, s: string)
    ensures Parentheses(s) == Parentheses(ReadDigits(acc, s).1)
    decreases s
  {
    if s != "" && IsDigit(s[0]) {
      DigitsHoldNone(10 * acc + DigitValue(s[0]), s[1..]);
    }
  }

  lemma ThreeCharacters(s: string)
    requires |s| >= 3 && '(' !in s[..3]
    ensures Parentheses(s) == Parentheses(s[3..])
  {
    assert s[0] in s[..3] && s[1] in s[..3] && s[2] in s[..3];
    assert s[1..][1..] == s[2..] && s[2..][1..] == s[3..];
    assert Parentheses(s) == Parentheses(s[1..]) == Parentheses(s[2..]);
  }

  lemma LexOneCounts(s: string)
    requires LexOne(s).Some?
    ensures Parentheses(s) == Parentheses(LexOne(s).value.1) + (if LexOne(s).value.0.Open? then 1 else 0)
  {
    if |s| >= 3 && (s[..3] == " + " || s[..3] == " * ") {
      ThreeCharacters(s);
    } else if IsDigit(s[0]) {
      DigitsHoldNone(DigitValue(s[0]), s[1..]);
    } else if s[0] == '-' {
      assert s[1..][1..] == s[2..];
      DigitsHoldNone(DigitValue(s[1]), s[2..]);
    }
  }

  lemma {:induction false} LexCounts(s: string)
    requires Lex(s).Some?
    ensures Parentheses(s) == Opens(Lex(s).value)
    decreases |s|
  {
    if s != "" {
      LexOneCounts(s);
      LexCounts(LexOne(s).value.1);
    }
  }

  /** Whatever is read as an operand was written with a parenthesis for each of these sums. */
  lemma {:induction false} FactorNeeds(ts: seq<Token>)
    requires ParseFactor(ts).Some?
    ensures Opens(ts) >= AsOperand(ParseFactor(ts).value.0) + Opens(ParseFactor(ts).value.1)
    decreases |ts|, 0
  {
    if ts[0].Open? {
      SumNeeds(None, ts[1..]);
    }
  }

  lemma {:induction false} ProductNeeds(acc: Option<Expr>, ts: seq<Token>)
    requires ParseProduct(acc, ts).Some?
    ensures Opens(ts) + (if acc.Some? then AsOperand(acc.value) else 0)
         >= AsOperand(ParseProduct(acc, ts).value.0) + Opens(ParseProduct(acc, ts).value.1)
    decreases |ts|, 1
  {
    FactorNeeds(ts);
    var (e, rest) := ParseFactor(ts).value;
    if rest != [] && rest[0].Times? {
      ProductNeeds(Some(Onto(Mul, acc, e)), rest[1..]);
    }
  }

  lemma {:induction false} SumNeeds(acc: Option<Expr>, ts: seq<Token>)
    requires ParseSum(acc, ts).Some?
    ensures Opens(ts) + (if acc.Some? then SumsUnder(acc.value) else 0)
         >= SumsUnder(ParseSum(acc, ts).value.0) + Opens(ParseSum(acc, ts).value.1)
    decreases |ts|, 2
  {
    ProductNeeds(None, ts);
    var (e, rest) := ParseProduct(None, ts).value;
    if rest != [] && rest[0].Plus? {
      SumNeeds(Some(Onto(Add, acc, e)), rest[1..]);
    }
  }

  /** The printer writes exactly that many, and reading them back keeps the number. */
  lemma {:induction false} TokensOpen(e: Expr)
    requires IsExpr(e)
    ensures Opens(Tokens(e)) == SumsUnder(e)
    ensures Opens(Operand(e)) == AsOperand(e)
    decreases e
  {
    var kids := e.out.children;
    if !e.out.lbl.Const? {
      TokensOpen(kids[0]);
      TokensOpen(kids[1]);
      OpensConcat(Tokens(kids[0]) + [Plus], Tokens(kids[1]));
      OpensConcat(Tokens(kids[0]), [Plus]);
      OpensConcat(Operand(kids[0]) + [Times], Operand(kids[1]));
      OpensConcat(Operand(kids[0]), [Times]);
    }
    OpensConcat([Open] + Tokens(e), [Close]);
    OpensConcat([Open], Tokens(e));
  }

  lemma {:induction false} SumOntoKeeps(acc: Option<Expr>, e: Expr)
    requires IsExpr(e)
    ensures SumsUnder(SumOnto(acc, e)) == (if acc.Some? then SumsUnder(acc.value) else 0) + SumsUnder(e)
    decreases e, if IsAdd(e) then 0 else 2
  {
    if IsAdd(e) {
      SumOntoKeeps(acc, e.out.children[0]);
      SumOntoKeeps(Some(SumOnto(acc, e.out.children[0])), e.out.children[1]);
    } else {
      ProductOntoKeeps(None, e);
      RightOperand(None, e);
    }
  }

  lemma {:induction false} ProductOntoKeeps(acc: Option<Expr>, e: Expr)
    requires IsExpr(e)
    ensures AsOperand(ProductOnto(acc, e)) == (if acc.Some? then AsOperand(acc.value) else 0) + AsOperand(e)
    decreases e, 1
  {
    if e.out.lbl.Mul? {
      ProductOntoKeeps(acc, e.out.children[0]);
      ProductOntoKeeps(Some(ProductOnto(acc, e.out.children[0])), e.out.children[1]);
    } else {
      if IsAdd(e) {
        SumOntoKeeps(None, e);
        RightOperand(None, e);
      }
      var factor := if IsAdd(e) then SumOnto(None, e) else e;
      assert AsOperand(factor) == AsOperand(e);
      if acc.Some? {
        assert In(RoseF(Mul, [acc.value, factor])).out.children == [acc.value, factor];
      }
    }
  }

  /** Parentheses are minimal: no text that reads as the expression itself, or as what its
      printed form reads as, holds fewer. */
  lemma ParenthesesAreMinimal(e: Expr, s: string)
    requires IsExpr(e)
    requires Parse(s) == Some(e) || Parse(s) == Parse(Pretty(e))
    ensures Parentheses(Pretty(e)) == SumsUnder(e) <= Parentheses(s)
  {
    PrettyRoundTrip(e);
    LexCounts(s);
    SumNeeds(None, Lex(s).value);
    PrettyIsTokens(e);
    TokensSeparated(e);
    LexRoundTrip(Tokens(e));
    LexCounts(Pretty(e));
    TokensOpen(e);
    ParsedIsSumOnto(e);
    SumOntoKeeps(None, e);
  }
}
