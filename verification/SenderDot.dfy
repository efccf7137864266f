/** Rendering a sender tree as a Graphviz digraph, and reading the digraph back. */
module SenderDot {
  import opened Wrappers
  import opened Functors
  import opened Schemes
  import opened Text

  datatype SenderNodeInfo = SenderNodeInfo(tagName: string, dataType: string)

  type SenderTree = Fix<SenderNodeInfo>

  // ---------------------------------------------------------------------
  // The renderer
  // ---------------------------------------------------------------------

  function EscapeChar(c: char): string {
    if c == '"' then "\\\"" else if c == '\\' then "\\\\" else if c == '\n' then "\\n" else [c]
  }

  function Escaped(s: string): string {
    if s == "" then "" else EscapeChar(s[0]) + Escaped(s[1..])
  }

  lemma {:induction false} EscapedConcat(a: string, b: string)
    ensures Escaped(a + b) == Escaped(a) + Escaped(b)
    decreases a
  {
    if a == "" {
      assert a + b == b;
    } else {
      assert (a + b)[1..] == a[1..] + b;
      EscapedConcat(a[1..], b);
    }
  }

  predicate IsSpecial(c: char) { c == '"' || c == '\\' || c == '\n' }

  function CountSpecial(s: string): nat {
    if s == "" then 0 else (if IsSpecial(s[0]) then 1 else 0) + CountSpecial(s[1..])
  }

  /** One more character for every quote, backslash and newline, and no other change. */
  lemma {:induction false} EscapedLength(s: string)
    ensures |Escaped(s)| == |s| + CountSpecial(s)
    ensures Escaped(s) == s <==> forall i | 0 <= i < |s| :: !IsSpecial(s[i])
    decreases s
  {
    if s != "" {
      EscapedLength(s[1..]);
      assert s == [s[0]] + s[1..];
      assert forall i | 1 <= i < |s| :: s[i] == s[1..][i - 1];
      if !IsSpecial(s[0]) {
        assert Escaped(s)[1..] == Escaped(s[1..]);
      } else {
        assert |Escaped(s)| > |s|;
      }
    }
  }

  method DotEscape(text: string) returns (out: string)
    ensures out == Escaped(text)
  {
    out := "";
    for i := 0 to |text|
      invariant out == Escaped(text[..i])
    {
      var c := text[i];
      assert text[..i + 1] == text[..i] + [c];
      EscapedConcat(text[..i], [c]);
      if c == '"' {
        out := out + "\\\"";
      } else if c == '\\' {
        out := out + "\\\\";
      } else if c == '\n' {
        out := out + "\\n";
      } else {
        out := out + [c];
      }
    }
    assert text[..|text|] == text;
  }

  /** One emitted subtree: the id of its root, the next free id, and its lines. */
  datatype DotResult = DotResult(nodeId: nat, nextId: nat, text: string)

  /** The fold's carrier: from the next free id to the emitted subtree. */
  type DotProgram = nat -> DotResult

  function NodeText(id: nat, info: SenderNodeInfo): string {
    "  n" + Decimal(id) + " [label=\"" + Escaped(info.tagName)
    + (if info.dataType == "" then "" else "\\n" + Escaped(info.dataType)) + "\"];\n"
  }

  function EdgeText(a: nat, b: nat): string {
    "  n" + Decimal(a) + " -> n" + Decimal(b) + ";\n"
  }

  /** Running the children's programs from cursor on, each followed by the edge to it. */
  function RunKids(edge: nat -> string, kids: seq<DotProgram>, cursor: nat): (nat, string)
    decreases kids
  {
    if kids == [] then (cursor, "")
    else
      var sub := kids[0](cursor);
      var (next, text) := RunKids(edge, kids[1..], sub.nextId);
      (next, sub.text + edge(sub.nodeId) + text)
  }

  function NodeProgram(l: RoseF<SenderNodeInfo, DotProgram>, next: nat): DotResult {
    var (cursor, text) := RunKids((id: nat) => EdgeText(next, id), l.children, next + 1);
    DotResult(next, cursor, NodeText(next, l.lbl) + text)
  }

  function DotAlg(): RoseF<SenderNodeInfo, DotProgram> -> DotProgram {
    (l: RoseF<SenderNodeInfo, DotProgram>) => (next: nat) => NodeProgram(l, next)
  }

  function ToDot(t: SenderTree): string {
    "digraph G {\n  node [shape=box];\n" + Fold(DotAlg(), t)(0).text + "}\n"
  }

  lemma Reassociate(a: string, b: string, c: string, d: string)
    ensures a + (b + c + d) == a + b + c + d
  {
  }

  /** The body of a node's program, with its cursor and accumulating text. */
  method EmitNode(info: SenderNodeInfo, kids: seq<DotProgram>, next: nat) returns (r: DotResult)
    ensures r == NodeProgram(RoseF(info, kids), next)
  {
    var myId := next;
    var cursor: nat := next + 1;
    var tag := DotEscape(info.tagName);
    var text := "  n" + Decimal(myId) + " [label=\"" + tag;
    if info.dataType != "" {
      var data := DotEscape(info.dataType);
      text := text + ("\\n" + data);
    }
    text := text + "\"];\n";
    assert text == NodeText(myId, info);
    ghost var edge := (id: nat) => EdgeText(myId, id);
    ghost var whole := RunKids(edge, kids, next + 1);
    for i := 0 to |kids|
      invariant RunKids(edge, kids[i..], cursor).0 == whole.0
      invariant text + RunKids(edge, kids[i..], cursor).1 == NodeText(myId, info) + whole.1
    {
      var sub := kids[i](cursor);
      var line := EdgeText(myId, sub.nodeId);
      assert kids[i..][1..] == kids[i + 1..];
      Reassociate(text, sub.text, line, RunKids(edge, kids[i + 1..], sub.nextId).1);
      cursor := sub.nextId;
      text := text + sub.text;
      text := text + line;
    }
    assert text + "" == text;
    r := DotResult(myId, cursor, text);
  }

  // ---------------------------------------------------------------------
  // What it renders, line by line
  // ---------------------------------------------------------------------

  datatype Line = NodeLine(id: nat, lbl: string) | EdgeLine(source: nat, target: nat)

  /** Tag and data in one label, a newline between them. */
  function Joined(info: SenderNodeInfo): string {
    if info.dataType == "" then info.tagName else info.tagName + "\n" + info.dataType
  }

  function LineText(l: Line): string {
    match l
    case NodeLine(id, lbl) => "  n" + Decimal(id) + " [label=\"" + Escaped(lbl) + "\"];\n"
    case EdgeLine(a, b) => EdgeText(a, b)
  }

  function LinesWith(render: Line -> string, ls: seq<Line>): string
    decreases ls
  {
    if ls == [] then "" else render(ls[0]) + LinesWith(render, ls[1..])
  }

  function LinesText(ls: seq<Line>): string {
    LinesWith(LineText, ls)
  }

  function Size(t: SenderTree): (n: nat)
    ensures n > 0
    decreases t, 1
  {
    1 + SizeAll(t.out.children)
  }

  function SizeAll(ts: seq<SenderTree>): nat
    decreases ts, 0
  {
    if ts == [] then 0 else Size(ts[0]) + SizeAll(ts[1..])
  }

  /** Preorder: a node's line, then for each child its lines and the edge to it. */
  function Emit(t: SenderTree, id: nat): seq<Line>
    decreases t, 1
  {
    [NodeLine(id, Joined(t.out.lbl))] + EmitAll(t.out.children, id, id + 1)
  }

  function EmitAll(ts: seq<SenderTree>, my: nat, cursor: nat): seq<Line>
    decreases ts, 0
  {
    if ts == [] then []
    else Emit(ts[0], cursor) + [EdgeLine(my, cursor)] + EmitAll(ts[1..], my, cursor + Size(ts[0]))
  }

  lemma {:induction false} LinesConcat(render: Line -> string, a: seq<Line>, b: seq<Line>)
    ensures LinesWith(render, a + b) == LinesWith(render, a) + LinesWith(render, b)
    decreases a
  {
    if a == [] {
      assert a + b == b;
    } else {
      assert (a + b)[1..] == a[1..] + b;
      LinesConcat(render, a[1..], b);
    }
  }

  /** The line of a node carries the joined label, escaped as a whole. */
  lemma NodeTextIsLine(id: nat, info: SenderNodeInfo)
    ensures NodeText(id, info) == LineText(NodeLine(id, Joined(info)))
  {
    if info.dataType != "" {
      assert info.tagName + "\n" + info.dataType == info.tagName + ("\n" + info.dataType);
      EscapedConcat(info.tagName, "\n" + info.dataType);
      EscapedConcat("\n", info.dataType);
      assert Escaped("\n") == "\\n";
    }
  }

  /** Started at any id, the program gives the tree the ids from there on, one per node, and
      emits exactly the tree's lines. */
  ghost predicate Emits(render: Line -> string, p: DotProgram, t: SenderTree) {
    forall id: nat :: p(id) == DotResult(id, id + Size(t), LinesWith(render, Emit(t, id)))
  }

  lemma {:induction false} KidsEmit(
      render: Line -> string, edge: nat -> string, ts: seq<SenderTree>, ps: seq<DotProgram>, my: nat, cursor: nat)
    requires forall id: nat :: edge(id) == render(EdgeLine(my, id))
    requires |ps| == |ts| && forall i | 0 <= i < |ts| :: Emits(render, ps[i], ts[i])
    ensures RunKids(edge, ps, cursor) == (cursor + SizeAll(ts), LinesWith(render, EmitAll(ts, my, cursor)))
    decreases ts
  {
    if ts != [] {
      var next, lines, line := cursor + Size(ts[0]), Emit(ts[0], cursor), EdgeLine(my, cursor);
      assert ps[0](cursor) == DotResult(cursor, next, LinesWith(render, lines));
      KidsEmit(render, edge, ts[1..], ps[1..], my, next);
      LinesConcat(render, lines + [line], EmitAll(ts[1..], my, next));
      LinesConcat(render, lines, [line]);
      assert LinesWith(render, [line]) == render(line) + LinesWith(render, []) == render(line);
    }
  }

  lemma NodeEmits(l: RoseF<SenderNodeInfo, DotProgram>, t: SenderTree, id: nat)
    requires l.lbl == t.out.lbl && |l.children| == |t.out.children|
    requires forall i | 0 <= i < |l.children| :: Emits(LineText, l.children[i], t.out.children[i])
    ensures NodeProgram(l, id) == DotResult(id, id + Size(t), LinesText(Emit(t, id)))
  {
    KidsEmit(LineText, (k: nat) => EdgeText(id, k), t.out.children, l.children, id, id + 1);
    NodeTextIsLine(id, t.out.lbl);
    LinesConcat(LineText, [NodeLine(id, Joined(t.out.lbl))], EmitAll(t.out.children, id, id + 1));
  }

  /** The program folded from any tree emits that tree. */
  lemma {:induction false} ProgramEmits(t: SenderTree)
    ensures Emits(LineText, Fold(DotAlg(), t), t)
    decreases t
  {
    var l := Folded(DotAlg(), t.out);
    FoldStep(DotAlg(), t);
    forall i | 0 <= i < |t.out.children|
      ensures Emits(LineText, l.children[i], t.out.children[i])
    {
      ProgramEmits(t.out.children[i]);
    }
    forall id: nat
      ensures Fold(DotAlg(), t)(id) == DotResult(id, id + Size(t), LinesText(Emit(t, id)))
    {
      NodeEmits(l, t, id);
    }
  }

  lemma ToDotEmits(t: SenderTree)
    ensures ToDot(t) == "digraph G {\n  node [shape=box];\n" + LinesText(Emit(t, 0)) + "}\n"
  {
    ProgramEmits(t);
  }

  // ---------------------------------------------------------------------
  // The numbering
  // ---------------------------------------------------------------------

  function NodeIds(ls: seq<Line>): seq<nat> {
    if ls == [] then [] else (if ls[0].NodeLine? then [ls[0].id] else []) + NodeIds(ls[1..])
  }

  /** How many edges lead to id. */
  function EdgesInto(ls: seq<Line>, id: nat): nat {
    if ls == [] then 0 else (if ls[0].EdgeLine? && ls[0].target == id then 1 else 0) + EdgesInto(ls[1..], id)
  }

  function Ids(from: nat, n: nat): (ids: seq<nat>)
    ensures |ids| == n && forall i | 0 <= i < n :: ids[i] == from + i
    decreases n
  {
    if n == 0 then [] else [from] + Ids(from + 1, n - 1)
  }

  lemma {:induction false} IdsConcat(from: nat, m: nat, n: nat)
    ensures Ids(from, m + n) == Ids(from, m) + Ids(from + m, n)
    decreases m
  {
    if m > 0 {
      IdsConcat(from + 1, m - 1, n);
    }
  }

  lemma {:induction false} NodeIdsConcat(a: seq<Line>, b: seq<Line>)
    ensures NodeIds(a + b) == NodeIds(a) + NodeIds(b)
    decreases a
  {
    if a == [] {
      assert a + b == b;
    } else {
      assert (a + b)[1..] == a[1..] + b;
      NodeIdsConcat(a[1..], b);
      ConsConcat(if a[0].NodeLine? then [a[0].id] else [], NodeIds(a[1..]), NodeIds(b));
    }
  }

  lemma ConsConcat(x: seq<nat>, a: seq<nat>, b: seq<nat>)
    ensures x + (a + b) == (x + a) + b
  {
  }

  lemma {:induction false} EdgesIntoConcat(a: seq<Line>, b: seq<Line>, id: nat)
    ensures EdgesInto(a + b, id) == EdgesInto(a, id) + EdgesInto(b, id)
    decreases a
  {
    if a == [] {
      assert a + b == b;
    } else {
      assert (a + b)[1..] == a[1..] + b;
      EdgesIntoConcat(a[1..], b, id);
    }
  }

  /** A subtree started at id owns exactly the ids from id to id + size - 1, in preorder. */
  lemma {:induction false} IdsInPreorder(t: SenderTree, id: nat)
    ensures NodeIds(Emit(t, id)) == Ids(id, Size(t))
    decreases t, 1
  {
    var root, below := [NodeLine(id, Joined(t.out.lbl))], EmitAll(t.out.children, id, id + 1);
    NodeIdsConcat(root, below);
    IdsInPreorderAll(t.out.children, id, id + 1);
    assert NodeIds(root) == [id] + NodeIds(root[1..]);
  }

  lemma {:induction false} IdsInPreorderAll(ts: seq<SenderTree>, my: nat, cursor: nat)
    ensures NodeIds(EmitAll(ts, my, cursor)) == Ids(cursor, SizeAll(ts))
    decreases ts, 0
  {
    if ts != [] {
      var n := Size(ts[0]);
      IdsInPreorder(ts[0], cursor);
      IdsInPreorderAll(ts[1..], my, cursor + n);
      var first, later := Emit(ts[0], cursor), EmitAll(ts[1..], my, cursor + n);
      ChildIds(first, EdgeLine(my, cursor), later, cursor, n, SizeAll(ts[1..]));
    }
  }

  lemma ChildIds(first: seq<Line>, edge: Line, later: seq<Line>, cursor: nat, n: nat, m: nat)
    requires edge.EdgeLine?
    requires NodeIds(first) == Ids(cursor, n) && NodeIds(later) == Ids(cursor + n, m)
    ensures NodeIds(first + [edge] + later) == Ids(cursor, n + m)
  {
    NodeIdsConcat(first + [edge], later);
    NodeIdsConcat(first, [edge]);
    assert NodeIds([edge]) == [];
    assert Ids(cursor, n) + [] == Ids(cursor, n);
    IdsConcat(cursor, n, m);
  }

  /** Every id but the root's own is the target of exactly one edge, and no other id of any. */
  lemma {:induction false} OneEdgeInto(t: SenderTree, id: nat, k: nat)
    ensures EdgesInto(Emit(t, id), k) == if id < k < id + Size(t) then 1 else 0
    decreases t, 1
  {
    EdgesIntoConcat([NodeLine(id, Joined(t.out.lbl))], EmitAll(t.out.children, id, id + 1), k);
    OneEdgeIntoAll(t.out.children, id, id + 1, k);
  }

  lemma {:induction false} OneEdgeIntoAll(ts: seq<SenderTree>, my: nat, cursor: nat, k: nat)
    ensures EdgesInto(EmitAll(ts, my, cursor), k) == if cursor <= k < cursor + SizeAll(ts) then 1 else 0
    decreases ts, 0
  {
    if ts != [] {
      var first, edge := Emit(ts[0], cursor), [EdgeLine(my, cursor)];
      var later := EmitAll(ts[1..], my, cursor + Size(ts[0]));
      OneEdgeInto(ts[0], cursor, k);
      OneEdgeIntoAll(ts[1..], my, cursor + Size(ts[0]), k);
      EdgesIntoConcat(first + edge, later, k);
      EdgesIntoConcat(first, edge, k);
    }
  }

  /** Every edge of the lines goes from an id to a larger one, within the range. */
  ghost predicate EdgesUp(ls: seq<Line>, lo: nat, hi: nat) {
    forall i | 0 <= i < |ls| && ls[i].EdgeLine? :: lo <= ls[i].source < ls[i].target < hi
  }

  /** A subtree of size n emits n node lines and n - 1 edges, all of them upwards in ids. */
  lemma {:induction false} EdgesGoUp(t: SenderTree, id: nat)
    ensures EdgesUp(Emit(t, id), id, id + Size(t))
    ensures |Emit(t, id)| == Size(t) + (Size(t) - 1)
    decreases t, 1
  {
    EdgesGoUpAll(t.out.children, id, id + 1);
  }

  lemma {:induction false} EdgesGoUpAll(ts: seq<SenderTree>, my: nat, cursor: nat)
    requires my < cursor
    ensures EdgesUp(EmitAll(ts, my, cursor), my, cursor + SizeAll(ts))
    ensures |EmitAll(ts, my, cursor)| == 2 * SizeAll(ts)
    decreases ts, 0
  {
    if ts != [] {
      EdgesGoUp(ts[0], cursor);
      EdgesGoUpAll(ts[1..], my, cursor + Size(ts[0]));
    }
  }

  // ---------------------------------------------------------------------
  // Reading back: text to lines
  // ---------------------------------------------------------------------

  /** Reads an escaped label up to its closing quote. A backslash stands before a quote, a
      backslash or the letter n, and a newline is never written as itself. */
  function ReadLabel(s: string): (r: Option<(string, string)>)
    ensures r.Some? ==> |r.value.1| < |s|
    decreases |s|
  {
    if s == "" then None
    else if s[0] == '"' then Some(("", s[1..]))
    else if s[0] == '\\' then
      if |s| < 2 || s[1] !in "\"\\n" then None
      else
        var c := if s[1] == 'n' then '\n' else s[1];
        match ReadLabel(s[2..])
        case None => None
        case Some((lbl, rest)) => Some(([c] + lbl, rest))
    else if s[0] == '\n' then None
    else
      match ReadLabel(s[1..])
      case None => None
      case Some((lbl, rest)) => Some(([s[0]] + lbl, rest))
  }

  /** Escaping loses nothing: every label is read back up to the closing quote. */
  lemma {:induction false} LabelRoundTrip(lbl: string, rest: string)
    ensures ReadLabel(Escaped(lbl) + "\"" + rest) == Some((lbl, rest))
    decreases lbl
  {
    if lbl == "" {
      assert (Escaped(lbl) + "\"" + rest)[1..] == rest;
    } else {
      var c, tail := lbl[0], Escaped(lbl[1..]) + "\"" + rest;
      LabelRoundTrip(lbl[1..], rest);
      ReadLabelChar(c, tail);
      assert Escaped(lbl) + "\"" + rest == EscapeChar(c) + tail;
      assert lbl == [c] + lbl[1..];
    }
  }

  /** And nothing else reads as a label: what was read is the label escaped and its quote. */
  lemma {:induction false} OnlyEscapedReads(s: string)
    requires ReadLabel(s).Some?
    ensures s == Escaped(ReadLabel(s).value.0) + "\"" + ReadLabel(s).value.1
    decreases |s|
  {
    var (lbl, rest) := ReadLabel(s).value;
    if s[0] == '"' {
      assert s == "\"" + s[1..];
    } else {
      var n := if s[0] == '\\' then 2 else 1;
      OnlyEscapedReads(s[n..]);
      ReadsEscapedFirst(s);
      EscapedParts(s, lbl, s[..n], s[n..], rest);
    }
  }

  lemma ReadsEscapedFirst(s: string)
    requires ReadLabel(s).Some? && s[0] != '"'
    ensures var n := if s[0] == '\\' then 2 else 1;
            var (lbl, rest) := ReadLabel(s).value;
            && |s| >= n && ReadLabel(s[n..]).Some?
            && lbl != "" && ReadLabel(s[n..]).value == (lbl[1..], rest) && s[..n] == EscapeChar(lbl[0])
  {
    if s[0] == '\\' {
      assert s[..2] == [s[0], s[1]];
    }
  }

  lemma EscapedParts(s: string, lbl: string, first: string, tail: string, rest: string)
    requires lbl != "" && s == first + tail && first == EscapeChar(lbl[0])
    requires tail == Escaped(lbl[1..]) + "\"" + rest
    ensures s == Escaped(lbl) + "\"" + rest
  {
  }

  lemma ReadLabelChar(c: char, tail: string)
    requires ReadLabel(tail).Some?
    ensures ReadLabel(EscapeChar(c) + tail) == Some(([c] + ReadLabel(tail).value.0, ReadLabel(tail).value.1))
  {
    var s := EscapeChar(c) + tail;
    if IsSpecial(c) {
      assert s[2..] == tail && s[1] in "\"\\n";
    } else {
      assert s[1..] == tail;
    }
  }

  function ReadLine(s: string): (r: Option<(Line, string)>)
    ensures r.Some? ==> |r.value.1| < |s|
  {
    match Strip("  n", s)
    case None => None
    case Some(s1) =>
      var (id, s2) := ReadDigits(0, s1);
      match Strip(" [label=\"", s2)
      case Some(s3) =>
        (match ReadLabel(s3)
         case None => None
         case Some((lbl, s4)) =>
           match Strip("];\n", s4)
           case None => None
           case Some(s5) => Some((NodeLine(id, lbl), s5)))
      case None =>
        (match Strip(" -> n", s2)
         case None => None
         case Some(s3) =>
           var (target, s4) := ReadDigits(0, s3);
           match Strip(";\n", s4)
           case None => None
           case Some(s5) => Some((EdgeLine(id, target), s5)))
  }

  lemma NodeLineRoundTrip(id: nat, lbl: string, rest: string)
    ensures ReadLine(LineText(NodeLine(id, lbl)) + rest) == Some((NodeLine(id, lbl), rest))
  {
    var s5 := "];\n" + rest;
    var s3 := Escaped(lbl) + "\"" + s5;
    var s2 := " [label=\"" + s3;
    NodeLineText(id, lbl, rest);
    StripPrefix("  n", Decimal(id) + s2);
    DecimalRoundTrip(id, s2);
    StripPrefix(" [label=\"", s3);
    LabelRoundTrip(lbl, s5);
    StripPrefix("];\n", rest);
  }

  lemma NodeLineText(id: nat, lbl: string, rest: string)
    ensures LineText(NodeLine(id, lbl)) + rest
         == "  n" + (Decimal(id) + (" [label=\"" + (Escaped(lbl) + "\"" + ("];\n" + rest))))
  {
    assert Escaped(lbl) + "\"];\n" + rest == Escaped(lbl) + "\"" + ("];\n" + rest);
  }

  lemma EdgeLineRoundTrip(a: nat, b: nat, rest: string)
    ensures ReadLine(LineText(EdgeLine(a, b)) + rest) == Some((EdgeLine(a, b), rest))
  {
    var s4 := ";\n" + rest;
    var s3 := Decimal(b) + s4;
    var s2 := " -> n" + s3;
    EdgeLineText(a, b, rest);
    StripPrefix("  n", Decimal(a) + s2);
    DecimalRoundTrip(a, s2);
    assert s2[1] != " [label=\""[1];
    StripPrefix(" -> n", s3);
    DecimalRoundTrip(b, s4);
    StripPrefix(";\n", rest);
  }

  lemma EdgeLineText(a: nat, b: nat, rest: string)
    ensures LineText(EdgeLine(a, b)) + rest == "  n" + (Decimal(a) + (" -> n" + (Decimal(b) + (";\n" + rest))))
  {
  }

  /** Reads lines up to the closing brace. */
  function ReadLines(s: string): Option<seq<Line>>
    decreases |s|
  {
    if s == "}\n" then Some([])
    else
      match ReadLine(s)
      case None => None
      case Some((l, rest)) =>
        match ReadLines(rest)
        case None => None
        case Some(ls) => Some([l] + ls)
  }

  lemma {:induction false} LinesRoundTrip(ls: seq<Line>)
    ensures ReadLines(LinesText(ls) + "}\n") == Some(ls)
    decreases ls
  {
    if ls == [] {
      assert LinesText(ls) + "}\n" == "}\n";
    } else {
      var rest := LinesText(ls[1..]) + "}\n";
      assert LinesText(ls) + "}\n" == LineText(ls[0]) + rest;
      assert (LineText(ls[0]) + rest)[0] == ' ';
      match ls[0] {
        case NodeLine(id, lbl) => NodeLineRoundTrip(id, lbl, rest);
        case EdgeLine(a, b) => EdgeLineRoundTrip(a, b, rest);
      }
      LinesRoundTrip(ls[1..]);
      assert ls == [ls[0]] + ls[1..];
    }
  }

  // ---------------------------------------------------------------------
  // Reading back: lines to a tree
  // ---------------------------------------------------------------------

  predicate Plain(s: string) { '\n' !in s }

  /** The label up to its first newline is the tag, what follows is the data. */
  function SplitLabel(lbl: string): SenderNodeInfo {
    if Plain(lbl) then SenderNodeInfo(lbl, "")
    else if lbl[0] == '\n' then SenderNodeInfo("", lbl[1..])
    else var r := SplitLabel(lbl[1..]); r.(tagName := [lbl[0]] + r.tagName)
  }

  lemma {:induction false} SplitTagIsPlain(lbl: string)
    ensures Plain(SplitLabel(lbl).tagName)
    decreases lbl
  {
    if !Plain(lbl) && lbl[0] != '\n' {
      SplitTagIsPlain(lbl[1..]);
    }
  }

  lemma {:induction false} SplitAtNewline(tag: string, data: string)
    requires Plain(tag)
    ensures SplitLabel(tag + "\n" + data) == SenderNodeInfo(tag, data)
    decreases tag
  {
    var lbl := tag + "\n" + data;
    assert lbl[|tag|] == '\n';
    if tag == "" {
      assert lbl[1..] == data;
    } else {
      assert lbl[1..] == tag[1..] + "\n" + data;
      SplitAtNewline(tag[1..], data);
      assert tag == [tag[0]] + tag[1..];
    }
  }

  /** A label gives its tag and data back exactly when the tag holds no newline. */
  lemma SplitJoinedIff(info: SenderNodeInfo)
    ensures SplitLabel(Joined(info)) == info <==> Plain(info.tagName)
  {
    SplitTagIsPlain(Joined(info));
    if Plain(info.tagName) && info.dataType != "" {
      SplitAtNewline(info.tagName, info.dataType);
    }
  }

  function ReadTree(id: nat, ls: seq<Line>): (r: Option<(SenderTree, nat, seq<Line>)>)
    ensures r.Some? ==> |r.value.2| < |ls|
    decreases |ls|, 1
  {
    if ls == [] || ls[0].EdgeLine? || ls[0].id != id then None
    else
      match ReadKids(id, id + 1, ls[1..])
      case None => None
      case Some((kids, next, rest)) => Some((In(RoseF(SplitLabel(ls[0].lbl), kids)), next, rest))
  }

  /** A further node line starts a further child, whose edge must follow its lines. */
  function ReadKids(my: nat, cursor: nat, ls: seq<Line>): (r: Option<(seq<SenderTree>, nat, seq<Line>)>)
    ensures r.Some? ==> |r.value.2| <= |ls|
    decreases |ls|, 2
  {
    if ls == [] || ls[0].EdgeLine? then Some(([], cursor, ls))
    else
      match ReadTree(cursor, ls)
      case None => None
      case Some((t, next, rest)) =>
        if rest == [] || rest[0] != EdgeLine(my, cursor) then None
        else
          match ReadKids(my, next, rest[1..])
          case None => None
          case Some((kids, last, rest')) => Some(([t] + kids, last, rest'))
  }

  function ReadDot(s: string): Option<SenderTree> {
    match Strip("digraph G {\n  node [shape=box];\n", s)
    case None => None
    case Some(body) =>
      match ReadLines(body)
      case None => None
      case Some(ls) =>
        match ReadTree(0, ls)
        case None => None
        case Some((t, next, rest)) => if rest == [] then Some(t) else None
  }

  /** The tree with every label joined and split again. */
  function Resplit(t: SenderTree): SenderTree
    decreases t, 1
  {
    In(RoseF(SplitLabel(Joined(t.out.lbl)), ResplitAll(t.out.children)))
  }

  function ResplitAll(ts: seq<SenderTree>): seq<SenderTree>
    decreases ts, 0
  {
    if ts == [] then [] else [Resplit(ts[0])] + ResplitAll(ts[1..])
  }

  lemma {:induction false} TreeRoundTrip(t: SenderTree, id: nat, rest: seq<Line>)
    requires rest == [] || rest[0].EdgeLine?
    ensures ReadTree(id, Emit(t, id) + rest) == Some((Resplit(t), id + Size(t), rest))
    decreases t, 1
  {
    var kids := EmitAll(t.out.children, id, id + 1);
    KidsRoundTrip(t.out.children, id, id + 1, rest);
    assert (Emit(t, id) + rest)[1..] == kids + rest;
  }

  lemma {:induction false} KidsRoundTrip(ts: seq<SenderTree>, my: nat, cursor: nat, rest: seq<Line>)
    requires rest == [] || rest[0].EdgeLine?
    ensures ReadKids(my, cursor, EmitAll(ts, my, cursor) + rest) == Some((ResplitAll(ts), cursor + SizeAll(ts), rest))
    decreases ts, 0
  {
    if ts == [] {
      assert [] + rest == rest;
    } else {
      var next := cursor + Size(ts[0]);
      var later := EmitAll(ts[1..], my, next) + rest;
      var afterChild := [EdgeLine(my, cursor)] + later;
      EmitAllFirst(ts, my, cursor, rest);
      TreeRoundTrip(ts[0], cursor, afterChild);
      KidsRoundTrip(ts[1..], my, next, rest);
      ReadOneKid(my, cursor, Emit(ts[0], cursor) + afterChild, Resplit(ts[0]), next, later);
    }
  }

  lemma EmitAllFirst(ts: seq<SenderTree>, my: nat, cursor: nat, rest: seq<Line>)
    requires ts != []
    ensures EmitAll(ts, my, cursor) + rest
         == Emit(ts[0], cursor) + ([EdgeLine(my, cursor)] + (EmitAll(ts[1..], my, cursor + Size(ts[0])) + rest))
  {
    var first, edge, later := Emit(ts[0], cursor), [EdgeLine(my, cursor)], EmitAll(ts[1..], my, cursor + Size(ts[0]));
    assert first + edge + later + rest == first + (edge + (later + rest));
  }

  /** Reading one child off the front, then its edge, then the other children. */
  lemma ReadOneKid(my: nat, cursor: nat, ls: seq<Line>, t: SenderTree, next: nat, later: seq<Line>)
    requires ReadTree(cursor, ls) == Some((t, next, [EdgeLine(my, cursor)] + later))
    requires ReadKids(my, next, later).Some?
    ensures var kids := ReadKids(my, next, later).value;
            ReadKids(my, cursor, ls) == Some(([t] + kids.0, kids.1, kids.2))
  {
    assert ([EdgeLine(my, cursor)] + later)[1..] == later;
  }

  ghost predicate PlainTags(t: SenderTree)
    decreases t
  {
    Plain(t.out.lbl.tagName) && forall i | 0 <= i < |t.out.children| :: PlainTags(t.out.children[i])
  }

  lemma {:induction false} ResplitIff(t: SenderTree)
    ensures Resplit(t) == t <==> PlainTags(t)
    decreases t, 1
  {
    SplitJoinedIff(t.out.lbl);
    ResplitAllIff(t.out.children);
    SameLayer(t.out, RoseF(t.out.lbl, t.out.children));
    assert Resplit(t) == t <==> Resplit(t).out == t.out;
  }

  lemma {:induction false} ResplitAllIff(ts: seq<SenderTree>)
    ensures ResplitAll(ts) == ts <==> forall i | 0 <= i < |ts| :: PlainTags(ts[i])
    decreases ts, 0
  {
    if ts != [] {
      ResplitIff(ts[0]);
      ResplitAllIff(ts[1..]);
      assert ts == [ts[0]] + ts[1..];
      assert ResplitAll(ts)[1..] == ResplitAll(ts[1..]);
      assert (forall i | 0 <= i < |ts| :: PlainTags(ts[i]))
         <==> PlainTags(ts[0]) && forall i | 0 <= i < |ts[1..]| :: PlainTags(ts[1..][i]);
    }
  }

  /** Whatever the tree, its rendering is read back; the tree itself comes back exactly when no
      tag holds a newline, since the newline escape also separates tag from data. */
  lemma DotRoundTrip(t: SenderTree)
    ensures ReadDot(ToDot(t)) == Some(Resplit(t))
    ensures ReadDot(ToDot(t)) == Some(t) <==> PlainTags(t)
  {
    var header, ls := "digraph G {\n  node [shape=box];\n", Emit(t, 0);
    ToDotEmits(t);
    assert ToDot(t) == header + (LinesText(ls) + "}\n");
    StripPrefix(header, LinesText(ls) + "}\n");
    LinesRoundTrip(ls);
    TreeRoundTrip(t, 0, []);
    assert ls + [] == ls;
    ResplitIff(t);
  }

  function Leaf(tag: string, data: string): SenderTree {
    In(RoseF(SenderNodeInfo(tag, data), []))
  }

  /** A tag with a newline and no data is rendered like the tag before it with data after it. */
  lemma NewlineTagIsLost()
    ensures ToDot(Leaf("a\nb", "")) == ToDot(Leaf("a", "b"))
    ensures ReadDot(ToDot(Leaf("a\nb", ""))) == Some(Leaf("a", "b"))
  {
    var t, u := Leaf("a\nb", ""), Leaf("a", "b");
    assert Plain("a") && !Plain("a\nb") by { assert "a\nb"[1] == '\n'; }
    assert Joined(t.out.lbl) == "a" + "\n" + "b" == Joined(u.out.lbl);
    ToDotEmits(t);
    ToDotEmits(u);
    DotRoundTrip(u);
    assert PlainTags(u);
  }

  // ---------------------------------------------------------------------
  // A pipeline, line by line
  // ---------------------------------------------------------------------

  lemma OneKidEmits(t: SenderTree, my: nat, cursor: nat)
    ensures EmitAll([t], my, cursor) == Emit(t, cursor) + [EdgeLine(my, cursor)]
  {
    assert EmitAll([t][1..], my, cursor + Size(t)) == [];
  }

  lemma TwoKidsEmit(t: SenderTree, u: SenderTree, my: nat, cursor: nat)
    ensures EmitAll([t, u], my, cursor)
         == Emit(t, cursor) + [EdgeLine(my, cursor)] + (Emit(u, cursor + Size(t)) + [EdgeLine(my, cursor + Size(t))])
  {
    assert [t, u][1..] == [u];
    OneKidEmits(u, my, cursor + Size(t));
  }

  lemma LeafEmits(tag: string, data: string, id: nat)
    ensures Emit(Leaf(tag, data), id) == [NodeLine(id, Joined(SenderNodeInfo(tag, data)))]
    ensures Size(Leaf(tag, data)) == 1
  {
  }

  /** Two leaves under when_all under then, from any id on. */
  lemma PipelineEmits(id: nat)
    ensures Emit(In(RoseF(SenderNodeInfo("then", "f"),
                          [In(RoseF(SenderNodeInfo("when_all", ""), [Leaf("just", "1"), Leaf("just", "2")]))])), id)
         == [NodeLine(id, "then\nf"), NodeLine(id + 1, "when_all"), NodeLine(id + 2, "just\n1"),
             EdgeLine(id + 1, id + 2), NodeLine(id + 3, "just\n2"), EdgeLine(id + 1, id + 3), EdgeLine(id, id + 1)]
  {
    var t, u := Leaf("just", "1"), Leaf("just", "2");
    var both := In(RoseF(SenderNodeInfo("when_all", ""), [t, u]));
    LeafEmits("just", "1", id + 2);
    LeafEmits("just", "2", id + 3);
    TwoKidsEmit(t, u, id + 1, id + 2);
    assert Emit(both, id + 1) == [NodeLine(id + 1, "when_all")] + EmitAll([t, u], id + 1, id + 2);
    OneKidEmits(both, id, id + 1);
    var whole := In(RoseF(SenderNodeInfo("then", "f"), [both]));
    assert Emit(whole, id) == [NodeLine(id, Joined(whole.out.lbl))] + EmitAll([both], id, id + 1);
    assert "then" + "\n" + "f" == "then\nf" && "just" + "\n" + "1" == "just\n1" && "just" + "\n" + "2" == "just\n2";
  }

  lemma EscapedCons(c: char, s: string, whole: string)
    requires whole == [c] + s
    ensures Escaped(whole) == EscapeChar(c) + Escaped(s)
  {
  }

  lemma QuoteAndBackslash()
    ensures Escaped("a\"b\\c") == "a\\\"b\\\\c"
  {
    EscapedLength("c");
    EscapedCons('\\', "c", "\\c");
    EscapedCons('b', "\\c", "b\\c");
    EscapedCons('"', "b\\c", "\"b\\c");
    EscapedCons('a', "\"b\\c", "a\"b\\c");
  }

  lemma DataAfterNewline()
    ensures Escaped("just\n1") == "just\\n1"
  {
    EscapedLength("just");
    EscapedLength("1");
    EscapedCons('\n', "1", "\n1");
    EscapedConcat("just", "\n1");
    assert "just\n1" == "just" + "\n1";
  }

  lemma NodeLineParts(id: nat, lbl: string, digits: string, text: string)
    requires Decimal(id) == digits && Escaped(lbl) == text
    ensures LineText(NodeLine(id, lbl)) == "  n" + digits + " [label=\"" + text + "\"];\n"
  {
  }

  lemma EdgeLineParts(a: nat, b: nat, from: string, to: string)
    requires Decimal(a) == from && Decimal(b) == to
    ensures LineText(EdgeLine(a, b)) == "  n" + from + " -> n" + to + ";\n"
  {
  }

  lemma TwoDecimals()
    ensures Decimal(2) == "2" && Decimal(13) == "13"
  {
    assert Decimal(13) == Decimal(1) + "3";
  }

  lemma WithData()
    ensures LineText(NodeLine(2, "just\n1")) == "  n2 [label=\"just\\n1\"];\n"
  {
    DataAfterNewline();
    TwoDecimals();
    NodeLineParts(2, "just\n1", "2", "just\\n1");
  }

  lemma WithEscapes()
    ensures LineText(NodeLine(13, "a\"b\\c")) == "  n13 [label=\"a\\\"b\\\\c\"];\n"
  {
    QuoteAndBackslash();
    TwoDecimals();
    NodeLineParts(13, "a\"b\\c", "13", "a\\\"b\\\\c");
  }

  lemma FromTo()
    ensures LineText(EdgeLine(2, 13)) == "  n2 -> n13;\n"
  {
    TwoDecimals();
    EdgeLineParts(2, 13, "2", "13");
  }

  /** The text of a node with data, of one full of characters to escape, and of an edge. */
  lemma LinesAreDrawn()
    ensures LineText(NodeLine(2, "just\n1")) == "  n2 [label=\"just\\n1\"];\n"
    ensures LineText(NodeLine(13, "a\"b\\c")) == "  n13 [label=\"a\\\"b\\\\c\"];\n"
    ensures LineText(EdgeLine(2, 13)) == "  n2 -> n13;\n"
  {
    WithData();
    WithEscapes();
    FromTo();
  }
}
