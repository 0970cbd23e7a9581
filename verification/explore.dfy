/**
  The `exploreReader` visitor of explore/explore.go, a debugging twin of
  AstReader whose only effect is what it prints. `Trace(n)` is the sequence of
  lines the handler for `n` prints, one element per `fmt.Println` call,
  without the newline Println adds. The reader itself carries no state, so a
  handler's output depends on the node alone.
 */
module Explore {
  import opened Optional
  import opened PhpAst

  function Trace(n: Node): seq<string>
    decreases n
  {
    match n
    case Root(stmts) =>
      ["Root", ""] + TraceRootLoop(stmts)
    case Parameter(attrGroups, variable, defaultValue) =>
      ["Parameter"] + TraceAll(attrGroups) + Trace(variable)
      + (if defaultValue.Some? then Trace(defaultValue.value) else [])
      + ["end of Parameter\n\t"]
    case Identifier(value) =>
      // Println puts a space between its two operands
      ["\tIdentifier", "\t " + value, "\tend of Identifier"]
    case StmtEcho(exprs) =>
      ["StmtEcho"] + TraceAll(exprs) + ["end of StmtEcho\n\t"]
    case StmtExpression(expr) =>
      ["StmtExpression"] + Trace(expr) + ["End of StmtExpression\n\t"]
    case StmtFunction(decl) =>
      // the label is printed before the nil check
      ["StmtFunction"] + (if decl.None? then [] else Trace(decl.value.name) + TraceParams(decl.value.params))
    case ExprVariable(name) =>
      ["ExprVariable"] + Trace(name)
    case ScalarString(value) =>
      ["ScalarString", value]
    case NameName =>
      ["NameName", "HELLO"]
    case Other(kind) =>
      [KindName(kind)]
  }

  function TracePresent(o: Option<Node>): seq<string>
    requires o.Some?
    decreases o
  {
    Trace(o.value)
  }

  /**
    Root's loop and the line after it: a nil statement returns from the
    handler, so the closing line is printed only when every statement was.
   */
  function TraceRootLoop(stmts: seq<Option<Node>>): seq<string>
    decreases stmts
  {
    if |stmts| == 0 then ["endof Root\n\t"]
    else if stmts[0].None? then []
    else TracePresent(stmts[0]) + TraceRootLoop(stmts[1..])
  }

  function TraceAll(nodes: seq<Node>): seq<string>
    decreases nodes
  {
    if |nodes| == 0 then [] else Trace(nodes[0]) + TraceAll(nodes[1..])
  }

  function TraceParams(params: seq<Option<Node>>): seq<string>
    decreases params
  {
    if |params| == 0 then []
    else if params[0].None? then TraceParams(params[1..])
    else TracePresent(params[0]) + TraceParams(params[1..])
  }

  /** Concatenation of a sequence of line blocks. */
  ghost function Flatten(blocks: seq<seq<string>>): seq<string>
  {
    if |blocks| == 0 then [] else blocks[0] + Flatten(blocks[1..])
  }

  /** The trace of each of `nodes`, position by position. */
  ghost function TraceBlocks(nodes: seq<Node>): seq<seq<string>>
  {
    seq(|nodes|, i requires 0 <= i < |nodes| => Trace(nodes[i]))
  }

  /** The traces of `nodes`, one after the other, in order. */
  ghost function TracesInOrder(nodes: seq<Node>): seq<string>
  {
    Flatten(TraceBlocks(nodes))
  }

  lemma {:induction false} TracesInOrderCons(n: Node, rest: seq<Node>)
    ensures TracesInOrder([n] + rest) == Trace(n) + TracesInOrder(rest)
  {
    var blocks := TraceBlocks([n] + rest);
    assert blocks[1..] == TraceBlocks(rest) by {
      forall i | 0 <= i < |rest| ensures blocks[1..][i] == TraceBlocks(rest)[i] {
        assert ([n] + rest)[i + 1] == rest[i];
      }
    }
  }

  lemma {:induction false} TraceAllInOrder(nodes: seq<Node>)
    ensures TraceAll(nodes) == TracesInOrder(nodes)
  {
    if |nodes| == 0 {
    } else {
      TraceAllInOrder(nodes[1..]);
      TracesInOrderCons(nodes[0], nodes[1..]);
      assert [nodes[0]] + nodes[1..] == nodes;
    }
  }

  lemma {:induction false} TraceParamsInOrder(params: seq<Option<Node>>)
    ensures TraceParams(params) == TracesInOrder(Somes(params))
  {
    if |params| == 0 {
    } else if params[0].None? {
      TraceParamsInOrder(params[1..]);
    } else {
      TraceParamsInOrder(params[1..]);
      TracesInOrderCons(params[0].value, Somes(params[1..]));
    }
  }

  lemma {:induction false} TraceRootLoopInOrder(stmts: seq<Option<Node>>)
    ensures TraceRootLoop(stmts) ==
              TracesInOrder(UntilNone(stmts)) + (if FirstNone(stmts) == |stmts| then ["endof Root\n\t"] else [])
  {
    if |stmts| == 0 {
    } else if stmts[0].None? {
    } else {
      TraceRootLoopInOrder(stmts[1..]);
      TracesInOrderCons(stmts[0].value, UntilNone(stmts[1..]));
    }
  }

  /**
    Root prints "Root" and an empty line, then the trace of each statement in
    source order up to the first nil one; the closing line follows only when
    no statement is nil.
   */
  lemma {:induction false} RootTrace(stmts: seq<Option<Node>>)
    ensures Trace(Root(stmts)) ==
              ["Root", ""] + TracesInOrder(UntilNone(stmts))
              + (if FirstNone(stmts) == |stmts| then ["endof Root\n\t"] else [])
  {
    TraceRootLoopInOrder(stmts);
  }

  /** After a nil statement nothing more is printed, whatever follows it. */
  lemma {:induction false} RootTraceStopsAtNil(before: seq<Option<Node>>, after: seq<Option<Node>>)
    ensures Trace(Root(before + [None] + after)) == Trace(Root(before + [None]))
  {
    RootLoopStopsAtNil(before, after);
  }

  lemma {:induction false} RootLoopStopsAtNil(before: seq<Option<Node>>, after: seq<Option<Node>>)
    ensures TraceRootLoop(before + [None] + after) == TraceRootLoop(before + [None])
    decreases |before|
  {
    if |before| == 0 {
      assert (before + [None] + after)[0] == None;
      assert (before + [None])[0] == None;
    } else {
      RootLoopStopsAtNil(before[1..], after);
      assert (before + [None] + after)[1..] == before[1..] + [None] + after;
      assert (before + [None])[1..] == before[1..] + [None];
    }
  }

  /** Parameter: its label, its attribute groups, its variable, its default value if present, its end line. */
  lemma {:induction false} ParameterTrace(attrGroups: seq<Node>, variable: Node, defaultValue: Option<Node>)
    ensures Trace(Parameter(attrGroups, variable, defaultValue)) ==
              ["Parameter"] + TracesInOrder(attrGroups) + Trace(variable)
              + (if defaultValue.Some? then Trace(defaultValue.value) else [])
              + ["end of Parameter\n\t"]
  {
    TraceAllInOrder(attrGroups);
  }

  /** StmtEcho: its label, each expression's trace in order, its end line. */
  lemma {:induction false} EchoTrace(exprs: seq<Node>)
    ensures Trace(StmtEcho(exprs)) == ["StmtEcho"] + TracesInOrder(exprs) + ["end of StmtEcho\n\t"]
  {
    TraceAllInOrder(exprs);
  }

  /**
    StmtFunction prints its label even for a nil node; for a non-nil one it
    goes on with its name's trace and the traces of the non-nil parameters in
    order, and prints no closing line.
   */
  lemma {:induction false} FunctionTrace(decl: Option<FunctionDecl>)
    ensures decl.None? ==> Trace(StmtFunction(decl)) == ["StmtFunction"]
    ensures decl.Some? ==>
              Trace(StmtFunction(decl)) ==
              ["StmtFunction"] + Trace(decl.value.name) + TracesInOrder(Somes(decl.value.params))
  {
    if decl.Some? {
      TraceParamsInOrder(decl.value.params);
    }
  }

  /** The lines a handler prints before it descends into any sub-node. */
  ghost function Opening(n: Node): seq<string>
  {
    match n
    case Root(_) => ["Root", ""]
    case Identifier(value) => ["\tIdentifier", "\t " + value]
    case ScalarString(value) => ["ScalarString", value]
    case NameName => ["NameName", "HELLO"]
    case Other(kind) => [KindName(kind)]
    case _ => [HandlerName(n)]
  }

  /**
    The sub-nodes a handler visits, in the order it visits them: Root's
    statements up to the first nil one, Parameter's attribute groups, variable
    and present default value, Echo's expressions, the expression of an
    expression statement, a non-nil function's name and then its non-nil
    parameters, a variable's name. The other handlers visit nothing.
   */
  ghost function Visited(n: Node): seq<Node>
  {
    match n
    case Root(stmts) => UntilNone(stmts)
    case Parameter(attrGroups, variable, defaultValue) =>
      attrGroups + [variable] + (if defaultValue.Some? then [defaultValue.value] else [])
    case StmtEcho(exprs) => exprs
    case StmtExpression(expr) => [expr]
    case StmtFunction(decl) =>
      if decl.None? then [] else [decl.value.name] + Somes(decl.value.params)
    case ExprVariable(name) => [name]
    case _ => []
  }

  /** The lines a handler prints after its last sub-node; Root's is skipped when it stops at a nil statement. */
  ghost function Closing(n: Node): seq<string>
  {
    match n
    case Root(stmts) => if FirstNone(stmts) == |stmts| then ["endof Root\n\t"] else []
    case Parameter(_, _, _) => ["end of Parameter\n\t"]
    case StmtEcho(_) => ["end of StmtEcho\n\t"]
    case StmtExpression(_) => ["End of StmtExpression\n\t"]
    case Identifier(_) => ["\tend of Identifier"]
    case _ => []
  }

  lemma {:induction false} FlattenAppend(xs: seq<seq<string>>, ys: seq<seq<string>>)
    ensures Flatten(xs + ys) == Flatten(xs) + Flatten(ys)
    decreases |xs|
  {
    if |xs| == 0 {
      assert xs + ys == ys;
    } else {
      FlattenAppend(xs[1..], ys);
      assert (xs + ys)[1..] == xs[1..] + ys;
    }
  }

  lemma TracesInOrderAppend(xs: seq<Node>, ys: seq<Node>)
    ensures TracesInOrder(xs + ys) == TracesInOrder(xs) + TracesInOrder(ys)
  {
    var bxs, bys := TraceBlocks(xs), TraceBlocks(ys);
    assert TraceBlocks(xs + ys) == bxs + bys by {
      forall i | 0 <= i < |xs| + |ys| ensures TraceBlocks(xs + ys)[i] == (bxs + bys)[i] {
        if i < |xs| {
          assert (xs + ys)[i] == xs[i];
        } else {
          assert (xs + ys)[i] == ys[i - |xs|];
        }
      }
    }
    FlattenAppend(bxs, bys);
  }

  lemma TracesInOrderSingle(n: Node)
    ensures TracesInOrder([n]) == Trace(n)
  {
    TracesInOrderCons(n, []);
    assert [n] + [] == [n];
  }

  /** The traces of Parameter's visited sub-nodes, split at the variable. */
  lemma ParameterVisitedTraces(attrGroups: seq<Node>, variable: Node, defaultValue: Option<Node>)
    ensures TracesInOrder(attrGroups + [variable] + (if defaultValue.Some? then [defaultValue.value] else [])) ==
              TracesInOrder(attrGroups) + Trace(variable)
              + (if defaultValue.Some? then Trace(defaultValue.value) else [])
  {
    var tail := if defaultValue.Some? then [defaultValue.value] else [];
    assert TracesInOrder(tail) == (if defaultValue.Some? then Trace(defaultValue.value) else []) by {
      if defaultValue.Some? {
        TracesInOrderSingle(defaultValue.value);
      }
    }
    TracesInOrderAppend(attrGroups + [variable], tail);
    TracesInOrderAppend(attrGroups, [variable]);
    TracesInOrderSingle(variable);
  }

  /** Parameter's trace with its visited sub-nodes gathered into one sequence. */
  lemma ParameterVisitsInOrder(attrGroups: seq<Node>, variable: Node, defaultValue: Option<Node>)
    ensures Trace(Parameter(attrGroups, variable, defaultValue)) ==
              ["Parameter"]
              + TracesInOrder(attrGroups + [variable] + (if defaultValue.Some? then [defaultValue.value] else []))
              + ["end of Parameter\n\t"]
  {
    ParameterVisitedTraces(attrGroups, variable, defaultValue);
    ParameterTrace(attrGroups, variable, defaultValue);
  }

  /** A non-nil function's trace with its name and non-nil parameters gathered into one sequence. */
  lemma FunctionVisitsInOrder(f: FunctionDecl)
    ensures Trace(StmtFunction(Some(f))) == ["StmtFunction"] + TracesInOrder([f.name] + Somes(f.params))
  {
    FunctionTrace(Some(f));
    TracesInOrderCons(f.name, Somes(f.params));
  }

  /**
    Every handler prints its opening lines, then the traces of the sub-nodes
    it visits, in field order, then its closing line.
   */
  lemma {:induction false} TraceInFieldOrder(n: Node)
    ensures Trace(n) == Opening(n) + TracesInOrder(Visited(n)) + Closing(n)
  {
    var empty: seq<Node> := [];
    assert TracesInOrder(empty) == [];
    match n
    case Root(stmts) =>
      RootTrace(stmts);
    case Parameter(attrGroups, variable, defaultValue) =>
      ParameterVisitsInOrder(attrGroups, variable, defaultValue);
    case StmtEcho(exprs) =>
      EchoTrace(exprs);
    case StmtExpression(expr) =>
      TracesInOrderSingle(expr);
    case StmtFunction(decl) =>
      if decl.Some? {
        FunctionVisitsInOrder(decl.value);
      }
    case ExprVariable(name) =>
      TracesInOrderSingle(name);
    case _ =>
  }

  /** Every handler prints at least one line, and the first names its own kind (tab-indented for Identifier). */
  lemma {:induction false} TraceOpensWithHandlerName(n: Node)
    ensures |Trace(n)| > 0
    ensures Trace(n)[0] == (if n.Identifier? then "\t" else "") + HandlerName(n)
  {
  }
}
