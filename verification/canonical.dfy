/**
  The `AstReader` visitor of main.go: the canonicaliser that turns a php-parser
  tree into a tree of readers, each a label, an ordered list of child readers
  and a string-keyed attribute map.

  In Go every handler fills in the `*AstReader` it is given. Here a handler is
  `Visit(n, a)`, which returns the reader `a` as the handler leaves it. A
  handler that visits a sub-node "into the same reader" (Parameter,
  ExprVariable, the name of a StmtFunction) threads `a` through; one that
  creates a fresh reader (Root for each statement, StmtFunction for each
  parameter) visits into `Empty`.
 */
module Canonical {
  import opened Optional
  import opened PhpAst
  import GoQuote

  /** An attribute value: the quoted identifier text, or the readers of a function's parameters. */
  datatype Attr = Text(text: string) | Readers(readers: seq<Reader>)

  /** `labelText` is the Go field `label`, a keyword in Dafny. */
  datatype Reader = Reader(labelText: string, children: seq<Reader>, attributes: map<string, Attr>)

  /**
    A reader with empty label, no children and no attributes: both Go's zero
    value `AstReader{}` and the freshly made child and parameter readers.
   */
  const Empty: Reader := Reader("", [], map[])

  const NameKey: string := "name"
  const ParametersKey: string := "parameters"

  /** `count` zero-valued readers, as `make([]AstReader, count)` creates them. */
  function ZeroReaders(count: nat): seq<Reader>
  {
    seq(count, _ => Empty)
  }

  /** What the Identifier handler does to its reader. */
  function WithName(a: Reader, value: string): Reader
  {
    a.(attributes := a.attributes[NameKey := Text(GoQuote.Quote(value))])
  }

  /** Visits `n` into the reader `a`. */
  function Visit(n: Node, a: Reader): Reader
    decreases n
  {
    match n
    case Root(stmts) =>
      // the reader's previous contents are discarded; the pre-sized zero
      // readers stay in front of the appended ones
      Reader("Root", ZeroReaders(|stmts|) + VisitStmts(stmts), map[])
    case Parameter(_, variable, defaultValue) =>
      var withVar := Visit(variable, a);
      if defaultValue.Some? then Visit(defaultValue.value, withVar) else withVar
    case Identifier(value) =>
      WithName(a, value)
    case StmtFunction(decl) =>
      if decl.None? then a
      else
        var f := decl.value;
        var named := Visit(f.name, a.(labelText := f.functionTkn.idName));
        named.(attributes := named.attributes[ParametersKey := Readers(VisitParams(f.params))])
    case ExprVariable(name) =>
      Visit(name, a)
    case _ =>
      a
  }

  /** Visits a present statement or parameter into a fresh reader. */
  function VisitFresh(o: Option<Node>): Reader
    requires o.Some?
    decreases o
  {
    Visit(o.value, Empty)
  }

  /** Root's loop: one reader per statement, stopping at the first nil statement. */
  function VisitStmts(stmts: seq<Option<Node>>): seq<Reader>
    decreases stmts
  {
    if |stmts| == 0 || stmts[0].None? then [] else [VisitFresh(stmts[0])] + VisitStmts(stmts[1..])
  }

  /** StmtFunction's loop: one reader per non-nil parameter. */
  function VisitParams(params: seq<Option<Node>>): seq<Reader>
    decreases params
  {
    if |params| == 0 then []
    else if params[0].None? then VisitParams(params[1..])
    else [VisitFresh(params[0])] + VisitParams(params[1..])
  }

  lemma {:induction false} VisitStmtsVisitsPrefix(stmts: seq<Option<Node>>)
    ensures |VisitStmts(stmts)| == FirstNone(stmts)
    ensures forall i :: 0 <= i < FirstNone(stmts) ==> VisitStmts(stmts)[i] == Visit(UntilNone(stmts)[i], Empty)
  {
    if |stmts| == 0 || stmts[0].None? {
    } else {
      VisitStmtsVisitsPrefix(stmts[1..]);
      var rest := VisitStmts(stmts[1..]);
      assert VisitStmts(stmts) == [Visit(stmts[0].value, Empty)] + rest;
      assert UntilNone(stmts) == [stmts[0].value] + UntilNone(stmts[1..]);
    }
  }

  lemma {:induction false} VisitParamsVisitsSomes(params: seq<Option<Node>>)
    ensures |VisitParams(params)| == |Somes(params)|
    ensures forall i :: 0 <= i < |Somes(params)| ==> VisitParams(params)[i] == Visit(Somes(params)[i], Empty)
  {
    if |params| == 0 {
    } else if params[0].None? {
      VisitParamsVisitsSomes(params[1..]);
    } else {
      VisitParamsVisitsSomes(params[1..]);
      assert VisitParams(params) == [Visit(params[0].value, Empty)] + VisitParams(params[1..]);
      assert Somes(params) == [params[0].value] + Somes(params[1..]);
    }
  }

  /**
    Root labels its reader "Root", replaces its attributes by an empty map, and
    leaves as children `|stmts|` zero readers followed by one reader per
    statement before the first nil one, in source order, each the result of
    visiting that statement into a fresh empty reader.
   */
  lemma RootChildren(stmts: seq<Option<Node>>, a: Reader)
    ensures Visit(Root(stmts), a).labelText == "Root"
    ensures Visit(Root(stmts), a).attributes == map[]
    ensures |Visit(Root(stmts), a).children| == |stmts| + FirstNone(stmts)
    ensures forall i :: 0 <= i < |stmts| ==> Visit(Root(stmts), a).children[i] == Empty
    ensures forall i :: 0 <= i < FirstNone(stmts) ==>
              Visit(Root(stmts), a).children[|stmts| + i] == Visit(UntilNone(stmts)[i], Empty)
  {
    VisitStmtsVisitsPrefix(stmts);
  }

  /** A root without statements has no children. */
  lemma EmptyRoot(a: Reader)
    ensures Visit(Root([]), a) == Reader("Root", [], map[])
  {
  }

  /**
    The statements after a nil one are never visited: whatever follows it,
    the readers appended after the zero readers are the same.
   */
  lemma {:induction false} StmtsAfterNilIgnored(before: seq<Option<Node>>, after: seq<Option<Node>>, a: Reader)
    ensures Visit(Root(before + [None] + after), a).children[|before| + 1 + |after|..] ==
            Visit(Root(before + [None]), a).children[|before| + 1..]
  {
    var n1 := |before| + 1 + |after|;
    var n2 := |before| + 1;
    assert Visit(Root(before + [None] + after), a).children[n1..] == VisitStmts(before + [None] + after);
    assert Visit(Root(before + [None]), a).children[n2..] == VisitStmts(before + [None]);
    VisitStmtsStopsAtNil(before, after);
  }

  lemma {:induction false} VisitStmtsStopsAtNil(before: seq<Option<Node>>, after: seq<Option<Node>>)
    ensures VisitStmts(before + [None] + after) == VisitStmts(before + [None])
    decreases |before|
  {
    if |before| == 0 {
      assert (before + [None] + after)[0] == None;
      assert (before + [None])[0] == None;
    } else {
      VisitStmtsStopsAtNil(before[1..], after);
      assert (before + [None] + after)[1..] == before[1..] + [None] + after;
      assert (before + [None])[1..] == before[1..] + [None];
    }
  }

  /**
    Identifier stores the quoted identifier text under "name", so that
    unquoting it gives back the text, and changes nothing else.
   */
  lemma IdentifierSetsName(value: string, a: Reader)
    ensures Visit(Identifier(value), a).labelText == a.labelText
    ensures Visit(Identifier(value), a).children == a.children
    ensures Visit(Identifier(value), a).attributes.Keys == a.attributes.Keys + {NameKey}
    ensures Visit(Identifier(value), a).attributes[NameKey] == Text(GoQuote.Quote(value))
    ensures GoQuote.Unquote(Visit(Identifier(value), a).attributes[NameKey].text) == Some(value)
    ensures forall k :: k in a.attributes && k != NameKey ==> Visit(Identifier(value), a).attributes[k] == a.attributes[k]
  {
    GoQuote.UnquoteQuote(value);
  }

  /** A later Identifier visit into the same reader overwrites the earlier one's "name". */
  lemma IdentifierOverwrites(first: string, second: string, a: Reader)
    ensures Visit(Identifier(second), Visit(Identifier(first), a)) == Visit(Identifier(second), a)
  {
  }

  /** The handlers that do not look at the reader leave it exactly as it was. */
  lemma NoOpHandlers(n: Node, a: Reader)
    requires n.Other? || n.StmtEcho? || n.StmtExpression? || n.ScalarString? || n.NameName?
             || n == StmtFunction(None)
    ensures Visit(n, a) == a
  {
  }

  /**
    The nodes whose visit into a reader only ever reaches Identifier handlers
    of that same reader (and no-op handlers): no Root and no non-nil
    StmtFunction along the Parameter / ExprVariable chain. A parameter's
    variable and default value are of this shape, and so is a function name.
   */
  ghost predicate NamesOnly(n: Node)
  {
    match n
    case Root(_) => false
    case StmtFunction(decl) => decl.None?
    case Parameter(_, variable, defaultValue) =>
      NamesOnly(variable) && (defaultValue.Some? ==> NamesOnly(defaultValue.value))
    case ExprVariable(name) => NamesOnly(name)
    case _ => true
  }

  /** The identifier texts such a visit writes, in visiting order. */
  ghost function NamesWritten(n: Node): seq<string>
  {
    match n
    case Identifier(value) => [value]
    case Parameter(_, variable, defaultValue) =>
      NamesWritten(variable) + (if defaultValue.Some? then NamesWritten(defaultValue.value) else [])
    case ExprVariable(name) => NamesWritten(name)
    case _ => []
  }

  /** The reader after Identifier visits of `names`, in order: only the last one counts. */
  ghost function AfterNames(a: Reader, names: seq<string>): Reader
  {
    if |names| == 0 then a else WithName(a, names[|names| - 1])
  }

  lemma AfterNamesAppend(a: Reader, first: seq<string>, second: seq<string>)
    ensures AfterNames(AfterNames(a, first), second) == AfterNames(a, first + second)
  {
    if |second| == 0 {
      assert first + second == first;
    } else {
      assert (first + second)[|first + second| - 1] == second[|second| - 1];
    }
  }

  /**
    Visiting such a node leaves the reader as it was, except that "name" holds
    the quoted text of the last identifier written, if any was: label and
    children are never touched, and the attribute groups of a parameter are
    not visited at all.
   */
  lemma {:induction false} NamesOnlyVisit(n: Node, a: Reader)
    requires NamesOnly(n)
    ensures Visit(n, a) == AfterNames(a, NamesWritten(n))
    decreases n
  {
    match n
    case Parameter(_, variable, defaultValue) =>
      var withVar := Visit(variable, a);
      NamesOnlyVisit(variable, a);
      if defaultValue.Some? {
        var d := defaultValue.value;
        NamesOnlyVisit(d, withVar);
        assert Visit(n, a) == Visit(d, withVar);
        assert NamesWritten(n) == NamesWritten(variable) + NamesWritten(d);
        AfterNamesAppend(a, NamesWritten(variable), NamesWritten(d));
      } else {
        assert Visit(n, a) == withVar;
        assert NamesWritten(n) == NamesWritten(variable) + [];
        assert NamesWritten(variable) + [] == NamesWritten(variable);
      }
    case ExprVariable(name) =>
      NamesOnlyVisit(name, a);
    case _ =>
  }

  /**
    A parameter of the usual shape `$x = default` adds no child and no label:
    it visits its variable and then, only when present, its default value,
    both into the same reader.
   */
  lemma ParameterAddsNoChild(n: Node, a: Reader)
    requires n.Parameter? && NamesOnly(n)
    ensures Visit(n, a).labelText == a.labelText
    ensures Visit(n, a).children == a.children
    ensures n.defaultValue.None? ==> Visit(n, a) == Visit(n.variable, a)
    ensures n.defaultValue.Some? ==> Visit(n, a) == Visit(n.defaultValue.value, Visit(n.variable, a))
  {
    NamesOnlyVisit(n, a);
  }

  /**
    StmtFunction labels the reader with the token name of the `function`
    keyword, sets "name" through its name node, and stores under
    "parameters" one reader per non-nil parameter, in order, each visited
    into a fresh reader. Children and every other attribute are untouched.
   */
  lemma FunctionShape(f: FunctionDecl, a: Reader)
    requires NamesOnly(f.name)
    ensures Visit(StmtFunction(Some(f)), a).labelText == f.functionTkn.idName
    ensures Visit(StmtFunction(Some(f)), a).children == a.children
    ensures ParametersKey in Visit(StmtFunction(Some(f)), a).attributes
    ensures Visit(StmtFunction(Some(f)), a).attributes[ParametersKey].Readers?
    ensures |Visit(StmtFunction(Some(f)), a).attributes[ParametersKey].readers| == |Somes(f.params)|
    ensures forall i :: 0 <= i < |Somes(f.params)| ==>
              Visit(StmtFunction(Some(f)), a).attributes[ParametersKey].readers[i] == Visit(Somes(f.params)[i], Empty)
    ensures |NamesWritten(f.name)| > 0 ==>
              NameKey in Visit(StmtFunction(Some(f)), a).attributes &&
              Visit(StmtFunction(Some(f)), a).attributes[NameKey] ==
              Text(GoQuote.Quote(NamesWritten(f.name)[|NamesWritten(f.name)| - 1]))
    ensures forall k :: k != ParametersKey && (k != NameKey || |NamesWritten(f.name)| == 0) ==>
              (k in Visit(StmtFunction(Some(f)), a).attributes <==> k in a.attributes)
    ensures forall k :: k in a.attributes && k != ParametersKey && (k != NameKey || |NamesWritten(f.name)| == 0) ==>
              Visit(StmtFunction(Some(f)), a).attributes[k] == a.attributes[k]
  {
    NamesOnlyVisit(f.name, a.(labelText := f.functionTkn.idName));
    VisitParamsVisitsSomes(f.params);
  }

  /** One change a handler makes to the reader it was given. */
  datatype Write =
    | SetLabel(newLabel: string)
    | SetAttribute(key: string, value: Attr)
      // Root's: label "Root", a fresh attribute map and these children
    | Reset(newChildren: seq<Reader>)

  function Apply(a: Reader, w: Write): Reader
  {
    match w
    case SetLabel(l) => a.(labelText := l)
    case SetAttribute(k, v) => a.(attributes := a.attributes[k := v])
    case Reset(cs) => Reader("Root", cs, map[])
  }

  /** The changes `ws` made one after the other. */
  function ApplyAll(a: Reader, ws: seq<Write>): Reader
    decreases |ws|
  {
    if |ws| == 0 then a else ApplyAll(Apply(a, ws[0]), ws[1..])
  }

  /** Each of `nodes` visited into a fresh reader, position by position. */
  ghost function FreshReaders(nodes: seq<Node>): seq<Reader>
  {
    seq(|nodes|, i requires 0 <= i < |nodes| => Visit(nodes[i], Empty))
  }

  /**
    The changes a visit makes to the reader it is given, in order: Root
    replaces the whole reader; Identifier writes "name"; Parameter makes those
    of its variable and then of its present default value; a non-nil
    StmtFunction sets the label, makes those of its name, then writes
    "parameters"; ExprVariable makes those of its name; every other handler
    makes none.
   */
  ghost function Writes(n: Node): seq<Write>
    decreases n
  {
    match n
    case Root(stmts) => [Reset(ZeroReaders(|stmts|) + FreshReaders(UntilNone(stmts)))]
    case Parameter(_, variable, defaultValue) =>
      Writes(variable) + (if defaultValue.Some? then Writes(defaultValue.value) else [])
    case Identifier(value) => [SetAttribute(NameKey, Text(GoQuote.Quote(value)))]
    case StmtFunction(decl) =>
      if decl.None? then []
      else
        [SetLabel(decl.value.functionTkn.idName)] + Writes(decl.value.name)
        + [SetAttribute(ParametersKey, Readers(FreshReaders(Somes(decl.value.params))))]
    case ExprVariable(name) => Writes(name)
    case _ => []
  }

  lemma {:induction false} ApplyAllAppend(a: Reader, xs: seq<Write>, ys: seq<Write>)
    ensures ApplyAll(a, xs + ys) == ApplyAll(ApplyAll(a, xs), ys)
    decreases |xs|
  {
    if |xs| == 0 {
      assert xs + ys == ys;
    } else {
      ApplyAllAppend(Apply(a, xs[0]), xs[1..], ys);
      assert (xs + ys)[1..] == xs[1..] + ys;
    }
  }

  lemma VisitStmtsFresh(stmts: seq<Option<Node>>)
    ensures VisitStmts(stmts) == FreshReaders(UntilNone(stmts))
  {
    VisitStmtsVisitsPrefix(stmts);
  }

  lemma VisitParamsFresh(params: seq<Option<Node>>)
    ensures VisitParams(params) == FreshReaders(Somes(params))
  {
    VisitParamsVisitsSomes(params);
  }

  /** Every handler leaves the reader as the changes it makes, applied in order, leave it. */
  lemma {:induction false} VisitAsWrites(n: Node, a: Reader)
    ensures Visit(n, a) == ApplyAll(a, Writes(n))
    decreases n
  {
    match n
    case Root(stmts) =>
      VisitStmtsFresh(stmts);
    case Parameter(_, variable, defaultValue) =>
      var withVar := Visit(variable, a);
      VisitAsWrites(variable, a);
      if defaultValue.Some? {
        VisitAsWrites(defaultValue.value, withVar);
        ApplyAllAppend(a, Writes(variable), Writes(defaultValue.value));
      } else {
        assert Writes(n) == Writes(variable) + [];
        assert Writes(variable) + [] == Writes(variable);
      }
    case Identifier(_) =>
    case StmtFunction(decl) =>
      if decl.Some? {
        var f := decl.value;
        var labelled := a.(labelText := f.functionTkn.idName);
        var first: seq<Write> := [SetLabel(f.functionTkn.idName)];
        var last: seq<Write> := [SetAttribute(ParametersKey, Readers(FreshReaders(Somes(f.params))))];
        VisitAsWrites(f.name, labelled);
        VisitParamsFresh(f.params);
        assert ApplyAll(a, first) == labelled;
        ApplyAllAppend(a, first, Writes(f.name));
        ApplyAllAppend(a, first + Writes(f.name), last);
      }
    case ExprVariable(name) =>
      VisitAsWrites(name, a);
    case _ =>
  }

  lemma {:induction false} WritesKeepChildren(a: Reader, ws: seq<Write>)
    requires forall i :: 0 <= i < |ws| ==> !ws[i].Reset?
    ensures ApplyAll(a, ws).children == a.children
    decreases |ws|
  {
    if |ws| > 0 {
      WritesKeepChildren(Apply(a, ws[0]), ws[1..]);
    }
  }

  /** Root is the only handler that changes the children of the reader it is given. */
  lemma OnlyRootSetsChildren(n: Node, a: Reader)
    requires forall i :: 0 <= i < |Writes(n)| ==> !Writes(n)[i].Reset?
    ensures Visit(n, a).children == a.children
  {
    VisitAsWrites(n, a);
    WritesKeepChildren(a, Writes(n));
  }

  /**
    Root's handler written as the Go loop: pre-size the children with zero
    readers, then append one fresh reader per statement, returning early at
    the first nil statement.
   */
  method VisitRoot(stmts: seq<Option<Node>>, a: Reader) returns (r: Reader)
    ensures r.labelText == "Root" && r.attributes == map[]
    ensures |r.children| == |stmts| + FirstNone(stmts)
    ensures forall i :: 0 <= i < |stmts| ==> r.children[i] == Empty
    ensures forall i :: 0 <= i < FirstNone(stmts) ==> r.children[|stmts| + i] == Visit(UntilNone(stmts)[i], Empty)
    ensures r == Visit(Root(stmts), a)
  {
    r := Reader("Root", ZeroReaders(|stmts|), map[]);
    var i := 0;
    while i < |stmts|
      invariant i <= |stmts|
      invariant forall j :: 0 <= j < i ==> stmts[j].Some?
      invariant r.labelText == "Root" && r.attributes == map[]
      invariant |r.children| == |stmts| + i
      invariant forall j :: 0 <= j < |stmts| ==> r.children[j] == Empty
      invariant forall j :: 0 <= j < i ==> r.children[|stmts| + j] == Visit(stmts[j].value, Empty)
    {
      if stmts[i].None? {
        assert FirstNone(stmts) == i by { FirstNoneAt(stmts, i); }
        RootMatches(stmts, a, r);
        return;
      }
      var child := Visit(stmts[i].value, Empty);
      r := r.(children := r.children + [child]);
      i := i + 1;
    }
    assert FirstNone(stmts) == |stmts| by { FirstNoneAt(stmts, |stmts|); }
    RootMatches(stmts, a, r);
  }

  lemma RootMatches(stmts: seq<Option<Node>>, a: Reader, r: Reader)
    requires r.labelText == "Root" && r.attributes == map[]
    requires |r.children| == |stmts| + FirstNone(stmts)
    requires forall j :: 0 <= j < |stmts| ==> r.children[j] == Empty
    requires forall j :: 0 <= j < FirstNone(stmts) ==> r.children[|stmts| + j] == Visit(stmts[j].value, Empty)
    ensures r == Visit(Root(stmts), a)
  {
    RootChildren(stmts, a);
    var v := Visit(Root(stmts), a);
    forall j | 0 <= j < |r.children|
      ensures r.children[j] == v.children[j]
    {
      if j >= |stmts| {
        assert UntilNone(stmts)[j - |stmts|] == stmts[j - |stmts|].value;
      }
    }
  }
}
