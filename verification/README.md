# visualize-php: the syntax-tree visitors, in Dafny

visualize-php parses a PHP file with the VKCOM php-parser and walks the
resulting syntax tree with a visitor. The repository contains two such
visitors:

- `AstReader` (main.go), the canonicaliser. Each handler fills in the reader
  it is given: a `label`, an ordered slice of child readers and a string-keyed
  `attributes` map. Root, Parameter, Identifier, StmtFunction and ExprVariable
  do real work. Every other handler leaves the reader alone.
- `exploreReader` (explore/explore.go), its debugging twin. It keeps no
  state, and its only effect is the lines it prints.

The model has five modules:

- `PhpAst` (ast.dfy) is the part of the syntax tree that the handlers read.
  - Nine kinds have their own constructor: Root, Parameter, Identifier,
    StmtEcho, StmtExpression, StmtFunction, ExprVariable, ScalarString and
    NameName.
  - The other 156 visitor kinds form the closed enumeration `Kind`, used
    through `Other(kind)`. Each `Kind` is named after the visitor method
    that handles it, since that name is what explore prints. So `StmtUse`
    is the handler of `*ast.StmtUseList`.
  - A Go interface that may be nil (statements, parameters, default values)
    is an `Option`. The typed-nil `*ast.StmtFunction` that the StmtFunction
    handler tests for is `StmtFunction(None)`.
- `Canonical` (canonical.dfy) is `AstReader`. Each handler is the pure
  function `Visit(node, reader)`, which returns the reader as the handler
  leaves it. A handler that visits a sub-node into its own reader threads
  the reader through; Parameter does this with its variable. A handler that
  makes a fresh reader visits into `Empty`; Root does this for each
  statement. `VisitRoot` is Root's loop written as in Go. `Writes(node)`
  lists the changes a handler makes to its reader, and `VisitAsWrites`
  proves that a visit is exactly those changes applied in order.
- `Explore` (explore.dfy) is `exploreReader`. `Trace(node)` is the sequence
  of lines the node's handler prints, one per `fmt.Println` call, without
  the newline. `TraceInFieldOrder` splits every trace into the handler's
  opening lines, the traces of the sub-nodes it visits and its closing line.
- `GoQuote` (quote.dfy) models Go's `strconv.Quote`, which Identifier applies
  before it stores the `name` attribute. It also has a decoder, `Unquote`,
  and proves the round trip through it.
- `Optional` (optional.dfy) holds `Option` and the two walks over nullable
  sequences. `FirstNone`/`UntilNone` give the statements that Root gets
  through before it meets a nil one. `Somes` gives the non-nil parameters.

The model keeps these behaviours of the code as written:

- Root creates `len(Stmts)` zero-valued readers and then appends one reader
  per visited statement. A root with n statements and no nil ones therefore
  ends up with 2n children.
- A nil statement makes Root return. In explore it also suppresses the
  closing line.
- In AstReader, Parameter adds no child and does not read its attribute groups (explore does visit them).
- StmtFunction's label is the token name of its `function` keyword. Its
  parameter readers are stored only under the `parameters` attribute, never
  as children.
- Explore prints "StmtFunction" even for a nil node, and never prints a
  closing line for a function.

Three further facts about the reader tree the code builds:

- Most kinds leave `label` empty. Only Root (main.go:83) and a non-nil
  StmtFunction (main.go:147) set it.
- Only Root fills in `children` (main.go:85 and 94). Echo,
  expression-statement and string nodes are not canonicalised at all by
  `AstReader`.
- A function's `parameters` attribute is its only record of the parameters
  (main.go:150-161); they never become children.

## Model

| member | source | states |
|---|---|---|
| `Canonical.VisitAsWrites` | main.go:80-317 | Every AstReader handler leaves its reader as an independent list of changes would, applied in order. Root replaces the whole reader with label "Root", an empty attribute map and its children. Identifier writes the quoted text under "name". Parameter makes the changes of its variable and then of its present default value. A non-nil StmtFunction sets the label, then makes its name's changes, then writes "parameters". ExprVariable makes its name's changes. Every other handler changes nothing. |
| `Canonical.OnlyRootSetsChildren` | main.go:80-317 | A visit that reaches no Root handler in the same reader leaves that reader's children as they were. |
| `Canonical.VisitStmtsVisitsPrefix` | main.go:86-97 | Root's loop yields exactly one reader per statement before the first nil one, and the i-th is the i-th statement visited into a fresh reader. |
| `Canonical.VisitParamsVisitsSomes` | main.go:150-160 | StmtFunction's loop yields exactly one reader per non-nil parameter, in order, each visited into a fresh reader. |
| `Canonical.RootChildren` | main.go:83-97 | Root labels the reader "Root" and empties its attributes. Its children are `len(Stmts)` empty readers, then one reader per statement before the first nil one, in source order. Each of those readers is the statement visited into a fresh empty reader. |
| `Canonical.EmptyRoot` | main.go:83-85 | A root with no statements gives a "Root" reader with no children and no attributes. |
| `Canonical.StmtsAfterNilIgnored` | main.go:86-97 | Statements after a nil statement are never visited. Whatever follows the nil, the appended readers are the same. |
| `Canonical.VisitRoot` | main.go:80-100 | Root's loop as written: pre-size the children, append fresh readers, return at the first nil statement. It gives the same children layout as `RootChildren` and the same reader as the functional handler. |
| `Canonical.IdentifierSetsName` | main.go:108-113 | Identifier stores `Quote(value)` under "name", and unquoting that attribute gives back the text. Label, children and every other attribute are unchanged. |
| `Canonical.IdentifierOverwrites` | main.go:112 | A later Identifier visit into the same reader overwrites the "name" an earlier one wrote. |
| `Canonical.NoOpHandlers` | main.go:101-317 | The `Other` kinds, which explore prints by name only, StmtEcho, StmtExpression, ScalarString, NameName and a nil StmtFunction all return the reader exactly as it was. |
| `Canonical.NamesOnlyVisit` | main.go:102-113 | A visit that only reaches Identifiers through Parameter and ExprVariable (lines 240-242) delegation leaves the reader unchanged, except that "name" holds the last identifier written. That identifier comes from the default value when it writes one, and otherwise from the variable. |
| `Canonical.ParameterAddsNoChild` | main.go:102-107 | Parameter adds no child and no label. It visits its variable and then, only when present, its default value, both into the same reader. |
| `Canonical.FunctionShape` | main.go:143-162 | A non-nil StmtFunction sets the label to the function token's name and sets "name" through its name node. Under "parameters" it stores one fresh reader per non-nil parameter, in order, so there are as many as there are non-nil parameters. Children and all other attributes are untouched. |
| `GoQuote.Quote` | main.go:110 | The quoted form is wrapped in double quotes and is at least two characters longer than the text. For ASCII text it contains only printable ASCII. Text made only of printable ASCII other than `"` and `\` is just wrapped in quotes. |
| `GoQuote.UnquoteQuote` | main.go:110 | Decoding the quoted form gives back the original identifier text. |
| `Explore.TraceInFieldOrder` | explore/explore.go:75-805 | Every explore handler prints its opening lines, then the traces of the sub-nodes it visits in field order, then its closing line. Each of the three parts comes from its own per-kind table. A label-only kind prints just its kind name and visits nothing. Identifier prints its label and its text, then its end line. ScalarString prints its raw value and NameName prints "HELLO". StmtExpression and ExprVariable visit their one sub-node. Root, Parameter, StmtEcho, StmtExpression and Identifier close with an end line, which Root skips after a nil statement. |
| `Explore.TraceRootLoopInOrder` | explore/explore.go:78-86 | Root's loop prints the traces of the statements before the first nil one, in order, and the closing line only when there is no nil statement. |
| `Explore.TraceAllInOrder` | explore/explore.go:95-99 | The loop over Parameter's attribute groups prints their traces in order; StmtEcho's loop (lines 215-217) is the same function. |
| `Explore.TraceParamsInOrder` | explore/explore.go:252-257 | StmtFunction's parameter loop prints the traces of the non-nil parameters, in order, and skips the nil ones. |
| `Explore.TraceOpensWithHandlerName` | explore/explore.go:75-805 | Every handler prints at least one line. The first line is the handler's own kind name, indented by a tab for Identifier. |
| `Explore.RootTrace` | explore/explore.go:75-88 | Root prints "Root" and an empty line. It then prints the traces of the statements before the first nil one, in order. "endof Root" follows only when no statement is nil. |
| `Explore.RootTraceStopsAtNil` | explore/explore.go:78-85 | Nothing after a nil statement influences Root's output. |
| `Explore.ParameterTrace` | explore/explore.go:93-107 | Parameter prints its label, then its attribute groups' traces, its variable's trace, its default value's trace when present, and finally its end line. |
| `Explore.EchoTrace` | explore/explore.go:213-219 | StmtEcho prints its label, each expression's trace in order, then its end line. |
| `Explore.FunctionTrace` | explore/explore.go:245-258 | StmtFunction prints its label even for a nil node. For a non-nil node it then prints its name's trace and the non-nil parameters' traces in order, with no closing line. |

## Left out

- `getSource`, `ParseFile` and `main` in both files: reading the file named
  on the command line, and the call into the external php-parser with its
  error collection. These are I/O and foreign code. The model starts from
  an already parsed tree.
- The external `Accept` double dispatch is replaced by a `match` on `Node`.
- The debug output of main.go is left out: every `fmt.Println`/`fmt.Printf`
  there, including the final `%+v` dump of the root reader. It does not
  affect reader state.
- The fields of the 156 `Other` kinds are left out, because no handler
  reads them.
- `FunctionTkn.ID.String()` is not computed. The token's stringified ID is
  the `idName` field of `Token`.
- Go distinguishes a nil map or slice from an empty one; the model does not.
  The zero readers that Root creates are `Empty`, the same as fresh readers.
  The distinction matters only for a write to a nil map, which would panic.
  Such a write is unreachable from `main`, because Root makes its map
  before anything is visited into it.
- Nil interfaces in fields that the handlers dereference without a check
  (`Parameter.Var`, `ExprVariable.Name`, `StmtFunction.Name`, echo
  expressions, `StmtExpression.Expr`, the elements of `Parameter.AttrGroups`)
  are not representable. In Go they
  would panic; the parser never produces them.
- GoQuote.Quote treats every non-ASCII character as printable. Go escapes
  non-printable non-ASCII runes as `\u`/`\U`, and invalid UTF-8 bytes as
  `\x`. The model works on Unicode characters, not bytes.
- GoQuote.Unquote accepts only the escapes `Quote` produces for ASCII, and
  also upper-case hex digits in `\xHH`. Go's octal, `\u` and `\U`
  escapes are not decoded. A `\xHH` escape decodes to the character with
  that code, where Go gives the raw byte; for the ASCII range that `Quote`
  emits them in, the two agree.
- `Canonical.NamesOnlyVisit`, `Canonical.ParameterAddsNoChild` and
  `Canonical.FunctionShape` require the node visited into the same reader
  to be free of Root and non-nil StmtFunction nodes along that path. The
  parser guarantees this: a parameter's variable is a variable, and a
  function's name is an identifier.
