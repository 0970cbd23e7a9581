/**
  The part of the php-parser syntax tree (package ast of VKCOM/php-parser)
  that the two visitors read.

  The nine kinds whose handlers print more than their name or do real work
  get a constructor with the fields those handlers read. Every other kind is handled by printing its
  name (explore) or by doing nothing (AstReader), so it is represented by
  `Other(kind)` over the closed enumeration `Kind`; its fields are never read.

  A Go interface value that may be nil (an element of Root.Stmts or of
  StmtFunction.Params, Parameter.DefaultValue) is an `Option<Node>`. The one
  typed-nil pointer a handler tests for, `*ast.StmtFunction`, is the `None`
  of `StmtFunction(decl)`.
 */
module PhpAst {
  import opened Optional

  /** The token of the `function` keyword; `idName` is what `ID.String()` returns for it. */
  datatype Token = Token(idName: string)

  /** The fields of a non-nil `*ast.StmtFunction` that the visitors read. */
  datatype FunctionDecl = FunctionDecl(functionTkn: Token, name: Node, params: seq<Option<Node>>)

  datatype Node =
    | Root(stmts: seq<Option<Node>>)
    | Parameter(attrGroups: seq<Node>, variable: Node, defaultValue: Option<Node>)
    | Identifier(value: string)
    | StmtEcho(exprs: seq<Node>)
    | StmtExpression(expr: Node)
    | StmtFunction(decl: Option<FunctionDecl>)
    | ExprVariable(name: Node)
    | ScalarString(value: string)
    | NameName
    | Other(kind: Kind)

  /** The kinds whose handlers never look inside the node, named after their visitor method. */
  datatype Kind =
    | Nullable
    | Argument
    | MatchArm
    | Union
    | Attribute
    | AttributeGroup
    | StmtBreak
    | StmtCase
    | StmtCatch
    | StmtEnum
    | EnumCase
    | StmtClass
    | StmtClassConstList
    | StmtClassMethod
    | StmtConstList
    | StmtConstant
    | StmtContinue
    | StmtDeclare
    | StmtDefault
    | StmtDo
    | StmtElse
    | StmtElseIf
    | StmtFinally
    | StmtFor
    | StmtForeach
    | StmtGlobal
    | StmtGoto
    | StmtHaltCompiler
    | StmtIf
    | StmtInlineHtml
    | StmtInterface
    | StmtLabel
    | StmtNamespace
    | StmtNop
    | StmtProperty
    | StmtPropertyList
    | StmtReturn
    | StmtStatic
    | StmtStaticVar
    | StmtStmtList
    | StmtSwitch
    | StmtThrow
    | StmtTrait
    | StmtTraitUse
    | StmtTraitUseAlias
    | StmtTraitUsePrecedence
    | StmtTry
    | StmtUnset
    | StmtUse
    | StmtGroupUse
    | StmtUseDeclaration
    | StmtWhile
    | ExprArray
    | ExprArrayDimFetch
    | ExprArrayItem
    | ExprArrowFunction
    | ExprBrackets
    | ExprBitwiseNot
    | ExprBooleanNot
    | ExprClassConstFetch
    | ExprClone
    | ExprClosure
    | ExprClosureUse
    | ExprConstFetch
    | ExprEmpty
    | ExprErrorSuppress
    | ExprEval
    | ExprExit
    | ExprFunctionCall
    | ExprInclude
    | ExprIncludeOnce
    | ExprInstanceOf
    | ExprIsset
    | ExprList
    | ExprMethodCall
    | ExprNullsafeMethodCall
    | ExprMatch
    | ExprNew
    | ExprPostDec
    | ExprPostInc
    | ExprPreDec
    | ExprPreInc
    | ExprPrint
    | ExprPropertyFetch
    | ExprNullsafePropertyFetch
    | ExprRequire
    | ExprRequireOnce
    | ExprShellExec
    | ExprStaticCall
    | ExprStaticPropertyFetch
    | ExprTernary
    | ExprThrow
    | ExprUnaryMinus
    | ExprUnaryPlus
    | ExprYield
    | ExprYieldFrom
    | ExprAssign
    | ExprAssignReference
    | ExprAssignBitwiseAnd
    | ExprAssignBitwiseOr
    | ExprAssignBitwiseXor
    | ExprAssignCoalesce
    | ExprAssignConcat
    | ExprAssignDiv
    | ExprAssignMinus
    | ExprAssignMod
    | ExprAssignMul
    | ExprAssignPlus
    | ExprAssignPow
    | ExprAssignShiftLeft
    | ExprAssignShiftRight
    | ExprBinaryBitwiseAnd
    | ExprBinaryBitwiseOr
    | ExprBinaryBitwiseXor
    | ExprBinaryBooleanAnd
    | ExprBinaryBooleanOr
    | ExprBinaryCoalesce
    | ExprBinaryConcat
    | ExprBinaryDiv
    | ExprBinaryEqual
    | ExprBinaryGreater
    | ExprBinaryGreaterOrEqual
    | ExprBinaryIdentical
    | ExprBinaryLogicalAnd
    | ExprBinaryLogicalOr
    | ExprBinaryLogicalXor
    | ExprBinaryMinus
    | ExprBinaryMod
    | ExprBinaryMul
    | ExprBinaryNotEqual
    | ExprBinaryNotIdentical
    | ExprBinaryPlus
    | ExprBinaryPow
    | ExprBinaryShiftLeft
    | ExprBinaryShiftRight
    | ExprBinarySmaller
    | ExprBinarySmallerOrEqual
    | ExprBinarySpaceship
    | ExprCastArray
    | ExprCastBool
    | ExprCastDouble
    | ExprCastInt
    | ExprCastObject
    | ExprCastString
    | ExprCastUnset
    | ScalarDnumber
    | ScalarEncapsed
    | ScalarEncapsedStringPart
    | ScalarEncapsedStringVar
    | ScalarEncapsedStringBrackets
    | ScalarHeredoc
    | ScalarLnumber
    | ScalarMagicConstant
    | NameFullyQualified
    | NameRelative
    | NameNamePart

  /** The name of the visitor method that handles `k`; explore prints exactly this. */
  function KindName(k: Kind): string
  {
    match k
    case Nullable => "Nullable"
    case Argument => "Argument"
    case MatchArm => "MatchArm"
    case Union => "Union"
    case Attribute => "Attribute"
    case AttributeGroup => "AttributeGroup"
    case StmtBreak => "StmtBreak"
    case StmtCase => "StmtCase"
    case StmtCatch => "StmtCatch"
    case StmtEnum => "StmtEnum"
    case EnumCase => "EnumCase"
    case StmtClass => "StmtClass"
    case StmtClassConstList => "StmtClassConstList"
    case StmtClassMethod => "StmtClassMethod"
    case StmtConstList => "StmtConstList"
    case StmtConstant => "StmtConstant"
    case StmtContinue => "StmtContinue"
    case StmtDeclare => "StmtDeclare"
    case StmtDefault => "StmtDefault"
    case StmtDo => "StmtDo"
    case StmtElse => "StmtElse"
    case StmtElseIf => "StmtElseIf"
    case StmtFinally => "StmtFinally"
    case StmtFor => "StmtFor"
    case StmtForeach => "StmtForeach"
    case StmtGlobal => "StmtGlobal"
    case StmtGoto => "StmtGoto"
    case StmtHaltCompiler => "StmtHaltCompiler"
    case StmtIf => "StmtIf"
    case StmtInlineHtml => "StmtInlineHtml"
    case StmtInterface => "StmtInterface"
    case StmtLabel => "StmtLabel"
    case StmtNamespace => "StmtNamespace"
    case StmtNop => "StmtNop"
    case StmtProperty => "StmtProperty"
    case StmtPropertyList => "StmtPropertyList"
    case StmtReturn => "StmtReturn"
    case StmtStatic => "StmtStatic"
    case StmtStaticVar => "StmtStaticVar"
    case StmtStmtList => "StmtStmtList"
    case StmtSwitch => "StmtSwitch"
    case StmtThrow => "StmtThrow"
    case StmtTrait => "StmtTrait"
    case StmtTraitUse => "StmtTraitUse"
    case StmtTraitUseAlias => "StmtTraitUseAlias"
    case StmtTraitUsePrecedence => "StmtTraitUsePrecedence"
    case StmtTry => "StmtTry"
    case StmtUnset => "StmtUnset"
    case StmtUse => "StmtUse"
    case StmtGroupUse => "StmtGroupUse"
    case StmtUseDeclaration => "StmtUseDeclaration"
    case StmtWhile => "StmtWhile"
    case ExprArray => "ExprArray"
    case ExprArrayDimFetch => "ExprArrayDimFetch"
    case ExprArrayItem => "ExprArrayItem"
    case ExprArrowFunction => "ExprArrowFunction"
    case ExprBrackets => "ExprBrackets"
    case ExprBitwiseNot => "ExprBitwiseNot"
    case ExprBooleanNot => "ExprBooleanNot"
    case ExprClassConstFetch => "ExprClassConstFetch"
    case ExprClone => "ExprClone"
    case ExprClosure => "ExprClosure"
    case ExprClosureUse => "ExprClosureUse"
    case ExprConstFetch => "ExprConstFetch"
    case ExprEmpty => "ExprEmpty"
    case ExprErrorSuppress => "ExprErrorSuppress"
    case ExprEval => "ExprEval"
    case ExprExit => "ExprExit"
    case ExprFunctionCall => "ExprFunctionCall"
    case ExprInclude => "ExprInclude"
    case ExprIncludeOnce => "ExprIncludeOnce"
    case ExprInstanceOf => "ExprInstanceOf"
    case ExprIsset => "ExprIsset"
    case ExprList => "ExprList"
    case ExprMethodCall => "ExprMethodCall"
    case ExprNullsafeMethodCall => "ExprNullsafeMethodCall"
    case ExprMatch => "ExprMatch"
    case ExprNew => "ExprNew"
    case ExprPostDec => "ExprPostDec"
    case ExprPostInc => "ExprPostInc"
    case ExprPreDec => "ExprPreDec"
    case ExprPreInc => "ExprPreInc"
    case ExprPrint => "ExprPrint"
    case ExprPropertyFetch => "ExprPropertyFetch"
    case ExprNullsafePropertyFetch => "ExprNullsafePropertyFetch"
    case ExprRequire => "ExprRequire"
    case ExprRequireOnce => "ExprRequireOnce"
    case ExprShellExec => "ExprShellExec"
    case ExprStaticCall => "ExprStaticCall"
    case ExprStaticPropertyFetch => "ExprStaticPropertyFetch"
    case ExprTernary => "ExprTernary"
    case ExprThrow => "ExprThrow"
    case ExprUnaryMinus => "ExprUnaryMinus"
    case ExprUnaryPlus => "ExprUnaryPlus"
    case ExprYield => "ExprYield"
    case ExprYieldFrom => "ExprYieldFrom"
    case ExprAssign => "ExprAssign"
    case ExprAssignReference => "ExprAssignReference"
    case ExprAssignBitwiseAnd => "ExprAssignBitwiseAnd"
    case ExprAssignBitwiseOr => "ExprAssignBitwiseOr"
    case ExprAssignBitwiseXor => "ExprAssignBitwiseXor"
    case ExprAssignCoalesce => "ExprAssignCoalesce"
    case ExprAssignConcat => "ExprAssignConcat"
    case ExprAssignDiv => "ExprAssignDiv"
    case ExprAssignMinus => "ExprAssignMinus"
    case ExprAssignMod => "ExprAssignMod"
    case ExprAssignMul => "ExprAssignMul"
    case ExprAssignPlus => "ExprAssignPlus"
    case ExprAssignPow => "ExprAssignPow"
    case ExprAssignShiftLeft => "ExprAssignShiftLeft"
    case ExprAssignShiftRight => "ExprAssignShiftRight"
    case ExprBinaryBitwiseAnd => "ExprBinaryBitwiseAnd"
    case ExprBinaryBitwiseOr => "ExprBinaryBitwiseOr"
    case ExprBinaryBitwiseXor => "ExprBinaryBitwiseXor"
    case ExprBinaryBooleanAnd => "ExprBinaryBooleanAnd"
    case ExprBinaryBooleanOr => "ExprBinaryBooleanOr"
    case ExprBinaryCoalesce => "ExprBinaryCoalesce"
    case ExprBinaryConcat => "ExprBinaryConcat"
    case ExprBinaryDiv => "ExprBinaryDiv"
    case ExprBinaryEqual => "ExprBinaryEqual"
    case ExprBinaryGreater => "ExprBinaryGreater"
    case ExprBinaryGreaterOrEqual => "ExprBinaryGreaterOrEqual"
    case ExprBinaryIdentical => "ExprBinaryIdentical"
    case ExprBinaryLogicalAnd => "ExprBinaryLogicalAnd"
    case ExprBinaryLogicalOr => "ExprBinaryLogicalOr"
    case ExprBinaryLogicalXor => "ExprBinaryLogicalXor"
    case ExprBinaryMinus => "ExprBinaryMinus"
    case ExprBinaryMod => "ExprBinaryMod"
    case ExprBinaryMul => "ExprBinaryMul"
    case ExprBinaryNotEqual => "ExprBinaryNotEqual"
    case ExprBinaryNotIdentical => "ExprBinaryNotIdentical"
    case ExprBinaryPlus => "ExprBinaryPlus"
    case ExprBinaryPow => "ExprBinaryPow"
    case ExprBinaryShiftLeft => "ExprBinaryShiftLeft"
    case ExprBinaryShiftRight => "ExprBinaryShiftRight"
    case ExprBinarySmaller => "ExprBinarySmaller"
    case ExprBinarySmallerOrEqual => "ExprBinarySmallerOrEqual"
    case ExprBinarySpaceship => "ExprBinarySpaceship"
    case ExprCastArray => "ExprCastArray"
    case ExprCastBool => "ExprCastBool"
    case ExprCastDouble => "ExprCastDouble"
    case ExprCastInt => "ExprCastInt"
    case ExprCastObject => "ExprCastObject"
    case ExprCastString => "ExprCastString"
    case ExprCastUnset => "ExprCastUnset"
    case ScalarDnumber => "ScalarDnumber"
    case ScalarEncapsed => "ScalarEncapsed"
    case ScalarEncapsedStringPart => "ScalarEncapsedStringPart"
    case ScalarEncapsedStringVar => "ScalarEncapsedStringVar"
    case ScalarEncapsedStringBrackets => "ScalarEncapsedStringBrackets"
    case ScalarHeredoc => "ScalarHeredoc"
    case ScalarLnumber => "ScalarLnumber"
    case ScalarMagicConstant => "ScalarMagicConstant"
    case NameFullyQualified => "NameFullyQualified"
    case NameRelative => "NameRelative"
    case NameNamePart => "NameNamePart"
  }

  /** The name of the visitor method that handles `n`. */
  function HandlerName(n: Node): string
  {
    match n
    case Root(_) => "Root"
    case Parameter(_, _, _) => "Parameter"
    case Identifier(_) => "Identifier"
    case StmtEcho(_) => "StmtEcho"
    case StmtExpression(_) => "StmtExpression"
    case StmtFunction(_) => "StmtFunction"
    case ExprVariable(_) => "ExprVariable"
    case ScalarString(_) => "ScalarString"
    case NameName => "NameName"
    case Other(k) => KindName(k)
  }
}
