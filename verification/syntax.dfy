/** The abstract syntax of Slick programs as handed over by the front-end:
    the statement list that `Runner.run` produces at the PARSE level.
    The converter only reads it. */
module Syntax {

  import opened Results

  /** A runtime value carried by a literal; its text form is produced by the
      front-end's formatter, which is a parameter of the converter. */
  type Value

  /** A type annotation carried by a subtype of a custom type; its text form
      is likewise produced by a formatter parameter. */
  type SlickType

  /** A lexical token; only its source text is ever displayed. */
  datatype Token = Token(lexeme: string)

  /** One `key : value` entry of a record literal, in entry order. */
  datatype Field = Field(key: string, value: Expr)

  /** What a `case` branch matches on: a subtype tag or a value. */
  datatype Pattern =
    | SubtypePattern(tag: Token)
    | ValuePattern(value: Expr)

  /** One `pattern params -> result` branch of a `case` expression. */
  datatype CaseBranch = CaseBranch(pattern: Pattern, parameters: seq<Token>, result: Expr)

  /** The closed set of expression variants of the language. */
  datatype Expr =
    | If(condition: Expr, thenBranch: Expr, elseBranch: Expr)
    | Binary(left: Expr, operator: Token, right: Expr)
    | Grouping(expression: Expr)
    | Literal(value: Value)
    | Variable(name: Token)
    | Call(callee: Expr, arguments: seq<Expr>)
    | ListLiteral(elements: seq<Expr>)
    | RecordLiteral(target: Option<Expr>, fields: seq<Field>)
    | Function(parameters: seq<Token>, body: Expr)
    | Get(record: Expr, property: Token)
    | Case(subject: Expr, branches: seq<CaseBranch>)

  /** One `Name Type` line of a custom type declaration; the type is absent
      for a subtype that carries no payload. */
  datatype Subtype = Subtype(key: string, payload: Option<SlickType>)

  /** The closed set of statement variants of the language. */
  datatype Stmt =
    | VarDeclaration(name: Token, initializer: Expr)
    | CustomTypeDeclaration(name: Token, subtypes: seq<Subtype>)

  /** True when a variant without a display rule (Function, Get or Case)
      occurs anywhere in `e` that the converter visits. Below an unimplemented variant nothing is visited,
      so its own sub-expressions do not matter. */
  predicate ContainsUnimplemented(e: Expr)
    decreases e
  {
    match e
    case If(c, t, f) =>
      ContainsUnimplemented(c) || ContainsUnimplemented(t) || ContainsUnimplemented(f)
    case Binary(l, _, r) => ContainsUnimplemented(l) || ContainsUnimplemented(r)
    case Grouping(inner) => ContainsUnimplemented(inner)
    case Literal(_) => false
    case Variable(_) => false
    case Call(callee, args) =>
      ContainsUnimplemented(callee) || AnyUnimplemented(args)
    case ListLiteral(elements) => AnyUnimplemented(elements)
    case RecordLiteral(target, fields) =>
      (target.Some? && ContainsUnimplemented(target.value)) || AnyFieldUnimplemented(fields)
    case Function(_, _) => true
    case Get(_, _) => true
    case Case(_, _) => true
  }

  predicate AnyUnimplemented(es: seq<Expr>)
    decreases es
  {
    exists i :: 0 <= i < |es| && ContainsUnimplemented(es[i])
  }

  predicate AnyFieldUnimplemented(fs: seq<Field>)
    decreases fs
  {
    exists i :: 0 <= i < |fs| && ContainsUnimplemented(fs[i].value)
  }

  /** A statement that the converter cannot display. */
  predicate StmtContainsUnimplemented(s: Stmt) {
    s.VarDeclaration? && ContainsUnimplemented(s.initializer)
  }

  function Max(a: nat, b: nat): nat {
    if a < b then b else a
  }

  /** The depth of an expression tree: a leaf expression has depth 1. */
  function Depth(e: Expr): (d: nat)
    decreases e
    ensures d >= 1
  {
    match e
    case If(c, t, f) => 1 + Max(Depth(c), Max(Depth(t), Depth(f)))
    case Binary(l, _, r) => 1 + Max(Depth(l), Depth(r))
    case Grouping(inner) => 1 + Depth(inner)
    case Literal(_) => 1
    case Variable(_) => 1
    case Call(callee, args) => 1 + Max(Depth(callee), MaxDepth(args))
    case ListLiteral(elements) => 1 + MaxDepth(elements)
    case RecordLiteral(target, fields) =>
      1 + Max(if target.Some? then Depth(target.value) else 0, MaxFieldDepth(fields))
    case Function(_, body) => 1 + Depth(body)
    case Get(record, _) => 1 + Depth(record)
    case Case(subject, branches) => 1 + Max(Depth(subject), MaxBranchDepth(branches))
  }

  /** The greatest depth among `es`, 0 for none. */
  function MaxDepth(es: seq<Expr>): nat
    decreases es
  {
    if es == [] then 0 else Max(Depth(es[0]), MaxDepth(es[1..]))
  }

  function MaxFieldDepth(fs: seq<Field>): nat
    decreases fs
  {
    if fs == [] then 0
    else
      assert fs[0] in fs;
      Max(Depth(fs[0].value), MaxFieldDepth(fs[1..]))
  }

  function MaxBranchDepth(bs: seq<CaseBranch>): nat
    decreases bs
  {
    if bs == [] then 0
    else
      assert bs[0] in bs;
      var b := bs[0];
      var patternDepth := match b.pattern
        case SubtypePattern(_) => 0
        case ValuePattern(v) => Depth(v);
      Max(Max(patternDepth, Depth(b.result)), MaxBranchDepth(bs[1..]))
  }

  /** The depth of a statement: the statement itself above its initializer. */
  function StmtDepth(s: Stmt): (d: nat)
    ensures d >= 1
  {
    match s
    case VarDeclaration(_, init) => 1 + Depth(init)
    case CustomTypeDeclaration(_, _) => 1
  }

  lemma {:induction false} MaxDepthBound(es: seq<Expr>, i: int)
    requires 0 <= i < |es|
    ensures Depth(es[i]) <= MaxDepth(es)
    decreases es
  {
    if i > 0 {
      MaxDepthBound(es[1..], i - 1);
    }
  }

  lemma {:induction false} MaxFieldDepthBound(fs: seq<Field>, i: int)
    requires 0 <= i < |fs|
    ensures Depth(fs[i].value) <= MaxFieldDepth(fs)
    decreases fs
  {
    if i > 0 {
      MaxFieldDepthBound(fs[1..], i - 1);
    }
  }
}
