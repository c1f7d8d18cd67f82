/** Properties of the whole conversion: what the leaves of a display tree
    spell, how tall it can get, and that it never carries attributes. */
module TreeProperties {

  import opened Results
  import opened Syntax
  import opened DisplayTree
  import opened ParseTree

  /** The atoms of an expression, in source order: operand tokens, operator
      lexemes, literal texts and the parentheses of a grouping. Keywords,
      call syntax and record keys are not atoms. An empty list or record has
      no atoms of its own and stands for itself by its category label. */
  function Atoms(fmt: Formatter, e: Expr): seq<string>
    requires !ContainsUnimplemented(e)
    decreases e
  {
    match e
    case If(c, t, f) => Atoms(fmt, c) + Atoms(fmt, t) + Atoms(fmt, f)
    case Binary(l, op, r) => Atoms(fmt, l) + [op.lexeme] + Atoms(fmt, r)
    case Grouping(inner) => ["("] + Atoms(fmt, inner) + [")"]
    case Literal(v) => [fmt.valueText(v)]
    case Variable(name) => [name.lexeme]
    case Call(callee, args) => Atoms(fmt, callee) + AtomsOf(fmt, args)
    case ListLiteral(elements) =>
      if elements == [] then ["List Literal"] else AtomsOf(fmt, elements)
    case RecordLiteral(target, fields) =>
      if target.None? && fields == [] then ["Record Literal"]
      else (if target.Some? then Atoms(fmt, target.value) else []) + FieldAtoms(fmt, fields)
    case Function(_, _) => []
    case Get(_, _) => []
    case Case(_, _) => []
  }

  function AtomsOf(fmt: Formatter, es: seq<Expr>): seq<string>
    requires !AnyUnimplemented(es)
    decreases es
  {
    if es == [] then [] else Atoms(fmt, es[0]) + AtomsOf(fmt, es[1..])
  }

  function FieldAtoms(fmt: Formatter, fs: seq<Field>): seq<string>
    requires !AnyFieldUnimplemented(fs)
    decreases fs
  {
    if fs == [] then []
    else
      assert fs[0] in fs;
      Atoms(fmt, fs[0].value) + FieldAtoms(fmt, fs[1..])
  }

  lemma FrontiersOfThree(a: Node, b: Node, c: Node)
    ensures Frontiers([a, b, c]) == Frontier(a) + Frontier(b) + Frontier(c)
  {
    assert [c][1..] == [];
    assert Frontiers([c]) == Frontier(c);
    assert [b, c][1..] == [c];
    assert Frontiers([b, c]) == Frontier(b) + Frontier(c);
    assert [a, b, c][1..] == [b, c];
  }

  lemma FrontierOfWrapper(n: Node, text: string, inner: Node)
    requires Wraps(n, text, inner)
    ensures Frontier(n) == Frontier(inner)
  {
    assert [inner][1..] == [];
    assert Frontiers([inner]) == Frontier(inner) + Frontiers([]);
  }

  /** Reading the leaves of an expression's display tree from left to right
      gives exactly its atoms: no name the converter adds ever becomes a
      leaf, and no atom is lost or reordered. */
  lemma {:induction false} FrontierIsAtoms(fmt: Formatter, e: Expr)
    requires !ContainsUnimplemented(e)
    ensures Accept(fmt, e).Success? && Frontier(Accept(fmt, e).value) == Atoms(fmt, e)
    decreases e, 2
  {
    match e
    case If(_, _, _) => FrontierOfIf(fmt, e);
    case Binary(_, _, _) => FrontierOfBinary(fmt, e);
    case Grouping(_) => FrontierOfGrouping(fmt, e);
    case Literal(_) =>
      var n := VisitLiteralExpr(fmt, e);
      FrontierOfWrapper(n, n.name, n.children[0]);
    case Variable(_) =>
      var n := VisitVariableExpr(e);
      FrontierOfWrapper(n, n.name, n.children[0]);
    case Call(_, _) => FrontierOfCall(fmt, e);
    case ListLiteral(elements) =>
      FrontiersAreAtoms(fmt, elements, VisitListLiteralExpr(fmt, e).value.children);
    case RecordLiteral(_, _) => FrontierOfRecord(fmt, e);
  }

  lemma {:induction false} FrontierOfIf(fmt: Formatter, e: Expr)
    requires e.If? && !ContainsUnimplemented(e)
    ensures VisitIfExpr(fmt, e).Success? && Frontier(VisitIfExpr(fmt, e).value) == Atoms(fmt, e)
    decreases e, 0
  {
    var n := VisitIfExpr(fmt, e).value;
    FrontierIsAtoms(fmt, e.condition);
    FrontierIsAtoms(fmt, e.thenBranch);
    FrontierIsAtoms(fmt, e.elseBranch);
    assert n.children == [n.children[0], n.children[1], n.children[2]];
    FrontiersOfThree(n.children[0], n.children[1], n.children[2]);
  }

  lemma {:induction false} FrontierOfBinary(fmt: Formatter, e: Expr)
    requires e.Binary? && !ContainsUnimplemented(e)
    ensures VisitBinaryExpr(fmt, e).Success? && Frontier(VisitBinaryExpr(fmt, e).value) == Atoms(fmt, e)
    decreases e, 0
  {
    var n := VisitBinaryExpr(fmt, e).value;
    FrontierIsAtoms(fmt, e.left);
    FrontierIsAtoms(fmt, e.right);
    assert n.children == [n.children[0], n.children[1], n.children[2]];
    FrontiersOfThree(n.children[0], n.children[1], n.children[2]);
    FrontierOfWrapper(n.children[1], "operator", n.children[1].children[0]);
  }

  lemma {:induction false} FrontierOfGrouping(fmt: Formatter, e: Expr)
    requires e.Grouping? && !ContainsUnimplemented(e)
    ensures VisitGroupingExpr(fmt, e).Success? && Frontier(VisitGroupingExpr(fmt, e).value) == Atoms(fmt, e)
    decreases e, 0
  {
    var n := VisitGroupingExpr(fmt, e).value;
    FrontierIsAtoms(fmt, e.expression);
    assert n.children == [n.children[0], n.children[1], n.children[2]];
    FrontiersOfThree(n.children[0], n.children[1], n.children[2]);
  }

  lemma {:induction false} FrontierOfCall(fmt: Formatter, e: Expr)
    requires e.Call? && !ContainsUnimplemented(e)
    ensures VisitCallExpr(fmt, e).Success? && Frontier(VisitCallExpr(fmt, e).value) == Atoms(fmt, e)
    decreases e, 0
  {
    var n := VisitCallExpr(fmt, e).value;
    FrontierIsAtoms(fmt, e.callee);
    FrontiersAreAtoms(fmt, e.arguments, n.children[1..]);
    assert n.children == [n.children[0]] + n.children[1..];
    FrontiersAppend([n.children[0]], n.children[1..]);
    assert Frontiers([n.children[0]]) == Frontier(n.children[0]) by {
      assert [n.children[0]][1..] == [];
    }
  }

  lemma {:induction false} FrontierOfRecord(fmt: Formatter, e: Expr)
    requires e.RecordLiteral? && !ContainsUnimplemented(e)
    ensures VisitRecordLiteralExpr(fmt, e).Success?
    ensures Frontier(VisitRecordLiteralExpr(fmt, e).value) == Atoms(fmt, e)
    decreases e, 1
  {
    var n := VisitRecordLiteralExpr(fmt, e).value;
    var k := TargetCount(e);
    TargetFrontier(fmt, e);
    FieldFrontiersAreAtoms(fmt, e.fields, n.children[k..]);
    assert n.children == n.children[..k] + n.children[k..];
    FrontiersAppend(n.children[..k], n.children[k..]);
  }

  /** The leaves under a record literal's target wrapper, if it has one, are
      the target's atoms. */
  lemma {:induction false} TargetFrontier(fmt: Formatter, e: Expr)
    requires e.RecordLiteral? && !ContainsUnimplemented(e)
    ensures VisitRecordLiteralExpr(fmt, e).Success?
    ensures Frontiers(VisitRecordLiteralExpr(fmt, e).value.children[..TargetCount(e)])
         == (if e.target.Some? then Atoms(fmt, e.target.value) else [])
    decreases e, 0
  {
    var n := VisitRecordLiteralExpr(fmt, e).value;
    if e.target.Some? {
      FrontierIsAtoms(fmt, e.target.value);
      FrontierOfWrapper(n.children[0], "Target Record", Accept(fmt, e.target.value).value);
      assert n.children[..1] == [n.children[0]];
      assert [n.children[0]][1..] == [];
    } else {
      assert n.children[..0] == [];
    }
  }

  lemma {:induction false} FrontiersAreAtoms(fmt: Formatter, es: seq<Expr>, ns: seq<Node>)
    requires !AnyUnimplemented(es)
    requires |ns| == |es|
    requires forall i :: 0 <= i < |es| ==> Accept(fmt, es[i]) == Success(ns[i])
    ensures Frontiers(ns) == AtomsOf(fmt, es)
    decreases es, 0
  {
    if es != [] {
      FrontierIsAtoms(fmt, es[0]);
      assert forall i :: 1 <= i < |es| ==> es[1..][i - 1] == es[i];
      FrontiersAreAtoms(fmt, es[1..], ns[1..]);
    }
  }

  /** The leaves of converted record entries are the atoms of their values:
      the key labels never become leaves. */
  lemma {:induction false} FieldFrontiersAreAtoms(fmt: Formatter, fs: seq<Field>, ns: seq<Node>)
    requires !AnyFieldUnimplemented(fs)
    requires |ns| == |fs|
    requires forall i :: 0 <= i < |fs| ==>
      Accept(fmt, fs[i].value).Success? && Wraps(ns[i], fs[i].key, Accept(fmt, fs[i].value).value)
    ensures Frontiers(ns) == FieldAtoms(fmt, fs)
    decreases fs, 0
  {
    if fs != [] {
      assert fs[0] in fs;
      FrontierIsAtoms(fmt, fs[0].value);
      FrontierOfWrapper(ns[0], fs[0].key, Accept(fmt, fs[0].value).value);
      assert forall i :: 1 <= i < |fs| ==> fs[1..][i - 1] == fs[i];
      FieldFrontiersAreAtoms(fmt, fs[1..], ns[1..]);
    }
  }

  /** The atoms of a statement: the declared name, then the initializer's
      atoms or the subtype texts. */
  function StmtAtoms(fmt: Formatter, s: Stmt): seq<string>
    requires !StmtContainsUnimplemented(s)
  {
    match s
    case VarDeclaration(name, init) => [name.lexeme] + Atoms(fmt, init)
    case CustomTypeDeclaration(name, subtypes) => [name.lexeme] + SubtypeTexts(fmt, subtypes)
  }

  /** The subtype texts of a type declaration, in declaration order: its
      atoms after the type name. `SubtypeFrontiers` ties them to the leaves
      `SubtypeLeaves` builds. */
  function SubtypeTexts(fmt: Formatter, subtypes: seq<Subtype>): seq<string> {
    if subtypes == [] then [] else [SubtypeText(fmt, subtypes[0])] + SubtypeTexts(fmt, subtypes[1..])
  }

  /** The atoms of a program, statement after statement; a program without
      statements stands for itself by the root label. */
  function ProgramAtoms(fmt: Formatter, statements: seq<Stmt>): seq<string>
    requires forall i :: 0 <= i < |statements| ==> !StmtContainsUnimplemented(statements[i])
  {
    if statements == [] then [RootName] else StmtAtomsOf(fmt, statements)
  }

  function StmtAtomsOf(fmt: Formatter, statements: seq<Stmt>): seq<string>
    requires forall i :: 0 <= i < |statements| ==> !StmtContainsUnimplemented(statements[i])
  {
    if statements == [] then []
    else StmtAtoms(fmt, statements[0]) + StmtAtomsOf(fmt, statements[1..])
  }

  lemma {:induction false} SubtypeFrontiers(fmt: Formatter, subtypes: seq<Subtype>, ns: seq<Node>)
    requires |ns| == |subtypes|
    requires forall i :: 0 <= i < |subtypes| ==> IsLeaf(ns[i], SubtypeText(fmt, subtypes[i]))
    ensures Frontiers(ns) == SubtypeTexts(fmt, subtypes)
    decreases subtypes
  {
    if subtypes != [] {
      SubtypeFrontiers(fmt, subtypes[1..], ns[1..]);
    }
  }

  /** The leaves of a statement's display tree are its atoms. */
  lemma StmtFrontierIsAtoms(fmt: Formatter, s: Stmt)
    requires !StmtContainsUnimplemented(s)
    ensures ConvertStmt(fmt, s).Success? && Frontier(ConvertStmt(fmt, s).value) == StmtAtoms(fmt, s)
  {
    var n := ConvertStmt(fmt, s).value;
    assert n.children == [n.children[0]] + n.children[1..];
    FrontiersAppend([n.children[0]], n.children[1..]);
    assert [n.children[0]][1..] == [];
    assert Frontiers([n.children[0]]) == Frontier(n.children[0]) + Frontiers([]);
    FrontierOfWrapper(n.children[0], n.children[0].name, n.children[0].children[0]);
    match s
    case VarDeclaration(name, init) =>
      FrontierIsAtoms(fmt, init);
      assert n.children[1..] == [n.children[1]];
      assert [n.children[1]][1..] == [];
      assert Frontiers([n.children[1]]) == Frontier(n.children[1]) + Frontiers([]);
    case CustomTypeDeclaration(name, subtypes) =>
      SubtypeFrontiers(fmt, subtypes, n.children[1..]);
  }

  lemma {:induction false} StmtFrontiers(fmt: Formatter, statements: seq<Stmt>, ns: seq<Node>)
    requires forall i :: 0 <= i < |statements| ==> !StmtContainsUnimplemented(statements[i])
    requires |ns| == |statements|
    requires forall i :: 0 <= i < |statements| ==> ConvertStmt(fmt, statements[i]) == Success(ns[i])
    ensures Frontiers(ns) == StmtAtomsOf(fmt, statements)
    decreases statements
  {
    if statements != [] {
      StmtFrontierIsAtoms(fmt, statements[0]);
      assert forall i :: 1 <= i < |statements| ==> statements[1..][i - 1] == statements[i];
      StmtFrontiers(fmt, statements[1..], ns[1..]);
    }
  }

  /** Reading the leaves of a program's display tree from left to right
      gives the atoms of its statements, in order. */
  lemma TraverseFrontierIsAtoms(fmt: Formatter, statements: seq<Stmt>)
    requires forall i :: 0 <= i < |statements| ==> !StmtContainsUnimplemented(statements[i])
    ensures Traverse(fmt, statements).Success?
    ensures Frontier(Traverse(fmt, statements).value) == ProgramAtoms(fmt, statements)
  {
    StmtFrontiers(fmt, statements, Traverse(fmt, statements).value.children);
  }

  lemma LeafHeight(n: Node, text: string)
    requires IsLeaf(n, text)
    ensures Height(n) == 1
  {
  }

  lemma WrapperHeight(n: Node, text: string, inner: Node)
    requires Wraps(n, text, inner)
    ensures Height(n) == 1 + Height(inner)
  {
    assert n.children[1..] == [];
    assert MaxHeight(n.children) == Height(inner);
  }

  /** A display tree is at most twice as high as the expression it shows:
      each expression level adds a category node and at most one naming
      node above the levels below it. */
  lemma {:induction false} HeightBound(fmt: Formatter, e: Expr)
    requires !ContainsUnimplemented(e)
    ensures Accept(fmt, e).Success? && Height(Accept(fmt, e).value) <= 2 * Depth(e)
    decreases e, 2
  {
    match e
    case If(_, _, _) => HeightOfIf(fmt, e);
    case Binary(_, _, _) => HeightOfBinary(fmt, e);
    case Grouping(_) => HeightOfGrouping(fmt, e);
    case Literal(v) =>
      var n := VisitLiteralExpr(fmt, e);
      LeafHeight(n.children[0], fmt.valueText(v));
      MaxHeightBound(n.children, 1);
    case Variable(name) =>
      var n := VisitVariableExpr(e);
      LeafHeight(n.children[0], name.lexeme);
      MaxHeightBound(n.children, 1);
    case Call(_, _) => HeightOfCall(fmt, e);
    case ListLiteral(_) => HeightOfList(fmt, e);
    case RecordLiteral(_, _) => HeightOfRecord(fmt, e);
  }

  lemma {:induction false} HeightOfIf(fmt: Formatter, e: Expr)
    requires e.If? && !ContainsUnimplemented(e)
    ensures VisitIfExpr(fmt, e).Success? && Height(VisitIfExpr(fmt, e).value) <= 2 * Depth(e)
    decreases e, 0
  {
    var n := VisitIfExpr(fmt, e).value;
    HeightBound(fmt, e.condition);
    HeightBound(fmt, e.thenBranch);
    HeightBound(fmt, e.elseBranch);
    MaxHeightBound(n.children, 2 * Depth(e) - 1);
  }

  lemma {:induction false} HeightOfBinary(fmt: Formatter, e: Expr)
    requires e.Binary? && !ContainsUnimplemented(e)
    ensures VisitBinaryExpr(fmt, e).Success? && Height(VisitBinaryExpr(fmt, e).value) <= 2 * Depth(e)
    decreases e, 0
  {
    var n := VisitBinaryExpr(fmt, e).value;
    HeightBound(fmt, e.left);
    HeightBound(fmt, e.right);
    LeafHeight(n.children[1].children[0], e.operator.lexeme);
    WrapperHeight(n.children[1], "operator", n.children[1].children[0]);
    MaxHeightBound(n.children, 2 * Depth(e) - 1);
  }

  lemma {:induction false} HeightOfGrouping(fmt: Formatter, e: Expr)
    requires e.Grouping? && !ContainsUnimplemented(e)
    ensures VisitGroupingExpr(fmt, e).Success? && Height(VisitGroupingExpr(fmt, e).value) <= 2 * Depth(e)
    decreases e, 0
  {
    var n := VisitGroupingExpr(fmt, e).value;
    HeightBound(fmt, e.expression);
    LeafHeight(n.children[0], "(");
    LeafHeight(n.children[2], ")");
    MaxHeightBound(n.children, 2 * Depth(e) - 1);
  }

  lemma {:induction false} HeightOfCall(fmt: Formatter, e: Expr)
    requires e.Call? && !ContainsUnimplemented(e)
    ensures VisitCallExpr(fmt, e).Success? && Height(VisitCallExpr(fmt, e).value) <= 2 * Depth(e)
    decreases e, 1
  {
    var n := VisitCallExpr(fmt, e).value;
    var bound := 2 * Depth(e) - 1;
    HeightBound(fmt, e.callee);
    forall j | 1 <= j < |n.children|
      ensures Height(n.children[j]) <= bound
    {
      HeightOfArgument(fmt, e, j - 1);
    }
    MaxHeightBound(n.children, bound);
  }

  /** The tree of a call's argument `i` sits within the call's bound. */
  lemma {:induction false} HeightOfArgument(fmt: Formatter, e: Expr, i: nat)
    requires e.Call? && !ContainsUnimplemented(e) && i < |e.arguments|
    ensures VisitCallExpr(fmt, e).Success?
    ensures Height(VisitCallExpr(fmt, e).value.children[i + 1]) <= 2 * Depth(e) - 1
    decreases e, 0
  {
    HeightBound(fmt, e.arguments[i]);
    MaxDepthBound(e.arguments, i);
  }

  lemma {:induction false} HeightOfList(fmt: Formatter, e: Expr)
    requires e.ListLiteral? && !ContainsUnimplemented(e)
    ensures VisitListLiteralExpr(fmt, e).Success? && Height(VisitListLiteralExpr(fmt, e).value) <= 2 * Depth(e)
    decreases e, 0
  {
    var n := VisitListLiteralExpr(fmt, e).value;
    var bound := 2 * Depth(e) - 1;
    forall j | 0 <= j < |n.children|
      ensures Height(n.children[j]) <= bound
    {
      HeightBound(fmt, e.elements[j]);
      MaxDepthBound(e.elements, j);
    }
    MaxHeightBound(n.children, bound);
  }

  lemma {:induction false} HeightOfRecord(fmt: Formatter, e: Expr)
    requires e.RecordLiteral? && !ContainsUnimplemented(e)
    ensures VisitRecordLiteralExpr(fmt, e).Success?
    ensures Height(VisitRecordLiteralExpr(fmt, e).value) <= 2 * Depth(e)
    decreases e, 1
  {
    var n := VisitRecordLiteralExpr(fmt, e).value;
    var k := TargetCount(e);
    if e.target.Some? {
      HeightOfTarget(fmt, e);
    }
    forall j | k <= j < |n.children|
      ensures Height(n.children[j]) <= 2 * Depth(e) - 1
    {
      HeightOfField(fmt, e, j - k);
    }
    MaxHeightBound(n.children, 2 * Depth(e) - 1);
  }

  /** A record literal's target wrapper sits within the record's bound. */
  lemma {:induction false} HeightOfTarget(fmt: Formatter, e: Expr)
    requires e.RecordLiteral? && e.target.Some? && !ContainsUnimplemented(e)
    ensures VisitRecordLiteralExpr(fmt, e).Success?
    ensures Height(VisitRecordLiteralExpr(fmt, e).value.children[0]) <= 2 * Depth(e) - 1
    decreases e, 0
  {
    HeightBound(fmt, e.target.value);
    WrapperHeight(VisitRecordLiteralExpr(fmt, e).value.children[0], "Target Record", Accept(fmt, e.target.value).value);
  }

  /** A record literal's wrapper for field `i` sits within the record's bound. */
  lemma {:induction false} HeightOfField(fmt: Formatter, e: Expr, i: nat)
    requires e.RecordLiteral? && !ContainsUnimplemented(e) && i < |e.fields|
    ensures VisitRecordLiteralExpr(fmt, e).Success?
    ensures Height(VisitRecordLiteralExpr(fmt, e).value.children[TargetCount(e) + i]) <= 2 * Depth(e) - 1
    decreases e, 0
  {
    var f := e.fields[i];
    assert f in e.fields;
    HeightBound(fmt, f.value);
    MaxFieldDepthBound(e.fields, i);
    WrapperHeight(VisitRecordLiteralExpr(fmt, e).value.children[TargetCount(e) + i], f.key, Accept(fmt, f.value).value);
  }

  /** A statement's display tree is at most one level higher than twice
      its depth. */
  lemma StmtHeightBound(fmt: Formatter, s: Stmt)
    requires !StmtContainsUnimplemented(s)
    ensures ConvertStmt(fmt, s).Success? && Height(ConvertStmt(fmt, s).value) <= 2 * StmtDepth(s) + 1
  {
    var n := ConvertStmt(fmt, s).value;
    var bound := 2 * StmtDepth(s);
    LeafHeight(n.children[0].children[0], s.name.lexeme);
    WrapperHeight(n.children[0], n.children[0].name, n.children[0].children[0]);
    match s
    case VarDeclaration(name, init) =>
      HeightBound(fmt, init);
      MaxHeightBound(n.children, bound);
    case CustomTypeDeclaration(name, subtypes) =>
      forall i | 1 <= i < |n.children|
        ensures Height(n.children[i]) <= bound
      {
        LeafHeight(n.children[(i - 1) + 1], SubtypeText(fmt, subtypes[i - 1]));
      }
      MaxHeightBound(n.children, bound);
  }

  /** When every statement is at most `d` deep, the program's display tree
      is at most 2 * d + 2 high. */
  lemma TraverseHeightBound(fmt: Formatter, statements: seq<Stmt>, d: nat)
    requires forall i :: 0 <= i < |statements| ==> !StmtContainsUnimplemented(statements[i])
    requires forall i :: 0 <= i < |statements| ==> StmtDepth(statements[i]) <= d
    ensures Traverse(fmt, statements).Success?
    ensures Height(Traverse(fmt, statements).value) <= 2 * d + 2
  {
    var n := Traverse(fmt, statements).value;
    forall i | 0 <= i < |statements|
      ensures Height(n.children[i]) <= 2 * d + 1
    {
      StmtHeightBound(fmt, statements[i]);
    }
    MaxHeightBound(n.children, 2 * d + 1);
  }

  lemma LeafIsPlain(n: Node, text: string)
    requires IsLeaf(n, text)
    ensures Plain(n)
  {
  }

  lemma WrapperIsPlain(n: Node, text: string, inner: Node)
    requires Wraps(n, text, inner)
    requires Plain(inner)
    ensures Plain(n)
  {
  }

  /** No node of an expression's display tree carries an attribute. */
  lemma {:induction false} ConversionIsPlain(fmt: Formatter, e: Expr)
    requires !ContainsUnimplemented(e)
    ensures Accept(fmt, e).Success? && Plain(Accept(fmt, e).value)
    decreases e, 2
  {
    match e
    case If(_, _, _) => PlainIf(fmt, e);
    case Binary(_, _, _) => PlainBinary(fmt, e);
    case Grouping(_) => PlainGrouping(fmt, e);
    case Literal(v) =>
      LeafIsPlain(VisitLiteralExpr(fmt, e).children[0], fmt.valueText(v));
    case Variable(name) =>
      LeafIsPlain(VisitVariableExpr(e).children[0], name.lexeme);
    case Call(_, _) => PlainCall(fmt, e);
    case ListLiteral(_) => PlainList(fmt, e);
    case RecordLiteral(_, _) => PlainRecord(fmt, e);
  }

  lemma {:induction false} PlainIf(fmt: Formatter, e: Expr)
    requires e.If? && !ContainsUnimplemented(e)
    ensures VisitIfExpr(fmt, e).Success? && Plain(VisitIfExpr(fmt, e).value)
    decreases e, 0
  {
    ConversionIsPlain(fmt, e.condition);
    ConversionIsPlain(fmt, e.thenBranch);
    ConversionIsPlain(fmt, e.elseBranch);
  }

  lemma {:induction false} PlainBinary(fmt: Formatter, e: Expr)
    requires e.Binary? && !ContainsUnimplemented(e)
    ensures VisitBinaryExpr(fmt, e).Success? && Plain(VisitBinaryExpr(fmt, e).value)
    decreases e, 0
  {
    var n := VisitBinaryExpr(fmt, e).value;
    ConversionIsPlain(fmt, e.left);
    ConversionIsPlain(fmt, e.right);
    LeafIsPlain(n.children[1].children[0], e.operator.lexeme);
    WrapperIsPlain(n.children[1], "operator", n.children[1].children[0]);
  }

  lemma {:induction false} PlainGrouping(fmt: Formatter, e: Expr)
    requires e.Grouping? && !ContainsUnimplemented(e)
    ensures VisitGroupingExpr(fmt, e).Success? && Plain(VisitGroupingExpr(fmt, e).value)
    decreases e, 0
  {
    var n := VisitGroupingExpr(fmt, e).value;
    ConversionIsPlain(fmt, e.expression);
    LeafIsPlain(n.children[0], "(");
    LeafIsPlain(n.children[2], ")");
  }

  lemma {:induction false} PlainCall(fmt: Formatter, e: Expr)
    requires e.Call? && !ContainsUnimplemented(e)
    ensures VisitCallExpr(fmt, e).Success? && Plain(VisitCallExpr(fmt, e).value)
    decreases e, 0
  {
    var n := VisitCallExpr(fmt, e).value;
    ConversionIsPlain(fmt, e.callee);
    forall j | 1 <= j < |n.children|
      ensures Plain(n.children[j])
    {
      ConversionIsPlain(fmt, e.arguments[j - 1]);
    }
  }

  lemma {:induction false} PlainList(fmt: Formatter, e: Expr)
    requires e.ListLiteral? && !ContainsUnimplemented(e)
    ensures VisitListLiteralExpr(fmt, e).Success? && Plain(VisitListLiteralExpr(fmt, e).value)
    decreases e, 0
  {
    var n := VisitListLiteralExpr(fmt, e).value;
    forall j | 0 <= j < |n.children|
      ensures Plain(n.children[j])
    {
      ConversionIsPlain(fmt, e.elements[j]);
    }
  }

  lemma {:induction false} PlainRecord(fmt: Formatter, e: Expr)
    requires e.RecordLiteral? && !ContainsUnimplemented(e)
    ensures VisitRecordLiteralExpr(fmt, e).Success? && Plain(VisitRecordLiteralExpr(fmt, e).value)
    decreases e, 1
  {
    var n := VisitRecordLiteralExpr(fmt, e).value;
    var k := TargetCount(e);
    if e.target.Some? {
      PlainTarget(fmt, e);
    }
    forall j | k <= j < |n.children|
      ensures Plain(n.children[j])
    {
      PlainField(fmt, e, j - k);
    }
  }

  /** The wrapper a record literal gives its target record is plain. */
  lemma {:induction false} PlainTarget(fmt: Formatter, e: Expr)
    requires e.RecordLiteral? && e.target.Some? && !ContainsUnimplemented(e)
    ensures VisitRecordLiteralExpr(fmt, e).Success?
    ensures Plain(VisitRecordLiteralExpr(fmt, e).value.children[0])
    decreases e, 0
  {
    ConversionIsPlain(fmt, e.target.value);
    WrapperIsPlain(VisitRecordLiteralExpr(fmt, e).value.children[0], "Target Record", Accept(fmt, e.target.value).value);
  }

  /** The wrapper a record literal gives its field `i` is plain. */
  lemma {:induction false} PlainField(fmt: Formatter, e: Expr, i: nat)
    requires e.RecordLiteral? && !ContainsUnimplemented(e) && i < |e.fields|
    ensures VisitRecordLiteralExpr(fmt, e).Success?
    ensures Plain(VisitRecordLiteralExpr(fmt, e).value.children[TargetCount(e) + i])
    decreases e, 0
  {
    var f := e.fields[i];
    assert f in e.fields;
    ConversionIsPlain(fmt, f.value);
    WrapperIsPlain(VisitRecordLiteralExpr(fmt, e).value.children[TargetCount(e) + i], f.key, Accept(fmt, f.value).value);
  }

  /** No node of a program's display tree carries an attribute. */
  lemma TraverseIsPlain(fmt: Formatter, statements: seq<Stmt>)
    requires forall i :: 0 <= i < |statements| ==> !StmtContainsUnimplemented(statements[i])
    ensures Traverse(fmt, statements).Success? && Plain(Traverse(fmt, statements).value)
  {
    var n := Traverse(fmt, statements).value;
    forall i | 0 <= i < |statements|
      ensures Plain(n.children[i])
    {
      var s := statements[i];
      var m := n.children[i];
      LeafIsPlain(m.children[0].children[0], s.name.lexeme);
      WrapperIsPlain(m.children[0], m.children[0].name, m.children[0].children[0]);
      match s
      case VarDeclaration(_, init) =>
        ConversionIsPlain(fmt, init);
      case CustomTypeDeclaration(_, subtypes) =>
        forall j | 1 <= j < |m.children|
          ensures Plain(m.children[j])
        {
          LeafIsPlain(m.children[(j - 1) + 1], SubtypeText(fmt, subtypes[j - 1]));
        }
    }
  }
}
