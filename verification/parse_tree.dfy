/** The converter from a parsed Slick program to a display tree: one rule
    per expression and statement variant, applied depth first. A conversion
    either yields a node or fails with the error the unimplemented rules
    throw; a failure anywhere below propagates unchanged, so no partial tree
    is ever produced. */
module ParseTree {

  import opened Results
  import opened Syntax
  import opened DisplayTree

  /** The front-end's text formatters: the runtime's value printer, used for
      literals, and the type printer, used for subtype payloads. */
  datatype Formatter = Formatter(valueText: Value -> string, typeText: SlickType -> string)

  /** The label of the synthetic root above the statements. */
  const RootName := "Slick Program"

  /** The message of the error thrown by the rules that are not written. */
  const NotImplemented := "Method not implemented."

  /** Converts a whole program: one child per statement, in order, under
      the synthetic root. */
  function Traverse(fmt: Formatter, statements: seq<Stmt>): (r: Result<Node, string>)
    ensures r.Failure? <==> exists i :: 0 <= i < |statements| && StmtContainsUnimplemented(statements[i])
    ensures r.Failure? ==> r.error == NotImplemented
    ensures r.Success? ==>
      && r.value.name == RootName
      && r.value.attributes == map[]
      && |r.value.children| == |statements|
      && forall i :: 0 <= i < |statements| ==> ConvertStmt(fmt, statements[i]) == Success(r.value.children[i])
  {
    var children :- ConvertStmts(fmt, statements);
    Success(Node(RootName, map[], children))
  }

  /** The statements converted one by one, in order. */
  function ConvertStmts(fmt: Formatter, statements: seq<Stmt>): (r: Result<seq<Node>, string>)
    ensures r.Failure? <==> exists i :: 0 <= i < |statements| && StmtContainsUnimplemented(statements[i])
    ensures r.Failure? ==> r.error == NotImplemented
    ensures r.Success? ==>
      && |r.value| == |statements|
      && forall i :: 0 <= i < |statements| ==> ConvertStmt(fmt, statements[i]) == Success(r.value[i])
  {
    if statements == [] then Success([])
    else
      var head :- ConvertStmt(fmt, statements[0]);
      var tail :- ConvertStmts(fmt, statements[1..]);
      assert forall i :: 1 <= i < |statements| ==> statements[i] == statements[1..][i - 1];
      Success([head] + tail)
  }

  /** Converts one statement by dispatching on its variant. */
  function ConvertStmt(fmt: Formatter, s: Stmt): (r: Result<Node, string>)
    ensures r.Failure? <==> StmtContainsUnimplemented(s)
    ensures r.Failure? ==> r.error == NotImplemented
  {
    match s
    case VarDeclaration(_, _) => VisitVarDeclarationStmt(fmt, s)
    case CustomTypeDeclaration(_, _) => Success(VisitCustomTypeDeclarationStmt(fmt, s))
  }

  /** A token shown as a leaf of its text, hung under `name` when one is given. */
  function TokenNode(t: Token, name: Option<string>): (n: Node)
    ensures name.None? ==> IsLeaf(n, t.lexeme)
    ensures name.Some? ==> IsWrappedLeaf(n, name.value, t.lexeme)
  {
    LeafNode(t.lexeme, name)
  }

  /** Converts an expression; when `name` is given the result is hung one
      level deeper, under a node labelled `name`. */
  function ConvertExpr(fmt: Formatter, e: Expr, name: Option<string>): (r: Result<Node, string>)
    decreases e, 3
    ensures r.Failure? <==> ContainsUnimplemented(e)
    ensures r.Failure? ==> r.error == NotImplemented
    ensures name.None? ==> r == Accept(fmt, e)
    ensures name.Some? && r.Success? ==>
      Accept(fmt, e).Success? && Wraps(r.value, name.value, Accept(fmt, e).value)
  {
    var node :- Accept(fmt, e);
    match name
    case None => Success(node)
    case Some(parent) => Success(Node(parent, map[], [node]))
  }

  /** Converts a list of expressions, each without a label, in order. */
  function ConvertExprs(fmt: Formatter, es: seq<Expr>): (r: Result<seq<Node>, string>)
    decreases es, 0
    ensures r.Failure? <==> AnyUnimplemented(es)
    ensures r.Failure? ==> r.error == NotImplemented
    ensures r.Success? ==>
      && |r.value| == |es|
      && forall i :: 0 <= i < |es| ==> Accept(fmt, es[i]) == Success(r.value[i])
  {
    if es == [] then Success([])
    else
      var head :- ConvertExpr(fmt, es[0], None);
      var tail :- ConvertExprs(fmt, es[1..]);
      assert forall i :: 1 <= i < |es| ==> es[i] == es[1..][i - 1];
      Success([head] + tail)
  }

  /** Converts the entries of a record literal in entry order, each hung
      under a node labelled with its key. */
  function ConvertFields(fmt: Formatter, fields: seq<Field>): (r: Result<seq<Node>, string>)
    decreases fields, 0
    ensures r.Failure? <==> AnyFieldUnimplemented(fields)
    ensures r.Failure? ==> r.error == NotImplemented
    ensures r.Success? ==>
      && |r.value| == |fields|
      && forall i :: 0 <= i < |fields| ==>
           Accept(fmt, fields[i].value).Success?
           && Wraps(r.value[i], fields[i].key, Accept(fmt, fields[i].value).value)
  {
    if fields == [] then Success([])
    else
      assert fields[0] in fields;
      var head :- ConvertExpr(fmt, fields[0].value, Some(fields[0].key));
      var tail :- ConvertFields(fmt, fields[1..]);
      assert forall i :: 1 <= i < |fields| ==> fields[i] == fields[1..][i - 1];
      Success([head] + tail)
  }

  /** Dispatches on the expression's variant. Function, Get and Case have no
      rule and fail. */
  function Accept(fmt: Formatter, e: Expr): (r: Result<Node, string>)
    decreases e, 2
    ensures r.Failure? <==> ContainsUnimplemented(e)
    ensures r.Failure? ==> r.error == NotImplemented
  {
    match e
    case If(_, _, _) => VisitIfExpr(fmt, e)
    case Binary(_, _, _) => VisitBinaryExpr(fmt, e)
    case Grouping(_) => VisitGroupingExpr(fmt, e)
    case Literal(_) => Success(VisitLiteralExpr(fmt, e))
    case Variable(_) => Success(VisitVariableExpr(e))
    case Call(_, _) => VisitCallExpr(fmt, e)
    case ListLiteral(_) => VisitListLiteralExpr(fmt, e)
    case RecordLiteral(_, _) => VisitRecordLiteralExpr(fmt, e)
    case Function(_, _) => Failure(NotImplemented)
    case Get(_, _) => Failure(NotImplemented)
    case Case(_, _) => Failure(NotImplemented)
  }

  function VisitIfExpr(fmt: Formatter, e: Expr): (r: Result<Node, string>)
    requires e.If?
    decreases e, 1
    ensures r.Failure? <==> ContainsUnimplemented(e)
    ensures r.Failure? ==> r.error == NotImplemented
    ensures r.Success? ==>
      && r.value.name == "If Expression"
      && r.value.attributes == map[]
      && |r.value.children| == 3
      && Accept(fmt, e.condition) == Success(r.value.children[0])
      && Accept(fmt, e.thenBranch) == Success(r.value.children[1])
      && Accept(fmt, e.elseBranch) == Success(r.value.children[2])
  {
    var condition :- ConvertExpr(fmt, e.condition, None);
    var thenBranch :- ConvertExpr(fmt, e.thenBranch, None);
    var elseBranch :- ConvertExpr(fmt, e.elseBranch, None);
    Success(Node("If Expression", map[], [condition, thenBranch, elseBranch]))
  }

  function VisitBinaryExpr(fmt: Formatter, e: Expr): (r: Result<Node, string>)
    requires e.Binary?
    decreases e, 1
    ensures r.Failure? <==> ContainsUnimplemented(e)
    ensures r.Failure? ==> r.error == NotImplemented
    ensures r.Success? ==>
      && r.value.name == "Binary Expression"
      && r.value.attributes == map[]
      && |r.value.children| == 3
      && Accept(fmt, e.left) == Success(r.value.children[0])
      && IsWrappedLeaf(r.value.children[1], "operator", e.operator.lexeme)
      && Accept(fmt, e.right) == Success(r.value.children[2])
  {
    var left :- ConvertExpr(fmt, e.left, None);
    var right :- ConvertExpr(fmt, e.right, None);
    Success(Node("Binary Expression", map[], [left, TokenNode(e.operator, Some("operator")), right]))
  }

  function VisitGroupingExpr(fmt: Formatter, e: Expr): (r: Result<Node, string>)
    requires e.Grouping?
    decreases e, 1
    ensures r.Failure? <==> ContainsUnimplemented(e)
    ensures r.Failure? ==> r.error == NotImplemented
    ensures r.Success? ==>
      && r.value.name == "Grouping Expression"
      && r.value.attributes == map[]
      && |r.value.children| == 3
      && IsLeaf(r.value.children[0], "(")
      && Accept(fmt, e.expression) == Success(r.value.children[1])
      && IsLeaf(r.value.children[2], ")")
  {
    var inner :- ConvertExpr(fmt, e.expression, None);
    Success(Node("Grouping Expression", map[], [LeafNode("(", None), inner, LeafNode(")", None)]))
  }

  function VisitLiteralExpr(fmt: Formatter, e: Expr): (n: Node)
    requires e.Literal?
    ensures n.name == "Literal Expression"
    ensures n.attributes == map[]
    ensures |n.children| == 1 && IsLeaf(n.children[0], fmt.valueText(e.value))
  {
    Node("Literal Expression", map[], [LeafNode(fmt.valueText(e.value), None)])
  }

  function VisitVariableExpr(e: Expr): (n: Node)
    requires e.Variable?
    ensures n.name == "Binding"
    ensures n.attributes == map[]
    ensures |n.children| == 1 && IsLeaf(n.children[0], e.name.lexeme)
  {
    Node("Binding", map[], [TokenNode(e.name, None)])
  }

  function VisitCallExpr(fmt: Formatter, e: Expr): (r: Result<Node, string>)
    requires e.Call?
    decreases e, 1
    ensures r.Failure? <==> ContainsUnimplemented(e)
    ensures r.Failure? ==> r.error == NotImplemented
    ensures r.Success? ==>
      && r.value.name == "Call Expression"
      && r.value.attributes == map[]
      && |r.value.children| == 1 + |e.arguments|
      && Accept(fmt, e.callee) == Success(r.value.children[0])
      && forall i :: 0 <= i < |e.arguments| ==> Accept(fmt, e.arguments[i]) == Success(r.value.children[i + 1])
  {
    var callee :- ConvertExpr(fmt, e.callee, None);
    var arguments :- ConvertExprs(fmt, e.arguments);
    Success(Node("Call Expression", map[], [callee] + arguments))
  }

  function VisitListLiteralExpr(fmt: Formatter, e: Expr): (r: Result<Node, string>)
    requires e.ListLiteral?
    decreases e, 1
    ensures r.Failure? <==> ContainsUnimplemented(e)
    ensures r.Failure? ==> r.error == NotImplemented
    ensures r.Success? ==>
      && r.value.name == "List Literal"
      && r.value.attributes == map[]
      && |r.value.children| == |e.elements|
      && forall i :: 0 <= i < |e.elements| ==> Accept(fmt, e.elements[i]) == Success(r.value.children[i])
  {
    var elements :- ConvertExprs(fmt, e.elements);
    Success(Node("List Literal", map[], elements))
  }

  /** The number of children a record literal's node has before its fields. */
  function TargetCount(e: Expr): nat
    requires e.RecordLiteral?
  {
    if e.target.Some? then 1 else 0
  }

  function VisitRecordLiteralExpr(fmt: Formatter, e: Expr): (r: Result<Node, string>)
    requires e.RecordLiteral?
    decreases e, 1
    ensures r.Failure? <==> ContainsUnimplemented(e)
    ensures r.Failure? ==> r.error == NotImplemented
    ensures r.Success? ==>
      && r.value.name == "Record Literal"
      && r.value.attributes == map[]
      && |r.value.children| == TargetCount(e) + |e.fields|
      && (e.target.Some? ==>
            Accept(fmt, e.target.value).Success?
            && Wraps(r.value.children[0], "Target Record", Accept(fmt, e.target.value).value))
      && forall i :: 0 <= i < |e.fields| ==>
           Accept(fmt, e.fields[i].value).Success?
           && Wraps(r.value.children[TargetCount(e) + i], e.fields[i].key, Accept(fmt, e.fields[i].value).value)
  {
    var target :-
      match e.target
      case None => Success([])
      case Some(t) =>
        var node :- ConvertExpr(fmt, t, Some("Target Record"));
        Success([node]);
    var fields :- ConvertFields(fmt, e.fields);
    Success(Node("Record Literal", map[], target + fields))
  }

  function VisitVarDeclarationStmt(fmt: Formatter, s: Stmt): (r: Result<Node, string>)
    requires s.VarDeclaration?
    ensures r.Failure? <==> ContainsUnimplemented(s.initializer)
    ensures r.Failure? ==> r.error == NotImplemented
    ensures r.Success? ==>
      && r.value.name == "Binding Declaration"
      && r.value.attributes == map[]
      && |r.value.children| == 2
      && IsWrappedLeaf(r.value.children[0], "Binding Name", s.name.lexeme)
      && Accept(fmt, s.initializer) == Success(r.value.children[1])
  {
    var initializer :- ConvertExpr(fmt, s.initializer, None);
    Success(Node("Binding Declaration", map[], [TokenNode(s.name, Some("Binding Name")), initializer]))
  }

  /** The text shown for a subtype: its key, a space, then its payload
      type's text, or nothing when it has no payload. */
  function SubtypeText(fmt: Formatter, st: Subtype): string {
    st.key + " " + (match st.payload case None => "" case Some(t) => fmt.typeText(t))
  }

  /** One leaf per subtype, in declaration order. */
  function SubtypeLeaves(fmt: Formatter, subtypes: seq<Subtype>): (r: seq<Node>)
    ensures |r| == |subtypes|
    ensures forall i :: 0 <= i < |subtypes| ==> IsLeaf(r[i], SubtypeText(fmt, subtypes[i]))
  {
    if subtypes == [] then []
    else
      assert forall i :: 1 <= i < |subtypes| ==> subtypes[i] == subtypes[1..][i - 1];
      [LeafNode(SubtypeText(fmt, subtypes[0]), None)] + SubtypeLeaves(fmt, subtypes[1..])
  }

  function VisitCustomTypeDeclarationStmt(fmt: Formatter, s: Stmt): (n: Node)
    requires s.CustomTypeDeclaration?
    ensures n.name == "Custom Type Declaration"
    ensures n.attributes == map[]
    ensures |n.children| == 1 + |s.subtypes|
    ensures IsWrappedLeaf(n.children[0], "Custom Type Name", s.name.lexeme)
    ensures forall i :: 0 <= i < |s.subtypes| ==> IsLeaf(n.children[i + 1], SubtypeText(fmt, s.subtypes[i]))
  {
    Node("Custom Type Declaration", map[], [TokenNode(s.name, Some("Custom Type Name"))] + SubtypeLeaves(fmt, s.subtypes))
  }
}
