/** Whole programs converted end to end: the sample programs the
    visualiser's page ships with, and small programs exercising each rule. */
module Scenarios {

  import opened Results
  import opened Syntax
  import opened DisplayTree
  import opened ParseTree

  /** A one-statement program shows as the root over that statement's node. */
  lemma SingleStatement(fmt: Formatter, s: Stmt, n: Node)
    requires ConvertStmt(fmt, s) == Success(n)
    ensures Traverse(fmt, [s]) == Success(Node("Slick Program", map[], [n]))
  {
    var r := Traverse(fmt, [s]);
    assert r.Success?;
    assert r.value.children == [n];
  }

  /** `person : { name : 'Ben'  age : 10 }` shows as a binding whose
      record has one key-labelled node per entry, in entry order. */
  lemma RecordBinding(fmt: Formatter, ben: Value, ten: Value)
    ensures Traverse(fmt, [
      VarDeclaration(Token("person"),
        RecordLiteral(None, [Field("name", Literal(ben)), Field("age", Literal(ten))]))
    ]) == Success(
      Node("Slick Program", map[], [
        Node("Binding Declaration", map[], [
          Wrap("Binding Name", Leaf("person")),
          Node("Record Literal", map[], [
            Wrap("name", Wrap("Literal Expression", Leaf(fmt.valueText(ben)))),
            Wrap("age", Wrap("Literal Expression", Leaf(fmt.valueText(ten))))
          ])
        ])
      ]))
  {
    var fields := [Field("name", Literal(ben)), Field("age", Literal(ten))];
    var nameNode := Wrap("name", Wrap("Literal Expression", Leaf(fmt.valueText(ben))));
    var ageNode := Wrap("age", Wrap("Literal Expression", Leaf(fmt.valueText(ten))));
    assert forall i :: 0 <= i < |fields| ==> !ContainsUnimplemented(fields[i].value);
    var convertedFields := ConvertFields(fmt, fields);
    assert convertedFields.Success?;
    assert convertedFields.value == [nameNode, ageNode];
    var record := RecordLiteral(None, fields);
    var recordNode := Node("Record Literal", map[], [nameNode, ageNode]);
    assert !ContainsUnimplemented(record);
    var convertedRecord := Accept(fmt, record);
    assert convertedRecord.value.children == [nameNode, ageNode];
    assert convertedRecord == Success(recordNode);
    var binding := VarDeclaration(Token("person"), record);
    assert ConvertStmt(fmt, binding) == Success(Node("Binding Declaration", map[], [Wrap("Binding Name", Leaf("person")), recordNode]));
    SingleStatement(fmt, binding, Node("Binding Declaration", map[], [Wrap("Binding Name", Leaf("person")), recordNode]));
  }

  /** `_ : foo ('hello' & name)` shows the callee first, then the grouped
      argument between its parenthesis leaves, with the operator under an
      "operator" node between the operands. */
  lemma CallOfGroupedConcatenation(fmt: Formatter, hello: Value)
    ensures Traverse(fmt, [
      VarDeclaration(Token("_"),
        Call(Variable(Token("foo")), [Grouping(Binary(Literal(hello), Token("&"), Variable(Token("name"))))]))
    ]) == Success(
      Node("Slick Program", map[], [
        Node("Binding Declaration", map[], [
          Wrap("Binding Name", Leaf("_")),
          Node("Call Expression", map[], [
            Wrap("Binding", Leaf("foo")),
            Node("Grouping Expression", map[], [
              Leaf("("),
              Node("Binary Expression", map[], [
                Wrap("Literal Expression", Leaf(fmt.valueText(hello))),
                Wrap("operator", Leaf("&")),
                Wrap("Binding", Leaf("name"))
              ]),
              Leaf(")")
            ])
          ])
        ])
      ]))
  {
    var binary := Binary(Literal(hello), Token("&"), Variable(Token("name")));
    var binaryNode := Node("Binary Expression", map[], [
      Wrap("Literal Expression", Leaf(fmt.valueText(hello))),
      Wrap("operator", Leaf("&")),
      Wrap("Binding", Leaf("name"))
    ]);
    assert Accept(fmt, binary) == Success(binaryNode);
    var grouping := Grouping(binary);
    var groupingNode := Node("Grouping Expression", map[], [Leaf("("), binaryNode, Leaf(")")]);
    assert Accept(fmt, grouping) == Success(groupingNode);
    var call := Call(Variable(Token("foo")), [grouping]);
    var callNode := Node("Call Expression", map[], [Wrap("Binding", Leaf("foo")), groupingNode]);
    assert !ContainsUnimplemented(grouping);
    assert call.arguments[0] == grouping;
    assert !AnyUnimplemented(call.arguments);
    assert !ContainsUnimplemented(call);
    var convertedCall := Accept(fmt, call);
    assert convertedCall.Success?;
    assert convertedCall.value.children == [Wrap("Binding", Leaf("foo")), groupingNode];
    assert convertedCall.value == callNode;
    var binding := VarDeclaration(Token("_"), call);
    assert ConvertStmt(fmt, binding) == Success(Node("Binding Declaration", map[], [Wrap("Binding Name", Leaf("_")), callNode]));
    SingleStatement(fmt, binding, Node("Binding Declaration", map[], [Wrap("Binding Name", Leaf("_")), callNode]));
  }

  /** `type Msg : Success Text  Fail Text` shows the type name, then one
      leaf per subtype holding its key, a space and its payload type. */
  lemma MessageType(fmt: Formatter, text: SlickType)
    ensures Traverse(fmt, [
      CustomTypeDeclaration(Token("Msg"), [Subtype("Success", Some(text)), Subtype("Fail", Some(text))])
    ]) == Success(
      Node("Slick Program", map[], [
        Node("Custom Type Declaration", map[], [
          Wrap("Custom Type Name", Leaf("Msg")),
          Leaf("Success " + fmt.typeText(text)),
          Leaf("Fail " + fmt.typeText(text))
        ])
      ]))
  {
    var subtypes := [Subtype("Success", Some(text)), Subtype("Fail", Some(text))];
    var declaration := CustomTypeDeclaration(Token("Msg"), subtypes);
    var node := Node("Custom Type Declaration", map[], [
      Wrap("Custom Type Name", Leaf("Msg")),
      Leaf("Success " + fmt.typeText(text)),
      Leaf("Fail " + fmt.typeText(text))
    ]);
    var converted := VisitCustomTypeDeclarationStmt(fmt, declaration);
    assert converted.children[0].children == [Leaf("Msg")];
    assert converted.children[0] == Wrap("Custom Type Name", Leaf("Msg"));
    assert converted.children[1] == Leaf("Success " + fmt.typeText(text));
    assert converted.children[2] == Leaf("Fail " + fmt.typeText(text));
    assert converted.children == node.children;
    SingleStatement(fmt, declaration, node);
  }

  /** A subtype without a payload keeps the space after its key. */
  lemma BareSubtype(fmt: Formatter)
    ensures Traverse(fmt, [CustomTypeDeclaration(Token("Flag"), [Subtype("On", None)])])
         == Success(Node("Slick Program", map[], [
              Node("Custom Type Declaration", map[], [Wrap("Custom Type Name", Leaf("Flag")), Leaf("On ")])
            ]))
  {
    var declaration := CustomTypeDeclaration(Token("Flag"), [Subtype("On", None)]);
    var node := Node("Custom Type Declaration", map[], [Wrap("Custom Type Name", Leaf("Flag")), Leaf("On ")]);
    var converted := VisitCustomTypeDeclarationStmt(fmt, declaration);
    assert converted.children[0].children == [Leaf("Flag")];
    assert converted.children[0] == Wrap("Custom Type Name", Leaf("Flag"));
    assert converted.children[1] == Leaf("On ");
    assert converted.children == node.children;
    SingleStatement(fmt, declaration, node);
  }

  /** The program the page displays: a custom type, a value of it and a
      `case` over that value. The `case` has no display rule, so the whole
      conversion fails and nothing is shown for the two statements before it. */
  lemma PageSampleFails(fmt: Formatter, text: SlickType, abc: Value)
    ensures Traverse(fmt, [
      CustomTypeDeclaration(Token("Msg"), [Subtype("Success", Some(text)), Subtype("Fail", Some(text))]),
      VarDeclaration(Token("msg"), Call(Variable(Token("Success")), [Literal(abc)])),
      VarDeclaration(Token("a"),
        Case(Variable(Token("msg")), [
          CaseBranch(SubtypePattern(Token("Success")), [Token("msg")], Variable(Token("msg"))),
          CaseBranch(SubtypePattern(Token("Fail")), [Token("error")], Variable(Token("error")))
        ]))
    ]) == Failure(NotImplemented)
  {
    var program := [
      CustomTypeDeclaration(Token("Msg"), [Subtype("Success", Some(text)), Subtype("Fail", Some(text))]),
      VarDeclaration(Token("msg"), Call(Variable(Token("Success")), [Literal(abc)])),
      VarDeclaration(Token("a"),
        Case(Variable(Token("msg")), [
          CaseBranch(SubtypePattern(Token("Success")), [Token("msg")], Variable(Token("msg"))),
          CaseBranch(SubtypePattern(Token("Fail")), [Token("error")], Variable(Token("error")))
        ]))
    ];
    assert StmtContainsUnimplemented(program[2]);
  }

  /** `foo : ƒ x → x`, the identity function, cannot be shown: functions
      have no display rule. */
  lemma IdentityFunctionFails(fmt: Formatter)
    ensures Traverse(fmt, [VarDeclaration(Token("foo"), Function([Token("x")], Variable(Token("x"))))])
         == Failure(NotImplemented)
  {
  }

  /** A property access buried inside a list inside a call still makes the
      whole program fail. */
  lemma NestedGetFails(fmt: Formatter)
    ensures Traverse(fmt, [
      VarDeclaration(Token("_"),
        Call(Variable(Token("print")), [ListLiteral([Get(Variable(Token("person")), Token("name"))])]))
    ]) == Failure(NotImplemented)
  {
  }
}
