# Slick parse-tree visualiser: the display-tree converter

This project models, in Dafny, the core of the Slick parse-tree visualiser. The core is the
`Traverser` of `src/generateParseTree.ts`. It takes the statement list that the Slick
front-end parses from a program and turns every statement and expression into a uniform
display node. Each node has a `name`, an `attributes` map and an ordered list of `children`.
It then hangs all statements under one synthetic root, named `"Slick Program"`. A tree
widget draws the result.

The model is functional. The syntax tree (`Syntax.Expr`, `Syntax.Stmt`) and the display tree
(`DisplayTree.Node`) are immutable datatypes, and every converter method of the source is a
total function. The source throws `new Error("Method not implemented.")` for the Function,
Get and Case variants. That throw becomes `Failure("Method not implemented.")`, and every
enclosing conversion passes it on unchanged. So a conversion that can reach one of these
variants returns `Results.Result<Node, string>`; over lists of statements, expressions or
record entries it returns `Results.Result<seq<Node>, string>`. A rule that cannot reach a
throw returns its value directly. Those rules are `LeafNode`, `TokenNode`, `VisitLiteralExpr`,
`VisitVariableExpr` and `VisitCustomTypeDeclarationStmt`, which give a `Node`, and
`SubtypeLeaves`, which gives a `seq<Node>`.

Files:

- `results.dfy`: `Option` (the source's `undefined`) and `Result` (a thrown error), usable with `:-`.
- `syntax.dfy`: the Slick syntax tree. Also which trees hold a variant without a display rule, and tree depth.
- `display_tree.dfy`: the display node, the leaf builder with the `Leaf` and `Wrap` shapes it produces, and the leaf text, height and "no attributes" measures over nodes.
- `parse_tree.dfy`: the converter. It has one function per `Traverser` method, and each function's contract states that method's rule.
- `tree_properties.dfy`: properties of the whole conversion. The leaves, read left to right, spell the program's atoms. Tree height is bounded by syntax depth. No node carries an attribute.
- `scenarios.dfy`: whole programs converted end to end. They include the sample the page ships with, which cannot be displayed.

## Behaviour worth knowing

- The root is named `"Slick Program"` (src/generateParseTree.ts:20).
- Function, Get and Case have no display rule and throw (src/generateParseTree.ts:169-177). In the model, any program that contains one of them at a visited position fails as a whole.
- Nodes have no `collapsed` flag, and there is no `leaves(labels, wrapper)` helper that omits empty wrappers. Every node literal in the code carries an empty `attributes` map, and so does every node of the model.
- A subtype without a payload is shown as its key followed by a single space (`"On "`). The code concatenates `key + " " + ""`.

## Model

| member | source | states |
|---|---|---|
| `DisplayTree.LeafNode` | src/generateParseTree.ts:57-73 | Without a parent name the result is a childless, attribute-free node named by the leaf text. With a parent name it is a node of that name whose only child is that leaf. |
| `ParseTree.TokenNode` | src/generateParseTree.ts:75-77 | A token is displayed as a leaf of its lexeme. With a name, that leaf sits under a node of that name. |
| `ParseTree.Traverse` | src/generateParseTree.ts:15-28 | The root is named "Slick Program", has no attributes and has exactly one child per statement. Child i is the conversion of statement i. The whole conversion fails with "Method not implemented." exactly when some statement contains a Function, Get or Case expression. |
| `ParseTree.ConvertStmts` | src/generateParseTree.ts:22-24 | The statement list maps to the list of statement conversions: same length, same order. It fails exactly when some statement cannot be converted. |
| `ParseTree.ConvertStmt` | src/generateParseTree.ts:30-32 | A statement fails exactly when it is a binding whose initializer contains an unimplemented variant, and the error is "Method not implemented.". |
| `ParseTree.ConvertExpr` | src/generateParseTree.ts:34-47 | Without a name, the result is the plain conversion of the expression. With a name, the result is a node of that name whose single child is that plain conversion. A failure is passed on unchanged, and no partial node is built. |
| `ParseTree.ConvertExprs` | src/generateParseTree.ts:49-51 | The result has one node per expression, in order. Node i is the plain conversion of expression i. It fails exactly when one of the expressions holds an unimplemented variant. |
| `ParseTree.Accept` | src/generateParseTree.ts:169-177 | Dispatch on the variant. An expression's conversion fails, always with "Method not implemented.", exactly when a Function, Get or Case expression occurs at any visited depth. |
| `ParseTree.VisitIfExpr` | src/generateParseTree.ts:79-89 | "If Expression" with exactly three children: the conversions of condition, then-branch and else-branch, in that order. |
| `ParseTree.VisitBinaryExpr` | src/generateParseTree.ts:91-101 | "Binary Expression" with exactly three children: the left operand's conversion, an "operator" node over a leaf of the operator's lexeme, and the right operand's conversion. |
| `ParseTree.VisitGroupingExpr` | src/generateParseTree.ts:102-112 | "Grouping Expression" with exactly three children: leaf "(", the inner expression's conversion, and leaf ")". |
| `ParseTree.VisitLiteralExpr` | src/generateParseTree.ts:113-121 | "Literal Expression" with one child: a leaf of the value as the runtime formatter prints it. |
| `ParseTree.VisitVariableExpr` | src/generateParseTree.ts:122-130 | "Binding" with one child: a leaf of the identifier's lexeme. |
| `ParseTree.VisitCallExpr` | src/generateParseTree.ts:131-140 | "Call Expression" with 1 + (number of arguments) children: the callee's conversion first, then each argument's conversion in call order. |
| `ParseTree.VisitListLiteralExpr` | src/generateParseTree.ts:141-149 | "List Literal" with exactly one child per element: the element conversions, in order. |
| `ParseTree.VisitRecordLiteralExpr` | src/generateParseTree.ts:150-168 | "Record Literal". It has a "Target Record" node over the target's conversion exactly when a target is given, and then always as the first child. After it come exactly one node per entry, in entry order. Each entry node is named by its key and holds the value's conversion. |
| `ParseTree.ConvertFields` | src/generateParseTree.ts:160-165 | One node per record entry, in entry order. Node i is named by entry i's key, and its single child is the conversion of entry i's value. |
| `ParseTree.VisitVarDeclarationStmt` | src/generateParseTree.ts:178-187 | "Binding Declaration" with exactly two children: a "Binding Name" node over a leaf of the bound name, then the initializer's conversion. |
| `ParseTree.SubtypeLeaves` | src/generateParseTree.ts:194-203 | One leaf per subtype, in declaration order. Leaf i reads key, a space, then the payload type's text, or nothing when there is no payload. |
| `ParseTree.VisitCustomTypeDeclarationStmt` | src/generateParseTree.ts:188-206 | "Custom Type Declaration". Its first child is a "Custom Type Name" node over a leaf of the type name. Then comes exactly one leaf per subtype, in order, each reading key + " " + payload type text (empty when absent). |
| `TreeProperties.FrontierIsAtoms` | src/generateParseTree.ts:79-168 | The leaves of any convertible expression's tree, read left to right, are exactly its atoms in source order: operand tokens, operator lexemes, literal texts and grouping parentheses. Labels the converter adds never become leaves, except that an empty list or record shows its category label. Nothing is lost or reordered. |
| `TreeProperties.FrontierOfIf` | src/generateParseTree.ts:79-89 | The leaves of an if expression's tree are the atoms of condition, then-branch and else-branch, one after another. |
| `TreeProperties.FrontierOfBinary` | src/generateParseTree.ts:91-101 | The leaves of a binary expression's tree are the left atoms, the operator's lexeme, then the right atoms. |
| `TreeProperties.FrontierOfGrouping` | src/generateParseTree.ts:102-112 | The leaves of a grouping's tree are "(", the inner atoms, then ")". |
| `TreeProperties.FrontierOfCall` | src/generateParseTree.ts:131-140 | The leaves of a call's tree are the callee's atoms, then the atoms of each argument in order. |
| `TreeProperties.FrontierOfRecord` | src/generateParseTree.ts:150-168 | The leaves of a record literal's tree are the target's atoms, if any, then the atoms of each entry's value in order; the label alone for an empty record. |
| `TreeProperties.TargetFrontier` | src/generateParseTree.ts:156-159 | The leaves under a record's "Target Record" wrapper are the target's atoms, and there are none without a target. |
| `TreeProperties.FrontiersAreAtoms` | src/generateParseTree.ts:49-51 | The leaves of converted expression lists are the atoms of the expressions, one after another. |
| `TreeProperties.FieldFrontiersAreAtoms` | src/generateParseTree.ts:160-165 | The leaves of converted record entries are the atoms of their values. The keys never become leaves. |
| `TreeProperties.StmtFrontierIsAtoms` | src/generateParseTree.ts:178-206 | A statement's leaves are its declared name, then the initializer's atoms or the subtype texts. |
| `TreeProperties.TraverseFrontierIsAtoms` | src/generateParseTree.ts:19-25 | A program without unimplemented variants converts successfully. Its leaves are the statements' atoms in order, or the root label alone for an empty program. |
| `TreeProperties.HeightBound` | src/generateParseTree.ts:79-168 | An expression's display tree is at most twice as high as the expression is deep. The display tree is finite and bounded by the syntax tree's depth. |
| `TreeProperties.HeightOfIf` | src/generateParseTree.ts:79-89 | An if expression's tree is at most twice as high as the expression is deep. |
| `TreeProperties.HeightOfBinary` | src/generateParseTree.ts:91-101 | A binary expression's tree, with its "operator" wrapper, is at most twice as high as the expression is deep. |
| `TreeProperties.HeightOfGrouping` | src/generateParseTree.ts:102-112 | A grouping's tree, with its parenthesis leaves, is at most twice as high as the expression is deep. |
| `TreeProperties.HeightOfCall` | src/generateParseTree.ts:131-140 | A call's tree is at most twice as high as the call is deep. |
| `TreeProperties.HeightOfArgument` | src/generateParseTree.ts:137 | The subtree of a call's argument i is at most 2 * (call depth) - 1 high. |
| `TreeProperties.HeightOfList` | src/generateParseTree.ts:141-149 | A list literal's tree is at most twice as high as the list is deep. |
| `TreeProperties.HeightOfRecord` | src/generateParseTree.ts:150-168 | A record literal's tree is at most twice as high as the record is deep. |
| `TreeProperties.HeightOfTarget` | src/generateParseTree.ts:156-159 | A record's "Target Record" wrapper is at most 2 * (record depth) - 1 high. |
| `TreeProperties.HeightOfField` | src/generateParseTree.ts:160-165 | The wrapper of a record's entry i is at most 2 * (record depth) - 1 high. |
| `TreeProperties.StmtHeightBound` | src/generateParseTree.ts:178-206 | A statement's display tree is at most 2 * (statement depth) + 1 high. |
| `TreeProperties.TraverseHeightBound` | src/generateParseTree.ts:19-25 | When every statement is at most d deep, the whole display tree is at most 2d + 2 high. |
| `TreeProperties.ConversionIsPlain` | src/generateParseTree.ts:79-168 | Every node of an expression's display tree has an empty attribute map. |
| `TreeProperties.PlainIf` | src/generateParseTree.ts:79-89 | No node of an if expression's tree carries an attribute. |
| `TreeProperties.PlainBinary` | src/generateParseTree.ts:91-101 | No node of a binary expression's tree, its "operator" wrapper included, carries an attribute. |
| `TreeProperties.PlainGrouping` | src/generateParseTree.ts:102-112 | No node of a grouping's tree, its parenthesis leaves included, carries an attribute. |
| `TreeProperties.PlainCall` | src/generateParseTree.ts:131-140 | No node of a call's tree carries an attribute. |
| `TreeProperties.PlainList` | src/generateParseTree.ts:141-149 | No node of a list literal's tree carries an attribute. |
| `TreeProperties.PlainRecord` | src/generateParseTree.ts:150-168 | No node of a record literal's tree carries an attribute. |
| `TreeProperties.PlainTarget` | src/generateParseTree.ts:156-159 | No node under a record's "Target Record" wrapper, the wrapper included, carries an attribute. |
| `TreeProperties.PlainField` | src/generateParseTree.ts:160-165 | No node of the wrapper of a record's entry i carries an attribute. |
| `TreeProperties.TraverseIsPlain` | src/generateParseTree.ts:19-25 | Every node of a program's display tree, the root included, has an empty attribute map. |
| `Scenarios.SingleStatement` | src/generateParseTree.ts:19-25 | A one-statement program is the root over exactly that statement's node. |
| `Scenarios.RecordBinding` | src/App.tsx:12-16 | `person : { name : 'Ben' age : 10 }` converts to the exact expected tree: a binding whose record holds a "name" node and then an "age" node, each over a literal. |
| `Scenarios.CallOfGroupedConcatenation` | src/generateParseTree.ts:91-140 | A call of a grouped `&` expression converts to the exact expected tree: callee, then "(" / binary / ")", with "operator" over "&". |
| `Scenarios.MessageType` | src/App.tsx:37-39 | `type Msg : Success Text  Fail Text` converts to the exact expected tree: the type name, then leaves "Success <Text>" and "Fail <Text>". |
| `Scenarios.BareSubtype` | src/generateParseTree.ts:197-201 | A subtype without a payload gives a leaf of its key followed by one space. |
| `Scenarios.PageSampleFails` | src/App.tsx:36-50 | The program the page displays contains a `case`, so its conversion fails with "Method not implemented." and no tree is produced. |
| `Scenarios.IdentityFunctionFails` | src/generateParseTree.ts:169-171 | `foo : ƒ x → x` cannot be converted: it fails with "Method not implemented.". |
| `Scenarios.NestedGetFails` | src/generateParseTree.ts:172-174 | A property access nested in a list that is an argument of a call still makes the whole program fail. |

## Left out

- The front-end call `new Runner({}).run(source, { mode: RUN, level: PARSE })` (src/generateParseTree.ts:16-17). It is an external library, so `Traverse` takes the parsed statement list instead of the source text. Its parse errors are not modelled.
- `runtime.toString(value)` and the subtype type's `toString()` (src/generateParseTree.ts:118, 200). These are formatters inside the front-end. They are the two fields of the `Formatter` parameter, over the abstract types `Syntax.Value` and `Syntax.SlickType`.
- `Object.entries` key order. Record entries and subtypes are sequences, read in sequence order. The model does not require their keys to be distinct, although a JavaScript object's keys are.
- `addChild` (src/generateParseTree.ts:53-55). It mutates a node in place and is never called.
- The fields of Function, Get and Case expressions are kept only approximately (parameters and body; record and property; subject and branches). No display rule reads them.
- src/App.tsx: the React page that hands the tree to the tree widget, with its layout settings. Only its sample programs appear, as scenarios.
