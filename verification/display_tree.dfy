/** The display tree handed to the tree renderer: every node has a name,
    a string-to-string attribute map and an ordered list of children. */
module DisplayTree {

  import opened Results

  datatype Node = Node(name: string, attributes: map<string, string>, children: seq<Node>)

  /** The childless, attribute-free node named `text`. */
  function Leaf(text: string): Node {
    Node(text, map[], [])
  }

  /** The attribute-free node named `text` whose only child is `inner`: how
      the converter hangs a node under a category or key name. */
  function Wrap(text: string, inner: Node): Node {
    Node(text, map[], [inner])
  }

  predicate IsLeaf(n: Node, text: string) {
    n == Leaf(text)
  }

  predicate Wraps(n: Node, text: string, inner: Node) {
    n == Wrap(text, inner)
  }

  predicate IsWrappedLeaf(n: Node, text: string, leafText: string) {
    Wraps(n, text, Leaf(leafText))
  }

  /** The leaf builder: a bare leaf named `leafName`, or, when a parent
      name is given, that leaf hung under a node with the parent name. */
  function LeafNode(leafName: string, parentName: Option<string>): (n: Node)
    decreases parentName.Some?
    ensures parentName.None? ==> IsLeaf(n, leafName)
    ensures parentName.Some? ==> IsWrappedLeaf(n, parentName.value, leafName)
  {
    match parentName
    case None => Node(leafName, map[], [])
    case Some(parent) => Node(parent, map[], [LeafNode(leafName, None)])
  }

  /** The labels of the leaves of `n`, read left to right. */
  function Frontier(n: Node): seq<string>
    decreases n
  {
    if n.children == [] then [n.name] else Frontiers(n.children)
  }

  /** The leaf labels of a forest, tree after tree. */
  function Frontiers(ns: seq<Node>): seq<string>
    decreases ns
  {
    if ns == [] then [] else Frontier(ns[0]) + Frontiers(ns[1..])
  }

  /** The number of nodes on the longest root-to-leaf path of `n`. */
  function Height(n: Node): (h: nat)
    decreases n
    ensures h >= 1
  {
    1 + MaxHeight(n.children)
  }

  /** The greatest height in a forest, 0 for none. */
  function MaxHeight(ns: seq<Node>): nat
    decreases ns
  {
    if ns == [] then 0
    else
      var h := Height(ns[0]);
      var rest := MaxHeight(ns[1..]);
      if h < rest then rest else h
  }

  /** No node of `n` carries an attribute. */
  predicate Plain(n: Node)
    decreases n
  {
    n.attributes == map[] && AllPlain(n.children)
  }

  predicate AllPlain(ns: seq<Node>)
    decreases ns
  {
    forall i :: 0 <= i < |ns| ==> Plain(ns[i])
  }

  lemma {:induction false} FrontiersAppend(a: seq<Node>, b: seq<Node>)
    ensures Frontiers(a + b) == Frontiers(a) + Frontiers(b)
    decreases a
  {
    if a == [] {
      assert a + b == b;
    } else {
      assert (a + b)[1..] == a[1..] + b;
      FrontiersAppend(a[1..], b);
    }
  }

  lemma {:induction false} MaxHeightAppend(a: seq<Node>, b: seq<Node>)
    ensures MaxHeight(a + b) == if MaxHeight(a) < MaxHeight(b) then MaxHeight(b) else MaxHeight(a)
    decreases a
  {
    if a == [] {
      assert a + b == b;
    } else {
      assert (a + b)[1..] == a[1..] + b;
      MaxHeightAppend(a[1..], b);
    }
  }

  /** Every tree of a forest is at most `bound` high exactly when the
      forest's greatest height is. */
  lemma {:induction false} MaxHeightBound(ns: seq<Node>, bound: nat)
    ensures MaxHeight(ns) <= bound <==> forall i :: 0 <= i < |ns| ==> Height(ns[i]) <= bound
    decreases ns
  {
    if ns != [] {
      MaxHeightBound(ns[1..], bound);
      assert forall i :: 1 <= i < |ns| ==> ns[i] == ns[1..][i - 1];
    }
  }
}
