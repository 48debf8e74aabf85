/**
 * The scss syntax tree that the external analyzer (gonzales-pe) builds, and the
 * two node queries the documentation extractor uses on it: `first(type)` (the first
 * direct child of a type) and `traverseByTypes([type], ...)` (every node of a type
 * in the subtree, in pre-order).
 */
module SassSyntax {
  import opened Wrappers

  /**
   * A node has a type and a content that is either text (a leaf: `children` is
   * empty) or an ordered list of child nodes.
   */
  datatype Node = Node(kind: Kind, text: string, children: seq<Node>)

  /**
   * The node types the extractor and its queries distinguish; every other type the
   * analyzer produces (`block`, `value`, `atkeyword`, ...) is `OtherKind`.
   */
  datatype Kind =
    | MultilineComment | Declaration | Ruleset | Mixin | Function | Space
    | DeclarationDelimiter | Atrule | Property | Variable | Ident | Selector | Class | Arguments
    | OtherKind(name: string)

  /** The position of the first node of the given type. */
  function FirstIndex(ns: seq<Node>, kind: Kind): (r: Option<nat>)
    ensures r.Some? ==> r.value < |ns| && ns[r.value].kind == kind
    ensures r.Some? ==> forall j :: 0 <= j < r.value ==> ns[j].kind != kind
    ensures r.None? ==> forall j :: 0 <= j < |ns| ==> ns[j].kind != kind
  {
    if ns == [] then None
    else if ns[0].kind == kind then Some(0)
    else
      match FirstIndex(ns[1..], kind)
      case None => None
      case Some(k) => Some(k + 1)
  }

  /** `node.first(kind)`: the first direct child of the given type, if any. */
  function First(n: Node, kind: Kind): (r: Option<Node>)
    ensures r.Some? ==> r.value in n.children && r.value.kind == kind
    ensures r.None? ==> forall c :: c in n.children ==> c.kind != kind
  {
    match FirstIndex(n.children, kind)
    case None => None
    case Some(k) => Some(n.children[k])
  }

  /** `first` returns the first child of the type: no child before it has the type. */
  lemma FirstIsFirst(n: Node, kind: Kind)
    ensures First(n, kind).Some? ==>
      exists k :: 0 <= k < |n.children| && n.children[k] == First(n, kind).value && FirstOfKind(n.children, kind, k)
  {
    if First(n, kind).Some? {
      var k := FirstIndex(n.children, kind).value;
      assert n.children[k] == First(n, kind).value && FirstOfKind(n.children, kind, k);
    }
  }

  /** No node before index `k` has the type. */
  predicate FirstOfKind(ns: seq<Node>, kind: Kind, k: nat) {
    forall j :: 0 <= j < k && j < |ns| ==> ns[j].kind != kind
  }

  /** `node.content.filter(item => item.type == kind)`: the direct children of a type, in order. */
  function ChildrenOfKind(ns: seq<Node>, kind: Kind): (r: seq<Node>)
    ensures forall c :: c in r ==> c in ns && c.kind == kind
    ensures forall c :: c in ns && c.kind == kind ==> c in r
  {
    if ns == [] then []
    else (if ns[0].kind == kind then [ns[0]] else []) + ChildrenOfKind(ns[1..], kind)
  }

  /** One child is kept exactly once when it has the type, and dropped otherwise. */
  lemma ChildrenOfKindSingle(c: Node, kind: Kind)
    ensures ChildrenOfKind([c], kind) == (if c.kind == kind then [c] else [])
  {
    assert [c][1..] == [];
  }

  /** Filtering a concatenation filters each part in turn; with `ChildrenOfKindSingle` this fixes the order and the repetitions. */
  lemma {:induction false} ChildrenOfKindConcat(a: seq<Node>, b: seq<Node>, kind: Kind)
    ensures ChildrenOfKind(a + b, kind) == ChildrenOfKind(a, kind) + ChildrenOfKind(b, kind)
    decreases |a|
  {
    if a != [] {
      assert (a + b)[1..] == a[1..] + b;
      ChildrenOfKindConcat(a[1..], b, kind);
    } else {
      assert a + b == b;
    }
  }

  /**
   * The nodes of the given type in the subtree rooted at `n`, in the pre-order in
   * which `traverseByTypes` visits them (the root first, then each child's subtree).
   */
  function Descendants(n: Node, kind: Kind): (r: seq<Node>)
    ensures forall v :: v in r ==> v.kind == kind
    decreases n, 1
  {
    (if n.kind == kind then [n] else []) + DescendantsOfAll(n.children, kind)
  }

  function DescendantsOfAll(ns: seq<Node>, kind: Kind): (r: seq<Node>)
    ensures forall v :: v in r ==> v.kind == kind
    decreases ns, 0
  {
    if ns == [] then [] else Descendants(ns[0], kind) + DescendantsOfAll(ns[1..], kind)
  }

  /** `v` is `n` or lies in the subtree of one of its children. */
  predicate InSubtree(v: Node, n: Node)
    decreases n
  {
    v == n || exists k :: 0 <= k < |n.children| && InSubtree(v, n.children[k])
  }

  /** `v` lies in the subtree of one of `ns`. */
  predicate InSubtrees(v: Node, ns: seq<Node>) {
    exists k :: 0 <= k < |ns| && InSubtree(v, ns[k])
  }

  /** `traverseByTypes` finds exactly the nodes of the type in the subtree. */
  lemma {:induction false} DescendantsExact(n: Node, kind: Kind)
    ensures forall v :: v in Descendants(n, kind) <==> InSubtree(v, n) && v.kind == kind
    decreases n, 1
  {
    DescendantsOfAllExact(n.children, kind);
  }

  lemma {:induction false} DescendantsOfAllExact(ns: seq<Node>, kind: Kind)
    ensures forall v :: v in DescendantsOfAll(ns, kind) <==> InSubtrees(v, ns) && v.kind == kind
    decreases ns, 0
  {
    if ns != [] {
      DescendantsExact(ns[0], kind);
      DescendantsOfAllExact(ns[1..], kind);
      forall v
        ensures InSubtrees(v, ns) <==> InSubtree(v, ns[0]) || InSubtrees(v, ns[1..])
      {
        if InSubtrees(v, ns) {
          var k :| 0 <= k < |ns| && InSubtree(v, ns[k]);
          if k > 0 {
            assert ns[1..][k - 1] == ns[k];
          }
        }
        if InSubtrees(v, ns[1..]) {
          var k :| 0 <= k < |ns| - 1 && InSubtree(v, ns[1..][k]);
          assert ns[k + 1] == ns[1..][k];
        }
      }
    }
  }
}
