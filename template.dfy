/** The operational-template tree, as the compiler sees it once the XML is
    parsed: `children` elements (nodes) hold `attributes` elements
    (containers), which hold further `children`.  Only the fields the compiler
    and the terminology resolver read are kept.  The helper functions below
    stand for the XPath queries the source runs over that tree. */
module Template {
  import opened Common

  /** The `xsi:type` of a `children` element, as far as the core tells kinds apart. */
  datatype Kind = ArchetypeRoot | ComplexObject | OtherKind

  /** An `items` element of a term definition: its `id` attribute and its text. */
  datatype Item = Item(id: Option<string>, text: Option<string>)

  /** A `term_definitions` element: its `code` attribute and its `items`. */
  datatype TermDefinition = TermDefinition(code: Option<string>, items: seq<Item>)

  /** A `children` element.  `nodeId` and `rmTypeName` are what `findtext`
      returns (None when the element is absent, "" when it is empty);
      `archetypeId` is the `archetype_id/value` element: None when absent,
      Some("") when present without text.  In document order, a node's
      `attributes` come before its `term_definitions`. */
  datatype Node = Node(
    kind: Kind,
    nodeId: Option<string>,
    rmTypeName: Option<string>,
    archetypeId: Option<string>,
    attributes: seq<Attribute>,
    termDefinitions: seq<TermDefinition>)

  /** An `attributes` element: `rm_attribute_name`, whether its `xsi:type` is
      C_MULTIPLE_ATTRIBUTE, and its `children`. */
  datatype Attribute = Attribute(rmAttributeName: Option<string>, multiple: bool, children: seq<Node>)

  /** The template document: its `definition` elements. */
  datatype Template = Template(definitions: seq<Node>)

  /** `n.findall(".//children[@xsi:type='C_ARCHETYPE_ROOT']")`: the descendants
      of `n` (not `n` itself) that are archetype roots, in document order. */
  function EmbeddedRoots(n: Node): seq<Node>
    decreases n, 1
  {
    EmbeddedRootsFrom(n, 0)
  }

  function EmbeddedRootsFrom(n: Node, i: nat): seq<Node>
    decreases n, 0, |n.attributes| - i
  {
    if i >= |n.attributes| then []
    else EmbeddedRootsAmong(n, i, 0) + EmbeddedRootsFrom(n, i + 1)
  }

  function EmbeddedRootsAmong(n: Node, i: nat, j: nat): seq<Node>
    requires i < |n.attributes|
    decreases n, 0, |n.attributes| - i, |n.attributes[i].children| - j
  {
    var cs := n.attributes[i].children;
    if j >= |cs| then []
    else
      var c := cs[j];
      (if c.kind == ArchetypeRoot then [c] else []) + EmbeddedRoots(c) + EmbeddedRootsAmong(n, i, j + 1)
  }

  /** Every block `.//children[@xsi:type='C_ARCHETYPE_ROOT']` selects is an archetype root. */
  lemma {:induction false} EmbeddedRootsAreRoots(n: Node)
    ensures forall r :: r in EmbeddedRoots(n) ==> r.kind == ArchetypeRoot
    decreases n, 1
  {
    EmbeddedRootsFromAreRoots(n, 0);
  }

  lemma {:induction false} EmbeddedRootsFromAreRoots(n: Node, i: nat)
    ensures forall r :: r in EmbeddedRootsFrom(n, i) ==> r.kind == ArchetypeRoot
    decreases n, 0, |n.attributes| - i
  {
    if i < |n.attributes| {
      EmbeddedRootsAmongAreRoots(n, i, 0);
      EmbeddedRootsFromAreRoots(n, i + 1);
    }
  }

  lemma {:induction false} EmbeddedRootsAmongAreRoots(n: Node, i: nat, j: nat)
    requires i < |n.attributes|
    ensures forall r :: r in EmbeddedRootsAmong(n, i, j) ==> r.kind == ArchetypeRoot
    decreases n, 0, |n.attributes| - i, |n.attributes[i].children| - j
  {
    var cs := n.attributes[i].children;
    if j < |cs| {
      EmbeddedRootsAreRoots(cs[j]);
      EmbeddedRootsAmongAreRoots(n, i, j + 1);
    }
  }

  /** The descendant axis: a child that is an archetype root is selected, and
      so is every block selected below any child, so archetype roots at any
      depth are read. */
  lemma EmbeddedRootsReachChild(n: Node, i: nat, j: nat)
    requires i < |n.attributes| && j < |n.attributes[i].children|
    ensures n.attributes[i].children[j].kind == ArchetypeRoot ==> n.attributes[i].children[j] in EmbeddedRoots(n)
    ensures forall r :: r in EmbeddedRoots(n.attributes[i].children[j]) ==> r in EmbeddedRoots(n)
  {
    EmbeddedRootsAmongHasChild(n, i, 0, j);
    EmbeddedRootsFromHasAttribute(n, 0, i);
  }

  lemma {:induction false} EmbeddedRootsAmongHasChild(n: Node, i: nat, j0: nat, j: nat)
    requires i < |n.attributes| && j0 <= j < |n.attributes[i].children|
    ensures var c := n.attributes[i].children[j];
            && (c.kind == ArchetypeRoot ==> c in EmbeddedRootsAmong(n, i, j0))
            && (forall r :: r in EmbeddedRoots(c) ==> r in EmbeddedRootsAmong(n, i, j0))
    decreases j - j0
  {
    var c0 := n.attributes[i].children[j0];
    var here := (if c0.kind == ArchetypeRoot then [c0] else []) + EmbeddedRoots(c0);
    var rest := EmbeddedRootsAmong(n, i, j0 + 1);
    assert EmbeddedRootsAmong(n, i, j0) == here + rest;
    if j0 < j {
      EmbeddedRootsAmongHasChild(n, i, j0 + 1, j);
    }
  }

  lemma {:induction false} EmbeddedRootsFromHasAttribute(n: Node, i0: nat, i: nat)
    requires i0 <= i < |n.attributes|
    ensures forall r :: r in EmbeddedRootsAmong(n, i, 0) ==> r in EmbeddedRootsFrom(n, i0)
    decreases i - i0
  {
    if i0 < i {
      EmbeddedRootsFromHasAttribute(n, i0 + 1, i);
    }
  }

  /** `n.findall(".//term_definitions")`: every term definition in the
      subtree of `n`, in document order (a node's attributes, then its own). */
  function DefsWithin(n: Node): seq<TermDefinition>
    decreases n, 1
  {
    DefsWithinFrom(n, 0) + n.termDefinitions
  }

  function DefsWithinFrom(n: Node, i: nat): seq<TermDefinition>
    decreases n, 0, |n.attributes| - i
  {
    if i >= |n.attributes| then []
    else DefsWithinAmong(n, i, 0) + DefsWithinFrom(n, i + 1)
  }

  function DefsWithinAmong(n: Node, i: nat, j: nat): seq<TermDefinition>
    requires i < |n.attributes|
    decreases n, 0, |n.attributes| - i, |n.attributes[i].children| - j
  {
    var cs := n.attributes[i].children;
    if j >= |cs| then [] else DefsWithin(cs[j]) + DefsWithinAmong(n, i, j + 1)
  }
}
