/** The schema-to-path compiler (`build_jsonpaths` and
    `extract_jsonpaths_from_opt`, src/openEHRbunny.py:81-150): a depth-first,
    pre-order walk of the template that emits one (jsonpath, label) entry per
    node with a `node_id`, and 15 more for every ELEMENT. */
module PathCompiler {
  import opened Common
  import opened Template
  import opened Terminology

  /** DV_TYPE_ATTRIBUTES (lines 26-36), in the dict's iteration order. */
  const DvTypeAttributes: seq<(string, seq<string>)> := [
    ("DV_TEXT", ["value"]),
    ("DV_CODED_TEXT", ["value", "defining_code.code_string", "defining_code.terminology_id.value"]),
    ("DV_COUNT", ["magnitude"]),
    ("DV_QUANTITY", ["magnitude", "units"]),
    ("DV_DATE", ["value"]),
    ("DV_DATE_TIME", ["value"]),
    ("DV_BOOLEAN", ["value"]),
    ("DV_ORDINAL", ["value", "symbol.value"]),
    ("DV_SCALE", ["value", "symbol.value"])
  ]

  /** The attribute lists of a table, one after the other (the nested loop of lines 126-127). */
  function Flatten(table: seq<(string, seq<string>)>): seq<string>
  {
    if table == [] then [] else table[0].1 + Flatten(table[1..])
  }

  /** Every attribute the ELEMENT expansion appends under `.value`, repeats included. */
  function DvAttributes(): seq<string>
  {
    Flatten(DvTypeAttributes)
  }

  /** The table lists 14 attributes, of which 6 are distinct. */
  lemma DvAttributesListed()
    ensures DvAttributes() == ["value", "value", "defining_code.code_string", "defining_code.terminology_id.value",
                               "magnitude", "magnitude", "units", "value", "value", "value", "value",
                               "symbol.value", "value", "symbol.value"]
  {
  }

  /** A (jsonpath, label) pair, as appended to `results`. */
  datatype PathEntry = PathEntry(path: string, readableLabel: string)

  /** Where the XML parent of the node sits: an `attributes` element (its
      `rm_attribute_name`, rendered as an f-string, and whether it is a
      C_MULTIPLE_ATTRIBUTE), or anything else. */
  datatype Parent = UnderAttribute(attrName: string, multiple: bool) | OutsideAttributes

  function ParentOf(a: Attribute): Parent
  {
    UnderAttribute(PyStr(a.rmAttributeName), a.multiple)
  }

  /** `[?(@.<field>=='<ref>')]` */
  function Predicate(field: string, ref: string): string
  {
    "[?(@." + field + "=='" + ref + "')]"
  }

  /** The field an `at0000` slot's predicate names. */
  const SlotField: string := "archetype_details.archetype_id.value"

  /** Lines 89-91: the archetype id a C_ARCHETYPE_ROOT introduces, when it has a non-empty one. */
  function LocalArchetypeId(n: Node): Option<string>
  {
    if n.kind == ArchetypeRoot && n.archetypeId.Some? && n.archetypeId.value != "" then n.archetypeId else None
  }

  /** Lines 94-102: the predicate selecting this node. */
  function PathPredicate(n: Node, nodeId: string, archetypeId: string, isRoot: bool): string
  {
    if isRoot then Predicate("archetype_node_id", archetypeId)
    else if nodeId == "at0000" && LocalArchetypeId(n).Some? then
      Predicate(SlotField, LocalArchetypeId(n).value)
    else Predicate("archetype_node_id", nodeId)
  }

  /** Lines 104-112: the path of the node itself. */
  function NodePath(n: Node, currentPath: string, archetypeId: string, isRoot: bool, parent: Parent): string
    requires n.nodeId.Some?
  {
    var pred := PathPredicate(n, n.nodeId.value, archetypeId, isRoot);
    match parent
    case UnderAttribute(attrName, multiple) =>
      currentPath + (if multiple then "." + attrName + pred else "." + attrName)
    case OutsideAttributes =>
      if isRoot then currentPath + pred else currentPath
  }

  /** Lines 115 and 135: the archetype whose terms label this node and its children. */
  function Scope(n: Node, archetypeId: string): string
  {
    match LocalArchetypeId(n)
    case Some(s) => s
    case None => archetypeId
  }

  /** `term_map.get(key, "")` */
  function Lookup(terms: TermMap, key: string): string
  {
    if key in terms then terms[key] else ""
  }

  predicate IsElement(n: Node)
  {
    n.kind == ComplexObject && n.rmTypeName == Some("ELEMENT")
  }

  /** Lines 120-130: the entries an ELEMENT adds after its own, nothing for other nodes. */
  function ElementEntries(n: Node, path: string, readable: string): seq<PathEntry>
  {
    if IsElement(n) then
      var valuePath := path + ".value";
      var valueLabel := if readable != "" then readable + ".value" else "value";
      [PathEntry(valuePath, valueLabel)] + AttributeEntries(valuePath, valueLabel, DvAttributes())
    else []
  }

  function AttributeEntries(valuePath: string, valueLabel: string, attrs: seq<string>): seq<PathEntry>
  {
    if attrs == [] then []
    else
      [PathEntry(valuePath + "." + attrs[0], if valueLabel != "" then valueLabel + "." + attrs[0] else attrs[0])]
      + AttributeEntries(valuePath, valueLabel, attrs[1..])
  }

  /** `build_jsonpaths(node, current_path, term_map, archetype_id, is_root)`,
      with the XML parent of `node` passed as `parent`. */
  function BuildJsonPaths(n: Node, currentPath: string, terms: TermMap, archetypeId: string, isRoot: bool,
                          parent: Parent): seq<PathEntry>
    decreases n, 1
  {
    if n.nodeId.None? then []
    else
      var path := NodePath(n, currentPath, archetypeId, isRoot, parent);
      var readable := Lookup(terms, Key(Scope(n, archetypeId), n.nodeId.value));
      [PathEntry(path, readable)] + ElementEntries(n, path, readable)
      + ChildPaths(n, 0, path, terms, Scope(n, archetypeId))
  }

  /** Lines 133-136 from attribute `i` on. */
  function ChildPaths(n: Node, i: nat, path: string, terms: TermMap, scope: string): seq<PathEntry>
    decreases n, 0, |n.attributes| - i
  {
    if i >= |n.attributes| then []
    else AttributePaths(n, i, 0, path, terms, scope) + ChildPaths(n, i + 1, path, terms, scope)
  }

  /** The children of attribute `i` from child `j` on. */
  function AttributePaths(n: Node, i: nat, j: nat, path: string, terms: TermMap, scope: string): seq<PathEntry>
    requires i < |n.attributes|
    decreases n, 0, |n.attributes| - i, |n.attributes[i].children| - j
  {
    var a := n.attributes[i];
    if j >= |a.children| then []
    else BuildJsonPaths(a.children[j], path, terms, scope, false, ParentOf(a))
         + AttributePaths(n, i, j + 1, path, terms, scope)
  }

  /** `./definition/attributes/children[@xsi:type='C_ARCHETYPE_ROOT']`, each
      with the `attributes` element it sits in. */
  function ArchetypeRoots(t: Template): seq<(Node, Parent)>
  {
    RootsIn(t.definitions)
  }

  function RootsIn(defs: seq<Node>): seq<(Node, Parent)>
  {
    if defs == [] then [] else RootsUnder(defs[0].attributes) + RootsIn(defs[1..])
  }

  function RootsUnder(attrs: seq<Attribute>): seq<(Node, Parent)>
  {
    if attrs == [] then [] else RootsAmong(attrs[0].children, ParentOf(attrs[0])) + RootsUnder(attrs[1..])
  }

  function RootsAmong(children: seq<Node>, parent: Parent): seq<(Node, Parent)>
  {
    if children == [] then []
    else (if children[0].kind == ArchetypeRoot then [(children[0], parent)] else []) + RootsAmong(children[1..], parent)
  }

  /** `extract_jsonpaths_from_opt`: each archetype root compiled from `$`
      with its own term map and root id, one after the other. */
  function ExtractJsonPathsFromOpt(t: Template): seq<PathEntry>
  {
    CompileRoots(ArchetypeRoots(t))
  }

  function CompileRoots(roots: seq<(Node, Parent)>): seq<PathEntry>
  {
    if roots == [] then []
    else
      var (root, parent) := roots[0];
      var terms := TermMapOf(root);
      BuildJsonPaths(root, "$", terms, RootId(root), true, parent) + CompileRoots(roots[1..])
  }
}
