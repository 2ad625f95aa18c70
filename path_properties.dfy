/** What the path compiler promises: the shape of the traversal, the segment
    rule, the ELEMENT expansion and the anchoring of every emitted path. */
module PathProperties {
  import opened Common
  import opened Template
  import opened Terminology
  import opened PathCompiler

  /** The entries a node emits before its children: its own and, for an ELEMENT, the expansion. */
  function OwnEntries(n: Node, path: string, readable: string): seq<PathEntry>
  {
    [PathEntry(path, readable)] + ElementEntries(n, path, readable)
  }

  function PathsOf(entries: seq<PathEntry>): set<string>
  {
    set e | e in entries :: e.path
  }

  /** `a` occurs in `b` starting at index `k`. */
  ghost predicate InfixAt<T>(a: seq<T>, b: seq<T>, k: int)
  {
    0 <= k <= |b| - |a| && b[k..k + |a|] == a
  }

  ghost predicate IsInfix<T>(a: seq<T>, b: seq<T>)
  {
    exists k :: InfixAt(a, b, k)
  }

  lemma {:induction false} AttributeEntriesAt(valuePath: string, valueLabel: string, attrs: seq<string>)
    ensures |AttributeEntries(valuePath, valueLabel, attrs)| == |attrs|
    ensures forall k :: 0 <= k < |attrs| ==>
      AttributeEntries(valuePath, valueLabel, attrs)[k]
        == PathEntry(valuePath + "." + attrs[k], if valueLabel != "" then valueLabel + "." + attrs[k] else attrs[k])
  {
    if attrs != [] {
      AttributeEntriesAt(valuePath, valueLabel, attrs[1..]);
    }
  }

  /** Lines 120-130: an ELEMENT emits 16 entries of its own: its path, then
      `.value`, then `.value.<attr>` for the 14 table attributes in table
      order, labelled `<label>.value...` (or `value...` when its label is
      empty). */
  lemma ElementExpansion(n: Node, path: string, readable: string)
    requires IsElement(n)
    ensures var own := OwnEntries(n, path, readable);
            var valueLabel := if readable != "" then readable + ".value" else "value";
            && |own| == 16
            && own[0] == PathEntry(path, readable)
            && own[1] == PathEntry(path + ".value", valueLabel)
            && (forall k :: 2 <= k < 16 ==>
                  own[k] == PathEntry(path + ".value" + "." + DvAttributes()[k - 2], valueLabel + "." + DvAttributes()[k - 2]))
  {
    var own := OwnEntries(n, path, readable);
    var valueLabel := if readable != "" then readable + ".value" else "value";
    var vp := path + ".value";
    var attrs := DvAttributes();
    var ae := AttributeEntries(vp, valueLabel, attrs);
    DvAttributesCount();
    AttributeEntriesAt(vp, valueLabel, attrs);
    assert ElementEntries(n, path, readable) == [PathEntry(vp, valueLabel)] + ae;
    assert own == [PathEntry(path, readable), PathEntry(vp, valueLabel)] + ae;
    forall k | 2 <= k < 16
      ensures own[k] == PathEntry(vp + "." + attrs[k - 2], valueLabel + "." + attrs[k - 2])
    {
      assert own[k] == ae[k - 2];
    }
  }

  lemma DvAttributesCount()
    ensures |DvAttributes()| == 14
  {
    DvAttributesListed();
  }

  /** The 16 entries of an ELEMENT hold only 8 distinct paths, as the table
      repeats `value`, `magnitude` and `symbol.value`. */
  lemma ElementDistinctPaths(n: Node, path: string, readable: string)
    requires IsElement(n)
    ensures |PathsOf(OwnEntries(n, path, readable))| == 8
  {
    ElementPathSet(n, path, readable);
    EightPathsDistinct(path);
    DistinctCardinality(EightPaths(path));
  }

  /** The six different attribute names of the table. */
  const DistinctDvAttributes: seq<string> :=
    ["value", "defining_code.code_string", "defining_code.terminology_id.value", "magnitude", "units", "symbol.value"]

  function EightPaths(path: string): seq<string>
  {
    var vp := path + ".value";
    var ds := DistinctDvAttributes;
    [path, vp, vp + "." + ds[0], vp + "." + ds[1], vp + "." + ds[2], vp + "." + ds[3], vp + "." + ds[4], vp + "." + ds[5]]
  }

  lemma EightPathsDistinct(path: string)
    ensures Distinct(EightPaths(path))
  {
    var vp := path + ".value";
    var ps := EightPaths(path);
    var ds := DistinctDvAttributes;
    assert ds[0][0] == 'v' && ds[4][0] == 'u';
    assert Distinct(ds);
    forall i, j | 0 <= i < j < 8 ensures ps[i] != ps[j] {
      if i >= 2 {
        var pre := vp + ".";
        assert ps[i] == pre + ds[i - 2] && ps[j] == pre + ds[j - 2];
        assert ps[i][|pre|..] == ds[i - 2] && ps[j][|pre|..] == ds[j - 2];
      } else {
        assert |ps[i]| < |ps[j]|;
      }
    }
  }

  lemma ElementPathSet(n: Node, path: string, readable: string)
    requires IsElement(n)
    ensures PathsOf(OwnEntries(n, path, readable)) == set p | p in EightPaths(path)
  {
    var own := OwnEntries(n, path, readable);
    OwnPathsListed(n, path, readable);
    EightPathsEmitted(n, path, readable);
    forall p | p in PathsOf(own) ensures p in EightPaths(path) {
      var k :| 0 <= k < |own| && own[k].path == p;
    }
  }

  /** Every path of the expansion is one of the eight. */
  lemma OwnPathsListed(n: Node, path: string, readable: string)
    requires IsElement(n)
    ensures forall k :: 0 <= k < |OwnEntries(n, path, readable)| ==> OwnEntries(n, path, readable)[k].path in EightPaths(path)
  {
    ElementExpansion(n, path, readable);
    forall k | 0 <= k < 16 ensures OwnEntries(n, path, readable)[k].path in EightPaths(path) {
      ExpansionPathInEight(n, path, readable, k);
    }
  }

  lemma ExpansionPathInEight(n: Node, path: string, readable: string, k: int)
    requires IsElement(n) && 0 <= k < 16
    ensures |OwnEntries(n, path, readable)| == 16
    ensures OwnEntries(n, path, readable)[k].path in EightPaths(path)
  {
    ElementExpansion(n, path, readable);
    if k >= 2 {
      DvAttributeIsDistinctOne(k - 2);
      AttributePathInEight(path, DvAttributes()[k - 2]);
    }
  }

  lemma DvAttributeIsDistinctOne(t: int)
    requires 0 <= t < 14
    ensures DvAttributes()[t] in DistinctDvAttributes
  {
    DvAttributesListed();
  }

  lemma AttributePathInEight(path: string, x: string)
    requires x in DistinctDvAttributes
    ensures path + ".value" + "." + x in EightPaths(path)
  {
  }

  /** Each of the eight paths is emitted by the expansion. */
  lemma EightPathsEmitted(n: Node, path: string, readable: string)
    requires IsElement(n)
    ensures forall p :: p in EightPaths(path) ==> p in PathsOf(OwnEntries(n, path, readable))
  {
    var own := OwnEntries(n, path, readable);
    var ds := DistinctDvAttributes;
    var attrs := DvAttributes();
    var vp := path + ".value";
    ElementExpansion(n, path, readable);
    DvAttributesListed();
    assert own[0].path == path && own[1].path == vp;
    assert own[2].path == vp + "." + attrs[0] == vp + "." + ds[0];
    assert own[4].path == vp + "." + attrs[2] == vp + "." + ds[1];
    assert own[5].path == vp + "." + attrs[3] == vp + "." + ds[2];
    assert own[6].path == vp + "." + attrs[4] == vp + "." + ds[3];
    assert own[8].path == vp + "." + attrs[6] == vp + "." + ds[4];
    assert own[13].path == vp + "." + attrs[11] == vp + "." + ds[5];
    assert own[0] in own && own[1] in own && own[2] in own && own[4] in own;
    assert own[5] in own && own[6] in own && own[8] in own && own[13] in own;
  }

  lemma DistinctCardinality<T>(xs: seq<T>)
    requires Distinct(xs)
    ensures |set x | x in xs| == |xs|
  {
    if xs != [] {
      var init := xs[..|xs| - 1];
      var last := xs[|xs| - 1];
      assert xs == init + [last];
      assert Distinct(init);
      DistinctCardinality(init);
      assert (set x | x in xs) == (set x | x in init) + {last};
      assert last !in (set x | x in init);
    }
  }

  /** How many entries a node adds of its own: 16 for an ELEMENT, 1 otherwise. */
  function Weight(n: Node): nat
  {
    if IsElement(n) then 16 else 1
  }

  /** The nodes the walk reaches (those with a `node_id` whose ancestors all
      have one), each counted with its weight. */
  function ReachedWeight(n: Node): nat
    decreases n, 1
  {
    if n.nodeId.None? then 0 else Weight(n) + ReachedWeightFrom(n, 0)
  }

  function ReachedWeightFrom(n: Node, i: nat): nat
    decreases n, 0, |n.attributes| - i
  {
    if i >= |n.attributes| then 0 else ReachedWeightAmong(n, i, 0) + ReachedWeightFrom(n, i + 1)
  }

  function ReachedWeightAmong(n: Node, i: nat, j: nat): nat
    requires i < |n.attributes|
    decreases n, 0, |n.attributes| - i, |n.attributes[i].children| - j
  {
    var cs := n.attributes[i].children;
    if j >= |cs| then 0 else ReachedWeight(cs[j]) + ReachedWeightAmong(n, i, j + 1)
  }

  /** Lines 84-136: the number of entries is fixed by the tree alone: 16 for
      every reached ELEMENT and 1 for every other reached node, whatever the
      incoming path, term map or scope. */
  lemma {:induction false} BuildLength(n: Node, currentPath: string, terms: TermMap, archetypeId: string,
                                       isRoot: bool, parent: Parent)
    ensures |BuildJsonPaths(n, currentPath, terms, archetypeId, isRoot, parent)| == ReachedWeight(n)
    decreases n, 1
  {
    if n.nodeId.Some? {
      var path := NodePath(n, currentPath, archetypeId, isRoot, parent);
      var readable := Lookup(terms, Key(Scope(n, archetypeId), n.nodeId.value));
      if IsElement(n) {
        ElementExpansion(n, path, readable);
      }
      assert |OwnEntries(n, path, readable)| == Weight(n);
      ChildPathsLength(n, 0, path, terms, Scope(n, archetypeId));
    }
  }

  lemma {:induction false} ChildPathsLength(n: Node, i: nat, path: string, terms: TermMap, scope: string)
    ensures |ChildPaths(n, i, path, terms, scope)| == ReachedWeightFrom(n, i)
    decreases n, 0, |n.attributes| - i
  {
    if i < |n.attributes| {
      AttributePathsLength(n, i, 0, path, terms, scope);
      ChildPathsLength(n, i + 1, path, terms, scope);
    }
  }

  lemma {:induction false} AttributePathsLength(n: Node, i: nat, j: nat, path: string, terms: TermMap, scope: string)
    requires i < |n.attributes|
    ensures |AttributePaths(n, i, j, path, terms, scope)| == ReachedWeightAmong(n, i, j)
    decreases n, 0, |n.attributes| - i, |n.attributes[i].children| - j
  {
    var a := n.attributes[i];
    if j < |a.children| {
      BuildLength(a.children[j], path, terms, scope, false, ParentOf(a));
      AttributePathsLength(n, i, j + 1, path, terms, scope);
    }
  }

  lemma {:induction false} AttributeEntriesExtend(valuePath: string, valueLabel: string, attrs: seq<string>)
    ensures forall e :: e in AttributeEntries(valuePath, valueLabel, attrs) ==> valuePath <= e.path
  {
    if attrs != [] {
      AttributeEntriesExtend(valuePath, valueLabel, attrs[1..]);
    }
  }

  /** Every entry an ELEMENT adds lies strictly below the element's own path. */
  lemma ElementEntriesExtend(n: Node, path: string, readable: string)
    ensures forall e :: e in ElementEntries(n, path, readable) ==> path < e.path
  {
    if IsElement(n) {
      var valueLabel := if readable != "" then readable + ".value" else "value";
      var vp := path + ".value";
      var ae := AttributeEntries(vp, valueLabel, DvAttributes());
      assert ElementEntries(n, path, readable) == [PathEntry(vp, valueLabel)] + ae;
      AttributeEntriesExtend(vp, valueLabel, DvAttributes());
      forall e | e in ae ensures path < e.path {
        ProperPrefixTransitive(path, vp, e.path);
      }
    }
  }

  lemma NodePathExtends(n: Node, currentPath: string, archetypeId: string, isRoot: bool, parent: Parent)
    requires n.nodeId.Some?
    ensures currentPath <= NodePath(n, currentPath, archetypeId, isRoot, parent)
  {
  }

  /** Lines 84-86 and 133-136: a node without `node_id` emits nothing (its
      subtree is not visited); otherwise every entry of the node and of its
      whole subtree lies below the node's own path, which extends `currentPath`. */
  lemma {:induction false} BuildExtendsNodePath(n: Node, currentPath: string, terms: TermMap, archetypeId: string,
                                                isRoot: bool, parent: Parent)
    ensures n.nodeId.None? ==> BuildJsonPaths(n, currentPath, terms, archetypeId, isRoot, parent) == []
    ensures n.nodeId.Some? ==>
              forall e :: e in BuildJsonPaths(n, currentPath, terms, archetypeId, isRoot, parent) ==>
                NodePath(n, currentPath, archetypeId, isRoot, parent) <= e.path
    ensures forall e :: e in BuildJsonPaths(n, currentPath, terms, archetypeId, isRoot, parent) ==> currentPath <= e.path
    decreases n, 1
  {
    if n.nodeId.Some? {
      var path := NodePath(n, currentPath, archetypeId, isRoot, parent);
      var readable := Lookup(terms, Key(Scope(n, archetypeId), n.nodeId.value));
      ElementEntriesExtend(n, path, readable);
      ChildPathsExtend(n, 0, path, terms, Scope(n, archetypeId));
      NodePathExtends(n, currentPath, archetypeId, isRoot, parent);
      BuildUnfold(n, currentPath, terms, archetypeId, isRoot, parent);
      var r := BuildJsonPaths(n, currentPath, terms, archetypeId, isRoot, parent);
      forall e | e in r ensures path <= e.path && currentPath <= e.path {
        if e != PathEntry(path, readable) {
          assert e in ElementEntries(n, path, readable) || e in ChildPaths(n, 0, path, terms, Scope(n, archetypeId));
        }
        PrefixTransitive(currentPath, path, e.path);
      }
    }
  }

  lemma BuildUnfold(n: Node, currentPath: string, terms: TermMap, archetypeId: string, isRoot: bool, parent: Parent)
    requires n.nodeId.Some?
    ensures var path := NodePath(n, currentPath, archetypeId, isRoot, parent);
            var readable := Lookup(terms, Key(Scope(n, archetypeId), n.nodeId.value));
            BuildJsonPaths(n, currentPath, terms, archetypeId, isRoot, parent)
              == [PathEntry(path, readable)] + ElementEntries(n, path, readable) + ChildPaths(n, 0, path, terms, Scope(n, archetypeId))
  {
  }

  /** Every entry a child emits lies strictly below the parent's path, as each
      child adds at least `.<attr>` (lines 104-108). */
  lemma {:induction false} ChildPathsExtend(n: Node, i: nat, path: string, terms: TermMap, scope: string)
    ensures forall e :: e in ChildPaths(n, i, path, terms, scope) ==> path < e.path
    decreases n, 0, |n.attributes| - i
  {
    if i < |n.attributes| {
      AttributePathsExtend(n, i, 0, path, terms, scope);
      ChildPathsExtend(n, i + 1, path, terms, scope);
    }
  }

  lemma {:induction false} AttributePathsExtend(n: Node, i: nat, j: nat, path: string, terms: TermMap, scope: string)
    requires i < |n.attributes|
    ensures forall e :: e in AttributePaths(n, i, j, path, terms, scope) ==> path < e.path
    decreases n, 0, |n.attributes| - i, |n.attributes[i].children| - j
  {
    var a := n.attributes[i];
    if j < |a.children| {
      var c := a.children[j];
      AttributePathsUnfold(n, i, j, path, terms, scope);
      BuildExtendsNodePath(c, path, terms, scope, false, ParentOf(a));
      AttributePathsExtend(n, i, j + 1, path, terms, scope);
      if c.nodeId.Some? {
        ChildNodePathStrict(c, path, scope, a);
        forall e | e in BuildJsonPaths(c, path, terms, scope, false, ParentOf(a)) ensures path < e.path {
          ProperPrefixTransitive(path, NodePath(c, path, scope, false, ParentOf(a)), e.path);
        }
      }
    }
  }

  /** A child adds at least `.<attr>` to its parent's path. */
  lemma ChildNodePathStrict(c: Node, path: string, scope: string, a: Attribute)
    requires c.nodeId.Some?
    ensures path < NodePath(c, path, scope, false, ParentOf(a))
  {
  }

  lemma PrefixTransitive(a: string, b: string, c: string)
    requires a <= b && b <= c
    ensures a <= c
  {
    assert c[..|a|] == b[..|a|];
  }

  lemma ProperPrefixTransitive(a: string, b: string, c: string)
    requires a < b && b <= c
    ensures a < c
  {
    assert c[..|a|] == b[..|a|];
  }

  /** Lines 114-136: a node's first entry carries its own path, and every
      later entry of its subtree (the ELEMENT expansion and every descendant)
      has a path that strictly extends it. */
  lemma NodePathHeadsSubtree(n: Node, currentPath: string, terms: TermMap, archetypeId: string, isRoot: bool,
                             parent: Parent)
    requires n.nodeId.Some?
    ensures var r := BuildJsonPaths(n, currentPath, terms, archetypeId, isRoot, parent);
            && |r| > 0 && r[0].path == NodePath(n, currentPath, archetypeId, isRoot, parent)
            && forall k :: 0 < k < |r| ==> r[0].path < r[k].path
  {
    var path := NodePath(n, currentPath, archetypeId, isRoot, parent);
    var readable := Lookup(terms, Key(Scope(n, archetypeId), n.nodeId.value));
    var expansion := ElementEntries(n, path, readable);
    var below := ChildPaths(n, 0, path, terms, Scope(n, archetypeId));
    BuildUnfold(n, currentPath, terms, archetypeId, isRoot, parent);
    ElementEntriesExtend(n, path, readable);
    ChildPathsExtend(n, 0, path, terms, Scope(n, archetypeId));
    HeadPrefixesRest(PathEntry(path, readable), expansion, below);
  }

  lemma HeadPrefixesRest(head: PathEntry, xs: seq<PathEntry>, ys: seq<PathEntry>)
    requires forall e :: e in xs ==> head.path < e.path
    requires forall e :: e in ys ==> head.path < e.path
    ensures forall k :: 0 < k < |[head] + xs + ys| ==> head.path < ([head] + xs + ys)[k].path
  {
    var r := [head] + xs + ys;
    forall k | 0 < k < |r| ensures head.path < r[k].path {
      if k <= |xs| {
        assert r[k] == xs[k - 1];
      } else {
        assert r[k] == ys[k - 1 - |xs|];
      }
    }
  }

  /** Lines 115 and 135: below an archetype root with its own id, nothing the
      compiler emits depends on the scope it inherited. */
  lemma EmbeddedScopeIgnored(n: Node, currentPath: string, terms: TermMap, s1: string, s2: string, parent: Parent)
    requires LocalArchetypeId(n).Some?
    ensures BuildJsonPaths(n, currentPath, terms, s1, false, parent) == BuildJsonPaths(n, currentPath, terms, s2, false, parent)
  {
  }

  /** Lines 133-136: the output of every child of a node appears, unchanged
      and contiguous, in the node's output after the node's own entries. */
  lemma ChildOutputAppears(n: Node, currentPath: string, terms: TermMap, archetypeId: string, isRoot: bool,
                           parent: Parent, i: nat, j: nat)
    requires n.nodeId.Some? && i < |n.attributes| && j < |n.attributes[i].children|
    ensures var path := NodePath(n, currentPath, archetypeId, isRoot, parent);
            var readable := Lookup(terms, Key(Scope(n, archetypeId), n.nodeId.value));
            var r := BuildJsonPaths(n, currentPath, terms, archetypeId, isRoot, parent);
            var rc := BuildJsonPaths(n.attributes[i].children[j], path, terms, Scope(n, archetypeId), false,
                                     ParentOf(n.attributes[i]));
            IsInfix(rc, r[|OwnEntries(n, path, readable)|..])
  {
    var path := NodePath(n, currentPath, archetypeId, isRoot, parent);
    var readable := Lookup(terms, Key(Scope(n, archetypeId), n.nodeId.value));
    var scope := Scope(n, archetypeId);
    var rc := BuildJsonPaths(n.attributes[i].children[j], path, terms, scope, false, ParentOf(n.attributes[i]));
    var r := BuildJsonPaths(n, currentPath, terms, archetypeId, isRoot, parent);
    var own := OwnEntries(n, path, readable);
    ChildInAttribute(n, i, 0, j, path, terms, scope);
    AttributeInChildPaths(n, 0, i, path, terms, scope);
    InfixTransitive(rc, AttributePaths(n, i, 0, path, terms, scope), ChildPaths(n, 0, path, terms, scope));
    assert r[|own|..] == ChildPaths(n, 0, path, terms, scope);
  }

  lemma {:induction false} ChildInAttribute(n: Node, i: nat, j0: nat, j: nat, path: string, terms: TermMap, scope: string)
    requires i < |n.attributes| && j0 <= j < |n.attributes[i].children|
    ensures IsInfix(BuildJsonPaths(n.attributes[i].children[j], path, terms, scope, false, ParentOf(n.attributes[i])),
                    AttributePaths(n, i, j0, path, terms, scope))
    decreases j - j0
  {
    var a := n.attributes[i];
    var rc := BuildJsonPaths(a.children[j], path, terms, scope, false, ParentOf(a));
    var here := BuildJsonPaths(a.children[j0], path, terms, scope, false, ParentOf(a));
    var rest := AttributePaths(n, i, j0 + 1, path, terms, scope);
    AttributePathsUnfold(n, i, j0, path, terms, scope);
    if j0 == j {
      InfixOfPrefix(rc, rest);
    } else {
      ChildInAttribute(n, i, j0 + 1, j, path, terms, scope);
      InfixOfSuffix(rc, here, rest);
    }
  }

  lemma AttributePathsUnfold(n: Node, i: nat, j: nat, path: string, terms: TermMap, scope: string)
    requires i < |n.attributes| && j < |n.attributes[i].children|
    ensures AttributePaths(n, i, j, path, terms, scope)
              == BuildJsonPaths(n.attributes[i].children[j], path, terms, scope, false, ParentOf(n.attributes[i]))
                 + AttributePaths(n, i, j + 1, path, terms, scope)
  {
  }

  lemma ChildPathsUnfold(n: Node, i: nat, path: string, terms: TermMap, scope: string)
    requires i < |n.attributes|
    ensures ChildPaths(n, i, path, terms, scope)
              == AttributePaths(n, i, 0, path, terms, scope) + ChildPaths(n, i + 1, path, terms, scope)
  {
  }

  lemma InfixOfPrefix<T>(a: seq<T>, b: seq<T>)
    ensures IsInfix(a, a + b)
  {
    assert InfixAt(a, a + b, 0);
  }

  lemma {:induction false} AttributeInChildPaths(n: Node, i0: nat, i: nat, path: string, terms: TermMap, scope: string)
    requires i0 <= i < |n.attributes|
    ensures IsInfix(AttributePaths(n, i, 0, path, terms, scope), ChildPaths(n, i0, path, terms, scope))
    decreases i - i0
  {
    var ai := AttributePaths(n, i, 0, path, terms, scope);
    var here := AttributePaths(n, i0, 0, path, terms, scope);
    var rest := ChildPaths(n, i0 + 1, path, terms, scope);
    ChildPathsUnfold(n, i0, path, terms, scope);
    if i0 == i {
      InfixOfPrefix(ai, rest);
    } else {
      AttributeInChildPaths(n, i0 + 1, i, path, terms, scope);
      InfixOfSuffix(ai, here, rest);
    }
  }

  lemma InfixOfSuffix<T>(a: seq<T>, pre: seq<T>, b: seq<T>)
    requires IsInfix(a, b)
    ensures IsInfix(a, pre + b)
  {
    var k :| InfixAt(a, b, k);
    assert InfixAt(a, pre + b, |pre| + k) by {
      assert (pre + b)[|pre| + k..|pre| + k + |a|] == b[k..k + |a|];
    }
  }

  lemma InfixTransitive<T>(a: seq<T>, b: seq<T>, c: seq<T>)
    requires IsInfix(a, b) && IsInfix(b, c)
    ensures IsInfix(a, c)
  {
    var k :| InfixAt(a, b, k);
    var m :| InfixAt(b, c, m);
    forall t | 0 <= t < |a| ensures c[m + k + t] == a[t] {
      assert b[k + t] == a[t];
      assert c[m + (k + t)] == b[k + t];
    }
    assert c[m + k..m + k + |a|] == a;
    assert InfixAt(a, c, m + k);
  }

  /** Lines 145-149: every root `extract_jsonpaths_from_opt` compiles is an
      archetype root sitting in an `attributes` element of the definition. */
  lemma {:induction false} RootsAreUnderAttributes(defs: seq<Node>)
    ensures forall r :: r in RootsIn(defs) ==> r.0.kind == ArchetypeRoot && r.1.UnderAttribute?
  {
    if defs != [] {
      RootsUnderAttributes(defs[0].attributes);
      RootsAreUnderAttributes(defs[1..]);
    }
  }

  lemma {:induction false} RootsUnderAttributes(attrs: seq<Attribute>)
    ensures forall r :: r in RootsUnder(attrs) ==> r.0.kind == ArchetypeRoot && r.1.UnderAttribute?
  {
    if attrs != [] {
      RootsAmongAttribute(attrs[0].children, ParentOf(attrs[0]));
      RootsUnderAttributes(attrs[1..]);
    }
  }

  lemma {:induction false} RootsAmongAttribute(children: seq<Node>, parent: Parent)
    ensures forall r :: r in RootsAmong(children, parent) ==> r.0.kind == ArchetypeRoot && r.1 == parent
  {
    if children != [] {
      RootsAmongAttribute(children[1..], parent);
    }
  }

  /** The terminology resolver's root id and the compiler's scope agree on
      the root, so the root's own terms label the root. */
  lemma RootScope(root: Node)
    ensures Scope(root, RootId(root)) == RootId(root)
  {
  }

  /** Every path `extract_jsonpaths_from_opt` emits starts at `$` and goes
      through the definition's attribute: it starts with `$.`. */
  lemma {:induction false} CompiledPathsAnchored(roots: seq<(Node, Parent)>)
    requires forall r :: r in roots ==> r.1.UnderAttribute?
    ensures forall e :: e in CompileRoots(roots) ==> "$." <= e.path
  {
    if roots != [] {
      var (root, parent) := roots[0];
      var first := BuildJsonPaths(root, "$", TermMapOf(root), RootId(root), true, parent);
      assert CompileRoots(roots) == first + CompileRoots(roots[1..]);
      BuildExtendsNodePath(root, "$", TermMapOf(root), RootId(root), true, parent);
      CompiledPathsAnchored(roots[1..]);
      if root.nodeId.Some? {
        RootPathAnchored(root, parent);
        forall e | e in first ensures "$." <= e.path {
          PrefixTransitive("$.", NodePath(root, "$", RootId(root), true, parent), e.path);
        }
      }
    }
  }

  /** A root inside an `attributes` element adds `.<attr>` to `$`. */
  lemma RootPathAnchored(root: Node, parent: Parent)
    requires root.nodeId.Some? && parent.UnderAttribute?
    ensures "$." <= NodePath(root, "$", RootId(root), true, parent)
  {
  }

  lemma ExtractedPathsAnchored(t: Template)
    ensures forall e :: e in ExtractJsonPathsFromOpt(t) ==> "$." <= e.path
  {
    RootsAreUnderAttributes(t.definitions);
    CompiledPathsAnchored(ArchetypeRoots(t));
  }
}
