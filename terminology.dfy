/** The terminology resolver (`extract_local_term_definitions`,
    src/openEHRbunny.py:45-78): a flat map from "scope:code" to the stripped
    display text of each term definition.  Embedded archetype roots are read
    first, each under its own id; the root's direct term definitions are
    written last, under the root id. */
module Terminology {
  import opened Common
  import opened Template

  type TermMap = map<string, string>

  /** The f-string key `f"{scope}:{code}"`. */
  function Key(scope: string, code: string): string
  {
    scope + ":" + code
  }

  /** The test on line 58/69: `item.get("id") == "text" and item.text`. */
  predicate HasText(item: Item)
  {
    item.id == Some("text") && item.text.Some? && item.text.value != ""
  }

  /** The id an embedded block is filed under: the text of its
      `archetype_id/value`, rendered `None` when the element is absent or empty. */
  function EmbeddedId(block: Node): string
  {
    match block.archetypeId
    case Some(s) => if s == "" then "None" else s
    case None => "None"
  }

  /** The root id: `UNKNOWN` when `archetype_id/value` is absent, and `None`
      (lxml's `.text` of an empty element) when it is present but empty. */
  function RootId(root: Node): string
  {
    match root.archetypeId
    case Some(s) => if s == "" then "None" else s
    case None => "UNKNOWN"
  }

  /** One pass over a block's items: each qualifying item overwrites `key`. */
  function StoreItems(m: TermMap, key: string, items: seq<Item>): TermMap
  {
    if items == [] then m
    else
      var m' := StoreItems(m, key, items[..|items| - 1]);
      var item := items[|items| - 1];
      if HasText(item) then m'[key := Strip(item.text.value)] else m'
  }

  /** Every term definition of `defs`, in order, filed under `scope`. */
  function StoreDefs(m: TermMap, scope: string, defs: seq<TermDefinition>): TermMap
  {
    if defs == [] then m
    else
      var d := defs[|defs| - 1];
      StoreItems(StoreDefs(m, scope, defs[..|defs| - 1]), Key(scope, PyStr(d.code)), d.items)
  }

  /** Lines 49-59: every embedded block, in order, with all term definitions of its subtree. */
  function EmbeddedTerms(m: TermMap, blocks: seq<Node>): TermMap
  {
    if blocks == [] then m
    else
      var b := blocks[|blocks| - 1];
      StoreDefs(EmbeddedTerms(m, blocks[..|blocks| - 1]), EmbeddedId(b), DefsWithin(b))
  }

  /** The map `extract_local_term_definitions(root)` returns. */
  function TermMapOf(root: Node): TermMap
  {
    StoreDefs(EmbeddedTerms(map[], EmbeddedRoots(root)), RootId(root), root.termDefinitions)
  }

  /** The keys a list of definitions writes under `scope`. */
  function WrittenKeys(scope: string, defs: seq<TermDefinition>): set<string>
  {
    set d | d in defs && Defines(d) :: Key(scope, PyStr(d.code))
  }

  /** `extract_local_term_definitions` with its loops, minus the debug CSV (lines 72-76).
      The root's items loop runs once per item, as on lines 66-68. */
  method ExtractLocalTermDefinitions(cRoot: Node) returns (rootId: string, allTerms: TermMap)
    ensures rootId == RootId(cRoot)
    ensures allTerms == TermMapOf(cRoot)
  {
    allTerms := map[];
    var blocks := EmbeddedRoots(cRoot);
    for b := 0 to |blocks|
      invariant allTerms == EmbeddedTerms(map[], blocks[..b])
    {
      var block := blocks[b];
      var localId := EmbeddedId(block);
      var termDefs := DefsWithin(block);
      allTerms := StoreBlock(allTerms, localId, termDefs);
      assert blocks[..b + 1][..b] == blocks[..b];
    }
    assert blocks[..|blocks|] == blocks;

    rootId := RootId(cRoot);
    var rootDefs := cRoot.termDefinitions;
    ghost var embedded := allTerms;
    for d := 0 to |rootDefs|
      invariant allTerms == StoreDefs(embedded, rootId, rootDefs[..d])
    {
      var items := rootDefs[d].items;
      ghost var start := allTerms;
      for outer := 0 to |items|
        invariant allTerms == if outer == 0 then start else StoreItems(start, Key(rootId, PyStr(rootDefs[d].code)), items)
      {
        var code := PyStr(rootDefs[d].code);
        StoreItemsTwice(start, Key(rootId, code), items);
        allTerms := StoreTexts(allTerms, Key(rootId, code), items);
      }
      assert rootDefs[..d + 1][..d] == rootDefs[..d];
    }
    assert rootDefs[..|rootDefs|] == rootDefs;
  }

  /** Lines 53-59 for one embedded block: its definitions in order, under `localId`. */
  method StoreBlock(terms: TermMap, localId: string, termDefs: seq<TermDefinition>) returns (allTerms: TermMap)
    ensures allTerms == StoreDefs(terms, localId, termDefs)
  {
    allTerms := terms;
    for d := 0 to |termDefs|
      invariant allTerms == StoreDefs(terms, localId, termDefs[..d])
    {
      var code := PyStr(termDefs[d].code);
      allTerms := StoreTexts(allTerms, Key(localId, code), termDefs[d].items);
      assert termDefs[..d + 1][..d] == termDefs[..d];
    }
    assert termDefs[..|termDefs|] == termDefs;
  }

  /** The innermost loop (lines 57-59, 68-70): each qualifying item's stripped text is stored under `key`. */
  method StoreTexts(terms: TermMap, key: string, items: seq<Item>) returns (allTerms: TermMap)
    ensures allTerms == StoreItems(terms, key, items)
  {
    allTerms := terms;
    for k := 0 to |items|
      invariant allTerms == StoreItems(terms, key, items[..k])
    {
      if HasText(items[k]) {
        allTerms := allTerms[key := Strip(items[k].text.value)];
      }
      assert items[..k + 1][..k] == items[..k];
    }
    assert items[..|items|] == items;
  }

  /** A pass over items overrides the starting map: what it writes replaces
      whatever was there, and everything else is left alone. */
  lemma {:induction false} StoreItemsOverride(m1: TermMap, m2: TermMap, key: string, items: seq<Item>)
    ensures StoreItems(m1 + m2, key, items) == m1 + StoreItems(m2, key, items)
  {
    if items != [] {
      var init := items[..|items| - 1];
      var item := items[|items| - 1];
      StoreItemsOverride(m1, m2, key, init);
      if HasText(item) {
        UpdateOverUnion(m1, StoreItems(m2, key, init), key, Strip(item.text.value));
      }
    }
  }

  lemma UpdateOverUnion(m1: TermMap, m2: TermMap, k: string, v: string)
    ensures (m1 + m2)[k := v] == m1 + m2[k := v]
  {
  }

  /** Running the same pass twice gives what running it once gives, so the
      repeated inner loop of lines 66-70 stores exactly one pass's entries. */
  lemma StoreItemsTwice(m: TermMap, key: string, items: seq<Item>)
    ensures StoreItems(StoreItems(m, key, items), key, items) == StoreItems(m, key, items)
  {
    var w := StoreItems(map[], key, items);
    StoreItemsOverride(m, map[], key, items);
    assert m + map[] == m;
    StoreItemsOverride(m + w, map[], key, items);
    assert (m + w) + map[] == m + w;
    assert (m + w) + w == m + w;
  }

  lemma {:induction false} StoreDefsOverride(m1: TermMap, m2: TermMap, scope: string, defs: seq<TermDefinition>)
    ensures StoreDefs(m1 + m2, scope, defs) == m1 + StoreDefs(m2, scope, defs)
  {
    if defs != [] {
      var d := defs[|defs| - 1];
      StoreDefsOverride(m1, m2, scope, defs[..|defs| - 1]);
      StoreItemsOverride(m1, StoreDefs(m2, scope, defs[..|defs| - 1]), Key(scope, PyStr(d.code)), d.items);
    }
  }

  /** A definition with at least one qualifying item writes its key. */
  predicate Defines(d: TermDefinition)
  {
    exists item :: item in d.items && HasText(item)
  }

  /** The keys one pass writes: `key` exactly when some item qualifies. */
  lemma {:induction false} StoreItemsKeys(key: string, items: seq<Item>)
    ensures StoreItems(map[], key, items).Keys == if exists item :: item in items && HasText(item) then {key} else {}
  {
    if items != [] {
      var init := items[..|items| - 1];
      assert items == init + [items[|items| - 1]];
      StoreItemsKeys(key, init);
    }
  }

  /** Every value one pass writes is the stripped text of a qualifying item. */
  lemma {:induction false} StoreItemsValue(key: string, items: seq<Item>)
    requires key in StoreItems(map[], key, items)
    ensures exists item :: item in items && HasText(item) && StoreItems(map[], key, items)[key] == Strip(item.text.value)
  {
    var init := items[..|items| - 1];
    var last := items[|items| - 1];
    assert items == init + [last];
    if !HasText(last) {
      StoreItemsValue(key, init);
      var item :| item in init && HasText(item) && StoreItems(map[], key, init)[key] == Strip(item.text.value);
      assert item in items;
    }
  }

  /** The keys a list of definitions writes: those of the definitions with a qualifying item. */
  lemma {:induction false} StoreDefsKeys(scope: string, defs: seq<TermDefinition>)
    ensures StoreDefs(map[], scope, defs).Keys == WrittenKeys(scope, defs)
  {
    if defs != [] {
      var init := defs[..|defs| - 1];
      var d := defs[|defs| - 1];
      var key := Key(scope, PyStr(d.code));
      assert defs == init + [d];
      StoreDefsKeys(scope, init);
      StoreItemsKeys(key, d.items);
      StoreItemsOverride(StoreDefs(map[], scope, init), map[], key, d.items);
      assert StoreDefs(map[], scope, init) + map[] == StoreDefs(map[], scope, init);
      assert WrittenKeys(scope, defs) == WrittenKeys(scope, init) + (if Defines(d) then {key} else {});
    }
  }

  /** Every value a list of definitions writes under `k` is the stripped text
      of a qualifying item of a definition whose key is `k`. */
  lemma {:induction false} StoreDefsValue(scope: string, defs: seq<TermDefinition>, k: string)
    requires k in StoreDefs(map[], scope, defs)
    ensures exists d, item :: d in defs && Key(scope, PyStr(d.code)) == k && item in d.items && HasText(item)
                              && StoreDefs(map[], scope, defs)[k] == Strip(item.text.value)
  {
    var init := defs[..|defs| - 1];
    var d := defs[|defs| - 1];
    var key := Key(scope, PyStr(d.code));
    assert defs == init + [d];
    var before := StoreDefs(map[], scope, init);
    StoreItemsOverride(before, map[], key, d.items);
    assert before + map[] == before;
    if k == key && key in StoreItems(map[], key, d.items) {
      StoreItemsValue(key, d.items);
      var item :| item in d.items && HasText(item) && StoreItems(map[], key, d.items)[key] == Strip(item.text.value);
      assert StoreDefs(map[], scope, defs)[k] == Strip(item.text.value);
    } else {
      StoreItemsKeys(key, d.items);
      StoreDefsValue(scope, init, k);
      var d', item :| d' in init && Key(scope, PyStr(d'.code)) == k && item in d'.items && HasText(item)
                      && before[k] == Strip(item.text.value);
      assert d' in defs;
    }
  }

  /** Within one scope, different codes give different keys. */
  lemma KeyInjective(scope: string, a: string, b: string)
    ensures Key(scope, a) == Key(scope, b) ==> a == b
  {
    if Key(scope, a) == Key(scope, b) {
      assert Key(scope, a)[|scope| + 1..] == a;
      assert Key(scope, b)[|scope| + 1..] == b;
    }
  }

  /** `items[j]` is the last item that qualifies. */
  predicate LastText(items: seq<Item>, j: int)
  {
    0 <= j < |items| && HasText(items[j]) && forall t :: j < t < |items| ==> !HasText(items[t])
  }

  /** `defs[i]` is the last definition that writes its key under `scope`. */
  predicate LastDefining(scope: string, defs: seq<TermDefinition>, i: int)
  {
    && 0 <= i < |defs| && Defines(defs[i])
    && forall t :: i < t < |defs| ==> !(Defines(defs[t]) && PyStr(defs[t].code) == PyStr(defs[i].code))
  }

  /** Lines 57-59: every qualifying item overwrites the key, so the last one's
      stripped text is what a pass leaves. */
  lemma {:induction false} StoreItemsLast(m: TermMap, key: string, items: seq<Item>, j: int)
    requires LastText(items, j)
    ensures key in StoreItems(m, key, items)
    ensures StoreItems(m, key, items)[key] == Strip(items[j].text.value)
  {
    var init := items[..|items| - 1];
    if j < |items| - 1 {
      assert LastText(init, j) by {
        forall t | j < t < |init| ensures !HasText(init[t]) {
          assert init[t] == items[t];
        }
      }
      StoreItemsLast(m, key, init, j);
    }
  }

  /** Lines 54-59: of the definitions filed under one key, the last one that
      writes it decides the value. */
  lemma {:induction false} StoreDefsLast(scope: string, defs: seq<TermDefinition>, i: int)
    requires LastDefining(scope, defs, i)
    ensures var k := Key(scope, PyStr(defs[i].code));
            && k in StoreDefs(map[], scope, defs) && k in StoreItems(map[], k, defs[i].items)
            && StoreDefs(map[], scope, defs)[k] == StoreItems(map[], k, defs[i].items)[k]
  {
    var k := Key(scope, PyStr(defs[i].code));
    var init := defs[..|defs| - 1];
    var d := defs[|defs| - 1];
    var key := Key(scope, PyStr(d.code));
    var before := StoreDefs(map[], scope, init);
    StoreItemsOverride(before, map[], key, d.items);
    assert before + map[] == before;
    StoreItemsKeys(key, d.items);
    StoreItemsKeys(k, defs[i].items);
    if i < |defs| - 1 {
      assert LastDefining(scope, init, i) by {
        forall t | i < t < |init| ensures !(Defines(init[t]) && PyStr(init[t].code) == PyStr(init[i].code)) {
          assert init[t] == defs[t];
        }
      }
      StoreDefsLast(scope, init, i);
      assert !(Defines(d) && PyStr(d.code) == PyStr(defs[i].code));
      KeyInjective(scope, PyStr(d.code), PyStr(defs[i].code));
    }
  }

  /** Root entries are written last: the term map is the embedded blocks'
      map overridden by the map of the root's own definitions. */
  lemma TermMapRootWins(root: Node)
    ensures TermMapOf(root) == EmbeddedTerms(map[], EmbeddedRoots(root)) + StoreDefs(map[], RootId(root), root.termDefinitions)
  {
    var e := EmbeddedTerms(map[], EmbeddedRoots(root));
    StoreDefsOverride(e, map[], RootId(root), root.termDefinitions);
    assert e + map[] == e;
  }

  /** A key the root defines holds the stripped text of one of the root's own items. */
  lemma TermMapRootEntry(root: Node, k: string)
    requires k in WrittenKeys(RootId(root), root.termDefinitions)
    ensures k in TermMapOf(root)
    ensures exists d, item :: d in root.termDefinitions && Key(RootId(root), PyStr(d.code)) == k
                              && item in d.items && HasText(item) && TermMapOf(root)[k] == Strip(item.text.value)
  {
    TermMapRootWins(root);
    StoreDefsKeys(RootId(root), root.termDefinitions);
    StoreDefsValue(RootId(root), root.termDefinitions, k);
  }

  /** Lines 62-70: a key the root defines holds the stripped text of the last
      qualifying item of the last root definition with that code. */
  lemma TermMapRootLast(root: Node, i: int, j: int)
    requires LastDefining(RootId(root), root.termDefinitions, i)
    requires LastText(root.termDefinitions[i].items, j)
    ensures Key(RootId(root), PyStr(root.termDefinitions[i].code)) in TermMapOf(root)
    ensures TermMapOf(root)[Key(RootId(root), PyStr(root.termDefinitions[i].code))]
              == Strip(root.termDefinitions[i].items[j].text.value)
  {
    var d := root.termDefinitions[i];
    var k := Key(RootId(root), PyStr(d.code));
    TermMapRootWins(root);
    StoreDefsLast(RootId(root), root.termDefinitions, i);
    StoreItemsLast(map[], k, d.items, j);
  }

  /** Any other key keeps the value the embedded blocks gave it. */
  lemma TermMapEmbeddedEntry(root: Node, k: string)
    requires k in TermMapOf(root) && k !in WrittenKeys(RootId(root), root.termDefinitions)
    ensures k in EmbeddedTerms(map[], EmbeddedRoots(root))
    ensures TermMapOf(root)[k] == EmbeddedTerms(map[], EmbeddedRoots(root))[k]
  {
    TermMapRootWins(root);
    StoreDefsKeys(RootId(root), root.termDefinitions);
  }

  /** One more embedded block overrides what the earlier blocks stored. */
  lemma EmbeddedTermsStep(blocks: seq<Node>)
    requires blocks != []
    ensures var b := blocks[|blocks| - 1];
            EmbeddedTerms(map[], blocks)
              == EmbeddedTerms(map[], blocks[..|blocks| - 1]) + StoreDefs(map[], EmbeddedId(b), DefsWithin(b))
  {
    var b := blocks[|blocks| - 1];
    var e := EmbeddedTerms(map[], blocks[..|blocks| - 1]);
    StoreDefsOverride(e, map[], EmbeddedId(b), DefsWithin(b));
    assert e + map[] == e;
  }

  /** Lines 49-59: the embedded map holds exactly the keys some block writes,
      each block filing every qualifying definition of its subtree, nested
      ones included, under its own id. */
  lemma {:induction false} EmbeddedTermsKeys(blocks: seq<Node>, k: string)
    ensures k in EmbeddedTerms(map[], blocks) <==>
              exists b :: b in blocks && k in WrittenKeys(EmbeddedId(b), DefsWithin(b))
  {
    if blocks != [] {
      var init := blocks[..|blocks| - 1];
      var last := blocks[|blocks| - 1];
      assert blocks == init + [last];
      EmbeddedTermsStep(blocks);
      EmbeddedTermsKeys(init, k);
      StoreDefsKeys(EmbeddedId(last), DefsWithin(last));
      if k in EmbeddedTerms(map[], init) {
        var b :| b in init && k in WrittenKeys(EmbeddedId(b), DefsWithin(b));
        assert b in blocks;
      }
    }
  }

  /** Lines 49-59: a key several blocks write keeps what the last of them
      stored, whatever the earlier ones wrote. */
  lemma {:induction false} EmbeddedTermsLastWins(blocks: seq<Node>, i: nat, k: string)
    requires i < |blocks|
    requires k in WrittenKeys(EmbeddedId(blocks[i]), DefsWithin(blocks[i]))
    requires forall j :: i < j < |blocks| ==> k !in WrittenKeys(EmbeddedId(blocks[j]), DefsWithin(blocks[j]))
    ensures k in EmbeddedTerms(map[], blocks) && k in StoreDefs(map[], EmbeddedId(blocks[i]), DefsWithin(blocks[i]))
    ensures EmbeddedTerms(map[], blocks)[k] == StoreDefs(map[], EmbeddedId(blocks[i]), DefsWithin(blocks[i]))[k]
  {
    var init := blocks[..|blocks| - 1];
    var last := blocks[|blocks| - 1];
    EmbeddedTermsStep(blocks);
    StoreDefsKeys(EmbeddedId(last), DefsWithin(last));
    StoreDefsKeys(EmbeddedId(blocks[i]), DefsWithin(blocks[i]));
    if i < |blocks| - 1 {
      assert init[i] == blocks[i];
      forall j | i < j < |init| ensures k !in WrittenKeys(EmbeddedId(init[j]), DefsWithin(init[j])) {
        assert init[j] == blocks[j];
      }
      EmbeddedTermsLastWins(init, i, k);
    }
  }

  /** Lines 49-59 in full: for a key that block `b` is the last to write, the
      value is the last qualifying item of the last definition in `b`'s
      subtree filed under that key; the block's own definitions come last,
      so its own labels win over those of its nested archetypes. */
  lemma EmbeddedTermsLast(blocks: seq<Node>, b: nat, i: int, j: int)
    requires b < |blocks|
    requires LastDefining(EmbeddedId(blocks[b]), DefsWithin(blocks[b]), i)
    requires LastText(DefsWithin(blocks[b])[i].items, j)
    requires forall t :: b < t < |blocks| ==>
               Key(EmbeddedId(blocks[b]), PyStr(DefsWithin(blocks[b])[i].code))
                 !in WrittenKeys(EmbeddedId(blocks[t]), DefsWithin(blocks[t]))
    ensures Key(EmbeddedId(blocks[b]), PyStr(DefsWithin(blocks[b])[i].code)) in EmbeddedTerms(map[], blocks)
    ensures EmbeddedTerms(map[], blocks)[Key(EmbeddedId(blocks[b]), PyStr(DefsWithin(blocks[b])[i].code))]
              == Strip(DefsWithin(blocks[b])[i].items[j].text.value)
  {
    var scope := EmbeddedId(blocks[b]);
    var defs := DefsWithin(blocks[b]);
    var k := Key(scope, PyStr(defs[i].code));
    assert defs[i] in defs;
    assert k in WrittenKeys(scope, defs);
    EmbeddedTermsLastWins(blocks, b, k);
    StoreDefsLast(scope, defs, i);
    StoreItemsLast(map[], k, defs[i].items, j);
  }

  /** `.//term_definitions` reaches into nested blocks: every definition in a
      child's subtree is also read for the enclosing block. */
  lemma {:induction false} DefsWithinChild(n: Node, i: nat, j: nat, d: TermDefinition)
    requires i < |n.attributes| && j < |n.attributes[i].children|
    requires d in DefsWithin(n.attributes[i].children[j])
    ensures d in DefsWithin(n)
  {
    DefsAmongHasChild(n, i, 0, j, d);
    DefsFromHasAttribute(n, 0, i, d);
  }

  lemma {:induction false} DefsAmongHasChild(n: Node, i: nat, j0: nat, j: nat, d: TermDefinition)
    requires i < |n.attributes| && j0 <= j < |n.attributes[i].children|
    requires d in DefsWithin(n.attributes[i].children[j])
    ensures d in DefsWithinAmong(n, i, j0)
    decreases j - j0
  {
    if j0 < j {
      DefsAmongHasChild(n, i, j0 + 1, j, d);
    }
  }

  lemma {:induction false} DefsFromHasAttribute(n: Node, i0: nat, i: nat, d: TermDefinition)
    requires i0 <= i < |n.attributes|
    requires d in DefsWithinAmong(n, i, 0)
    ensures d in DefsWithinFrom(n, i0)
    decreases i - i0
  {
    if i0 < i {
      DefsFromHasAttribute(n, i0 + 1, i, d);
    }
  }
}
