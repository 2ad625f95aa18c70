/** Small value-level helpers shared by the template compiler, the aggregator
    and the report layout: an Option type, Python's rendering of an optional
    string inside an f-string, Python's `str.strip()`, and the "distinct values
    in first-seen order" view that Python's insertion-ordered dicts give. */
module Common {

  datatype Option<+T> = None | Some(value: T)

  /** What `f"{x}"` renders for an optional string: the text itself, or `None`. */
  function PyStr(x: Option<string>): string
  {
    match x
    case Some(s) => s
    case None => "None"
  }

  /** Characters for which Python's `str.isspace()` holds, so the ones `strip()` removes. */
  predicate IsSpace(c: char)
  {
    || c == ' ' || ('\t' <= c <= '\r') || ('\U{1C}' <= c <= '\U{1F}')
    || c == '\U{85}' || c == '\U{A0}' || c == '\U{1680}'
    || ('\U{2000}' <= c <= '\U{200A}') || c == '\U{2028}' || c == '\U{2029}'
    || c == '\U{202F}' || c == '\U{205F}' || c == '\U{3000}'
  }

  /** `s.lstrip()`: the suffix of `s` left after dropping leading whitespace. */
  function TrimStart(s: string): (r: string)
    ensures |r| <= |s| && r == s[|s| - |r|..]
    ensures r == [] || !IsSpace(r[0])
    ensures forall k :: 0 <= k < |s| - |r| ==> IsSpace(s[k])
  {
    if s == [] || !IsSpace(s[0]) then s else TrimStart(s[1..])
  }

  /** `s.rstrip()`: the prefix of `s` left after dropping trailing whitespace. */
  function TrimEnd(s: string): (r: string)
    ensures |r| <= |s| && r == s[..|r|]
    ensures r == [] || !IsSpace(r[|r| - 1])
    ensures forall k :: |r| <= k < |s| ==> IsSpace(s[k])
  {
    if s == [] || !IsSpace(s[|s| - 1]) then s else TrimEnd(s[..|s| - 1])
  }

  /** `s.strip()`: a contiguous slice of `s`, obtained by removing only
      whitespace, that neither starts nor ends with whitespace. */
  function Strip(s: string): (r: string)
    ensures exists i, j :: 0 <= i <= j <= |s| && r == s[i..j]
                           && (forall k :: 0 <= k < i ==> IsSpace(s[k]))
                           && (forall k :: j <= k < |s| ==> IsSpace(s[k]))
    ensures r == [] || (!IsSpace(r[0]) && !IsSpace(r[|r| - 1]))
  {
    var t := TrimStart(s);
    var r := TrimEnd(t);
    var i := |s| - |t|;
    assert r == s[i..i + |r|];
    r
  }

  predicate Distinct<T(==)>(xs: seq<T>)
  {
    forall i, j :: 0 <= i < j < |xs| ==> xs[i] != xs[j]
  }

  /** Index of the first occurrence of `x` in `xs`. */
  function FirstIndex<T(==)>(xs: seq<T>, x: T): (k: nat)
    requires x in xs
    ensures k < |xs| && xs[k] == x
    ensures forall j :: 0 <= j < k ==> xs[j] != x
  {
    if xs[0] == x then 0 else 1 + FirstIndex(xs[1..], x)
  }

  /** The distinct elements of `xs`, each where it first occurs: the key order
      of a Python dict filled by walking `xs` from left to right. */
  function FirstSeen<T(==,!new)>(xs: seq<T>): (r: seq<T>)
    ensures forall x :: x in r <==> x in xs
    ensures Distinct(r)
    ensures |r| <= |xs|
    ensures xs != [] ==> |r| >= 1
  {
    if xs == [] then []
    else
      var r0 := FirstSeen(xs[..|xs| - 1]);
      var x := xs[|xs| - 1];
      assert forall y :: y in xs <==> y in xs[..|xs| - 1] || y == x by {
        assert xs == xs[..|xs| - 1] + [x];
      }
      if x in r0 then r0 else r0 + [x]
  }

  lemma FirstSeenSnoc<T(!new)>(xs: seq<T>, x: T)
    ensures FirstSeen(xs + [x]) == if x in FirstSeen(xs) then FirstSeen(xs) else FirstSeen(xs) + [x]
  {
  }

  /** FirstSeen lists values in the order of their first occurrences. */
  lemma {:induction false} FirstSeenOrder<T(!new)>(xs: seq<T>, i: nat, j: nat)
    requires i < j < |FirstSeen(xs)|
    ensures FirstIndex(xs, FirstSeen(xs)[i]) < FirstIndex(xs, FirstSeen(xs)[j])
  {
    var init := xs[..|xs| - 1];
    var x := xs[|xs| - 1];
    var r0 := FirstSeen(init);
    assert xs == init + [x];
    FirstIndexPrefix(init, x, FirstSeen(xs)[i]);
    if j < |r0| {
      FirstSeenOrder(init, i, j);
      FirstIndexPrefix(init, x, FirstSeen(xs)[j]);
    } else {
      // the last value of FirstSeen(xs) is x, which does not occur in init
      assert FirstSeen(xs)[j] == x && x !in init;
      var k := FirstIndex(xs, x);
      assert k == |init|;
      assert FirstSeen(xs)[i] in r0;
      assert FirstIndex(init, FirstSeen(xs)[i]) < |init|;
    }
  }

  lemma FirstIndexPrefix<T>(init: seq<T>, x: T, y: T)
    requires y in init
    ensures FirstIndex(init + [x], y) == FirstIndex(init, y)
  {
    var k := FirstIndex(init, y);
    var k' := FirstIndex(init + [x], y);
    assert (init + [x])[k] == y;
  }
}
