/**
 * The tree helpers of resize/aws.go: attr, findAll with its matchers, and
 * text.
 */
module Search {
  import opened Wrappers
  import opened Strings
  import opened Html

  /** No attribute before index `i` has the key `key`. */
  predicate NoKeyBefore(attrs: seq<Attribute>, key: string, i: nat)
    requires i <= |attrs|
  {
    forall j | 0 <= j < i :: attrs[j].key != key
  }

  /** The value of the first attribute whose key is `key`, or "" when there is none. */
  function AttrOf(attrs: seq<Attribute>, key: string): (r: string)
    ensures NoKeyBefore(attrs, key, |attrs|) ==> r == ""
    ensures forall i | 0 <= i < |attrs| && attrs[i].key == key && NoKeyBefore(attrs, key, i) :: r == attrs[i].val
  {
    if attrs == [] then ""
    else if attrs[0].key == key then attrs[0].val
    else
      var rest := attrs[1..];
      var r := AttrOf(rest, key);
      assert forall i | 1 <= i <= |attrs| :: NoKeyBefore(attrs, key, i) == NoKeyBefore(rest, key, i - 1);
      assert forall i | 1 <= i < |attrs| :: rest[i - 1] == attrs[i];
      r
  }

  /** attr: scans the attributes in order and returns at the first key that matches. */
  method Attr(n: Node, key: string) returns (r: string)
    ensures r == AttrOf(n.attr, key)
  {
    for i := 0 to |n.attr|
      invariant NoKeyBefore(n.attr, key, i)
    {
      if n.attr[i].key == key {
        return n.attr[i].val;
      }
    }
    return "";
  }

  /** byTag: matches the nodes whose interned tag `dataAtom` is `a`, whatever their type. */
  function ByTag(a: Atom): Node -> bool
  {
    (n: Node) => n.dataAtom == a
  }

  /** The matcher text uses: text nodes. */
  predicate IsText(n: Node) {
    n.nodeType == TextNode
  }

  /**
   * findAll: `n` alone when it matches (its subtree is not searched);
   * otherwise the matches under its children, child by child.
   */
  function FindAll(t: Tree, n: nat, matcher: Node -> bool): (r: seq<nat>)
    requires Valid(t) && n < |t|
    ensures forall k | 0 <= k < |r| :: r[k] < |t| && matcher(t[r[k]])
    decreases |t| - n, 0
  {
    if matcher(t[n]) then [n] else FindAllFrom(t, t[n].firstChild, matcher)
  }

  /** The loop of findAll over the child `c` and the siblings after it. */
  function FindAllFrom(t: Tree, c: Link, matcher: Node -> bool): (r: seq<nat>)
    requires Valid(t) && InTree(t, c)
    ensures forall k | 0 <= k < |r| :: r[k] < |t| && matcher(t[r[k]])
    decreases if c.Some? then |t| - c.value else 0, 1
  {
    match c
    case None => []
    case Some(i) => FindAll(t, i, matcher) + FindAllFrom(t, t[i].nextSibling, matcher)
  }

  /** Every node findAll returns lies in the subtree it searched. */
  lemma {:induction false} FindAllInSubtree(t: Tree, n: nat, matcher: Node -> bool)
    requires Valid(t) && n < |t|
    ensures forall k | 0 <= k < |FindAll(t, n, matcher)| :: FindAll(t, n, matcher)[k] in Preorder(t, n)
    decreases |t| - n, 0
  {
    if !matcher(t[n]) {
      FindAllFromInSubtrees(t, t[n].firstChild, matcher);
    }
  }

  lemma {:induction false} FindAllFromInSubtrees(t: Tree, c: Link, matcher: Node -> bool)
    requires Valid(t) && InTree(t, c)
    ensures forall k | 0 <= k < |FindAllFrom(t, c, matcher)| :: FindAllFrom(t, c, matcher)[k] in PreorderFrom(t, c)
    decreases if c.Some? then |t| - c.value else 0, 1
  {
    if c.Some? {
      FindAllInSubtree(t, c.value, matcher);
      FindAllFromInSubtrees(t, t[c.value].nextSibling, matcher);
    }
  }

  /** No node of `xs` that matches has a matching node below it. */
  predicate NoNestedMatch(t: Tree, xs: seq<nat>, matcher: Node -> bool)
    requires Valid(t) && AllIn(t, xs)
  {
    forall i | 0 <= i < |xs| && matcher(t[xs[i]]) ::
      forall k | 1 <= k < |Preorder(t, xs[i])| :: !matcher(t[Preorder(t, xs[i])[k]])
  }

  /**
   * When matches do not nest, findAll is every matching node of the
   * subtree in document order. (Where they nest, findAll keeps only the
   * outer one: see FindAllPrunesNestedMatch.)
   */
  lemma {:induction false} FindAllIsSelect(t: Tree, n: nat, matcher: Node -> bool)
    requires Valid(t) && n < |t| && NoNestedMatch(t, Preorder(t, n), matcher)
    ensures FindAll(t, n, matcher) == Select(t, Preorder(t, n), matcher)
    decreases |t| - n, 0
  {
    var all := Preorder(t, n);
    var rest := PreorderFrom(t, t[n].firstChild);
    assert all == [n] + rest && all[1..] == rest;
    if matcher(t[n]) {
      assert forall k | 0 <= k < |rest| :: !matcher(t[rest[k]]) by {
        forall k | 0 <= k < |rest| ensures !matcher(t[rest[k]]) {
          assert all[k + 1] == rest[k];
        }
      }
      SelectNone(t, rest, matcher);
    } else {
      assert NoNestedMatch(t, rest, matcher) by {
        forall i | 0 <= i < |rest| && matcher(t[rest[i]])
          ensures forall k | 1 <= k < |Preorder(t, rest[i])| :: !matcher(t[Preorder(t, rest[i])[k]])
        {
          assert all[i + 1] == rest[i];
        }
      }
      FindAllFromIsSelect(t, t[n].firstChild, matcher);
    }
  }

  lemma {:induction false} FindAllFromIsSelect(t: Tree, c: Link, matcher: Node -> bool)
    requires Valid(t) && InTree(t, c) && NoNestedMatch(t, PreorderFrom(t, c), matcher)
    ensures FindAllFrom(t, c, matcher) == Select(t, PreorderFrom(t, c), matcher)
    decreases if c.Some? then |t| - c.value else 0, 1
  {
    if c.Some? {
      var head := Preorder(t, c.value);
      var tail := PreorderFrom(t, t[c.value].nextSibling);
      var all := PreorderFrom(t, c);
      assert all == head + tail;
      assert NoNestedMatch(t, head, matcher) by {
        forall i | 0 <= i < |head| && matcher(t[head[i]])
          ensures forall k | 1 <= k < |Preorder(t, head[i])| :: !matcher(t[Preorder(t, head[i])[k]])
        {
          assert all[i] == head[i];
        }
      }
      assert NoNestedMatch(t, tail, matcher) by {
        forall i | 0 <= i < |tail| && matcher(t[tail[i]])
          ensures forall k | 1 <= k < |Preorder(t, tail[i])| :: !matcher(t[Preorder(t, tail[i])[k]])
        {
          assert all[|head| + i] == tail[i];
        }
      }
      FindAllIsSelect(t, c.value, matcher);
      FindAllFromIsSelect(t, t[c.value].nextSibling, matcher);
      SelectConcat(t, head, tail, matcher);
    }
  }

  /**
   * Whatever the matcher, nested matches included, findAll returns matching
   * nodes of the subtree in document order: a subsequence of all of them.
   */
  lemma {:induction false} FindAllSubseqSelect(t: Tree, n: nat, matcher: Node -> bool)
    requires Valid(t) && n < |t|
    ensures Subseq(FindAll(t, n, matcher), Select(t, Preorder(t, n), matcher))
    decreases |t| - n, 0
  {
    var all := Preorder(t, n);
    var rest := PreorderFrom(t, t[n].firstChild);
    assert all == [n] + rest && all[1..] == rest;
    FindAllFromSubseqSelect(t, t[n].firstChild, matcher);
    if matcher(t[n]) {
      assert Select(t, all, matcher) == [n] + Select(t, rest, matcher);
      assert [n][1..] == [];
    } else {
      assert Select(t, all, matcher) == Select(t, rest, matcher);
    }
  }

  lemma {:induction false} FindAllFromSubseqSelect(t: Tree, c: Link, matcher: Node -> bool)
    requires Valid(t) && InTree(t, c)
    ensures Subseq(FindAllFrom(t, c, matcher), Select(t, PreorderFrom(t, c), matcher))
    decreases if c.Some? then |t| - c.value else 0, 1
  {
    if c.Some? {
      var head := Preorder(t, c.value);
      var tail := PreorderFrom(t, t[c.value].nextSibling);
      FindAllSubseqSelect(t, c.value, matcher);
      FindAllFromSubseqSelect(t, t[c.value].nextSibling, matcher);
      SelectConcat(t, head, tail, matcher);
      SubseqConcat(FindAll(t, c.value, matcher), Select(t, head, matcher),
                   FindAllFrom(t, t[c.value].nextSibling, matcher), Select(t, tail, matcher));
    }
  }

  /** The `data` of each node of `xs`, in order. */
  function DataOf(t: Tree, xs: seq<nat>): seq<string>
    requires AllIn(t, xs)
  {
    seq(|xs|, k requires 0 <= k < |xs| => t[xs[k]].data)
  }

  /**
   * text: the data of the text nodes under `n`, joined with single spaces,
   * with white space trimmed from the two ends only.
   */
  function TextOf(t: Tree, n: nat): (r: string)
    requires Valid(t) && n < |t|
    ensures Trimmed(r)
    ensures FindAll(t, n, IsText) == [] ==> r == ""
  {
    TrimSpace(Join(DataOf(t, FindAll(t, n, IsText)), " "))
  }

  /** text: fills `parts` index by index, then joins and trims. */
  method Text(t: Tree, n: nat) returns (s: string)
    requires Valid(t) && n < |t|
    ensures s == TextOf(t, n)
  {
    var textNodes := FindAll(t, n, IsText);
    var parts := new string[|textNodes|];
    for i := 0 to |textNodes|
      invariant forall k | 0 <= k < i :: parts[k] == t[textNodes[k]].data
    {
      parts[i] := t[textNodes[i]].data;
    }
    assert parts[..] == DataOf(t, textNodes);
    s := TrimSpace(Join(parts[..], " "));
  }

  /**
   * The text of a node is the data of every text node of its subtree, in
   * document order, joined with single spaces and trimmed at the ends.
   */
  lemma TextOfSubtree(t: Tree, n: nat)
    requires Valid(t) && n < |t|
    ensures TextOf(t, n) == TrimSpace(Join(DataOf(t, Select(t, Preorder(t, n), IsText)), " "))
  {
    var all := Preorder(t, n);
    assert NoNestedMatch(t, all, IsText) by {
      forall i | 0 <= i < |all| && IsText(t[all[i]])
        ensures Preorder(t, all[i]) == [all[i]]
      {
      }
    }
    FindAllIsSelect(t, n, IsText);
  }

  /**
   * findAll stops at a match: in a row nested inside a row only the outer
   * one is found, although both are rows of the subtree.
   */
  lemma FindAllPrunesNestedMatch()
    ensures var t := [Node(ElementNode, Tr, "tr", [], None, Some(1), None),
                      Node(ElementNode, Tr, "tr", [], Some(0), None, None)];
            Valid(t) && FindAll(t, 0, ByTag(Tr)) == [0] && Select(t, Preorder(t, 0), ByTag(Tr)) == [0, 1]
  {
    var t := [Node(ElementNode, Tr, "tr", [], None, Some(1), None),
              Node(ElementNode, Tr, "tr", [], Some(0), None, None)];
    assert Valid(t);
    assert Preorder(t, 1) == [1];
    assert Preorder(t, 0) == [0, 1];
    assert FindAllFrom(t, Some(1), ByTag(Tr)) == [1];
    assert [0, 1][1..] == [1];
    assert Select(t, [1], ByTag(Tr)) == [1];
  }

  /** text trims the ends of a cell but keeps the white space inside it. */
  lemma TextKeepsInnerSpace()
    ensures var t := [Node(ElementNode, Td, "td", [], None, Some(1), None),
                      Node(TextNode, NoAtom, " 4  GiB\n", [], Some(0), None, None)];
            Valid(t) && TextOf(t, 0) == "4  GiB"
  {
    TextOfOneTextChild(" 4  GiB\n", " ", "4  GiB", "\n");
  }

  lemma TextOfOneTextChild(data: string, a: string, core: string, b: string)
    requires AllSpace(a) && AllSpace(b) && Trimmed(core) && data == a + core + b
    ensures var t := [Node(ElementNode, Td, "td", [], None, Some(1), None),
                      Node(TextNode, NoAtom, data, [], Some(0), None, None)];
            Valid(t) && TextOf(t, 0) == core
  {
    var t := [Node(ElementNode, Td, "td", [], None, Some(1), None),
              Node(TextNode, NoAtom, data, [], Some(0), None, None)];
    assert Valid(t);
    assert FindAll(t, 1, IsText) == [1];
    assert FindAllFrom(t, None, IsText) == [];
    assert FindAllFrom(t, Some(1), IsText) == [1] + [];
    assert FindAll(t, 0, IsText) == [1];
    assert DataOf(t, [1]) == [data];
    assert Join([data], " ") == data;
    TrimSpaceOfPadded(a, core, b);
  }
}
