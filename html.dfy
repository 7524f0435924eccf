/**
 * The parsed HTML document the scraper reads: golang.org/x/net/html nodes,
 * stored in an arena. A node refers to its parent, first child and next
 * sibling by index; nil is `None`. The scraper never changes the tree.
 */
module Html {
  import opened Wrappers

  datatype NodeType = ErrorNode | TextNode | DocumentNode | ElementNode | CommentNode | DoctypeNode | RawNode

  /** The interned tag of an element; `NoAtom` for text and unknown tags. */
  datatype Atom = NoAtom | Td | Tr | OtherAtom

  datatype Attribute = Attribute(namespace: string, key: string, val: string)

  type Link = Option<nat>

  datatype Node = Node(
    nodeType: NodeType,
    dataAtom: Atom,
    data: string,
    attr: seq<Attribute>,
    parent: Link,
    firstChild: Link,
    nextSibling: Link)

  type Tree = seq<Node>

  predicate InTree(t: Tree, l: Link) {
    l.Some? ==> l.value < |t|
  }

  /**
   * A well-formed arena: every link stays inside it, a parent comes before
   * its children and a node before its next sibling (so that every walk
   * along the links ends), and text nodes are leaves.
   */
  predicate Valid(t: Tree) {
    forall i | 0 <= i < |t| ::
      && (t[i].parent.Some? ==> t[i].parent.value < i)
      && (t[i].firstChild.Some? ==> i < t[i].firstChild.value < |t|)
      && (t[i].nextSibling.Some? ==> i < t[i].nextSibling.value < |t|)
      && (t[i].nodeType == TextNode ==> t[i].firstChild.None?)
  }

  /** All nodes of the subtree at `n` in document order: `n`, then its children's subtrees. */
  function Preorder(t: Tree, n: nat): (r: seq<nat>)
    requires Valid(t) && n < |t|
    ensures |r| > 0 && r[0] == n
    ensures forall k | 0 <= k < |r| :: r[k] < |t|
    decreases |t| - n, 0
  {
    [n] + PreorderFrom(t, t[n].firstChild)
  }

  /** The subtrees of `c` and of the siblings after it, in document order. */
  function PreorderFrom(t: Tree, c: Link): (r: seq<nat>)
    requires Valid(t) && InTree(t, c)
    ensures forall k | 0 <= k < |r| :: r[k] < |t|
    decreases if c.Some? then |t| - c.value else 0, 1
  {
    match c
    case None => []
    case Some(i) => Preorder(t, i) + PreorderFrom(t, t[i].nextSibling)
  }

  /** The nodes met by following parent links from `l`, `l` included. */
  function Ancestors(t: Tree, l: Link): (r: seq<nat>)
    requires Valid(t) && InTree(t, l)
    ensures forall k | 0 <= k < |r| :: r[k] < |t|
    decreases if l.Some? then l.value + 1 else 0
  {
    match l
    case None => []
    case Some(i) => [i] + Ancestors(t, t[i].parent)
  }

  /** The nodes met by following next-sibling links from `l`, `l` included. */
  function Siblings(t: Tree, l: Link): (r: seq<nat>)
    requires Valid(t) && InTree(t, l)
    ensures forall k | 0 <= k < |r| :: r[k] < |t|
    decreases if l.Some? then |t| - l.value else 0
  {
    match l
    case None => []
    case Some(i) => [i] + Siblings(t, t[i].nextSibling)
  }

  predicate AllIn(t: Tree, xs: seq<nat>) {
    forall k | 0 <= k < |xs| :: xs[k] < |t|
  }

  /** The first node of `xs` whose node satisfies `p`. */
  function FirstIn(t: Tree, xs: seq<nat>, p: Node -> bool): (r: Option<nat>)
    requires AllIn(t, xs)
    ensures r.Some? ==> r.value in xs && r.value < |t| && p(t[r.value])
    ensures r.None? <==> forall k | 0 <= k < |xs| :: !p(t[xs[k]])
    ensures forall i | 0 <= i < |xs| && p(t[xs[i]]) && (forall j | 0 <= j < i :: !p(t[xs[j]])) ::
              r == Some(xs[i])
  {
    if xs == [] then None
    else if p(t[xs[0]]) then Some(xs[0])
    else
      var r := FirstIn(t, xs[1..], p);
      assert forall i | 1 <= i < |xs| :: xs[1..][i - 1] == xs[i];
      r
  }

  /** The nodes of `xs` whose node satisfies `p`, in the order of `xs`. */
  function Select(t: Tree, xs: seq<nat>, p: Node -> bool): (r: seq<nat>)
    requires AllIn(t, xs)
    ensures forall k | 0 <= k < |r| :: r[k] in xs && r[k] < |t| && p(t[r[k]])
  {
    if xs == [] then []
    else if p(t[xs[0]]) then [xs[0]] + Select(t, xs[1..], p)
    else Select(t, xs[1..], p)
  }

  lemma {:induction false} FirstInConcat(t: Tree, xs: seq<nat>, ys: seq<nat>, p: Node -> bool)
    requires AllIn(t, xs) && AllIn(t, ys)
    ensures AllIn(t, xs + ys)
    ensures FirstIn(t, xs + ys, p) == if FirstIn(t, xs, p).Some? then FirstIn(t, xs, p) else FirstIn(t, ys, p)
  {
    if xs != [] {
      assert (xs + ys)[1..] == xs[1..] + ys;
      FirstInConcat(t, xs[1..], ys, p);
    } else {
      assert xs + ys == ys;
    }
  }

  lemma {:induction false} SelectConcat(t: Tree, xs: seq<nat>, ys: seq<nat>, p: Node -> bool)
    requires AllIn(t, xs) && AllIn(t, ys)
    ensures AllIn(t, xs + ys)
    ensures Select(t, xs + ys, p) == Select(t, xs, p) + Select(t, ys, p)
  {
    if xs != [] {
      assert (xs + ys)[1..] == xs[1..] + ys;
      SelectConcat(t, xs[1..], ys, p);
    } else {
      assert xs + ys == ys;
    }
  }

  lemma {:induction false} SelectNone(t: Tree, xs: seq<nat>, p: Node -> bool)
    requires AllIn(t, xs)
    requires forall k | 0 <= k < |xs| :: !p(t[xs[k]])
    ensures Select(t, xs, p) == []
  {
    if xs != [] {
      SelectNone(t, xs[1..], p);
    }
  }

  /** `xs` is `ys` with some elements left out, the rest kept in order. */
  predicate Subseq<T(==)>(xs: seq<T>, ys: seq<T>)
    decreases |ys|
  {
    || xs == []
    || (ys != [] && (Subseq(xs, ys[1..]) || (xs != [] && xs[0] == ys[0] && Subseq(xs[1..], ys[1..]))))
  }

  lemma {:induction false} SubseqConcat<T>(a: seq<T>, b: seq<T>, c: seq<T>, d: seq<T>)
    requires Subseq(a, b) && Subseq(c, d)
    ensures Subseq(a + c, b + d)
    decreases |b|
  {
    if b == [] {
      assert a == [] && a + c == c && b + d == d;
    } else {
      assert (b + d)[1..] == b[1..] + d;
      if Subseq(a, b[1..]) {
        SubseqConcat(a, b[1..], c, d);
      } else {
        assert a != [] && a[0] == b[0] && Subseq(a[1..], b[1..]);
        SubseqConcat(a[1..], b[1..], c, d);
        assert (a + c)[1..] == a[1..] + c;
      }
    }
  }
}
