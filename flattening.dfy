/** Listing the definition tree in pre-order (`GetAllNamespaceDefinitionsRecursive`
    and `GetAllNamespaceDefinitions`). */
module Flattening {
  import opened Records

  /** A namespace followed by the pre-order listing of each child, in list order. */
  function Flatten(n: NamespaceDef): seq<NamespaceDef>
    decreases n, 1
  {
    [n] + FlattenAll(n.children)
  }

  /** The pre-order listings of a list of namespaces, concatenated in list order. */
  function FlattenAll(ns: seq<NamespaceDef>): seq<NamespaceDef>
    decreases ns, 0
  {
    if |ns| == 0 then [] else Flatten(ns[0]) + FlattenAll(ns[1..])
  }

  /** The number of namespaces in a tree, counted independently of any listing. */
  function NodeCount(n: NamespaceDef): nat
    decreases n, 1
  {
    1 + NodeCountAll(n.children)
  }

  function NodeCountAll(ns: seq<NamespaceDef>): nat
    decreases ns, 0
  {
    if |ns| == 0 then 0 else NodeCount(ns[0]) + NodeCountAll(ns[1..])
  }

  /** Descendant-or-self. */
  ghost predicate InTree(x: NamespaceDef, n: NamespaceDef)
    decreases n
  {
    x == n || exists i :: 0 <= i < |n.children| && InTree(x, n.children[i])
  }

  /** Every listing holds exactly one entry per node of the tree. */
  lemma {:induction false} FlattenLength(n: NamespaceDef)
    ensures |Flatten(n)| == NodeCount(n)
    decreases n, 1
  {
    FlattenAllLength(n.children);
  }

  lemma {:induction false} FlattenAllLength(ns: seq<NamespaceDef>)
    ensures |FlattenAll(ns)| == NodeCountAll(ns)
    decreases ns, 0
  {
    if |ns| > 0 {
      FlattenLength(ns[0]);
      FlattenAllLength(ns[1..]);
    }
  }

  /** Listing two lists one after the other is listing their concatenation. */
  lemma {:induction false} FlattenAllAppend(a: seq<NamespaceDef>, b: seq<NamespaceDef>)
    ensures FlattenAll(a + b) == FlattenAll(a) + FlattenAll(b)
    decreases |a|
  {
    if |a| > 0 {
      assert (a + b)[1..] == a[1..] + b;
      FlattenAllAppend(a[1..], b);
    } else {
      assert a + b == b;
    }
  }

  /** Growing a prefix of the list by one namespace appends that namespace's listing. */
  lemma FlattenAllSnoc(ns: seq<NamespaceDef>, k: nat)
    requires k < |ns|
    ensures FlattenAll(ns[..k + 1]) == FlattenAll(ns[..k]) + Flatten(ns[k])
  {
    assert ns[..k + 1] == ns[..k] + [ns[k]];
    FlattenAllAppend(ns[..k], [ns[k]]);
  }

  /** The `k`-th namespace's listing sits in the list's listing right after the
      listings of the namespaces before it. */
  lemma FlattenAllSlice(ns: seq<NamespaceDef>, k: nat)
    requires k < |ns|
    ensures |FlattenAll(ns[..k])| + |Flatten(ns[k])| <= |FlattenAll(ns)|
    ensures FlattenAll(ns)[|FlattenAll(ns[..k])| .. |FlattenAll(ns[..k])| + |Flatten(ns[k])|]
            == Flatten(ns[k])
  {
    assert ns == ns[..k + 1] + ns[k + 1..];
    FlattenAllAppend(ns[..k + 1], ns[k + 1..]);
    FlattenAllSnoc(ns, k);
  }

  /** The listing of a tree holds its descendants and nothing else. */
  lemma {:induction false} FlattenMembers(x: NamespaceDef, n: NamespaceDef)
    ensures x in Flatten(n) <==> InTree(x, n)
    decreases n
  {
    if x in Flatten(n) && x != n {
      assert x in FlattenAll(n.children);
      var i := FlattenAllMember(x, n.children);
      FlattenMembers(x, n.children[i]);
    }
    if InTree(x, n) && x != n {
      var i :| 0 <= i < |n.children| && InTree(x, n.children[i]);
      FlattenMembers(x, n.children[i]);
      FlattenAllContains(x, n.children, i);
    }
  }

  /** The listing of a list holds the listing of each of its namespaces. */
  lemma {:induction false} FlattenAllContains(x: NamespaceDef, ns: seq<NamespaceDef>, i: nat)
    requires i < |ns| && x in Flatten(ns[i])
    ensures x in FlattenAll(ns)
    decreases i
  {
    if i > 0 {
      FlattenAllContains(x, ns[1..], i - 1);
    }
  }

  /** A member of a list's listing lies in the listing of one of its namespaces. */
  lemma {:induction false} FlattenAllMember(x: NamespaceDef, ns: seq<NamespaceDef>) returns (i: nat)
    requires x in FlattenAll(ns)
    ensures i < |ns| && x in Flatten(ns[i])
    decreases |ns|
  {
    if x in Flatten(ns[0]) {
      i := 0;
    } else {
      var j := FlattenAllMember(x, ns[1..]);
      i := j + 1;
    }
  }

  /** Node `g` of the listing is followed there by the rest of its own subtree. */
  ghost predicate Placed(all: seq<NamespaceDef>, g: nat)
  {
    g < |all| && g + |Flatten(all[g])| <= |all| &&
    all[g..g + |Flatten(all[g])|] == Flatten(all[g])
  }

  /** A window of the part of `all` after its entry at `lo` is a window of `all`. */
  lemma Window<T>(all: seq<T>, lo: nat, hi: nat, rest: seq<T>, i: nat, len: nat)
    requires lo < hi <= |all| && all[lo + 1..hi] == rest && i + len <= |rest|
    ensures all[lo + 1 + i..lo + 1 + i + len] == rest[i..i + len]
  {
    var w := all[lo + 1 + i..lo + 1 + i + len];
    assert forall m :: 0 <= m < len ==> w[m] == all[lo + 1..hi][i + m];
  }

  /** Child `k` of a placed node is placed, right after the subtrees of the children
      before it. */
  lemma ChildPlaced(all: seq<NamespaceDef>, g: nat, k: nat, pos: nat)
    requires Placed(all, g) && k < |all[g].children|
    requires pos == g + 1 + |FlattenAll(all[g].children[..k])|
    ensures Placed(all, pos) && all[pos] == all[g].children[k]
    ensures pos + |Flatten(all[pos])| <= g + |Flatten(all[g])|
  {
    var n := all[g];
    var cs := n.children;
    var pre := |FlattenAll(cs[..k])|;
    var sub := Flatten(cs[k]);
    FlattenAllSlice(cs, k);
    var hi := g + |Flatten(n)|;
    var rest := FlattenAll(cs);
    assert all[g + 1..hi] == all[g..hi][1..];
    Window(all, g, hi, rest, pre, |sub|);
    assert all[pos] == sub[0];
  }

  /** Root `k` is placed in the listing of all roots, after the roots before it. */
  lemma RootPlaced(roots: seq<NamespaceDef>, all: seq<NamespaceDef>, k: nat, pos: nat)
    requires k < |roots| && all == FlattenAll(roots)
    requires pos == |FlattenAll(roots[..k])|
    ensures Placed(all, pos) && all[pos] == roots[k]
    ensures pos + |Flatten(all[pos])| <= |all|
  {
    FlattenAllSlice(roots, k);
  }

  /** `GetAllNamespaceDefinitionsRecursive`: the namespace, then each child's listing. */
  method GetAllNamespaceDefinitionsRecursive(parent: NamespaceDef) returns (result: seq<NamespaceDef>)
    ensures result == Flatten(parent)
    decreases parent
  {
    result := [parent];
    var i := 0;
    while i < |parent.children|
      invariant 0 <= i <= |parent.children|
      invariant result == [parent] + FlattenAll(parent.children[..i])
    {
      var sub := GetAllNamespaceDefinitionsRecursive(parent.children[i]);
      FlattenAllSnoc(parent.children, i);
      result := result + sub;
      i := i + 1;
    }
    assert parent.children[..i] == parent.children;
  }

  /** `GetAllNamespaceDefinitions`: the listings of the roots, in `Definitions` order. */
  method GetAllNamespaceDefinitions(definitions: seq<NamespaceDef>) returns (result: seq<NamespaceDef>)
    ensures result == FlattenAll(definitions)
  {
    result := [];
    var i := 0;
    while i < |definitions|
      invariant 0 <= i <= |definitions|
      invariant result == FlattenAll(definitions[..i])
    {
      var sub := GetAllNamespaceDefinitionsRecursive(definitions[i]);
      FlattenAllSnoc(definitions, i);
      result := result + sub;
      i := i + 1;
    }
    assert definitions[..i] == definitions;
  }
}
