/** The balanced k-means tree as head selection sees it: an index array whose
    nodes name a half-open range of children.  A negative `childStart` is a leaf. */
module ClusterTree {
  import opened Common

  datatype Node = Node(center: int, childStart: int, childEnd: int)

  type Tree = seq<Node>

  /** Children lie after their parent and inside the array. */
  predicate WellFormed(t: Tree) {
    && |t| > 0
    && forall i :: 0 <= i < |t| && t[i].childStart >= 0 ==> i < t[i].childStart && t[i].childEnd <= |t|
  }

  predicate InTree(t: Tree, id: int) {
    0 <= id < |t|
  }

  /** A range of siblings: either empty, or inside the array. */
  predicate InRange(t: Tree, lo: int, hi: int) {
    0 <= lo && (lo < hi ==> hi <= |t|)
  }

  function First(t: Tree, id: int): (lo: int)
    requires WellFormed(t) && InTree(t, id)
    ensures id < lo
  {
    if t[id].childStart >= 0 then t[id].childStart else |t|
  }

  function Last(t: Tree, id: int): (hi: int)
    requires WellFormed(t) && InTree(t, id)
    ensures hi <= |t|
  {
    if t[id].childStart >= 0 then t[id].childEnd else |t|
  }

  /** A range of siblings unfolded: all but the last, the last, and the last one's children. */
  datatype Forest = Nil | Add(rest: Forest, id: int, kids: Forest)

  function View(t: Tree, lo: int, hi: int): Forest
    requires WellFormed(t) && InRange(t, lo, hi)
    decreases |t| - lo, hi - lo
  {
    if lo >= hi then Nil
    else Add(View(t, lo, hi - 1), hi - 1, View(t, First(t, hi - 1), Last(t, hi - 1)))
  }

  /** The children of a node, unfolded. */
  function Children(t: Tree, id: int): Forest
    requires WellFormed(t) && InTree(t, id)
  {
    View(t, First(t, id), Last(t, id))
  }

  ghost function Nodes(f: Forest): seq<int> {
    match f
    case Nil => []
    case Add(rest, id, kids) => Nodes(rest) + [id] + Nodes(kids)
  }

  /** All nodes at or below `id`. */
  ghost function Subtree(t: Tree, id: int): seq<int>
    requires WellFormed(t) && InTree(t, id)
  {
    Nodes(View(t, id, id + 1))
  }

  lemma SubtreeSplits(t: Tree, id: int)
    requires WellFormed(t) && InTree(t, id)
    ensures Subtree(t, id) == [id] + Nodes(View(t, First(t, id), Last(t, id)))
  {
    var kids := View(t, First(t, id), Last(t, id));
    assert View(t, id, id) == Nil;
    assert View(t, id, id + 1) == Add(Nil, id, kids);
    assert Nodes(Add(Nil, id, kids)) == Nodes(Nil) + [id] + Nodes(kids);
  }

  ghost predicate IsChild(t: Tree, p: int, c: int)
    requires WellFormed(t) && InTree(t, p)
  {
    First(t, p) <= c < Last(t, p)
  }

  /** No node is listed as a child twice. */
  ghost predicate UniqueParents(t: Tree)
    requires WellFormed(t)
  {
    forall p, q, c :: InTree(t, p) && InTree(t, q) && IsChild(t, p, c) && IsChild(t, q, c) ==> p == q
  }

  /** Every node of a view is a sibling of the range or a child of an earlier node of the view. */
  lemma {:induction false} ParentInView(t: Tree, lo: int, hi: int, x: int) returns (p: int)
    requires WellFormed(t) && InRange(t, lo, hi) && x in Nodes(View(t, lo, hi))
    ensures lo <= x < |t|
    ensures !(lo <= x < hi) ==> lo <= p < x && p in Nodes(View(t, lo, hi)) && IsChild(t, p, x)
    decreases |t| - lo, hi - lo
  {
    p := hi - 1;
    if x in Nodes(View(t, lo, hi - 1)) {
      p := ParentInView(t, lo, hi - 1, x);
    } else if x != hi - 1 {
      var q := ParentInView(t, First(t, hi - 1), Last(t, hi - 1), x);
      if !IsChild(t, hi - 1, x) {
        p := q;
      }
    }
  }

  /** With unique parents the subtrees of two siblings share no node. */
  lemma {:induction false} SiblingsDisjoint(t: Tree, parent: int, a: int, b: int, x: int)
    requires WellFormed(t) && UniqueParents(t) && InTree(t, parent)
    requires IsChild(t, parent, a) && IsChild(t, parent, b) && a != b
    requires x in Subtree(t, a)
    ensures x !in Subtree(t, b)
    decreases x
  {
    if x in Subtree(t, b) {
      var p := ParentInView(t, a, a + 1, x);
      var q := ParentInView(t, b, b + 1, x);
      if x != a && x != b {
        assert p == q;
        SiblingsDisjoint(t, parent, a, b, p);
      }
    }
  }

  lemma DistinctConcat(a: seq<int>, b: seq<int>)
    requires Distinct(a) && Distinct(b)
    requires forall x :: x in a ==> x !in b
    ensures Distinct(a + b)
  {
    forall i, j | 0 <= i < j < |a + b| ensures (a + b)[i] != (a + b)[j] {
      if i < |a| <= j {
        assert a[i] in a && b[j - |a|] in b;
      }
    }
  }

  /** A node of a range of siblings lies under exactly the sibling that contains it. */
  lemma {:induction false} OwningSibling(t: Tree, lo: int, hi: int, x: int) returns (c: int)
    requires WellFormed(t) && InRange(t, lo, hi) && x in Nodes(View(t, lo, hi))
    ensures lo <= c < hi && x in Subtree(t, c)
    decreases hi - lo
  {
    if x in Nodes(View(t, lo, hi - 1)) {
      c := OwningSibling(t, lo, hi - 1, x);
    } else {
      c := hi - 1;
      assert View(t, c, c + 1).kids == View(t, lo, hi).kids;
    }
  }

  /** With unique parents, the children of a node (up to `hi`) list each node below it once. */
  lemma {:induction false} ViewDistinct(t: Tree, parent: int, hi: int)
    requires WellFormed(t) && UniqueParents(t) && InTree(t, parent)
    requires InRange(t, First(t, parent), hi) && hi <= Last(t, parent)
    ensures Distinct(Nodes(View(t, First(t, parent), hi)))
    decreases |t| - First(t, parent), hi - First(t, parent)
  {
    var lo := First(t, parent);
    if lo < hi {
      ViewDistinct(t, parent, hi - 1);
      SubtreeDistinct(t, hi - 1);
      var rest, top := Nodes(View(t, lo, hi - 1)), Subtree(t, hi - 1);
      forall x | x in rest ensures x !in top {
        var c := OwningSibling(t, lo, hi - 1, x);
        SiblingsDisjoint(t, parent, c, hi - 1, x);
      }
      DistinctConcat(rest, top);
      SubtreeSplits(t, hi - 1);
      assert Nodes(View(t, lo, hi)) == rest + [hi - 1] + Nodes(View(t, First(t, hi - 1), Last(t, hi - 1)));
      assert Nodes(View(t, lo, hi)) == rest + top;
    }
  }

  /** So `|Subtree|` counts nodes. */
  lemma {:induction false} SubtreeDistinct(t: Tree, id: int)
    requires WellFormed(t) && UniqueParents(t) && InTree(t, id)
    ensures Distinct(Subtree(t, id))
    decreases |t| - id, 0
  {
    var lo, hi := First(t, id), Last(t, id);
    ViewDistinct(t, id, hi);
    var below := Nodes(View(t, lo, hi));
    forall x | x in below ensures x != id {
      var p := ParentInView(t, lo, hi, x);
    }
    DistinctConcat([id], below);
    SubtreeSplits(t, id);
  }
}
