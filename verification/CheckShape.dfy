/**
 The rendered tree as the checkbox code sees it: a table of nodes in document order (every
 parent stands before its children), and two definitions of a node's tri-state.

 - `Fold` looks at the children only; it is what the click handler maintains.
 - `StatusOf` looks at the leaves only; it is the meaning of the three states.

 The lemmas of this module show that the two agree on every consistent tree.
 */
module CheckShape {

  type Key = string

  /** "0": not selected, "1": selected, "2": some of the descendants selected. */
  datatype Status = Off | On | Half

  /** The part of the rendered tree that clicks do not change. */
  datatype Shape = Shape(parent: seq<int>, floor: seq<nat>, key: seq<Key>, disabled: seq<bool>) {

    ghost predicate Valid() {
      && |floor| == |parent| && |key| == |parent| && |disabled| == |parent|
      && (forall i :: 0 <= i < |parent| ==> -1 <= parent[i] < i)
      && (forall i :: 0 <= i < |parent| ==>
            floor[i] == if parent[i] == -1 then 0 else floor[parent[i]] + 1)
      && (forall i, j :: 0 <= i < j < |parent| ==> key[i] != key[j])
    }

    predicate IsNode(i: int) { 0 <= i < |parent| }

    /** j is a or a descendant of a. */
    predicate Below(a: int, j: int)
      requires Valid() && IsNode(j)
      decreases j
    {
      j == a || (parent[j] != -1 && Below(a, parent[j]))
    }

    predicate IsChild(p: int, c: int) { IsNode(c) && parent[c] == p }

    ghost predicate IsLeaf(j: int) { IsNode(j) && forall c :: !IsChild(j, c) }

    ghost predicate LeafBelow(a: int, l: int)
      requires Valid()
    {
      IsLeaf(l) && Below(a, l)
    }
  }

  /** The two attributes of every checkbox input. */
  datatype Boxes = Boxes(status: seq<Status>, checked: seq<bool>)

  ghost predicate Fits(s: Shape, b: Boxes) {
    |b.status| == |s.parent| && |b.checked| == |s.parent|
  }

  ghost predicate AllChildren(s: Shape, status: seq<Status>, p: int, v: Status)
    requires |status| == |s.parent|
  {
    forall c :: s.IsChild(p, c) ==> status[c] == v
  }

  /** The state of an inner node as a function of its children. */
  ghost function Fold(s: Shape, status: seq<Status>, p: int): Status
    requires |status| == |s.parent|
  {
    if AllChildren(s, status, p, On) then On
    else if AllChildren(s, status, p, Off) then Off
    else Half
  }

  ghost predicate FlagAgrees(v: Status, checked: bool) {
    (v == On ==> checked) && (v == Off ==> !checked)
  }

  ghost predicate ConsistentAt(s: Shape, b: Boxes, j: int)
    requires Fits(s, b) && s.IsNode(j)
  {
    && (s.IsLeaf(j) ==> b.status[j] != Half)
    && (!s.IsLeaf(j) ==> b.status[j] == Fold(s, b.status, j))
    && FlagAgrees(b.status[j], b.checked[j])
  }

  /** The invariant of the tree outside strict mode. */
  ghost predicate Consistent(s: Shape, b: Boxes) {
    Fits(s, b) && forall j :: s.IsNode(j) ==> ConsistentAt(s, b, j)
  }

  /** The state of a node as a function of the set of selected leaves. */
  ghost function StatusOf(s: Shape, leaves: set<int>, j: int): Status
    requires s.Valid()
  {
    if forall l :: s.LeafBelow(j, l) ==> l in leaves then On
    else if forall l :: s.LeafBelow(j, l) ==> l !in leaves then Off
    else Half
  }

  ghost function LeavesOn(s: Shape, b: Boxes): set<int>
    requires Fits(s, b)
  {
    set l | 0 <= l < |s.parent| && s.IsLeaf(l) && b.status[l] == On
  }

  ghost function LeavesBelow(s: Shape, x: int): set<int>
    requires s.Valid()
  {
    set l | 0 <= l < |s.parent| && s.LeafBelow(x, l)
  }

  ghost function SettleFlag(v: Status, before: bool): bool {
    match v
    case On => true
    case Off => false
    case Half => before
  }

  /** Every state recomputed from the selected leaves; a half-selected box keeps its flag. */
  ghost function Settle(s: Shape, leaves: set<int>, checked: seq<bool>): Boxes
    requires s.Valid() && |checked| == |s.parent|
  {
    Boxes(seq(|s.parent|, j requires 0 <= j < |s.parent| => StatusOf(s, leaves, j)),
          seq(|s.parent|, j requires 0 <= j < |s.parent| => SettleFlag(StatusOf(s, leaves, j), checked[j])))
  }

  lemma {:induction false} BelowTransitive(s: Shape, a: int, b: int, c: int)
    requires s.Valid() && s.IsNode(b) && s.IsNode(c)
    requires s.Below(a, b) && s.Below(b, c)
    ensures s.Below(a, c)
    decreases c
  {
    if c != b {
      BelowTransitive(s, a, b, s.parent[c]);
    }
  }

  lemma {:induction false} BelowOrder(s: Shape, a: int, j: int)
    requires s.Valid() && s.IsNode(j) && s.Below(a, j)
    ensures 0 <= a <= j
    decreases j
  {
    if j != a {
      BelowOrder(s, a, s.parent[j]);
    }
  }

  /** Whatever lies strictly below a lies below exactly the child of a on the way. */
  lemma {:induction false} ChildOnTheWay(s: Shape, a: int, j: int) returns (c: int)
    requires s.Valid() && s.IsNode(j) && s.Below(a, j) && j != a
    ensures s.IsChild(a, c) && s.Below(c, j)
    decreases j
  {
    c := j;
    if s.parent[j] != a {
      c := ChildOnTheWay(s, a, s.parent[j]);
    }
  }

  /** Two ancestors of the same node are comparable. */
  lemma {:induction false} AncestorsComparable(s: Shape, a: int, b: int, j: int)
    requires s.Valid() && s.IsNode(a) && s.IsNode(b) && s.IsNode(j)
    requires s.Below(a, j) && s.Below(b, j)
    ensures s.Below(a, b) || s.Below(b, a)
    decreases j
  {
    if j != a && j != b {
      AncestorsComparable(s, a, b, s.parent[j]);
    }
  }

  lemma {:induction false} SomeLeafBelow(s: Shape, j: int) returns (l: int)
    requires s.Valid() && s.IsNode(j)
    ensures s.LeafBelow(j, l)
    decreases |s.parent| - j
  {
    l := j;
    if !s.IsLeaf(j) {
      var c :| s.IsChild(j, c);
      l := SomeLeafBelow(s, c);
      BelowTransitive(s, j, c, l);
    }
  }

  lemma LeavesBelowChild(s: Shape, p: int, c: int)
    requires s.Valid() && s.IsNode(p) && s.IsChild(p, c)
    ensures forall l :: s.LeafBelow(c, l) ==> s.LeafBelow(p, l)
  {
    forall l | s.LeafBelow(c, l) ensures s.LeafBelow(p, l) {
      BelowTransitive(s, p, c, l);
    }
  }

  /** On a consistent tree the fold of the children is the meaning given by the leaves. */
  lemma {:induction false} ConsistentMeansLeaves(s: Shape, b: Boxes, j: int)
    requires s.Valid() && Consistent(s, b) && s.IsNode(j)
    ensures b.status[j] == StatusOf(s, LeavesOn(s, b), j)
    decreases |s.parent| - j
  {
    assert ConsistentAt(s, b, j);
    var leaf := SomeLeafBelow(s, j);
    if s.IsLeaf(j) {
      forall l | s.LeafBelow(j, l) ensures l == j {
        if l != j { var c := ChildOnTheWay(s, j, l); }
      }
    } else {
      forall c | s.IsChild(j, c)
        ensures b.status[c] == StatusOf(s, LeavesOn(s, b), c)
        ensures forall l :: s.LeafBelow(c, l) ==> s.LeafBelow(j, l)
      {
        ConsistentMeansLeaves(s, b, c);
        LeavesBelowChild(s, j, c);
      }
      FoldMeansLeaves(s, b.status, LeavesOn(s, b), j);
    }
  }

  /** One step of the induction: if the children mean their leaves, so does their fold. */
  lemma FoldMeansLeaves(s: Shape, status: seq<Status>, leaves: set<int>, j: int)
    requires s.Valid() && |status| == |s.parent| && s.IsNode(j) && !s.IsLeaf(j)
    requires forall c :: s.IsChild(j, c) ==> status[c] == StatusOf(s, leaves, c)
    ensures Fold(s, status, j) == StatusOf(s, leaves, j)
  {
    var child :| s.IsChild(j, child);
    if forall l :: s.LeafBelow(j, l) ==> l in leaves {
      forall c | s.IsChild(j, c) ensures status[c] == On {
        LeavesBelowChild(s, j, c);
      }
    } else if forall l :: s.LeafBelow(j, l) ==> l !in leaves {
      forall c | s.IsChild(j, c) ensures status[c] == Off {
        LeavesBelowChild(s, j, c);
        var l := SomeLeafBelow(s, c);
      }
      assert status[child] == Off;
    } else {
      var l0 :| s.LeafBelow(j, l0) && l0 !in leaves;
      var c0 := ChildOnTheWay(s, j, l0);
      assert status[c0] != On by { assert s.LeafBelow(c0, l0); }
      var l1 :| s.LeafBelow(j, l1) && l1 in leaves;
      var c1 := ChildOnTheWay(s, j, l1);
      assert status[c1] != Off by { assert s.LeafBelow(c1, l1); }
    }
  }

  /** Recomputing from any set of leaves gives a consistent tree with exactly those leaves. */
  lemma SettleConsistent(s: Shape, leaves: set<int>, checked: seq<bool>)
    requires s.Valid() && |checked| == |s.parent|
    requires forall l :: l in leaves ==> s.IsLeaf(l)
    ensures Consistent(s, Settle(s, leaves, checked))
    ensures LeavesOn(s, Settle(s, leaves, checked)) == leaves
  {
    var b := Settle(s, leaves, checked);
    forall j | s.IsNode(j)
      ensures ConsistentAt(s, b, j) && (s.IsLeaf(j) ==> (b.status[j] == On <==> j in leaves))
    {
      if s.IsLeaf(j) {
        assert s.LeafBelow(j, j);
        forall l | s.LeafBelow(j, l) ensures l == j {
          if l != j { var c := ChildOnTheWay(s, j, l); }
        }
      } else {
        FoldMeansLeaves(s, b.status, leaves, j);
      }
    }
  }

  /** A consistent tree is determined by its selected leaves, up to the flags of half-selected boxes. */
  lemma ConsistentIsSettled(s: Shape, b: Boxes, checked: seq<bool>)
    requires s.Valid() && Consistent(s, b) && |checked| == |s.parent|
    requires forall j :: s.IsNode(j) && b.status[j] == Half ==> b.checked[j] == checked[j]
    ensures b == Settle(s, LeavesOn(s, b), checked)
  {
    forall j | s.IsNode(j)
      ensures b.status[j] == StatusOf(s, LeavesOn(s, b), j)
    {
      ConsistentMeansLeaves(s, b, j);
      assert ConsistentAt(s, b, j);
    }
    assert b.status == Settle(s, LeavesOn(s, b), checked).status;
    forall j | s.IsNode(j)
      ensures b.checked[j] == Settle(s, LeavesOn(s, b), checked).checked[j]
    {
      assert ConsistentAt(s, b, j);
    }
  }
}
