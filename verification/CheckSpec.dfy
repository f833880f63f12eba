/**
 What the checkbox operations compute, as functions of the old state, and what these functions
 guarantee: the repair of one path agrees with recomputing the whole tree from its leaves.
 */
module CheckSpec {
  import opened CheckShape

  /** The clicked node and all its descendants get the new value. */
  function Cascade(s: Shape, b: Boxes, x: int, on: bool): (r: Boxes)
    requires s.Valid() && Fits(s, b) && s.IsNode(x)
  {
    Boxes(seq(|s.parent|, j requires 0 <= j < |s.parent| =>
            if s.Below(x, j) then (if on then On else Off) else b.status[j]),
          seq(|s.parent|, j requires 0 <= j < |s.parent| =>
            if s.Below(x, j) then on else b.checked[j]))
  }

  /** A parent takes the fold of its children; a half-selected parent keeps its flag. */
  ghost function RepairOne(s: Shape, b: Boxes, p: int): Boxes
    requires Fits(s, b) && s.IsNode(p)
  {
    var v := Fold(s, b.status, p);
    Boxes(b.status[p := v], b.checked[p := SettleFlag(v, b.checked[p])])
  }

  /** All strict ancestors of y, nearest first. */
  ghost function RepairUp(s: Shape, b: Boxes, y: int): (r: Boxes)
    requires s.Valid() && Fits(s, b) && s.IsNode(y)
    ensures Fits(s, r)
    decreases y
  {
    if s.parent[y] == -1 then b else RepairUp(s, RepairOne(s, b, s.parent[y]), s.parent[y])
  }

  ghost function SetBelow(s: Shape, b: Boxes, x: int, on: bool): (r: Boxes)
    requires s.Valid() && Fits(s, b) && s.IsNode(x)
    ensures Fits(s, r)
  {
    RepairUp(s, Cascade(s, b, x, on), x)
  }

  predicate Above(s: Shape, j: int, y: int)
    requires s.Valid() && s.IsNode(y)
  {
    s.Below(j, y) && j != y
  }

  ghost predicate ConsistentOffPath(s: Shape, b: Boxes, y: int)
    requires s.Valid() && Fits(s, b) && s.IsNode(y)
  {
    forall j :: s.IsNode(j) && !Above(s, j, y) ==> ConsistentAt(s, b, j)
  }

  lemma RepairOneStep(s: Shape, b: Boxes, y: int)
    requires s.Valid() && Fits(s, b) && s.IsNode(y) && s.parent[y] != -1
    requires ConsistentOffPath(s, b, y)
    ensures ConsistentOffPath(s, RepairOne(s, b, s.parent[y]), s.parent[y])
  {
    var p := s.parent[y];
    var b1 := RepairOne(s, b, p);
    assert s.IsChild(p, y);
    forall j | s.IsNode(j) && !Above(s, j, p) ensures ConsistentAt(s, b1, j) {
      assert !s.IsChild(j, p) by {
        if s.IsChild(j, p) { assert s.Below(j, s.parent[p]); }
      }
      assert forall c :: s.IsChild(j, c) ==> b1.status[c] == b.status[c];
      assert Fold(s, b1.status, j) == Fold(s, b.status, j);
      if j != p {
        assert !Above(s, j, y);
        assert ConsistentAt(s, b, j);
      }
    }
  }

  /** Repairing a path changes its inner nodes only, and keeps the flag of the half-selected ones. */
  ghost predicate RepairedFrom(s: Shape, b: Boxes, y: int, r: Boxes)
    requires s.Valid() && Fits(s, b) && Fits(s, r) && s.IsNode(y)
  {
    forall j :: s.IsNode(j) ==>
      && (!Above(s, j, y) || s.IsLeaf(j) ==> r.status[j] == b.status[j] && r.checked[j] == b.checked[j])
      && (r.status[j] == Half ==> r.checked[j] == b.checked[j])
  }

  lemma RepairedFromParent(s: Shape, b: Boxes, y: int, r: Boxes)
    requires s.Valid() && Fits(s, b) && Fits(s, r) && s.IsNode(y) && s.parent[y] != -1
    requires RepairedFrom(s, RepairOne(s, b, s.parent[y]), s.parent[y], r)
    ensures RepairedFrom(s, b, y, r)
  {
    var p := s.parent[y];
    var b1 := RepairOne(s, b, p);
    assert s.IsChild(p, y);
    forall j | s.IsNode(j)
      ensures !Above(s, j, y) || s.IsLeaf(j) ==> r.status[j] == b.status[j] && r.checked[j] == b.checked[j]
      ensures r.status[j] == Half ==> r.checked[j] == b.checked[j]
    {
      if s.Below(j, p) { BelowOrder(s, j, p); }
      assert Above(s, j, p) || j == p ==> Above(s, j, y);
      assert j != p ==> b1.status[j] == b.status[j] && b1.checked[j] == b.checked[j];
      assert j == p ==> !Above(s, j, p) && r.status[j] == b1.status[j];
    }
  }

  /** The repaired path touches strict ancestors only, and leaves a consistent tree. */
  lemma {:induction false} RepairUpConsistent(s: Shape, b: Boxes, y: int)
    requires s.Valid() && Fits(s, b) && s.IsNode(y)
    requires ConsistentOffPath(s, b, y)
    ensures Consistent(s, RepairUp(s, b, y))
    ensures RepairedFrom(s, b, y, RepairUp(s, b, y))
    decreases y
  {
    var p := s.parent[y];
    if p != -1 {
      RepairOneStep(s, b, y);
      RepairUpConsistent(s, RepairOne(s, b, p), p);
      RepairedFromParent(s, b, y, RepairUp(s, b, y));
    }
  }

  lemma CascadeConsistent(s: Shape, b: Boxes, x: int, on: bool)
    requires s.Valid() && Consistent(s, b) && s.IsNode(x)
    ensures ConsistentOffPath(s, Cascade(s, b, x, on), x)
  {
    var c := Cascade(s, b, x, on);
    forall j | s.IsNode(j) && !Above(s, j, x) ensures ConsistentAt(s, c, j) {
      assert ConsistentAt(s, b, j);
      if s.Below(x, j) {
        assert forall k :: s.IsChild(j, k) ==> s.Below(x, k);
        if !s.IsLeaf(j) { var k :| s.IsChild(j, k); assert c.status[k] == c.status[j]; }
      } else {
        forall k | s.IsChild(j, k) ensures c.status[k] == b.status[k] {
          assert k == x ==> s.Below(j, x);
        }
      }
    }
  }

  /**
   Setting a subtree and repairing one path equals recomputing every state from the selected
   leaves with the leaves of that subtree added or taken away.
   */
  lemma SetBelowIsRecompute(s: Shape, b: Boxes, x: int, on: bool)
    requires s.Valid() && Consistent(s, b) && s.IsNode(x)
    ensures Consistent(s, SetBelow(s, b, x, on))
    ensures LeavesOn(s, SetBelow(s, b, x, on))
         == if on then LeavesOn(s, b) + LeavesBelow(s, x) else LeavesOn(s, b) - LeavesBelow(s, x)
    ensures SetBelow(s, b, x, on) == Settle(s, LeavesOn(s, SetBelow(s, b, x, on)), b.checked)
  {
    assert Fits(s, b);
    hide Settle, Consistent, ConsistentOffPath, RepairUp;
    var c, r := Cascade(s, b, x, on), SetBelow(s, b, x, on);
    CascadeConsistent(s, b, x, on);
    RepairUpConsistent(s, c, x);
    assert RepairedFrom(s, c, x, r);
    assert forall l :: s.IsLeaf(l) ==> s.IsNode(l) && r.status[l] == c.status[l];
    forall j | s.IsNode(j) && r.status[j] == Half ensures r.checked[j] == b.checked[j] {
      if s.Below(x, j) {
        assert !Above(s, j, x) by { if s.Below(j, x) { BelowOrder(s, j, x); BelowOrder(s, x, j); } }
      }
    }
    assert LeavesOn(s, r) == if on then LeavesOn(s, b) + LeavesBelow(s, x) else LeavesOn(s, b) - LeavesBelow(s, x);
    hide LeavesOn, LeavesBelow, RepairedFrom, Cascade, SetBelow;
    ConsistentIsSettled(s, r, b.checked);
  }
}
