/**
 Checking many nodes one after the other (the default keys, then the nodes that the data mark as
 checked). The start need not be consistent: freshly rendered nodes that are marked are already
 selected while their ancestors and descendants are not. The end depends only on which nodes were
 checked, not on their order.
 */
module CheckFill {
  import opened CheckShape
  import opened CheckSpec

  ghost function CheckEach(s: Shape, b: Boxes, xs: seq<int>): (r: Boxes)
    requires s.Valid() && Fits(s, b) && forall x :: x in xs ==> s.IsNode(x)
    ensures Fits(s, r)
    decreases |xs|
  {
    if xs == [] then b else CheckEach(s, SetBelow(s, b, xs[0], true), xs[1..])
  }

  /** j or an ancestor of j is among the given nodes. */
  ghost predicate Covered(s: Shape, nodes: set<int>, j: int)
    requires s.Valid() && s.IsNode(j)
  {
    exists x :: x in nodes && s.Below(x, j)
  }

  ghost predicate Touched(s: Shape, nodes: set<int>, j: int)
    requires s.Valid()
  {
    exists x :: x in nodes && s.IsNode(x) && s.Below(j, x)
  }

  ghost function CoveredLeaves(s: Shape, nodes: set<int>): set<int>
    requires s.Valid()
  {
    set l | 0 <= l < |s.parent| && s.IsLeaf(l) && Covered(s, nodes, l)
  }

  /** The state of j after exactly the nodes `done` were checked, starting from b0. */
  ghost predicate FilledAt(s: Shape, b0: Boxes, done: set<int>, b: Boxes, j: int)
    requires s.Valid() && Fits(s, b0) && Fits(s, b) && s.IsNode(j)
  {
    if Covered(s, done, j) then b.status[j] == On && b.checked[j]
    else if Touched(s, done, j) then
      !s.IsLeaf(j) && b.status[j] == Fold(s, b.status, j) && FlagAgrees(b.status[j], b.checked[j])
    else b.status[j] == b0.status[j] && b.checked[j] == b0.checked[j]
  }

  ghost predicate Filled(s: Shape, b0: Boxes, done: set<int>, b: Boxes) {
    && s.Valid() && Fits(s, b0) && Fits(s, b)
    && forall j :: s.IsNode(j) ==> FilledAt(s, b0, done, b, j)
  }

  ghost predicate FilledOffPath(s: Shape, b0: Boxes, done: set<int>, b: Boxes, y: int)
    requires s.Valid() && s.IsNode(y)
  {
    && Fits(s, b0) && Fits(s, b)
    && forall j :: s.IsNode(j) && !Above(s, j, y) ==> FilledAt(s, b0, done, b, j)
  }

  /** No box is selected, and no flag set, before everything below it is due to be selected. */
  ghost predicate NoEarlyFlag(s: Shape, target: set<int>, b: Boxes)
    requires s.Valid()
  {
    && Fits(s, b)
    && forall j, l :: s.IsNode(j) && (b.status[j] == On || b.checked[j]) && s.LeafBelow(j, l)
                      ==> Covered(s, target, l)
  }

  lemma CoveredBelow(s: Shape, nodes: set<int>, j: int, k: int)
    requires s.Valid() && s.IsNode(j) && s.IsNode(k) && Covered(s, nodes, j) && s.Below(j, k)
    ensures Covered(s, nodes, k)
  {
    var x :| x in nodes && s.Below(x, j);
    BelowOrder(s, x, j);
    BelowTransitive(s, x, j, k);
  }

  lemma NotAboveChild(s: Shape, p: int, c: int, y: int)
    requires s.Valid() && s.IsNode(y) && s.parent[y] == p && s.IsChild(p, c)
    ensures !Above(s, c, y)
  {
    if Above(s, c, y) { BelowOrder(s, c, p); }
  }

  lemma FillParent(s: Shape, b0: Boxes, done: set<int>, b: Boxes, y: int)
    requires s.Valid() && s.IsNode(y) && s.parent[y] != -1
    requires FilledOffPath(s, b0, done, b, y) && Touched(s, done, y)
    ensures FilledOffPath(s, b0, done, RepairOne(s, b, s.parent[y]), s.parent[y])
    ensures Touched(s, done, s.parent[y])
  {
    var p := s.parent[y];
    var b1 := RepairOne(s, b, p);
    assert s.IsChild(p, y);
    assert Touched(s, done, p) by {
      var x :| x in done && s.IsNode(x) && s.Below(y, x);
      BelowTransitive(s, p, y, x);
    }
    forall j | s.IsNode(j) && !Above(s, j, p) ensures FilledAt(s, b0, done, b1, j) {
      assert !s.IsChild(j, p) by {
        if s.IsChild(j, p) { assert s.Below(j, s.parent[p]); }
      }
      assert forall c :: s.IsChild(j, c) ==> b1.status[c] == b.status[c];
      assert Fold(s, b1.status, j) == Fold(s, b.status, j);
      if j != p {
        assert !Above(s, j, y);
        assert FilledAt(s, b0, done, b, j);
      } else if Covered(s, done, p) {
        forall c | s.IsChild(p, c) ensures b.status[c] == On {
          CoveredBelow(s, done, p, c);
          NotAboveChild(s, p, c, y);
          assert FilledAt(s, b0, done, b, c);
        }
      }
    }
  }

  lemma {:induction false} FillPath(s: Shape, b0: Boxes, done: set<int>, b: Boxes, y: int)
    requires s.Valid() && s.IsNode(y)
    requires FilledOffPath(s, b0, done, b, y) && Touched(s, done, y)
    ensures Filled(s, b0, done, RepairUp(s, b, y))
    decreases y
  {
    if s.parent[y] == -1 {
      assert forall j :: s.IsNode(j) ==> !Above(s, j, y);
    } else {
      FillParent(s, b0, done, b, y);
      FillPath(s, b0, done, RepairOne(s, b, s.parent[y]), s.parent[y]);
    }
  }

  lemma FillCascade(s: Shape, b0: Boxes, done: set<int>, b: Boxes, x: int)
    requires Filled(s, b0, done, b) && s.IsNode(x)
    ensures FilledOffPath(s, b0, done + {x}, Cascade(s, b, x, true), x)
  {
    var c := Cascade(s, b, x, true);
    forall j | s.IsNode(j) && !Above(s, j, x) ensures FilledAt(s, b0, done + {x}, c, j) {
      assert FilledAt(s, b0, done, b, j);
      if s.Below(x, j) {
        assert x in done + {x};
      } else {
        assert !s.Below(j, x);
        assert Covered(s, done + {x}, j) <==> Covered(s, done, j) by {
          forall z | z in done ensures z in done + {x} { }
        }
        assert Touched(s, done + {x}, j) <==> Touched(s, done, j) by {
          forall z | z in done ensures z in done + {x} { }
        }
        forall k | s.IsChild(j, k) ensures c.status[k] == b.status[k] {
          assert k == x ==> s.Below(j, x);
        }
        assert Fold(s, c.status, j) == Fold(s, b.status, j);
      }
    }
  }

  lemma FillOne(s: Shape, b0: Boxes, done: set<int>, b: Boxes, x: int)
    requires Filled(s, b0, done, b) && s.IsNode(x)
    ensures Filled(s, b0, done + {x}, SetBelow(s, b, x, true))
  {
    FillCascade(s, b0, done, b, x);
    assert Touched(s, done + {x}, x) by { assert x in done + {x} && s.Below(x, x); }
    FillPath(s, b0, done + {x}, Cascade(s, b, x, true), x);
  }

  lemma {:induction false} NoEarlyFlagUp(s: Shape, target: set<int>, b: Boxes, y: int)
    requires s.Valid() && NoEarlyFlag(s, target, b) && s.IsNode(y)
    ensures NoEarlyFlag(s, target, RepairUp(s, b, y))
    decreases y
  {
    var p := s.parent[y];
    if p != -1 {
      var b1 := RepairOne(s, b, p);
      assert s.IsChild(p, y);
      forall j, l | s.IsNode(j) && (b1.status[j] == On || b1.checked[j]) && s.LeafBelow(j, l)
        ensures Covered(s, target, l)
      {
        if j == p && b1.status[p] == On {
          var c := ChildOnTheWay(s, p, l);
          assert b.status[c] == On && s.LeafBelow(c, l);
        }
      }
      NoEarlyFlagUp(s, target, b1, p);
    }
  }

  lemma NoEarlyFlagOne(s: Shape, target: set<int>, b: Boxes, x: int)
    requires s.Valid() && NoEarlyFlag(s, target, b) && s.IsNode(x) && x in target
    ensures NoEarlyFlag(s, target, SetBelow(s, b, x, true))
  {
    var c := Cascade(s, b, x, true);
    forall j, l | s.IsNode(j) && (c.status[j] == On || c.checked[j]) && s.LeafBelow(j, l)
      ensures Covered(s, target, l)
    {
      if s.Below(x, j) {
        BelowTransitive(s, x, j, l);
      } else {
        assert b.status[j] == On || b.checked[j];
      }
    }
    NoEarlyFlagUp(s, target, c, x);
  }

  function SetOf(xs: seq<int>): set<int> { set x | x in xs }

  lemma {:induction false} CheckEachFills(s: Shape, b0: Boxes, done: set<int>, b: Boxes, xs: seq<int>, target: set<int>)
    requires Filled(s, b0, done, b) && NoEarlyFlag(s, target, b)
    requires forall x :: x in xs ==> s.IsNode(x) && x in target
    ensures Filled(s, b0, done + SetOf(xs), CheckEach(s, b, xs))
    ensures NoEarlyFlag(s, target, CheckEach(s, b, xs))
    decreases |xs|
  {
    if xs == [] {
      assert done + SetOf(xs) == done;
    } else {
      var x, rest := xs[0], xs[1..];
      assert xs == [x] + rest;
      FillOne(s, b0, done, b, x);
      NoEarlyFlagOne(s, target, b, x);
      CheckEachFills(s, b0, done + {x}, SetBelow(s, b, x, true), rest, target);
      assert done + {x} + SetOf(rest) == done + SetOf(xs);
    }
  }

  /** Nothing is selected except possibly nodes that are about to be checked, or lie below one. */
  ghost predicate BlankOff(s: Shape, b: Boxes, nodes: set<int>)
    requires s.Valid()
  {
    Fits(s, b) && forall j :: s.IsNode(j) && !Covered(s, nodes, j) ==> b.status[j] == Off && !b.checked[j]
  }

  ghost function NoFlags(s: Shape): (r: seq<bool>)
    ensures |r| == |s.parent|
  {
    seq(|s.parent|, _ => false)
  }

  lemma FilledIsConsistent(s: Shape, b0: Boxes, nodes: set<int>, b: Boxes)
    requires Filled(s, b0, nodes, b) && BlankOff(s, b0, nodes)
    requires forall x :: x in nodes ==> s.IsNode(x)
    ensures Consistent(s, b)
    ensures LeavesOn(s, b) == CoveredLeaves(s, nodes)
  {
    forall j | s.IsNode(j)
      ensures ConsistentAt(s, b, j) && (s.IsLeaf(j) ==> (b.status[j] == On <==> Covered(s, nodes, j)))
    {
      assert FilledAt(s, b0, nodes, b, j);
      if Covered(s, nodes, j) {
        forall c | s.IsChild(j, c) ensures b.status[c] == On {
          CoveredBelow(s, nodes, j, c);
          assert FilledAt(s, b0, nodes, b, c);
        }
      } else if !Touched(s, nodes, j) {
        forall c | s.IsChild(j, c) ensures b.status[c] == Off {
          UntouchedChild(s, nodes, j, c);
          assert FilledAt(s, b0, nodes, b, c);
        }
        if !s.IsLeaf(j) { var c :| s.IsChild(j, c); assert b.status[c] == Off; }
      }
    }
  }

  lemma UntouchedChild(s: Shape, nodes: set<int>, j: int, c: int)
    requires s.Valid() && s.IsNode(j) && s.IsChild(j, c)
    requires forall x :: x in nodes ==> s.IsNode(x)
    requires !Covered(s, nodes, j) && !Touched(s, nodes, j)
    ensures !Covered(s, nodes, c) && !Touched(s, nodes, c)
  {
    forall x | x in nodes ensures !s.Below(x, c) && !s.Below(c, x) {
      assert !s.Below(j, x) && !s.Below(x, j);
      if s.Below(c, x) { BelowTransitive(s, j, c, x); }
    }
  }

  /**
   The end of the initial rendering and of every programmatic selection: exactly the leaves below
   (or at) a checked node are selected, every state is recomputed from them, and a flag is set
   exactly on the selected nodes. The start may be inconsistent and the order is free.
   */
  lemma CheckEachSettles(s: Shape, b: Boxes, xs: seq<int>)
    requires s.Valid() && (forall x :: x in xs ==> s.IsNode(x)) && BlankOff(s, b, SetOf(xs))
    ensures CheckEach(s, b, xs) == Settle(s, CoveredLeaves(s, SetOf(xs)), NoFlags(s))
  {
    var target := SetOf(xs);
    forall j, l | s.IsNode(j) && (b.status[j] == On || b.checked[j]) && s.LeafBelow(j, l)
      ensures Covered(s, target, l)
    {
      CoveredBelow(s, target, j, l);
    }
    CheckEachFills(s, b, {}, b, xs, target);
    var r := CheckEach(s, b, xs);
    assert {} + target == target;
    FilledIsConsistent(s, b, target, r);
    forall j | s.IsNode(j) && r.status[j] == Half ensures r.checked[j] == NoFlags(s)[j] {
      ConsistentMeansLeaves(s, r, j);
      var l :| s.LeafBelow(j, l) && l !in CoveredLeaves(s, target);
    }
    ConsistentIsSettled(s, r, NoFlags(s));
  }
}
