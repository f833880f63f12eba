/**
 The checkbox part of the tree widget: clicks, programmatic selection and the initial selection,
 as methods that update the attributes in place, and the guarantees over whole runs.
 */
module CheckTree {
  import opened CheckShape
  import opened CheckSpec
  import opened CheckFill

  /** Everything the checkbox code reads and writes besides the shape. */
  datatype State = State(boxes: Boxes, marked: seq<bool>, keys: seq<Key>)

  ghost predicate FitsState(s: Shape, st: State) {
    && s.Valid() && Fits(s, st.boxes) && |st.marked| == |s.parent|
    && forall j :: s.IsNode(j) && st.boxes.status[j] == Off ==> !st.boxes.checked[j]
  }

  function CheckSelf(s: Shape, b: Boxes, x: int, on: bool): (r: Boxes)
    requires s.IsNode(x) && |b.status| == |b.checked| == |s.parent|
  {
    Boxes(b.status[x := if on then On else Off], b.checked[x := on])
  }

  ghost function ClickSpec(s: Shape, strict: bool, b: Boxes, x: int): (r: Boxes)
    requires s.Valid() && Fits(s, b) && s.IsNode(x)
    ensures Fits(s, r)
  {
    if s.disabled[x] then b
    else if strict then CheckSelf(s, b, x, !b.checked[x])
    else SetBelow(s, b, x, !b.checked[x])
  }

  ghost function CheckAll(s: Shape, strict: bool, b: Boxes, xs: seq<int>): (r: Boxes)
    requires s.Valid() && Fits(s, b) && forall x :: x in xs ==> s.IsNode(x)
    ensures Fits(s, r)
    decreases |xs|
  {
    if !strict then CheckEach(s, b, xs)
    else if xs == [] then b
    else CheckAll(s, strict, CheckSelf(s, b, xs[0], true), xs[1..])
  }

  /** The nodes that carry the given keys, in the order of the keys; unknown keys are skipped. */
  function NodesOf(s: Shape, keys: seq<Key>): (r: seq<int>)
    requires |s.key| == |s.parent|
    ensures forall x :: x in r ==> s.IsNode(x) && s.key[x] in keys
    ensures forall x :: s.IsNode(x) && s.key[x] in keys && (forall y :: 0 <= y < x ==> s.key[y] != s.key[x]) ==> x in r
  {
    if keys == [] then []
    else
      var i := Find(s, keys[0], 0);
      (if i < |s.parent| then [i] else []) + NodesOf(s, keys[1..])
  }

  function Find(s: Shape, k: Key, from: nat): (i: nat)
    requires |s.key| == |s.parent| && from <= |s.parent|
    ensures from <= i <= |s.parent|
    ensures i < |s.parent| ==> s.key[i] == k
    ensures forall j :: from <= j < i ==> s.key[j] != k
    decreases |s.parent| - from
  {
    if from == |s.parent| || s.key[from] == k then from else Find(s, k, from + 1)
  }

  /** The nodes with the data-checked attribute from position `from` on, in document order. */
  function MarkedFrom(marked: seq<bool>, from: nat): (r: seq<int>)
    requires from <= |marked|
    ensures forall x :: x in r <==> from <= x < |marked| && marked[x]
    decreases |marked| - from
  {
    if from == |marked| then []
    else (if marked[from] then [from] else []) + MarkedFrom(marked, from + 1)
  }

  /** All boxes cleared; the data marks go too, where a box was not off, unless the call is internal. */
  ghost function ClearSpec(s: Shape, st: State, internalCall: bool): (r: State)
    requires FitsState(s, st)
    ensures FitsState(s, r)
  {
    var n := |s.parent|;
    State(Boxes(seq(n, _ => Off), NoFlags(s)),
          seq(n, j requires 0 <= j < n =>
            st.marked[j] && (internalCall || st.boxes.status[j] == Off)),
          st.keys)
  }

  ghost function InitSpec(s: Shape, strict: bool, b: Boxes, marked: seq<bool>): (r: Boxes)
    requires s.Valid() && Fits(s, b) && |marked| == |s.parent|
    ensures Fits(s, r)
  {
    CheckAll(s, strict, b, MarkedFrom(marked, 0))
  }

  ghost function DefaultSpec(s: Shape, strict: bool, st: State): (r: Boxes)
    requires FitsState(s, st)
    ensures Fits(s, r)
  {
    if st.keys == [] then st.boxes
    else InitSpec(s, strict, CheckAll(s, strict, st.boxes, NodesOf(s, st.keys)), st.marked)
  }

  /** The key list after a call: replaced, or extended by the keys not yet in it. */
  function MergeKeys(keys: seq<Key>, more: seq<Key>): (r: seq<Key>)
    ensures forall k :: k in r <==> k in keys || k in more
    decreases |more|
  {
    if more == [] then keys
    else MergeKeys(if more[0] in keys then keys else keys + [more[0]], more[1..])
  }

  ghost function PreparedState(s: Shape, st: State, arr: seq<Key>, reset: bool): (r: State)
    requires FitsState(s, st)
    ensures FitsState(s, r)
  {
    ClearSpec(s, st, !reset).(keys := if reset then arr else MergeKeys(st.keys, arr))
  }

  ghost function SetCheckedSpec(s: Shape, strict: bool, st: State, arr: seq<Key>, reset: bool): (r: State)
    requires FitsState(s, st)
  {
    var p := PreparedState(s, st, arr, reset);
    p.(boxes := DefaultSpec(s, strict, p))
  }

  /** All boxes cleared, then the keys and the marks applied again. */
  ghost function RefreshSpec(s: Shape, strict: bool, st: State): (r: State)
    requires FitsState(s, st)
  {
    var c := ClearSpec(s, st, true);
    c.(boxes := InitSpec(s, strict, DefaultSpec(s, strict, c), c.marked))
  }

  class CheckTree {
    const shape: Shape
    const strict: bool
    var status: seq<Status>
    var checked: seq<bool>
    var marked: seq<bool>
    var defaultKeys: seq<Key>

    ghost predicate Valid()
      reads this
    {
      FitsState(shape, Contents())
    }

    ghost function Contents(): State
      reads this
    {
      State(Boxes(status, checked), marked, defaultKeys)
    }

    /** A freshly rendered tree: the boxes that the data mark are selected, all others are not. */
    constructor (shape: Shape, strict: bool, marked: seq<bool>, keys: seq<Key>)
      requires shape.Valid() && |marked| == |shape.parent|
      ensures Valid() && this.shape == shape && this.strict == strict
      ensures Contents() == Rendered(shape, marked, keys)
      ensures this.marked == checked == marked && defaultKeys == keys
      ensures forall x :: shape.IsNode(x) ==> status[x] == if marked[x] then On else Off
    {
      this.shape := shape;
      this.strict := strict;
      this.status := seq(|marked|, j requires 0 <= j < |marked| => if marked[j] then On else Off);
      this.checked := marked;
      this.marked := marked;
      this.defaultKeys := keys;
    }

    method SetSubtree(x: int, on: bool)
      requires Valid() && shape.IsNode(x)
      modifies this`status, this`checked
      ensures Valid() && Contents().boxes == Cascade(shape, old(Contents()).boxes, x, on)
    {
      for j := 0 to |status|
        invariant Valid()
        invariant forall k :: 0 <= k < |status| ==>
                    if k < j && shape.Below(x, k)
                    then status[k] == (if on then On else Off) && checked[k] == on
                    else status[k] == old(status)[k] && checked[k] == old(checked)[k]
      {
        if shape.Below(x, j) {
          status := status[j := if on then On else Off];
          checked := checked[j := on];
        }
      }
    }

    /** The states of y and its siblings, that is, of all children of y's parent. */
    method SiblingStates(y: int) returns (arr: seq<Status>)
      requires Valid() && shape.IsNode(y)
      ensures arr != []
      ensures forall v :: AllChildren(shape, status, shape.parent[y], v) <==> forall w :: w in arr ==> w == v
    {
      var p := shape.parent[y];
      arr := [status[y]];
      for i := 0 to |status|
        invariant forall c :: 0 <= c < i && shape.IsChild(p, c) ==> status[c] in arr
        invariant status[y] in arr
        invariant forall v :: v in arr ==> exists c :: shape.IsChild(p, c) && status[c] == v
      {
        if i != y && shape.parent[i] == p {
          assert shape.IsChild(p, i);
          arr := arr + [status[i]];
        }
      }
    }

    /** One turn of the climb: the parent of y takes the fold of y and its siblings. */
    method RepairParent(y: int)
      requires Valid() && shape.IsNode(y) && shape.parent[y] != -1
      modifies this`status, this`checked
      ensures Valid() && Contents().boxes == RepairOne(shape, old(Contents()).boxes, shape.parent[y])
    {
      var p := shape.parent[y];
      var arr := SiblingStates(y);
      ghost var v := Fold(shape, status, p);
      assert arr[0] in arr;
      if forall w :: w in arr ==> w == On {
        checked := checked[p := true];
        status := status[p := On];
      }
      if exists w :: w in arr && (w == Off || w == Half) {
        status := status[p := Half];
      }
      if forall w :: w in arr ==> w == Off {
        checked := checked[p := false];
        status := status[p := Off];
      }
    }

    /** Climbs from y to its root, giving every parent the fold of its children's states. */
    method SelectParents(y0: int)
      requires Valid() && shape.IsNode(y0)
      modifies this`status, this`checked
      ensures Valid() && Contents().boxes == RepairUp(shape, old(Contents()).boxes, y0)
    {
      var y := y0;
      while shape.floor[y] != 0
        invariant Valid() && shape.IsNode(y)
        invariant RepairUp(shape, Contents().boxes, y) == RepairUp(shape, old(Contents()).boxes, y0)
        decreases y
      {
        RepairParent(y);
        y := shape.parent[y];
      }
    }

    method Click(x: int)
      requires Valid() && shape.IsNode(x)
      modifies this`status, this`checked
      ensures Valid() && Contents().boxes == ClickSpec(shape, strict, old(Contents()).boxes, x)
    {
      if shape.disabled[x] { return; }
      var on := !checked[x];
      if strict {
        status, checked := status[x := if on then On else Off], checked[x := on];
      } else {
        SetSubtree(x, on);
        SelectParents(x);
      }
    }

    method CheckedOneNode(x: int)
      requires Valid() && shape.IsNode(x)
      modifies this`status, this`checked
      ensures Valid()
      ensures Contents().boxes == CheckAll(shape, strict, old(Contents()).boxes, [x])
    {
      if strict {
        status, checked := status[x := On], checked[x := true];
        CheckAllOne(shape, strict, old(Contents()).boxes, x);
      } else {
        SetSubtree(x, true);
        SelectParents(x);
        CheckAllOne(shape, strict, old(Contents()).boxes, x);
      }
    }

    /** Selects the nodes that the data mark as checked, in document order. */
    method CheckboxInit()
      requires Valid()
      modifies this`status, this`checked
      ensures Valid()
      ensures Contents().boxes == InitSpec(shape, strict, old(Contents()).boxes, marked)
    {
      hide CheckAll, MarkedFrom;
      for j := 0 to |marked|
        invariant Valid()
        invariant CheckAll(shape, strict, Contents().boxes, MarkedFrom(marked, j))
               == InitSpec(shape, strict, old(Contents()).boxes, marked)
      {
        MarkedStep(shape, strict, Contents().boxes, marked, j);
        if marked[j] {
          CheckedOneNode(j);
        }
      }
      MarkedEnd(shape, strict, Contents().boxes, marked);
    }

    method DefaultChecked()
      requires Valid()
      modifies this`status, this`checked
      ensures Valid() && Contents().boxes == DefaultSpec(shape, strict, old(Contents()))
    {
      if |defaultKeys| == 0 { return; }
      for i := 0 to |defaultKeys|
        invariant Valid()
        invariant CheckAll(shape, strict, Contents().boxes, NodesOf(shape, defaultKeys[i..]))
               == CheckAll(shape, strict, old(Contents()).boxes, NodesOf(shape, defaultKeys))
      {
        var x := Find(shape, defaultKeys[i], 0);
        assert defaultKeys[i..][1..] == defaultKeys[i + 1..];
        if x < |status| {
          CheckAllSplit(shape, strict, Contents().boxes, [x], NodesOf(shape, defaultKeys[i + 1..]));
          CheckedOneNode(x);
        } else {
          assert NodesOf(shape, defaultKeys[i..]) == NodesOf(shape, defaultKeys[i + 1..]);
        }
      }
      CheckboxInit();
    }

    method UnCheckNodes(internalCall: bool)
      requires Valid()
      modifies this`status, this`checked, this`marked
      ensures Valid() && Contents() == ClearSpec(shape, old(Contents()), internalCall)
    {
      for j := 0 to |status|
        invariant Valid()
        invariant forall k :: 0 <= k < |status| ==>
                    if k < j then
                      && status[k] == Off && !checked[k]
                      && (marked[k] <==> old(marked)[k] && (internalCall || old(status)[k] == Off))
                    else status[k] == old(status)[k] && checked[k] == old(checked)[k] && marked[k] == old(marked)[k]
      {
        if status[j] == On || status[j] == Half {
          status := status[j := Off];
          checked := checked[j := false];
          if !internalCall {
            marked := marked[j := false];
          }
        }
      }
    }

    method SetChecked(arr: seq<Key>, reset: bool)
      requires Valid()
      modifies this
      ensures Valid() && Contents() == SetCheckedSpec(shape, strict, old(Contents()), arr, reset)
    {
      UnCheckNodes(!reset);
      if reset {
        defaultKeys := arr;
      } else {
        for i := 0 to |arr|
          invariant Valid() && Contents() == ClearSpec(shape, old(Contents()), !reset).(keys := defaultKeys)
          invariant MergeKeys(defaultKeys, arr[i..]) == MergeKeys(old(defaultKeys), arr)
        {
          assert arr[i..][1..] == arr[i + 1..];
          if arr[i] !in defaultKeys {
            defaultKeys := defaultKeys + [arr[i]];
          }
        }
      }
      DefaultChecked();
    }

    /** How a removal, a drop and an expansion of the whole tree bring the boxes up to date. */
    method Refresh()
      requires Valid()
      modifies this`status, this`checked, this`marked
      ensures Valid() && Contents() == RefreshSpec(shape, strict, old(Contents()))
    {
      UnCheckNodes(true);
      ghost var c := Contents();
      DefaultChecked();
      assert Contents() == c.(boxes := DefaultSpec(shape, strict, c));
      CheckboxInit();
    }
  }

  lemma CheckAllOne(s: Shape, strict: bool, b: Boxes, x: int)
    requires s.Valid() && Fits(s, b) && s.IsNode(x)
    ensures CheckAll(s, strict, b, [x]) == if strict then CheckSelf(s, b, x, true) else SetBelow(s, b, x, true)
  {
    assert [x][1..] == [];
    if strict {
      assert CheckAll(s, strict, CheckSelf(s, b, x, true), []) == CheckSelf(s, b, x, true);
    } else {
      assert CheckEach(s, SetBelow(s, b, x, true), []) == SetBelow(s, b, x, true);
    }
  }

  lemma MarkedStep(s: Shape, strict: bool, b: Boxes, marked: seq<bool>, j: nat)
    requires s.Valid() && Fits(s, b) && |marked| == |s.parent| && j < |marked|
    ensures CheckAll(s, strict, b, MarkedFrom(marked, j))
         == CheckAll(s, strict, if marked[j] then CheckAll(s, strict, b, [j]) else b, MarkedFrom(marked, j + 1))
  {
    var rest := MarkedFrom(marked, j + 1);
    if marked[j] {
      assert MarkedFrom(marked, j) == [j] + rest;
      hide MarkedFrom, CheckAll;
      CheckAllSplit(s, strict, b, [j], rest);
    } else {
      assert MarkedFrom(marked, j) == rest;
    }
  }

  lemma MarkedEnd(s: Shape, strict: bool, b: Boxes, marked: seq<bool>)
    requires s.Valid() && Fits(s, b) && |marked| == |s.parent|
    ensures CheckAll(s, strict, b, MarkedFrom(marked, |marked|)) == b
  {
    assert MarkedFrom(marked, |marked|) == [];
  }

  lemma {:induction false} CheckAllSplit(s: Shape, strict: bool, b: Boxes, xs: seq<int>, ys: seq<int>)
    requires s.Valid() && Fits(s, b)
    requires forall x :: x in xs || x in ys ==> s.IsNode(x)
    ensures CheckAll(s, strict, b, xs + ys) == CheckAll(s, strict, CheckAll(s, strict, b, xs), ys)
    decreases |xs|
  {
    if xs == [] {
      assert xs + ys == ys;
    } else {
      assert (xs + ys)[1..] == xs[1..] + ys;
      var first := if strict then CheckSelf(s, b, xs[0], true) else SetBelow(s, b, xs[0], true);
      CheckAllSplit(s, strict, first, xs[1..], ys);
    }
  }

  function Rendered(s: Shape, marked: seq<bool>, keys: seq<Key>): (r: State)
    requires s.Valid() && |marked| == |s.parent|
  {
    State(Boxes(seq(|marked|, j requires 0 <= j < |marked| => if marked[j] then On else Off), marked), marked, keys)
  }
}
