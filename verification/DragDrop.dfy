/** Dragging a node to another place: data and rendered tree are edited separately and stay in step. */
module DragDrop {
  import opened Trees
  import opened RenderTree

  /** All nodes below that carry the given floor, in document order. */
  function Find(vs: seq<View>, floor: int): seq<View> {
    if vs == [] then []
    else (if vs[0].val.floor == floor then [vs[0]] else []) + Find(vs[0].kids, floor) + Find(vs[1..], floor)
  }

  /** An equal of the target is the node at p or lies inside it. */
  ghost predicate TwinInside(views: seq<View>, p: Path, target: Path)
    requires LeadsToNode(views, p) && LeadsToNode(views, target)
  {
    exists q: Path :: p <= q && LeadsToNode(views, q) && NodeAt(views, q) == NodeAt(views, target)
  }

  /** The floors of a detached subtree, all lowered by the same difference. */
  function LowerFloors(vs: seq<View>, delta: int): (r: seq<View>) {
    seq(|vs|, i requires 0 <= i < |vs| =>
      Node(Shown(vs[i].val.floor - delta, vs[i].val.entry), LowerFloors(vs[i].kids, delta)))
  }

  /** What a drop makes of a tree: the node at p becomes the last child of the target. */
  function Dropped<A>(ts: seq<Tree<A>>, p: Path, target: Path): seq<Tree<A>>
    requires LeadsToNode(ts, p) && LeadsToList(ts, target) && !(p <= target)
  {
    ShiftFollows(ts, p, target);
    PushAt(RemoveAt(ts, p), Shift(target, p), NodeAt(ts, p))
  }

  /** Where the dragged node ends up. */
  function DropPlace<A>(ts: seq<Tree<A>>, p: Path, target: Path): Path
    requires LeadsToNode(ts, p) && LeadsToList(ts, target) && !(p <= target)
  {
    ShiftFollows(ts, p, target);
    Shift(target, p) + [|ListAt(RemoveAt(ts, p), Shift(target, p))|]
  }

  class Widget {
    var data: seq<Item>
    var views: seq<View>

    ghost predicate Valid()
      reads this
    {
      views == Full(data, 0)
    }

    constructor (data: seq<Item>)
      ensures Valid() && this.data == data
    {
      this.data := data;
      this.views := Full(data, 0);
    }

    /**
     The drop is refused when the dragged node, or a node inside it on the floor of the target, is
     equal to the target as `isEqualNode` compares.
     */
    method Refused(p: Path, target: Path) returns (r: bool)
      requires LeadsToNode(views, p) && LeadsToNode(views, target)
      ensures r <==> TwinInside(views, p, target)
      ensures p <= target ==> r
    {
      ghost var vs := views;
      var node, t := NodeAt(views, p), NodeAt(views, target);
      TwinIsFound(vs, p, target);
      if t == node { return true; }
      var found := Find(node.kids, t.val.floor);
      var isInChild := false;
      for i := 0 to |found|
        invariant isInChild <==> t in found[..i]
      {
        if found[i] == t { isInChild := true; }
      }
      assert found[..|found|] == found;
      return isInChild;
    }

    /**
     Drags the node at p to the node at `target`, or to the container when `target` is empty.
     Data and rendered tree are edited separately, the rendered floors by their difference.
     */
    method Drop(p: Path, target: Path) returns (moved: bool)
      requires Valid() && LeadsToNode(views, p) && LeadsToList(views, target)
      modifies this
      ensures Valid()
      ensures LeadsToNode(old(data), p) && LeadsToList(old(data), target)
      ensures moved ==> !(p <= target) && data == Dropped(old(data), p, target)
      ensures !moved ==> data == old(data)
      ensures !moved <==> target != [] && TwinInside(old(views), p, target)
    {
      hide Full, LowerFloors, RemoveAt, SetList, ListAt, NodeAt, LeadsToList;
      ghost var d0 := data;
      FullAt(data, p, 0);
      FullList(data, target, 0);
      if target != [] {
        var refused := Refused(p, target);
        if refused { return false; }
      }
      var node := NodeAt(views, p);
      var floor := if target == [] then 0 else NodeAt(views, target).val.floor + 1;
      var current := NodeAt(data, p);
      ShiftFollows(data, p, target);
      ShiftFollows(views, p, target);
      data := RemoveAt(data, p);
      data := PushAt(data, Shift(target, p), current);
      views := RemoveAt(views, p);
      var countFloor := node.val.floor - floor;
      views := PushAt(views, Shift(target, p), Node(Shown(floor, node.val.entry), LowerFloors(node.kids, countFloor)));
      DropRendered(d0, p, target);
      moved := true;
    }
  }

  lemma {:induction false} LowerFull(ts: seq<Item>, floor: int, delta: int)
    ensures LowerFloors(Full(ts, floor), delta) == Full(ts, floor - delta)
    decreases ts
  {
    hide Full, Show;
    var lowered := LowerFloors(Full(ts, floor), delta);
    forall i | 0 <= i < |ts| ensures lowered[i] == Full(ts, floor - delta)[i] {
      LowerFull(ts[i].kids, floor + 1, delta);
      ShowKids(ts[i], floor);
      ShowKids(ts[i], floor - delta);
    }
  }

  lemma ShowKids(t: Item, floor: int)
    ensures Show(t, floor) == Node(Shown(floor, t.val), Full(t.kids, floor + 1))
  {}

  lemma {:induction false} FullRemove(ts: seq<Item>, p: Path, floor: int)
    requires LeadsToNode(ts, p) && LeadsToNode(Full(ts, floor), p)
    ensures Full(RemoveAt(ts, p), floor) == RemoveAt(Full(ts, floor), p)
    decreases |p|
  {
    hide Full;
    var i := p[0];
    if |p| > 1 {
      ShowKids(ts[i], floor);
      FullRemove(ts[i].kids, p[1..], floor + 1);
      ShowKids(Node(ts[i].val, RemoveAt(ts[i].kids, p[1..])), floor);
    }
  }

  lemma {:induction false} FullSet(ts: seq<Item>, q: Path, list: seq<Item>, floor: int)
    requires LeadsToList(ts, q) && LeadsToList(Full(ts, floor), q)
    ensures Full(SetList(ts, q, list), floor) == SetList(Full(ts, floor), q, Full(list, floor + |q|))
    decreases |q|
  {
    if q != [] { FullSet(ts[q[0]].kids, q[1..], list, floor + 1); }
  }

  lemma {:induction false} NodeBelow<A>(ts: seq<Tree<A>>, p: Path, r: Path)
    requires LeadsToNode(ts, p)
    ensures LeadsToList(ts, p + r) <==> LeadsToList(NodeAt(ts, p).kids, r)
    ensures r != [] && LeadsToList(ts, p + r) ==> NodeAt(ts, p + r) == NodeAt(NodeAt(ts, p).kids, r)
    decreases |p|
  {
    assert (p + r)[1..] == p[1..] + r;
    if |p| > 1 {
      NodeBelow(ts[p[0]].kids, p[1..], r);
    } else {
      assert p[1..] + r == r;
    }
  }

  lemma {:induction false} FindBelow(vs: seq<View>, r: Path)
    requires LeadsToNode(vs, r)
    ensures NodeAt(vs, r) in Find(vs, NodeAt(vs, r).val.floor)
    decreases |r|, r[0]
  {
    if r[0] > 0 {
      var r' := [r[0] - 1] + r[1..];
      assert r'[1..] == r[1..] && vs[1..][r'[0]] == vs[r[0]];
      assert LeadsToNode(vs[1..], r') && NodeAt(vs[1..], r') == NodeAt(vs, r);
      FindBelow(vs[1..], r');
    } else if |r| > 1 {
      FindBelow(vs[0].kids, r[1..]);
    }
  }

  lemma {:induction false} FindSomewhere(vs: seq<View>, floor: int, t: View) returns (r: Path)
    requires t in Find(vs, floor)
    ensures LeadsToNode(vs, r) && NodeAt(vs, r) == t
    decreases vs
  {
    if vs[0] == t {
      r := [0];
    } else if t in Find(vs[0].kids, floor) {
      var r' := FindSomewhere(vs[0].kids, floor, t);
      r := [0] + r';
      assert r[1..] == r';
    } else {
      var r' := FindSomewhere(vs[1..], floor, t);
      r := NextRoot(vs, r');
    }
  }

  /** A path into the roots after the first, seen from all roots. */
  lemma NextRoot(vs: seq<View>, p: Path) returns (r: Path)
    requires vs != [] && LeadsToNode(vs[1..], p)
    ensures r == [p[0] + 1] + p[1..] && LeadsToNode(vs, r) && NodeAt(vs, r) == NodeAt(vs[1..], p)
  {
    r := [p[0] + 1] + p[1..];
    assert r[1..] == p[1..] && vs[r[0]] == vs[1..][p[0]];
  }

  /** The search by floors finds an equal of the target exactly when there is one in the dragged subtree. */
  lemma TwinIsFound(views: seq<View>, p: Path, target: Path)
    requires LeadsToNode(views, p) && LeadsToNode(views, target)
    ensures var node, t := NodeAt(views, p), NodeAt(views, target);
            TwinInside(views, p, target) <==> t == node || t in Find(node.kids, t.val.floor)
    ensures p <= target ==> TwinInside(views, p, target)
  {
    var node, t := NodeAt(views, p), NodeAt(views, target);
    if TwinInside(views, p, target) && t != node {
      var q: Path :| p <= q && LeadsToNode(views, q) && NodeAt(views, q) == t;
      var r := q[|p|..];
      assert q == p + r;
      NodeBelow(views, p, r);
      assert r != [] by { assert r == [] ==> q == p; }
      FindBelow(node.kids, r);
    }
    if t in Find(node.kids, t.val.floor) {
      var r := FindSomewhere(node.kids, t.val.floor, t);
      NodeBelow(views, p, r);
      assert p <= p + r;
    }
  }

  /** The guards of a drop are right: they refuse exactly the node itself and what is inside it. */
  ghost predicate RefusesRightly(views: seq<View>) {
    forall p: Path, target: Path :: LeadsToNode(views, p) && LeadsToNode(views, target) ==>
      (TwinInside(views, p, target) <==> p <= target)
  }

  /** No two items on one level of the tree are equal, children included. */
  ghost predicate NoTwins(data: seq<Item>) {
    forall p: Path, q: Path ::
      LeadsToNode(data, p) && LeadsToNode(data, q) && |p| == |q| && NodeAt(data, p) == NodeAt(data, q) ==> p == q
  }

  /** Comparing nodes by their contents is right for every drop exactly when no two items are twins. */
  lemma RefusesRightlyIff(data: seq<Item>)
    ensures RefusesRightly(Full(data, 0)) <==> NoTwins(data)
  {
    hide Full, LeadsToList;
    var views := Full(data, 0);
    if RefusesRightly(views) {
      forall p: Path, q: Path |
        LeadsToNode(data, p) && LeadsToNode(data, q) && |p| == |q| && NodeAt(data, p) == NodeAt(data, q)
        ensures p == q
      {
        SameView(data, p, q);
        assert p <= p && TwinInside(views, p, q);
      }
    }
    if NoTwins(data) {
      forall p: Path, target: Path | LeadsToNode(views, p) && LeadsToNode(views, target)
        ensures TwinInside(views, p, target) <==> p <= target
      {
        if TwinInside(views, p, target) {
          var q: Path :| p <= q && LeadsToNode(views, q) && NodeAt(views, q) == NodeAt(views, target);
          SameView(data, q, target);
        }
      }
    }
  }

  /** Two rendered nodes are equal exactly when they are on one floor and show equal items. */
  lemma SameView(data: seq<Item>, p: Path, q: Path)
    requires p != [] && q != []
    ensures LeadsToNode(Full(data, 0), p) <==> LeadsToNode(data, p)
    ensures LeadsToNode(Full(data, 0), q) <==> LeadsToNode(data, q)
    ensures LeadsToNode(data, p) && LeadsToNode(data, q) ==>
              (NodeAt(Full(data, 0), p) == NodeAt(Full(data, 0), q)
               <==> |p| == |q| && NodeAt(data, p) == NodeAt(data, q))
  {
    hide Full, LeadsToList, NodeAt, Show;
    FullAt(data, p, 0);
    FullAt(data, q, 0);
    if LeadsToNode(data, p) && LeadsToNode(data, q) {
      ShowInjective(NodeAt(data, p), |p| - 1, NodeAt(data, q), |q| - 1);
    }
  }

  lemma ShowInjective(t: Item, floor: int, u: Item, floor': int)
    ensures Show(t, floor) == Show(u, floor') <==> t == u && floor == floor'
  {
    hide Full;
    ShowKids(t, floor);
    ShowKids(u, floor');
    if Show(t, floor) == Show(u, floor') { FullInjective(t.kids, u.kids, floor + 1); }
  }

  lemma {:induction false} FullInjective(s: seq<Item>, t: seq<Item>, floor: int)
    requires Full(s, floor) == Full(t, floor)
    ensures s == t
    decreases s
  {
    hide Full;
    assert |s| == |Full(s, floor)| == |Full(t, floor)| == |t|;
    forall i | 0 <= i < |s| ensures s[i] == t[i] {
      assert Full(s, floor)[i] == Full(t, floor)[i];
      ShowKids(s[i], floor);
      ShowKids(t[i], floor);
      FullInjective(s[i].kids, t[i].kids, floor + 1);
    }
  }

  ghost predicate DistinctKeys(data: seq<Item>) {
    forall p: Path, q: Path ::
      LeadsToNode(data, p) && LeadsToNode(data, q) && NodeAt(data, p).val.key == NodeAt(data, q).val.key ==> p == q
  }

  /** Distinct keys are enough. */
  lemma RefusedIffInside(data: seq<Item>, p: Path, target: Path)
    requires DistinctKeys(data) && LeadsToNode(data, p) && LeadsToNode(data, target)
    requires LeadsToNode(Full(data, 0), p) && LeadsToNode(Full(data, 0), target)
    ensures TwinInside(Full(data, 0), p, target) <==> p <= target
  {
    RefusesRightlyIff(data);
  }

  /** Of two equal roots neither can be dropped on the other; a different label is enough to allow it. */
  lemma TwinRootsRefuse(key: string, text: string, text': string, look: string)
    requires text != text'
    ensures var twins := [Node(Entry(key, text, look), []), Node(Entry(key, text, look), [])];
            !([0] <= [1]) && !NoTwins(twins)
            && LeadsToNode(Full(twins, 0), [0]) && LeadsToNode(Full(twins, 0), [1])
            && TwinInside(Full(twins, 0), [0], [1])
    ensures var roots := [Node(Entry(key, text, look), []), Node(Entry(key, text', look), [])];
            LeadsToNode(Full(roots, 0), [0]) && LeadsToNode(Full(roots, 0), [1])
            && !TwinInside(Full(roots, 0), [0], [1])
  {
    var twins: seq<Item> := [Node(Entry(key, text, look), []), Node(Entry(key, text, look), [])];
    var roots: seq<Item> := [Node(Entry(key, text, look), []), Node(Entry(key, text', look), [])];
    var p: Path, q: Path := [0], [1];
    assert p != q && p[1..] == [] == q[1..];
    assert LeadsToNode(twins, p) && LeadsToNode(twins, q) && twins[0] == twins[1];
    assert NodeAt(twins, p) == twins[0] && NodeAt(twins, q) == twins[1];
    SameView(twins, p, q);
    assert p <= p && TwinInside(Full(twins, 0), p, q);
    assert LeadsToNode(roots, p) && LeadsToNode(roots, q);
    SameView(roots, p, q);
    FullAt(roots, p, 0);
    TwinIsFound(Full(roots, 0), p, q);
    assert Full([], 1) == [];
  }

  lemma {:induction false} ShiftLength(q: Path, p: Path)
    requires p != []
    ensures |Shift(q, p)| == |q|
    decreases |p|
  {
    if q != [] && |p| > 1 && q[0] == p[0] { ShiftLength(q[1..], p[1..]); }
  }

  /** The separately edited rendered tree is the full rendering of the edited data. */
  lemma DropRendered(data: seq<Item>, p: Path, target: Path)
    requires LeadsToNode(data, p) && LeadsToList(data, target) && !(p <= target)
    requires LeadsToNode(Full(data, 0), p) && LeadsToList(Full(data, 0), target)
    requires LeadsToList(RemoveAt(Full(data, 0), p), Shift(target, p))
    ensures var views := Full(data, 0);
            var node := NodeAt(views, p);
            var floor := if target == [] then 0 else NodeAt(views, target).val.floor + 1;
            PushAt(RemoveAt(views, p), Shift(target, p),
                   Node(Shown(floor, node.val.entry), LowerFloors(node.kids, node.val.floor - floor)))
            == Full(Dropped(data, p, target), 0)
  {
    hide Full, Show, RemoveAt, SetList, NodeAt, ListAt, Shift, LeadsToList, LowerFloors;
    var item := NodeAt(data, p);
    FullAt(data, p, 0);
    ShowKids(item, |p| - 1);
    if target != [] {
      FullAt(data, target, 0);
      ShowKids(NodeAt(data, target), |target| - 1);
    }
    LowerFull(item.kids, |p|, |p| - 1 - |target|);
    ShowKids(item, |target|);
    PushRendered(data, p, target);
  }

  lemma PushRendered(data: seq<Item>, p: Path, target: Path)
    requires LeadsToNode(data, p) && LeadsToList(data, target) && !(p <= target)
    requires LeadsToNode(Full(data, 0), p) && LeadsToList(RemoveAt(Full(data, 0), p), Shift(target, p))
    ensures PushAt(RemoveAt(Full(data, 0), p), Shift(target, p), Show(NodeAt(data, p), |target|))
         == Full(Dropped(data, p, target), 0)
  {
    hide Full, Show, RemoveAt, SetList, NodeAt, ListAt, Shift, LeadsToList;
    var rest, q := RemoveAt(data, p), Shift(target, p);
    ShiftFollows(data, p, target);
    ShiftLength(target, p);
    FullRemove(data, p, 0);
    FullList(rest, q, 0);
    FullConcat(ListAt(rest, q), NodeAt(data, p), |q|);
    FullSet(rest, q, ListAt(rest, q) + [NodeAt(data, p)], 0);
  }

  /** The children of the target apart from the dragged node. */
  function OtherChildren<A>(ts: seq<Tree<A>>, p: Path, target: Path): seq<Tree<A>>
    requires LeadsToNode(ts, p) && LeadsToList(ts, target) && !(p <= target)
  {
    ShiftFollows(ts, p, target);
    if target < p then RemoveAt(ListAt(ts, target), p[|target|..]) else ListAt(ts, target)
  }

  lemma FullConcat(list: seq<Item>, t: Item, floor: int)
    ensures Full(list + [t], floor) == Full(list, floor) + [Show(t, floor)]
  {
  }

  /**
   A drop conserves the nodes, puts the dragged subtree last under the target, and changes nothing
   else: without it, the tree before and the tree after are the same.
   */
  lemma DropMovesOneSubtree<A>(ts: seq<Tree<A>>, p: Path, target: Path)
    requires LeadsToNode(ts, p) && LeadsToList(ts, target) && !(p <= target)
    ensures Values(Dropped(ts, p, target)) == Values(ts)
    ensures var place := DropPlace(ts, p, target);
            && LeadsToNode(Dropped(ts, p, target), place)
            && NodeAt(Dropped(ts, p, target), place) == NodeAt(ts, p)
            && RemoveAt(Dropped(ts, p, target), place) == RemoveAt(ts, p)
    ensures var q := Shift(target, p);
            && LeadsToList(Dropped(ts, p, target), q)
            && ListAt(Dropped(ts, p, target), q) == OtherChildren(ts, p, target) + [NodeAt(ts, p)]
  {
    hide Values;
    ShiftFollows(ts, p, target);
    var rest, q := RemoveAt(ts, p), Shift(target, p);
    RemoveConserves(ts, p);
    PushConserves(rest, q, NodeAt(ts, p));
    RemoveUndoesPush(rest, q, NodeAt(ts, p));
    SetListReads(rest, q, ListAt(rest, q) + [NodeAt(ts, p)]);
  }
}
