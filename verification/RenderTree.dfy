/** The rendered tree and the data tree: full expansion, and finding the data of a rendered node. */
module RenderTree {
  import opened Trees

  /**
   An item without its children: key, label, and as `look` everything else that its rendered node
   carries (marks, state of the box, open or closed), which the code keeps in the rendered node alone.
   */
  datatype Entry = Entry(key: string, text: string, look: string)

  /** What a rendered node shows of its position and its item. */
  datatype Shown = Shown(floor: int, entry: Entry)

  type Item = Tree<Entry>
  type View = Tree<Shown>

  function Show(t: Item, floor: int): View
  {
    Node(Shown(floor, t.val), Full(t.kids, floor + 1))
  }

  /** The complete rendering of a list of items whose floor is given. */
  function Full(ts: seq<Item>, floor: int): (vs: seq<View>)
    ensures |vs| == |ts|
    ensures forall i :: 0 <= i < |ts| ==> vs[i] == Show(ts[i], floor)
  {
    if ts == [] then [] else [Show(ts[0], floor)] + Full(ts[1..], floor)
  }

  /** One level only, as the template renders it. */
  function Shallow(ts: seq<Item>, floor: int): (vs: seq<View>)
    ensures |vs| == |ts|
  {
    seq(|ts|, i requires 0 <= i < |ts| => Node(Shown(floor, ts[i].val), []))
  }

  class Rendering {
    var views: seq<View>
    var path: Path

    /** Renders the first level; everything below follows by expansion. */
    constructor (data: seq<Item>)
      ensures views == Shallow(data, 0) && path == []
    {
      views := Shallow(data, 0);
      path := [];
    }

    /** Renders everything below the list at the path stack, and restores the stack. */
    method ExpandAll(data: seq<Item>, floor: int)
      requires LeadsToList(views, path) && ListAt(views, path) == Shallow(data, floor - 1)
      modifies this
      ensures path == old(path)
      ensures views == SetList(old(views), path, Full(data, floor - 1))
      decreases data
    {
      hide Full, Shallow, Level, SetList, LeadsToList, ListAt;
      ghost var v0, p0 := views, path;
      SetListSame(v0, p0);
      LevelEnds(data, floor - 1);
      for index := 0 to |data|
        invariant path == p0
        invariant views == SetList(v0, p0, Level(data, index, floor - 1))
      {
        ghost var before := Level(data, index, floor - 1);
        var val := data[index];
        LevelNext(data, index, floor - 1);
        path := path + [index];
        NextLevel(v0, p0, before, index, Shallow(val.kids, floor));
        NextLevel(v0, p0, before, index, Full(val.kids, floor));
        if |val.kids| > 0 {
          assert ListAt(views, path) + Shallow(val.kids, floor) == Shallow(val.kids, floor);
          views := SetList(views, path, ListAt(views, path) + Shallow(val.kids, floor));
          SetListReads(SetList(v0, p0, before), path, Shallow(val.kids, floor));
          SetTwice(SetList(v0, p0, before), path, Shallow(val.kids, floor), Full(val.kids, floor));
          ExpandAll(val.kids, floor + 1);
        }
        assert path == p0 + [index];
        path := path[..|path| - 1];
      }
    }
  }

  /** The list when its first k items are completely rendered and the others only themselves. */
  function Level(ts: seq<Item>, k: nat, floor: int): (vs: seq<View>)
    requires k <= |ts|
    ensures |vs| == |ts|
  {
    Full(ts[..k], floor) + Shallow(ts[k..], floor)
  }

  lemma LevelEnds(ts: seq<Item>, floor: int)
    ensures Level(ts, 0, floor) == Shallow(ts, floor)
    ensures Level(ts, |ts|, floor) == Full(ts, floor)
  {
    assert ts[..0] == [] && ts[0..] == ts && ts[..|ts|] == ts && ts[|ts|..] == [];
  }

  lemma LevelNext(ts: seq<Item>, k: nat, floor: int)
    requires k < |ts|
    ensures Level(ts, k, floor)[k] == Node(Shown(floor, ts[k].val), [])
    ensures Level(ts, k + 1, floor)
         == Level(ts, k, floor)[k := Node(Level(ts, k, floor)[k].val, Full(ts[k].kids, floor + 1))]
    ensures ts[k].kids == [] ==> Level(ts, k + 1, floor) == Level(ts, k, floor)
  {
    FullPrefix(ts, k, floor);
  }

  lemma {:induction false} FullPrefix(ts: seq<Item>, i: nat, floor: int)
    requires i < |ts|
    ensures Full(ts[..i + 1], floor) == Full(ts[..i], floor) + [Show(ts[i], floor)]
  {
  }

  lemma {:induction false} SetListSame<A>(ts: seq<Tree<A>>, p: Path)
    requires LeadsToList(ts, p)
    ensures SetList(ts, p, ListAt(ts, p)) == ts
    decreases |p|
  {
    if p != [] { SetListSame(ts[p[0]].kids, p[1..]); }
  }

  lemma {:induction false} SetTwice<A>(ts: seq<Tree<A>>, p: Path, list: seq<Tree<A>>, list': seq<Tree<A>>)
    requires LeadsToList(ts, p)
    ensures LeadsToList(SetList(ts, p, list), p) && SetList(SetList(ts, p, list), p, list') == SetList(ts, p, list')
    decreases |p|
  {
    if p != [] { SetTwice(ts[p[0]].kids, p[1..], list, list'); }
  }

  /** Setting the children of element i of the list at p is setting that list with element i changed. */
  lemma {:induction false} NextLevel<A>(ts: seq<Tree<A>>, p: Path, list: seq<Tree<A>>, i: nat, kids: seq<Tree<A>>)
    requires LeadsToList(ts, p) && i < |list|
    ensures var us := SetList(ts, p, list);
            && LeadsToList(us, p + [i]) && ListAt(us, p + [i]) == list[i].kids
            && SetList(us, p + [i], kids) == SetList(ts, p, list[i := Node(list[i].val, kids)])
    decreases |p|
  {
    if p == [] {
      assert p + [i] == [i] && [i][1..] == [];
    } else {
      assert (p + [i])[1..] == p[1..] + [i];
      NextLevel(ts[p[0]].kids, p[1..], list, i, kids);
    }
  }

  lemma {:induction false} FullAt(ts: seq<Item>, q: Path, floor: int)
    requires q != []
    ensures LeadsToNode(Full(ts, floor), q) <==> LeadsToNode(ts, q)
    ensures LeadsToNode(ts, q) ==> NodeAt(Full(ts, floor), q) == Show(NodeAt(ts, q), floor + |q| - 1)
    decreases |q|
  {
    if |q| == 1 {
      if q[0] < |ts| {
        assert LeadsToList(ts[q[0]].kids, q[1..]) && LeadsToList(Full(ts, floor)[q[0]].kids, q[1..]);
      }
    } else if q[0] < |ts| {
      FullAt(ts[q[0]].kids, q[1..], floor + 1);
    }
  }

  lemma {:induction false} FullList(ts: seq<Item>, q: Path, floor: int)
    requires LeadsToList(ts, q) || LeadsToList(Full(ts, floor), q)
    ensures LeadsToList(ts, q) && LeadsToList(Full(ts, floor), q)
    ensures ListAt(Full(ts, floor), q) == Full(ListAt(ts, q), floor + |q|)
    decreases |q|
  {
    if q != [] { FullList(ts[q[0]].kids, q[1..], floor + 1); }
  }

  // ---------------------------------------------------------------- data of a rendered node

  /** The nearest ancestor that carries the given floor; none is the empty path. */
  function AncestorOnFloor(views: seq<View>, q: Path, floor: int): (r: Path)
    requires LeadsToNode(views, q)
    ensures r == [] || LeadsToNode(views, r)
    decreases |q|
  {
    if |q| == 1 then []
    else
      var up := q[..|q| - 1];
      PrefixLeads(views, q, |q| - 1);
      if NodeAt(views, up).val.floor == floor then up else AncestorOnFloor(views, up, floor)
  }

  lemma {:induction false} PrefixLeads<A>(ts: seq<Tree<A>>, q: Path, n: nat)
    requires LeadsToList(ts, q) && n <= |q|
    ensures LeadsToList(ts, q[..n])
    decreases n
  {
    if n > 0 {
      PrefixLeads(ts[q[0]].kids, q[1..], n - 1);
      assert q[..n][1..] == q[1..][..n - 1];
    }
  }

  lemma FloorIsDepth(data: seq<Item>, q: Path)
    requires LeadsToNode(data, q)
    ensures LeadsToNode(Full(data, 0), q) && NodeAt(Full(data, 0), q).val.floor == |q| - 1
    ensures NodeAt(Full(data, 0), q).val.entry == NodeAt(data, q).val
    ensures |NodeAt(Full(data, 0), q).kids| == |NodeAt(data, q).kids|
  {
    FullAt(data, q, 0);
  }

  function Reverse<T>(s: seq<T>): (r: seq<T>)
    ensures |r| == |s| && forall k :: 0 <= k < |s| ==> r[k] == s[|s| - 1 - k]
  {
    if s == [] then [] else Reverse(s[1..]) + [s[0]]
  }

  lemma {:induction false} Descend<A>(ts: seq<Tree<A>>, q: Path)
    requires LeadsToNode(ts, q) && |q| > 1
    ensures LeadsToNode(ts, q[..|q| - 1])
    ensures q[|q| - 1] < |NodeAt(ts, q[..|q| - 1]).kids|
    ensures NodeAt(ts, q) == NodeAt(ts, q[..|q| - 1]).kids[q[|q| - 1]]
    decreases |q|
  {
    var up := q[..|q| - 1];
    if |q| > 2 {
      Descend(ts[q[0]].kids, q[1..]);
      assert q[1..][..|q[1..]| - 1] == up[1..];
    } else {
      assert up[1..] == [] && q[1..] == [q[1]];
      assert LeadsToList(ts[q[0]].kids, q[1..]);
    }
  }

  /** On a full rendering the climb by floors collects the index path of the node at q, last index first. */
  method IndexPath(views: seq<View>, q: Path, ghost data: seq<Item>) returns (index: Path)
    requires views == Full(data, 0) && LeadsToNode(views, q)
    ensures index == q
  {
    hide Full;
    FullAt(data, q, 0);
    var node := q;
    var i := q[|q| - 1];
    var floor := NodeAt(views, q).val.floor;
    var arr: Path := [];
    while floor >= 0
      invariant -1 <= floor == |node| - 1 < |q|
      invariant node == q[..|node|] && |arr| == |q| - |node|
      invariant forall k :: 0 <= k < |arr| ==> arr[k] == q[|q| - 1 - k]
      invariant node != [] ==> LeadsToNode(views, node) && i == node[|node| - 1]
      decreases floor + 1
    {
      arr := arr + [i];
      floor := floor - 1;
      ParentByFloor(data, node);
      node := AncestorOnFloor(views, node, floor);
      if node != [] {
        i := node[|node| - 1];
      }
    }
    index := Reverse(arr);
    assert index == q;
  }

  lemma ParentByFloor(data: seq<Item>, q: Path)
    requires LeadsToNode(Full(data, 0), q)
    ensures AncestorOnFloor(Full(data, 0), q, |q| - 2) == q[..|q| - 1]
  {
    hide Full;
    FullAt(data, q, 0);
    if |q| > 1 {
      PrefixLeads(data, q, |q| - 1);
      FullAt(data, q[..|q| - 1], 0);
    }
  }

  /** Follows an index path down the data. */
  method LookUp(data: seq<Item>, index: Path) returns (d: Item)
    requires LeadsToNode(data, index)
    ensures d == NodeAt(data, index)
  {
    d := data[index[0]];
    for j := 1 to |index|
      invariant LeadsToNode(data, index[..j]) && d == NodeAt(data, index[..j])
    {
      PrefixLeads(data, index, j + 1);
      Descend(data, index[..j + 1]);
      assert index[..j + 1][..j] == index[..j];
      d := d.kids[index[j]];
    }
    assert index[..|index|] == index;
  }

  /** Where the parent's data is found; a root stands for its own parent. */
  function ParentPath(q: Path): Path
    requires q != []
  {
    if |q| > 1 then q[..|q| - 1] else q
  }

  /** The data of the rendered node at q is the item at q, and its parent's is the item at q's parent. */
  method ReInitData(data: seq<Item>, views: seq<View>, q: Path)
    returns (current: Item, parent: Item, childIndex: nat, index: Path)
    requires views == Full(data, 0) && LeadsToNode(views, q)
    ensures index == q && childIndex == q[|q| - 1]
    ensures LeadsToNode(data, q) && current == NodeAt(data, q)
    ensures current.val == NodeAt(views, q).val.entry
    ensures LeadsToNode(data, ParentPath(q)) && parent == NodeAt(data, ParentPath(q))
    ensures if |q| == 1 then parent == current else childIndex < |parent.kids| && parent.kids[childIndex] == current
  {
    hide Full;
    if |q| > 1 { Descend(data, q) by { FullAt(data, q, 0); } }
    FullAt(data, q, 0);
    PrefixLeads(data, q, |ParentPath(q)|);
    assert q[..|ParentPath(q)|] == ParentPath(q);
    index := IndexPath(views, q, data);
    childIndex := index[|index| - 1];
    current := LookUp(data, index);
    parent := LookUp(data, ParentPath(index));
  }
}
