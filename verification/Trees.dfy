/** Trees with ordered children, addressed by index paths, and the edits the widget makes in place. */
module Trees {

  datatype Tree<A> = Node(val: A, kids: seq<Tree<A>>)

  type Path = seq<nat>

  /** p leads to a list: the roots, or the children of a node. */
  predicate LeadsToList<A>(ts: seq<Tree<A>>, p: Path) {
    p == [] || (p[0] < |ts| && LeadsToList(ts[p[0]].kids, p[1..]))
  }

  /** p leads to a node. */
  predicate LeadsToNode<A>(ts: seq<Tree<A>>, p: Path) {
    p != [] && LeadsToList(ts, p)
  }

  function NodeAt<A>(ts: seq<Tree<A>>, p: Path): Tree<A>
    requires LeadsToNode(ts, p)
  {
    if |p| == 1 then ts[p[0]] else NodeAt(ts[p[0]].kids, p[1..])
  }

  function ListAt<A>(ts: seq<Tree<A>>, p: Path): seq<Tree<A>>
    requires LeadsToList(ts, p)
  {
    if p == [] then ts else ListAt(ts[p[0]].kids, p[1..])
  }

  function SetList<A>(ts: seq<Tree<A>>, p: Path, list: seq<Tree<A>>): seq<Tree<A>>
    requires LeadsToList(ts, p)
  {
    if p == [] then list
    else ts[p[0] := Node(ts[p[0]].val, SetList(ts[p[0]].kids, p[1..], list))]
  }

  /** `list.splice(index, 1)` on the list that holds the node at p. */
  function RemoveAt<A>(ts: seq<Tree<A>>, p: Path): seq<Tree<A>>
    requires LeadsToNode(ts, p)
  {
    if |p| == 1 then ts[..p[0]] + ts[p[0] + 1..]
    else ts[p[0] := Node(ts[p[0]].val, RemoveAt(ts[p[0]].kids, p[1..]))]
  }

  /** `list.push(t)` on the list at q. */
  function PushAt<A>(ts: seq<Tree<A>>, q: Path, t: Tree<A>): seq<Tree<A>>
    requires LeadsToList(ts, q)
  {
    SetList(ts, q, ListAt(ts, q) + [t])
  }

  /** Where the list formerly at q is once the node at p is gone. */
  function Shift(q: Path, p: Path): Path
    requires p != []
  {
    if q == [] then []
    else if |p| == 1 then (if q[0] > p[0] then [q[0] - 1] + q[1..] else q)
    else if q[0] == p[0] then [q[0]] + Shift(q[1..], p[1..])
    else q
  }

  /** All values, every node before its children. */
  function Preorder<A>(ts: seq<Tree<A>>): seq<A> {
    if ts == [] then [] else [ts[0].val] + Preorder(ts[0].kids) + Preorder(ts[1..])
  }

  lemma {:induction false} PreorderConcat<A>(s: seq<Tree<A>>, t: seq<Tree<A>>)
    ensures Preorder(s + t) == Preorder(s) + Preorder(t)
  {
    if s == [] {
      assert s + t == t;
    } else {
      assert (s + t)[1..] == s[1..] + t;
      PreorderConcat(s[1..], t);
    }
  }

  lemma PreorderOne<A>(t: Tree<A>)
    ensures Preorder([t]) == [t.val] + Preorder(t.kids)
  {
    assert [t][1..] == [];
  }

  /** All values, in no order. */
  function Values<A>(ts: seq<Tree<A>>): multiset<A> { multiset(Preorder(ts)) }

  lemma ValuesConcat<A>(s: seq<Tree<A>>, t: seq<Tree<A>>)
    ensures Values(s + t) == Values(s) + Values(t)
  {
    PreorderConcat(s, t);
  }

  lemma ValuesOne<A>(t: Tree<A>)
    ensures Values([t]) == multiset{t.val} + Values(t.kids)
  {
    PreorderOne(t);
  }

  /** The values around an element, and what they are when another one takes its place. */
  lemma ValuesAround<A>(ts: seq<Tree<A>>, i: nat, t: Tree<A>)
    requires i < |ts|
    ensures Values(ts[i := t]) == Values(ts[..i]) + Values([t]) + Values(ts[i + 1..])
  {
    hide Values;
    assert ts[i := t] == ts[..i] + [t] + ts[i + 1..];
    ValuesConcat(ts[..i] + [t], ts[i + 1..]);
    ValuesConcat(ts[..i], [t]);
  }

  lemma ValuesOf<A>(ts: seq<Tree<A>>, i: nat)
    requires i < |ts|
    ensures Values(ts) == Values(ts[..i]) + Values([ts[i]]) + Values(ts[i + 1..])
  {
    assert ts[i := ts[i]] == ts;
    ValuesAround(ts, i, ts[i]);
  }

  lemma {:induction false} RemoveConserves<A>(ts: seq<Tree<A>>, p: Path)
    requires LeadsToNode(ts, p)
    ensures Values(RemoveAt(ts, p)) + Values([NodeAt(ts, p)]) == Values(ts)
    decreases |p|
  {
    hide Values;
    var i := p[0];
    ValuesOf(ts, i);
    if |p| == 1 {
      ValuesConcat(ts[..i], ts[i + 1..]);
    } else {
      var t := Node(ts[i].val, RemoveAt(ts[i].kids, p[1..]));
      RemoveConserves(ts[i].kids, p[1..]);
      ValuesAround(ts, i, t);
      ValuesOne(t);
      ValuesOne(ts[i]);
    }
  }

  lemma {:induction false} PushConserves<A>(ts: seq<Tree<A>>, q: Path, t: Tree<A>)
    requires LeadsToList(ts, q)
    ensures Values(PushAt(ts, q, t)) == Values(ts) + Values([t])
    decreases |q|
  {
    hide Values;
    if q == [] {
      ValuesConcat(ts, [t]);
    } else {
      var i := q[0];
      var u := Node(ts[i].val, PushAt(ts[i].kids, q[1..], t));
      ValuesOf(ts, i);
      PushConserves(ts[i].kids, q[1..], t);
      ValuesAround(ts, i, u);
      ValuesOne(u);
      ValuesOne(ts[i]);
    }
  }

  /** The list at q survives the removal of a node that does not contain it, at the shifted path. */
  lemma {:induction false} ShiftFollows<A>(ts: seq<Tree<A>>, p: Path, q: Path)
    requires LeadsToNode(ts, p) && LeadsToList(ts, q) && !(p <= q)
    ensures LeadsToList(RemoveAt(ts, p), Shift(q, p))
    ensures q != [] ==> Shift(q, p) != [] && NodeAt(RemoveAt(ts, p), Shift(q, p)).val == NodeAt(ts, q).val
    ensures q < p ==> LeadsToNode(ListAt(ts, q), p[|q|..])
    ensures ListAt(RemoveAt(ts, p), Shift(q, p))
         == if q < p then RemoveAt(ListAt(ts, q), p[|q|..]) else ListAt(ts, q)
    decreases |p|
  {
    if q != [] && |p| > 1 && q[0] == p[0] {
      assert p == [p[0]] + p[1..] && q == [q[0]] + q[1..];
      ShiftFollows(ts[p[0]].kids, p[1..], q[1..]);
      assert q < p <==> q[1..] < p[1..];
      assert q < p ==> p[1..][|q[1..]|..] == p[|q|..];
    } else {
      assert q == [] ==> p[|q|..] == p;
    }
  }

  lemma {:induction false} SetListReads<A>(ts: seq<Tree<A>>, q: Path, list: seq<Tree<A>>)
    requires LeadsToList(ts, q)
    ensures LeadsToList(SetList(ts, q, list), q) && ListAt(SetList(ts, q, list), q) == list
    decreases |q|
  {
    if q != [] { SetListReads(ts[q[0]].kids, q[1..], list); }
  }

  lemma {:induction false} NodeInList<A>(ts: seq<Tree<A>>, q: Path, i: nat)
    requires LeadsToList(ts, q) && i < |ListAt(ts, q)|
    ensures LeadsToNode(ts, q + [i]) && NodeAt(ts, q + [i]) == ListAt(ts, q)[i]
    ensures ListAt(ts, q + [i]) == ListAt(ts, q)[i].kids
    decreases |q|
  {
    if q == [] {
      assert q + [i] == [i] && [i][1..] == [];
    } else {
      assert (q + [i])[1..] == q[1..] + [i];
      NodeInList(ts[q[0]].kids, q[1..], i);
    }
  }

  /** Taking the pushed node away again restores the list. */
  lemma {:induction false} RemoveUndoesPush<A>(ts: seq<Tree<A>>, q: Path, t: Tree<A>)
    requires LeadsToList(ts, q)
    ensures var p := q + [|ListAt(ts, q)|];
            LeadsToNode(PushAt(ts, q, t), p) && NodeAt(PushAt(ts, q, t), p) == t && RemoveAt(PushAt(ts, q, t), p) == ts
    decreases |q|
  {
    var p := q + [|ListAt(ts, q)|];
    if q != [] {
      assert p[1..] == q[1..] + [|ListAt(ts, q)|];
      RemoveUndoesPush(ts[q[0]].kids, q[1..], t);
    }
  }
}
