/** Guarantees of the checkbox tree over its whole life, outside and inside strict mode. */
module CheckRuns {
  import opened CheckShape
  import opened CheckSpec
  import opened CheckFill
  import opened CheckTree

  datatype Event = Click(x: int) | SetChecked(arr: seq<Key>, reset: bool) | UnCheck | Refresh

  ghost predicate Possible(s: Shape, run: seq<Event>) {
    forall e :: e in run && e.Click? ==> s.IsNode(e.x)
  }

  ghost function Next(s: Shape, st: State, e: Event): (r: State)
    requires FitsState(s, st) && (e.Click? ==> s.IsNode(e.x))
  {
    match e
    case Click(x) => st.(boxes := ClickSpec(s, false, st.boxes, x))
    case SetChecked(arr, reset) => SetCheckedSpec(s, false, st, arr, reset)
    case UnCheck => ClearSpec(s, st, false)
    case Refresh => RefreshSpec(s, false, st)
  }

  /** What rendering leaves behind: default keys, then the marked nodes, then the marked nodes again. */
  ghost function Initial(s: Shape, marked: seq<bool>, keys: seq<Key>): (r: State)
    requires s.Valid() && |marked| == |s.parent|
  {
    var st := Rendered(s, marked, keys);
    st.(boxes := InitSpec(s, false, DefaultSpec(s, false, st), marked))
  }

  function Targets(s: Shape, keys: seq<Key>, marked: seq<bool>): (r: set<int>)
    requires |s.key| == |s.parent| == |marked|
    ensures forall x :: x in r ==> s.IsNode(x)
  {
    set x | 0 <= x < |marked| && (s.key[x] in keys || marked[x])
  }

  /** The meaning of a programmatic selection. */
  ghost function Selection(s: Shape, keys: seq<Key>, marked: seq<bool>): Boxes
    requires s.Valid() && |marked| == |s.parent|
  {
    Settle(s, CoveredLeaves(s, Targets(s, keys, marked)), NoFlags(s))
  }

  /** A click equals recomputing everything from the leaves, and toggles the clicked subtree's leaves. */
  lemma ClickIsRecompute(s: Shape, b: Boxes, x: int)
    requires s.Valid() && Consistent(s, b) && s.IsNode(x) && !s.disabled[x]
    ensures var r := ClickSpec(s, false, b, x);
            && Consistent(s, r)
            && LeavesOn(s, r) == (if b.checked[x] then LeavesOn(s, b) - LeavesBelow(s, x)
                                  else LeavesOn(s, b) + LeavesBelow(s, x))
            && r == Settle(s, LeavesOn(s, r), b.checked)
  {
    SetBelowIsRecompute(s, b, x, !b.checked[x]);
  }

  lemma TargetsAsList(s: Shape, keys: seq<Key>, marked: seq<bool>)
    requires s.Valid() && |marked| == |s.parent|
    ensures SetOf(NodesOf(s, keys) + MarkedFrom(marked, 0)) == Targets(s, keys, marked)
  {
    var xs := NodesOf(s, keys) + MarkedFrom(marked, 0);
    forall x | 0 <= x < |marked| ensures x in xs <==> s.key[x] in keys || marked[x] {
    }
  }

  /** Keys, then marks, from any start that has nothing selected outside the targets. */
  lemma KeysThenMarks(s: Shape, b: Boxes, keys: seq<Key>, marked: seq<bool>)
    requires s.Valid() && |marked| == |s.parent| && BlankOff(s, b, Targets(s, keys, marked))
    ensures InitSpec(s, false, CheckAll(s, false, b, NodesOf(s, keys)), marked) == Selection(s, keys, marked)
    ensures InitSpec(s, false, InitSpec(s, false, CheckAll(s, false, b, NodesOf(s, keys)), marked), marked)
         == Selection(s, keys, marked)
  {
    var ks, ms := NodesOf(s, keys), MarkedFrom(marked, 0);
    TargetsAsList(s, keys, marked);
    CheckAllSplit(s, false, b, ks, ms);
    CheckEachSettles(s, b, ks + ms);
    CheckAllSplit(s, false, b, ks + ms, ms);
    assert SetOf(ks + ms + ms) == SetOf(ks + ms);
    CheckEachSettles(s, b, ks + ms + ms);
  }

  /** Rendering selects exactly what lies at or below a default key or a mark. */
  lemma InitialSettles(s: Shape, marked: seq<bool>, keys: seq<Key>)
    requires s.Valid() && |marked| == |s.parent|
    ensures Initial(s, marked, keys).boxes == Selection(s, keys, marked)
    ensures SelectsExactly(s, Initial(s, marked, keys).boxes, keys, marked)
  {
    SelectionSelects(s, keys, marked);
    var st := Rendered(s, marked, keys);
    forall j | s.IsNode(j) && !Covered(s, Targets(s, keys, marked), j)
      ensures st.boxes.status[j] == Off && !st.boxes.checked[j]
    {
      assert s.Below(j, j);
    }
    KeysThenMarks(s, st.boxes, keys, marked);
    if keys == [] {
      assert CheckAll(s, false, st.boxes, NodesOf(s, keys)) == st.boxes;
    }
  }

  /** With at least one key, a programmatic selection selects exactly the keyed and marked subtrees. */
  lemma SetCheckedSelects(s: Shape, st: State, arr: seq<Key>, reset: bool)
    requires FitsState(s, st)
    requires PreparedState(s, st, arr, reset).keys != []
    ensures var p := PreparedState(s, st, arr, reset);
            SetCheckedSpec(s, false, st, arr, reset) == p.(boxes := Selection(s, p.keys, p.marked))
  {
    var p := PreparedState(s, st, arr, reset);
    KeysThenMarks(s, p.boxes, p.keys, p.marked);
  }

  /**
   Without any key the marks are not applied: the call then meets the same description exactly
   when no node is marked.
   */
  lemma SetCheckedSelectsIff(s: Shape, st: State, arr: seq<Key>, reset: bool)
    requires FitsState(s, st)
    ensures var p := PreparedState(s, st, arr, reset);
            SetCheckedSpec(s, false, st, arr, reset).boxes == Selection(s, p.keys, p.marked)
            <==> (p.keys != [] || forall x :: 0 <= x < |p.marked| ==> !p.marked[x])
  {
    var p := PreparedState(s, st, arr, reset);
    if p.keys != [] {
      SetCheckedSelects(s, st, arr, reset);
    } else if exists x :: 0 <= x < |p.marked| && p.marked[x] {
      var x :| 0 <= x < |p.marked| && p.marked[x];
      var l := SomeLeafBelow(s, x);
      assert x in Targets(s, p.keys, p.marked) && Covered(s, Targets(s, p.keys, p.marked), l);
      SettleConsistent(s, CoveredLeaves(s, Targets(s, p.keys, p.marked)), NoFlags(s));
      assert l in LeavesOn(s, Selection(s, p.keys, p.marked));
      assert p.boxes.status[l] == Off;
    } else {
      ClearedIsSettled(s, p.boxes);
      assert CoveredLeaves(s, Targets(s, p.keys, p.marked)) == {};
    }
  }

  /** A tree with every box off is the recomputation of the empty selection. */
  lemma ClearedIsSettled(s: Shape, b: Boxes)
    requires s.Valid() && Fits(s, b)
    requires forall j :: s.IsNode(j) ==> b.status[j] == Off && !b.checked[j]
    ensures Consistent(s, b)
    ensures b == Settle(s, {}, NoFlags(s))
  {
    forall j | s.IsNode(j) ensures ConsistentAt(s, b, j) {
      if !s.IsLeaf(j) { var c :| s.IsChild(j, c); assert b.status[c] != On; }
    }
    assert LeavesOn(s, b) == {};
    ConsistentIsSettled(s, b, NoFlags(s));
  }

  /** x carries one of the keys or a mark, and l is x or below it. */
  ghost predicate SelectedBy(s: Shape, keys: seq<Key>, marked: seq<bool>, x: int, l: int)
    requires s.Valid() && |marked| == |s.parent|
  {
    s.IsNode(x) && s.IsNode(l) && (s.key[x] in keys || marked[x]) && s.Below(x, l)
  }

  /** The leaves at or below a key or a mark are on, all others are off, and the tree is consistent. */
  ghost predicate SelectsExactly(s: Shape, b: Boxes, keys: seq<Key>, marked: seq<bool>)
    requires s.Valid() && |marked| == |s.parent|
  {
    && Consistent(s, b)
    && forall l :: s.IsLeaf(l) ==> b.status[l] == if exists x :: SelectedBy(s, keys, marked, x, l) then On else Off
  }

  lemma SelectionSelects(s: Shape, keys: seq<Key>, marked: seq<bool>)
    requires s.Valid() && |marked| == |s.parent|
    ensures SelectsExactly(s, Selection(s, keys, marked), keys, marked)
  {
    var nodes := Targets(s, keys, marked);
    var b := Selection(s, keys, marked);
    SettleConsistent(s, CoveredLeaves(s, nodes), NoFlags(s));
    forall l | s.IsLeaf(l) ensures b.status[l] == if exists x :: SelectedBy(s, keys, marked, x, l) then On else Off {
      assert l in LeavesOn(s, b) <==> l in CoveredLeaves(s, nodes);
      assert ConsistentAt(s, b, l);
      if x :| SelectedBy(s, keys, marked, x, l) { assert x in nodes && Covered(s, nodes, l); }
      if Covered(s, nodes, l) {
        var x :| x in nodes && s.Below(x, l);
        assert SelectedBy(s, keys, marked, x, l);
      }
    }
  }

  /**
   What a programmatic selection comes to. A reset leaves exactly the given keys, and the marks of boxes that were
   off; otherwise all keys are kept, the new ones behind the old, and all marks. With a key left, exactly the
   leaves at or below a key or a mark are on; without, every box is off.
   */
  lemma SetCheckedMeans(s: Shape, st: State, arr: seq<Key>, reset: bool)
    requires FitsState(s, st)
    ensures var r := SetCheckedSpec(s, false, st, arr, reset);
            && |r.marked| == |s.parent|
            && (reset ==> r.keys == arr)
            && (!reset ==> st.keys <= r.keys && forall k :: k in r.keys <==> k in st.keys || k in arr)
            && (forall x :: s.IsNode(x) ==>
                  (r.marked[x] <==> st.marked[x] && (!reset || st.boxes.status[x] == Off)))
            && (r.keys != [] ==> SelectsExactly(s, r.boxes, r.keys, r.marked))
            && (r.keys == [] ==> Consistent(s, r.boxes) && forall x :: s.IsNode(x) ==> r.boxes.status[x] == Off)
  {
    var p := PreparedState(s, st, arr, reset);
    if !reset { MergeKeepsOrder(st.keys, arr); }
    if p.keys != [] {
      SetCheckedSelects(s, st, arr, reset);
      SelectionSelects(s, p.keys, p.marked);
    } else {
      ClearedIsSettled(s, p.boxes);
    }
  }

  lemma {:induction false} MergeKeepsOrder(keys: seq<Key>, more: seq<Key>)
    ensures keys <= MergeKeys(keys, more)
    decreases |more|
  {
    if more != [] { MergeKeepsOrder(if more[0] in keys then keys else keys + [more[0]], more[1..]); }
  }

  /** The same in strict mode, box by box: with a key left, exactly the keyed and marked boxes are on. */
  lemma StrictSetCheckedMeans(s: Shape, st: State, arr: seq<Key>, reset: bool)
    requires FitsState(s, st)
    ensures var r := SetCheckedSpec(s, true, st, arr, reset);
            |r.marked| == |s.parent| && Fits(s, r.boxes)
            && forall x :: s.IsNode(x) ==>
                 r.boxes.status[x] == if r.keys != [] && (s.key[x] in r.keys || r.marked[x]) then On else Off
  {
    var p := PreparedState(s, st, arr, reset);
    var ks, ms := NodesOf(s, p.keys), MarkedFrom(p.marked, 0);
    StrictCheckAll(s, p.boxes, ks);
    StrictCheckAll(s, CheckAll(s, true, p.boxes, ks), ms);
  }

  /** Clearing from outside turns every box off and keeps only the marks of boxes that were off already. */
  lemma UnCheckMeans(s: Shape, st: State)
    requires FitsState(s, st)
    ensures var r := Next(s, st, UnCheck);
            && r.keys == st.keys && |r.marked| == |s.parent| && Consistent(s, r.boxes)
            && (forall x :: s.IsNode(x) ==> r.boxes.status[x] == Off && !r.boxes.checked[x])
            && (forall x :: s.IsNode(x) ==> (r.marked[x] <==> st.marked[x] && st.boxes.status[x] == Off))
  {
    ClearedIsSettled(s, ClearSpec(s, st, false).boxes);
  }

  /** A disabled box ignores a click; in strict mode any other is turned over and nothing else changes. */
  lemma ClickAlone(s: Shape, strict: bool, b: Boxes, x: int)
    requires s.Valid() && Fits(s, b) && s.IsNode(x)
    ensures s.disabled[x] ==> ClickSpec(s, strict, b, x) == b
    ensures strict && !s.disabled[x] ==>
              var r := ClickSpec(s, strict, b, x);
              && r.checked[x] == !b.checked[x] && r.status[x] == (if b.checked[x] then Off else On)
              && forall j :: s.IsNode(j) && j != x ==> r.status[j] == b.status[j] && r.checked[j] == b.checked[j]
  {}

  /**
   A refresh, unlike a selection, applies the marks even without keys: whatever the boxes were, it
   selects exactly the keyed and marked subtrees.
   */
  lemma RefreshSelects(s: Shape, st: State)
    requires FitsState(s, st)
    ensures RefreshSpec(s, false, st) == st.(boxes := Selection(s, st.keys, st.marked))
    ensures SelectsExactly(s, RefreshSpec(s, false, st).boxes, st.keys, st.marked)
  {
    var c := ClearSpec(s, st, true);
    assert c.marked == st.marked;
    SelectionSelects(s, st.keys, st.marked);
    KeysThenMarks(s, c.boxes, c.keys, c.marked);
    if c.keys == [] {
      assert CheckAll(s, false, c.boxes, NodesOf(s, c.keys)) == c.boxes;
    }
  }

  /** A tree of one marked node: rendering selects it, setting the empty selection loses the mark. */
  lemma MarkIsLost(k: Key)
    ensures var s := Shape([-1], [0], [k], [false]);
            && s.Valid()
            && Good(s, Initial(s, [true], []))
            && Initial(s, [true], []).boxes.status == [On]
            && var st := Next(s, Initial(s, [true], []), SetChecked([], false));
               st.marked == [true] && st.boxes.status == [Off]
  {
    var s := Shape([-1], [0], [k], [false]);
    assert s.Valid();
    InitialGood(s, [true], []);
    assert s.IsNode(0) && s.Below(0, 0) && s.IsLeaf(0) && 0 in Targets(s, [], [true]);
    assert Covered(s, Targets(s, [], [true]), 0);
    SettleConsistent(s, CoveredLeaves(s, Targets(s, [], [true])), NoFlags(s));
    assert 0 in LeavesOn(s, Selection(s, [], [true]));
  }

  /** The order and the repetition of the keys do not matter. */
  lemma KeyOrderIrrelevant(s: Shape, st: State, arr: seq<Key>, arr': seq<Key>, reset: bool)
    requires FitsState(s, st) && (forall k :: k in arr <==> k in arr')
    ensures SetCheckedSpec(s, false, st, arr, reset).boxes == SetCheckedSpec(s, false, st, arr', reset).boxes
  {
    var p, p' := PreparedState(s, st, arr, reset), PreparedState(s, st, arr', reset);
    assert forall k :: k in p.keys <==> k in p'.keys;
    assert p'.keys != [] ==> p'.keys[0] in p.keys;
    assert p.keys != [] ==> p.keys[0] in p'.keys;
    if p.keys != [] {
      SetCheckedSelects(s, st, arr, reset);
      SetCheckedSelects(s, st, arr', reset);
      assert Targets(s, p.keys, p.marked) == Targets(s, p'.keys, p'.marked);
    }
  }

  ghost predicate Good(s: Shape, st: State) { FitsState(s, st) && Consistent(s, st.boxes) }

  lemma ConsistentFits(s: Shape, st: State)
    requires s.Valid() && Consistent(s, st.boxes) && |st.marked| == |s.parent|
    ensures Good(s, st)
  {
    forall j | s.IsNode(j) ensures ConsistentAt(s, st.boxes, j) { }
  }

  lemma NextGood(s: Shape, st: State, e: Event)
    requires Good(s, st) && (e.Click? ==> s.IsNode(e.x))
    ensures Good(s, Next(s, st, e))
  {
    match e {
      case Click(x) =>
        if !s.disabled[x] { ClickIsRecompute(s, st.boxes, x); }
      case SetChecked(arr, reset) =>
        var p := PreparedState(s, st, arr, reset);
        if p.keys == [] {
          ClearedIsSettled(s, p.boxes);
        } else {
          SetCheckedSelects(s, st, arr, reset);
          SettleConsistent(s, CoveredLeaves(s, Targets(s, p.keys, p.marked)), NoFlags(s));
        }
      case UnCheck =>
        ClearedIsSettled(s, ClearSpec(s, st, false).boxes);
      case Refresh =>
        RefreshSelects(s, st);
        SettleConsistent(s, CoveredLeaves(s, Targets(s, st.keys, st.marked)), NoFlags(s));
    }
    ConsistentFits(s, Next(s, st, e));
  }

  lemma InitialGood(s: Shape, marked: seq<bool>, keys: seq<Key>)
    requires s.Valid() && |marked| == |s.parent|
    ensures Good(s, Initial(s, marked, keys))
    ensures Initial(s, marked, keys).boxes == Selection(s, keys, marked)
  {
    InitialSettles(s, marked, keys);
    SettleConsistent(s, CoveredLeaves(s, Targets(s, keys, marked)), NoFlags(s));
    ConsistentFits(s, Initial(s, marked, keys));
  }

  /** Every state a run leads to is consistent when the first one is. */
  ghost function After(s: Shape, st: State, run: seq<Event>): (r: State)
    requires Good(s, st) && Possible(s, run)
    ensures Good(s, r)
    decreases |run|
  {
    if run == [] then st
    else
      var before, e := After(s, st, run[..|run| - 1]), run[|run| - 1];
      assert e in run;
      NextGood(s, before, e);
      Next(s, before, e)
  }

  /** From the rendered tree on, every state of every run is consistent. */
  lemma RunsStayConsistent(s: Shape, marked: seq<bool>, keys: seq<Key>, run: seq<Event>)
    requires s.Valid() && |marked| == |s.parent| && Possible(s, run)
    ensures Good(s, Initial(s, marked, keys))
    ensures Good(s, After(s, Initial(s, marked, keys), run))
  {
    InitialGood(s, marked, keys);
  }

  lemma ClickDecides(s: Shape, b: Boxes, x: int)
    requires s.Valid() && Consistent(s, b) && s.IsNode(x) && !s.disabled[x]
    ensures ClickSpec(s, false, b, x).status[x] == if b.checked[x] then Off else On
  {
    var r := ClickSpec(s, false, b, x);
    ClickIsRecompute(s, b, x);
    ConsistentMeansLeaves(s, r, x);
    var l := SomeLeafBelow(s, x);
    assert forall k :: s.LeafBelow(x, k) ==> (k in LeavesOn(s, r) <==> !b.checked[x]);
    assert l in LeavesOn(s, r) <==> !b.checked[x];
  }

  /**
   A half-selected box remembers its last full state: two trees that show the same states
   everywhere can differ in that flag alone, and then a click selects everything below the box in
   one of them and nothing in the other.
   */
  lemma HalfSelectedRemembers(s: Shape, b: Boxes, x: int)
    requires s.Valid() && Consistent(s, b) && s.IsNode(x) && !s.disabled[x] && b.status[x] == Half
    ensures var b' := b.(checked := b.checked[x := !b.checked[x]]);
            && Consistent(s, b') && b'.status == b.status
            && ClickSpec(s, false, b, x).status[x] == (if b.checked[x] then Off else On)
            && ClickSpec(s, false, b', x).status[x] == (if b.checked[x] then On else Off)
  {
    var b' := b.(checked := b.checked[x := !b.checked[x]]);
    forall j | s.IsNode(j) ensures ConsistentAt(s, b', j) {
      assert ConsistentAt(s, b, j);
    }
    ClickDecides(s, b, x);
    ClickDecides(s, b', x);
  }

  /**
   What a click does can be foretold from the states shown, everywhere in the tree, exactly when the
   clicked box is not an enabled half-selected one.
   */
  lemma LooksDecideIff(s: Shape, b: Boxes, x: int)
    requires s.Valid() && Consistent(s, b) && s.IsNode(x)
    ensures (forall b' :: Consistent(s, b') && b'.status == b.status ==>
               ClickSpec(s, false, b', x).status == ClickSpec(s, false, b, x).status)
            <==> s.disabled[x] || b.status[x] != Half
  {
    if s.disabled[x] {
    } else if b.status[x] == Half {
      HalfSelectedRemembers(s, b, x);
    } else {
      forall b' | Consistent(s, b') && b'.status == b.status
        ensures ClickSpec(s, false, b', x).status == ClickSpec(s, false, b, x).status
      {
        assert ConsistentAt(s, b, x) && ConsistentAt(s, b', x);
        assert LeavesOn(s, b') == LeavesOn(s, b);
        ClickIsRecompute(s, b, x);
        ClickIsRecompute(s, b', x);
      }
    }
  }

  lemma AfterMore(s: Shape, st: State, run: seq<Event>, e: Event)
    requires Good(s, st) && Possible(s, run) && (e.Click? ==> s.IsNode(e.x))
    ensures Possible(s, run + [e]) && After(s, st, run + [e]) == Next(s, After(s, st, run), e)
  {
    assert (run + [e])[..|run|] == run;
  }

  /** Nothing selected, no marks, no keys: how a tree without defaults is rendered. */
  ghost function Blank(s: Shape): (r: State)
    requires s.Valid()
    ensures Good(s, r) && r == Initial(s, NoFlags(s), []) && r.boxes == Settle(s, {}, NoFlags(s))
  {
    InitialGood(s, NoFlags(s), []);
    assert CoveredLeaves(s, Targets(s, [], NoFlags(s))) == {};
    Initial(s, NoFlags(s), [])
  }

  lemma BlankIsOff(s: Shape, x: int)
    requires s.Valid() && s.IsNode(x)
    ensures Blank(s).boxes.status[x] == Off && !Blank(s).boxes.checked[x]
    ensures LeavesOn(s, Blank(s).boxes) == {}
  {
    var l := SomeLeafBelow(s, x);
    assert StatusOf(s, {}, x) == Off;
    SettleConsistent(s, {}, NoFlags(s));
  }

  /** The first click on a blank tree. */
  lemma FirstClick(s: Shape, y: int, x: int)
    requires s.Valid() && s.IsNode(y) && !s.disabled[y] && s.IsNode(x)
    ensures Possible(s, [Click(y)])
    ensures var r := After(s, Blank(s), [Click(y)]).boxes;
            && LeavesOn(s, r) == LeavesBelow(s, y)
            && (r.checked[x] <==> StatusOf(s, LeavesBelow(s, y), x) == On)
  {
    hide Blank, Initial, ClickSpec, LeavesOn, LeavesBelow, Consistent, After;
    var st := Blank(s);
    BlankIsOff(s, x);
    BlankIsOff(s, y);
    AfterOne(s, st, Click(y));
    ClickIsRecompute(s, st.boxes, y);
    SettledFlag(s, LeavesBelow(s, y), st.boxes.checked, x);
  }

  lemma SettledFlag(s: Shape, leaves: set<int>, checked: seq<bool>, x: int)
    requires s.Valid() && |checked| == |s.parent| && s.IsNode(x)
    ensures Settle(s, leaves, checked).checked[x] == SettleFlag(StatusOf(s, leaves, x), checked[x])
  {}

  lemma AfterOne(s: Shape, st: State, e: Event)
    requires Good(s, st) && (e.Click? ==> s.IsNode(e.x))
    ensures Possible(s, [e]) && After(s, st, [e]) == Next(s, st, e)
  {
    hide Next;
    assert [] + [e] == [e];
    AfterMore(s, st, [], e);
  }

  /** A click on a selected leaf other than l: the flag of x stays while l below x stays selected. */
  lemma LeafClicked(s: Shape, b: Boxes, x: int, l: int, m: int)
    requires s.Valid() && Consistent(s, b) && s.IsNode(x) && s.LeafBelow(x, l) && b.checked[x]
    requires l in LeavesOn(s, b) && m in LeavesOn(s, b) && l != m && !s.disabled[m]
    ensures LeavesOn(s, ClickSpec(s, false, b, m)) == LeavesOn(s, b) - {m}
    ensures ClickSpec(s, false, b, m).checked[x]
  {
    assert ConsistentAt(s, b, m);
    ClickIsRecompute(s, b, m);
    OnlyLeaf(s, m);
    assert StatusOf(s, LeavesOn(s, b) - {m}, x) != Off;
  }

  /** Clicks away the given leaves. */
  lemma {:induction false} ClickAway(s: Shape, x: int, l: int, todo: set<int>, run: seq<Event>)
    returns (longer: seq<Event>)
    requires s.Valid() && Possible(s, run) && s.IsNode(x) && s.LeafBelow(x, l) && l !in todo
    requires forall m :: m in todo ==> s.IsNode(m) && s.IsLeaf(m) && !s.disabled[m]
    requires LeavesOn(s, After(s, Blank(s), run).boxes) == {l} + todo && After(s, Blank(s), run).boxes.checked[x]
    ensures Possible(s, longer)
    ensures LeavesOn(s, After(s, Blank(s), longer).boxes) == {l} && After(s, Blank(s), longer).boxes.checked[x]
    decreases todo
  {
    hide LeavesOn, Blank, After, ClickSpec, Consistent, FitsState;
    hide Shape.IsLeaf, Shape.LeafBelow, Shape.Below, Shape.Valid;
    if forall m :: m !in todo {
      assert todo == {} && {l} + todo == {l};
      longer := run;
    } else {
      var m :| m in todo;
      LeafClicked(s, After(s, Blank(s), run).boxes, x, l, m);
      AfterMore(s, Blank(s), run, Click(m));
      assert {l} + todo - {m} == {l} + (todo - {m});
      longer := ClickAway(s, x, l, todo - {m}, run + [Click(m)]);
    }
  }

  lemma OnlyLeaf(s: Shape, m: int)
    requires s.Valid() && s.IsLeaf(m)
    ensures LeavesBelow(s, m) == {m}
  {
    forall k | s.LeafBelow(m, k) ensures k == m {
      if k != m { var c := ChildOnTheWay(s, m, k); }
    }
    assert s.LeafBelow(m, m);
  }

  /**
   Both answers really occur: in a tree without disabled boxes, for every box with two leaves below,
   clicks lead from the rendered tree to two states that look the same everywhere, the box being
   half-selected, and differ in its flag.
   */
  lemma TwinsReachable(s: Shape, x: int, l: int, m: int) returns (short: seq<Event>, long: seq<Event>)
    requires s.Valid() && s.IsNode(x) && s.LeafBelow(x, l) && s.LeafBelow(x, m) && l != m
    requires forall j :: s.IsNode(j) ==> !s.disabled[j]
    ensures Possible(s, short) && Possible(s, long)
    ensures var b, b' := After(s, Blank(s), short).boxes, After(s, Blank(s), long).boxes;
            b.status == b'.status && b.status[x] == Half && !b.checked[x] && b'.checked[x]
  {
    hide After, Blank, Consistent;
    short := [Click(l)];
    FirstClick(s, l, x);
    OnlyLeaf(s, l);
    FirstClick(s, x, x);
    var others := LeavesBelow(s, x) - {l};
    assert LeavesBelow(s, x) == {l} + others;
    long := ClickAway(s, x, l, others, [Click(x)]);
    var b, b' := After(s, Blank(s), short).boxes, After(s, Blank(s), long).boxes;
    forall j | s.IsNode(j) ensures b.status[j] == b'.status[j] == StatusOf(s, {l}, j) {
      ConsistentMeansLeaves(s, b, j);
      ConsistentMeansLeaves(s, b', j);
    }
  }

  /** After the two runs the trees look the same, and a click on x selects it in one and clears it in the other. */
  ghost predicate AnswerDifferently(s: Shape, x: int, short: seq<Event>, long: seq<Event>)
    requires s.Valid() && s.IsNode(x)
  {
    && Possible(s, short) && Possible(s, long)
    && After(s, Blank(s), short).boxes.status == After(s, Blank(s), long).boxes.status
    && After(s, Blank(s), short + [Click(x)]).boxes.status[x] == On
    && After(s, Blank(s), long + [Click(x)]).boxes.status[x] == Off
  }

  /** A root with two leaves. */
  ghost function Three(root: Key, left: Key, right: Key): (s: Shape)
    requires root != left && left != right && right != root
    ensures s.Valid() && s.IsNode(0) && s.LeafBelow(0, 1) && s.LeafBelow(0, 2)
  {
    var s := Shape([-1, 0, 0], [0, 1, 1], [root, left, right], [false, false, false]);
    assert s.Valid() && s.IsLeaf(1) && s.IsLeaf(2) && s.Below(0, 1) && s.Below(0, 2);
    s
  }

  lemma TwinsOfThree(root: Key, left: Key, right: Key)
    requires root != left && left != right && right != root
    ensures exists short, long :: AnswerDifferently(Three(root, left, right), 0, short, long)
  {
    var s := Three(root, left, right);
    assert forall j :: s.IsNode(j) ==> !s.disabled[j];
    hide Three, After, Blank, ClickSpec, Consistent;
    var short, long := TwinsReachable(s, 0, 1, 2);
    var b, b' := After(s, Blank(s), short).boxes, After(s, Blank(s), long).boxes;
    ClickDecides(s, b, 0);
    ClickDecides(s, b', 0);
    AfterMore(s, Blank(s), short, Click(0));
    AfterMore(s, Blank(s), long, Click(0));
    assert AnswerDifferently(s, 0, short, long);
  }

  /** In strict mode boxes are independent: checking a list selects that list and nothing else. */
  lemma {:induction false} StrictCheckAll(s: Shape, b: Boxes, xs: seq<int>)
    requires s.Valid() && Fits(s, b) && (forall x :: x in xs ==> s.IsNode(x))
    ensures forall j :: s.IsNode(j) ==>
              if j in xs then CheckAll(s, true, b, xs).status[j] == On && CheckAll(s, true, b, xs).checked[j]
              else
                && CheckAll(s, true, b, xs).status[j] == b.status[j]
                && CheckAll(s, true, b, xs).checked[j] == b.checked[j]
    decreases |xs|
  {
    if xs != [] {
      assert xs == [xs[0]] + xs[1..];
      StrictCheckAll(s, CheckSelf(s, b, xs[0], true), xs[1..]);
    }
  }
}
