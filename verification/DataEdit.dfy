/**
 Editing the data tree by key. One walk visits the lists; its callback splices the very list that
 is being walked, and moves the walk's position and bound with it.
 */
module DataEdit {
  import opened Trees
  import opened RenderTree

  datatype Edit =
    | Remove
    | InsertBefore(data: Item)
    | InsertAfter(data: Item)
    | Append(data: Item)
    | UpdateChildren(children: seq<Item>)

  // ---------------------------------------------------------------- what an edit means

  /** What takes the place of an item that carries the key. */
  function Replacement(t: Item, e: Edit): seq<Item> {
    match e
    case Remove => []
    case InsertBefore(d) => [d, t]
    case InsertAfter(d) => [t, d]
    case Append(d) => [Node(t.val, t.kids + [d])]
    case UpdateChildren(c) => [Node(t.val, c)]
  }

  function EditItem(t: Item, key: string, e: Edit): seq<Item>
    decreases t
  {
    if t.val.key == key then Replacement(t, e) else [Node(t.val, EditList(t.kids, key, e))]
  }

  function EditList(ts: seq<Item>, key: string, e: Edit): seq<Item>
    decreases ts
  {
    if ts == [] then [] else EditItem(ts[0], key, e) + EditList(ts[1..], key, e)
  }

  lemma {:induction false} EditConcat(s: seq<Item>, t: seq<Item>, key: string, e: Edit)
    ensures EditList(s + t, key, e) == EditList(s, key, e) + EditList(t, key, e)
    decreases |s|
  {
    if s == [] {
      assert s + t == t;
    } else {
      assert (s + t)[1..] == s[1..] + t;
      EditConcat(s[1..], t, key, e);
    }
  }

  lemma EditOneMore(ts: seq<Item>, j: nat, key: string, e: Edit)
    requires j < |ts|
    ensures EditList(ts[..j + 1], key, e) == EditList(ts[..j], key, e) + EditItem(ts[j], key, e)
  {
    assert ts[..j + 1] == ts[..j] + [ts[j]];
    EditConcat(ts[..j], [ts[j]], key, e);
    assert EditList([ts[j]], key, e) == EditItem(ts[j], key, e);
  }

  // ---------------------------------------------------------------- the walk

  /** The callback: splices the list at i and moves the walk's position and bound accordingly. */
  method Callback(list: seq<Item>, i0: nat, len0: nat, e: Edit) returns (data: seq<Item>, i: int, len: int)
    requires i0 < len0 == |list|
    ensures data == list[..i0] + Replacement(list[i0], e) + list[i0 + 1..]
    ensures i + 1 == i0 + |Replacement(list[i0], e)| && len == |data|
    ensures e.InsertBefore? ==> data == list[..i0] + [e.data] + list[i0..]
    ensures e.InsertAfter? ==> data == list[..i0 + 1] + [e.data] + list[i0 + 1..]
  {
    data, i, len := list, i0, len0;
    match e
    case Remove =>
      data := data[..i] + data[i + 1..];
      i := i - 1;
      len := len - 1;
    case InsertBefore(d) =>
      data := data[..i] + [d] + data[i..];
      i := i + 1;
      len := len + 1;
    case InsertAfter(d) =>
      data := data[..i + 1] + [d] + data[i + 1..];
      i := i + 1;
      len := len + 1;
    case Append(d) =>
      data := data[i := Node(data[i].val, data[i].kids + [d])];
    case UpdateChildren(c) =>
      data := data[i := Node(data[i].val, c)];
  }

  lemma NothingToEdit(key: string, e: Edit)
    ensures EditList([], key, e) == []
  {}

  lemma ItemEdited(t: Item, key: string, e: Edit)
    ensures t.val.key == key ==> EditItem(t, key, e) == Replacement(t, e)
    ensures t.val.key != key ==> EditItem(t, key, e) == [Node(t.val, EditList(t.kids, key, e))]
    ensures t.val.key != key && t.kids == [] ==> EditItem(t, key, e) == [t]
  {}

  /** `fn` of keySearchToOpera on one list. */
  method SearchToOpera(list: seq<Item>, key: string, e: Edit) returns (data: seq<Item>)
    ensures data == EditList(list, key, e)
    decreases list
  {
    hide EditList, EditItem, Replacement;
    data := list;
    var i, len := 0, |data|;
    ghost var j := 0;
    assert EditList(list[..0], key, e) == [] by { NothingToEdit(key, e); }
    while i < len
      invariant 0 <= i <= len == |data| && 0 <= j <= |list|
      invariant data[i..] == list[j..]
      invariant data[..i] == EditList(list[..j], key, e)
      decreases |list| - j
    {
      assert data[i] == data[i..][0] == list[j] && data[i + 1..] == data[i..][1..] == list[j + 1..];
      EditOneMore(list, j, key, e);
      ItemEdited(list[j], key, e);
      ghost var front, item, back := data[..i], EditItem(list[j], key, e), data[i + 1..];
      if data[i].val.key != key {
        if |data[i].kids| > 0 {
          var children := SearchToOpera(data[i].kids, key, e);
          data := data[i := Node(data[i].val, children)];
        }
        assert data == front + item + back;
      } else {
        data, i, len := Callback(data, i, len, e);
      }
      i := i + 1;
      j := j + 1;
      assert data[..i] == front + item && data[i..] == back;
    }
    assert list[..j] == list;
  }

  // ---------------------------------------------------------------- where everything stands afterwards

  /** The items of one list that carry the key. */
  function OwnMatches(ts: seq<Item>, key: string): nat {
    if ts == [] then 0 else (if ts[0].val.key == key then 1 else 0) + OwnMatches(ts[1..], key)
  }

  /** A list grows by one item per match for an insertion beside it, shrinks by one for a removal. */
  lemma {:induction false} EditedLength(ts: seq<Item>, key: string, e: Edit)
    ensures |EditList(ts, key, e)| + (if e.Remove? then OwnMatches(ts, key) else 0)
         == |ts| + if e.InsertBefore? || e.InsertAfter? then OwnMatches(ts, key) else 0
    decreases |ts|
  {
    if ts != [] { EditedLength(ts[1..], key, e); }
  }

  /**
   What stands where item i of a list stood. In front of it and behind it are the edited items that were in
   front and behind. A match is gone, stands behind or in front of the new item, or has got the new item as
   its last child or the given children; any other item keeps its value and has its children edited.
   */
  lemma EditedAround(ts: seq<Item>, key: string, e: Edit, i: nat)
    requires i < |ts|
    ensures var t, front, back := ts[i], EditList(ts[..i], key, e), EditList(ts[i + 1..], key, e);
            EditList(ts, key, e)
            == if t.val.key != key then front + [Node(t.val, EditList(t.kids, key, e))] + back
               else match e
                 case Remove => front + back
                 case InsertBefore(d) => front + [d, t] + back
                 case InsertAfter(d) => front + [t, d] + back
                 case Append(d) => front + [Node(t.val, t.kids + [d])] + back
                 case UpdateChildren(c) => front + [Node(t.val, c)] + back
  {
    assert ts == ts[..i] + [ts[i]] + ts[i + 1..];
    EditConcat(ts[..i] + [ts[i]], ts[i + 1..], key, e);
    EditConcat(ts[..i], [ts[i]], key, e);
    EditSingle(ts[i], key, e);
  }

  /** p leads to a list, and no item on the way carries the key. */
  predicate ClearWay(ts: seq<Item>, p: Path, key: string) {
    p == [] || (p[0] < |ts| && ts[p[0]].val.key != key && ClearWay(ts[p[0]].kids, p[1..], key))
  }

  /** Where that list is after the edit: every index counts what the items in front of it have become. */
  function Moved(ts: seq<Item>, p: Path, key: string, e: Edit): Path
    requires ClearWay(ts, p, key)
  {
    if p == [] then []
    else [|EditList(ts[..p[0]], key, e)|] + Moved(ts[p[0]].kids, p[1..], key, e)
  }

  /** Every list that is not below a match is found there, edited in its own right. */
  lemma {:induction false} EditedList(ts: seq<Item>, p: Path, key: string, e: Edit)
    requires ClearWay(ts, p, key)
    ensures var out, p' := EditList(ts, key, e), Moved(ts, p, key, e);
            && LeadsToList(ts, p) && LeadsToList(out, p')
            && ListAt(out, p') == EditList(ListAt(ts, p), key, e)
            && (p != [] ==> NodeAt(out, p').val == NodeAt(ts, p).val)
    decreases |p|
  {
    if p != [] {
      EditedAround(ts, key, e, p[0]);
      EditedList(ts[p[0]].kids, p[1..], key, e);
      var p' := Moved(ts, p, key, e);
      assert p'[1..] == Moved(ts[p[0]].kids, p[1..], key, e);
    }
  }

  /**
   Every topmost match, wherever it is: the new item stands directly before it or directly after it, or is its
   last child, and all other items of the list keep their places in front of it and behind it.
   */
  lemma MatchNeighbours(ts: seq<Item>, p: Path, i: nat, key: string, e: Edit)
    requires ClearWay(ts, p, key) && LeadsToList(ts, p) && i < |ListAt(ts, p)| && ListAt(ts, p)[i].val.key == key
    ensures var list, p' := ListAt(ts, p), Moved(ts, p, key, e);
            var t, front, back := list[i], EditList(list[..i], key, e), EditList(list[i + 1..], key, e);
            && LeadsToList(EditList(ts, key, e), p')
            && ListAt(EditList(ts, key, e), p')
               == match e
                  case Remove => front + back
                  case InsertBefore(d) => front + [d, t] + back
                  case InsertAfter(d) => front + [t, d] + back
                  case Append(d) => front + [Node(t.val, t.kids + [d])] + back
                  case UpdateChildren(c) => front + [Node(t.val, c)] + back
  {
    EditedList(ts, p, key, e);
    EditedAround(ListAt(ts, p), key, e, i);
  }

  // ---------------------------------------------------------------- what edits guarantee

  /** An item together with the keys on the way from its root down to it. */
  datatype Trail = Trail(keys: seq<string>, entry: Entry)

  /** All items below the given ancestors, in document order, each with its trail. */
  function Trails(ts: seq<Item>, above: seq<string>): seq<Trail> {
    if ts == [] then []
    else
      var keys := above + [ts[0].val.key];
      [Trail(keys, ts[0].val)] + Trails(ts[0].kids, keys) + Trails(ts[1..], above)
  }

  /** The items on whose trail the key does not occur, in the same order. */
  function Without(s: seq<Trail>, key: string): seq<Trail> {
    if s == [] then []
    else (if key in s[0].keys then [] else [s[0]]) + Without(s[1..], key)
  }

  lemma {:induction false} WithoutConcat(s: seq<Trail>, t: seq<Trail>, key: string)
    ensures Without(s + t, key) == Without(s, key) + Without(t, key)
    decreases |s|
  {
    if s == [] {
      assert s + t == t;
    } else {
      assert (s + t)[1..] == s[1..] + t;
      WithoutConcat(s[1..], t, key);
    }
  }

  lemma {:induction false} WithoutBelow(ts: seq<Item>, above: seq<string>, key: string)
    requires key in above
    ensures Without(Trails(ts, above), key) == []
    decreases ts
  {
    if ts != [] {
      var keys := above + [ts[0].val.key];
      WithoutBelow(ts[0].kids, keys, key);
      WithoutBelow(ts[1..], above, key);
      WithoutConcat(Trails(ts[0].kids, keys), Trails(ts[1..], above), key);
      assert Trails(ts, above) == [Trail(keys, ts[0].val)] + (Trails(ts[0].kids, keys) + Trails(ts[1..], above));
    }
  }

  lemma {:induction false} TrailsConcat(s: seq<Item>, t: seq<Item>, above: seq<string>)
    ensures Trails(s + t, above) == Trails(s, above) + Trails(t, above)
    decreases |s|
  {
    if s == [] {
      assert s + t == t;
    } else {
      assert (s + t)[1..] == s[1..] + t;
      TrailsConcat(s[1..], t, above);
    }
  }

  lemma {:induction false} RemovePrunesItem(t: Item, key: string, above: seq<string>)
    requires key !in above
    ensures Trails(EditItem(t, key, Remove), above) == Without(Trails([t], above), key)
    decreases t, 0
  {
    var keys := above + [t.val.key];
    assert [t][1..] == [];
    assert Trails([t], above) == [Trail(keys, t.val)] + Trails(t.kids, keys);
    if t.val.key == key {
      assert keys[|above|] == key;
      WithoutBelow(t.kids, keys, key);
    } else {
      RemovePrunes(t.kids, key, keys);
      var r := Node(t.val, EditList(t.kids, key, Remove));
      assert [r][1..] == [];
      assert Trails([r], above) == [Trail(keys, t.val)] + Trails(r.kids, keys);
    }
  }

  /** Removing a key leaves exactly the items that neither carry it nor lie below it, in their order. */
  lemma {:induction false} RemovePrunes(ts: seq<Item>, key: string, above: seq<string>)
    requires key !in above
    ensures Trails(EditList(ts, key, Remove), above) == Without(Trails(ts, above), key)
    decreases ts, 1
  {
    if ts != [] {
      hide EditItem, Trails, Without;
      RemovePrunesItem(ts[0], key, above);
      RemovePrunes(ts[1..], key, above);
      TrailsConcat(EditItem(ts[0], key, Remove), EditList(ts[1..], key, Remove), above);
      assert [ts[0]] + ts[1..] == ts;
      TrailsConcat([ts[0]], ts[1..], above);
      WithoutConcat(Trails([ts[0]], above), Trails(ts[1..], above), key);
    } else {
      assert EditList(ts, key, Remove) == [];
    }
  }

  /** The key occurs nowhere in the list. */
  predicate Absent(ts: seq<Item>, key: string) {
    ts == [] || (ts[0].val.key != key && Absent(ts[0].kids, key) && Absent(ts[1..], key))
  }

  lemma {:induction false} RemoveAbsent(ts: seq<Item>, key: string)
    ensures Absent(EditList(ts, key, Remove), key)
    ensures Absent(ts, key) ==> EditList(ts, key, Remove) == ts
    decreases ts
  {
    if ts != [] {
      RemoveAbsent(ts[0].kids, key);
      RemoveAbsent(ts[1..], key);
      if ts[0].val.key != key {
        var rest := EditList(ts[1..], key, Remove);
        var r := Node(ts[0].val, EditList(ts[0].kids, key, Remove));
        assert ([r] + rest)[1..] == rest;
        assert EditList(ts, key, Remove) == [r] + rest;
      } else {
        assert EditList(ts, key, Remove) == EditList(ts[1..], key, Remove);
      }
    }
  }

  predicate Inserts(e: Edit) { e.InsertBefore? || e.InsertAfter? || e.Append? }

  /**
   Whatever was inserted or appended under a fresh key is taken away again by removing that key:
   nothing else has moved, at any match and on any level.
   */
  lemma {:induction false} RemoveUndoesInsert(ts: seq<Item>, key: string, e: Edit)
    requires Inserts(e) && e.data.val.key != key && Absent(ts, e.data.val.key)
    ensures EditList(EditList(ts, key, e), e.data.val.key, Remove) == ts
    decreases ts
  {
    if ts != [] {
      var t, newKey := ts[0], e.data.val.key;
      RemoveUndoesInsert(ts[1..], key, e);
      EditConcat(EditItem(t, key, e), EditList(ts[1..], key, e), newKey, Remove);
      if t.val.key == key {
        RemoveAbsent(t.kids, newKey);
        UndoAtMatch(t, key, e);
      } else {
        RemoveUndoesInsert(t.kids, key, e);
        EditSingle(Node(t.val, EditList(t.kids, key, e)), newKey, Remove);
      }
      assert [t] + ts[1..] == ts;
    }
  }

  lemma EditSingle(t: Item, key: string, e: Edit)
    ensures EditList([t], key, e) == EditItem(t, key, e)
  {
    assert [t][1..] == [];
  }

  lemma UndoAtMatch(t: Item, key: string, e: Edit)
    requires Inserts(e) && t.val.key == key != e.data.val.key && Absent(t.kids, e.data.val.key)
    ensures EditList(Replacement(t, e), e.data.val.key, Remove) == [t]
  {
    var newKey := e.data.val.key;
    RemoveAbsent(t.kids, newKey);
    EditSingle(t, newKey, Remove);
    EditSingle(e.data, newKey, Remove);
    match e
    case InsertBefore(d) => EditConcat([d], [t], newKey, Remove); assert [d, t] == [d] + [t];
    case InsertAfter(d) => EditConcat([t], [d], newKey, Remove); assert [t, d] == [t] + [d];
    case Append(d) =>
      EditConcat(t.kids, [d], newKey, Remove);
      EditSingle(Node(t.val, t.kids + [d]), newKey, Remove);
      assert t.kids + [] == t.kids;
  }

  /** The number of items that carry the key and have no such item above them. */
  function TopmostMatches(ts: seq<Item>, key: string): nat {
    if ts == [] then 0
    else (if ts[0].val.key == key then 1 else TopmostMatches(ts[0].kids, key)) + TopmostMatches(ts[1..], key)
  }

  function Times<A>(n: nat, m: multiset<A>): multiset<A> {
    if n == 0 then multiset{} else m + Times(n - 1, m)
  }

  lemma {:induction false} TimesAdd<A>(k: nat, n: nat, m: multiset<A>)
    ensures Times(k + n, m) == Times(k, m) + Times(n, m)
    decreases k
  {
    if k > 0 {
      TimesAdd(k - 1, n, m);
      assert Times(k + n, m) == m + Times(k - 1 + n, m);
    }
  }

  function Matches(t: Item, key: string): nat {
    if t.val.key == key then 1 else TopmostMatches(t.kids, key)
  }

  lemma {:induction false} ItemAddsOncePerMatch(t: Item, key: string, e: Edit)
    requires Inserts(e)
    ensures Values(EditItem(t, key, e)) == Values([t]) + Times(Matches(t, key), Values([e.data]))
    decreases t, 0
  {
    hide Values, Times;
    if t.val.key == key {
      MatchAddsOnce(t, e);
      TimesOne(Values([e.data]));
    } else {
      InsertAddsOncePerMatch(t.kids, key, e);
      ValuesOne(t);
      ValuesOne(Node(t.val, EditList(t.kids, key, e)));
    }
  }

  lemma TimesOne<A>(m: multiset<A>)
    ensures Times(1, m) == m && Times(0, m) == multiset{}
  {}

  /** An insertion adds the new subtree once per topmost match and keeps everything else, even when
      the new item itself carries the searched key: it is never visited. */
  lemma {:induction false} InsertAddsOncePerMatch(ts: seq<Item>, key: string, e: Edit)
    requires Inserts(e)
    ensures Values(EditList(ts, key, e)) == Values(ts) + Times(TopmostMatches(ts, key), Values([e.data]))
    decreases ts, 1
  {
    hide Values, Times, EditItem, Matches;
    if ts == [] {
      TimesOne(Values([e.data]));
    } else {
      ItemAddsOncePerMatch(ts[0], key, e);
      InsertAddsOncePerMatch(ts[1..], key, e);
      ValuesConcat(EditItem(ts[0], key, e), EditList(ts[1..], key, e));
      ValuesConcat([ts[0]], ts[1..]);
      assert [ts[0]] + ts[1..] == ts;
      MatchesOfList(ts, key);
      TimesAdd(Matches(ts[0], key), TopmostMatches(ts[1..], key), Values([e.data]));
    }
  }

  lemma MatchesOfList(ts: seq<Item>, key: string)
    requires ts != []
    ensures TopmostMatches(ts, key) == Matches(ts[0], key) + TopmostMatches(ts[1..], key)
  {}

  lemma MatchAddsOnce(t: Item, e: Edit)
    requires Inserts(e)
    ensures Values(Replacement(t, e)) == Values([t]) + Values([e.data])
  {
    hide Values;
    match e
    case InsertBefore(d) => ValuesConcat([d], [t]); assert [d, t] == [d] + [t];
    case InsertAfter(d) => ValuesConcat([t], [d]); assert [t, d] == [t] + [d];
    case Append(d) =>
      ValuesConcat(t.kids, [d]);
      ValuesOne(t);
      ValuesOne(Node(t.val, t.kids + [d]));
  }
}
