/** The columns of a linked menu: a tree walked level by level through a map from value to children. */
module Linkage {

  datatype Item = Item(name: string, value: string, children: seq<Item>)

  /** An item together with the value of its parent. */
  datatype Entry = Entry(pid: string, item: Item)

  /** What a column shows. */
  datatype Val = Val(pid: string, name: string, value: string)

  function ConcatMap<T, U>(f: T -> seq<U>, s: seq<T>): seq<U> {
    if s == [] then [] else f(s[0]) + ConcatMap(f, s[1..])
  }

  function EntriesOf(pid: string, arr: seq<Item>): (r: seq<Entry>)
    ensures |r| == |arr|
  {
    seq(|arr|, i requires 0 <= i < |arr| => Entry(pid, arr[i]))
  }

  function ChildEntries(e: Entry): seq<Entry> { EntriesOf(e.item.value, e.item.children) }

  /** The nodes of depth k, each with its parent's value. */
  function Level(data: seq<Item>, k: nat): seq<Entry> {
    if k == 0 then EntriesOf("0", data) else ConcatMap(ChildEntries, Level(data, k - 1))
  }

  function ParentValue(e: Entry): seq<string> {
    if e.item.children == [] then [] else [e.item.value]
  }

  predicate Distinct(s: seq<string>) { forall i, j :: 0 <= i < j < |s| ==> s[i] != s[j] }

  /** No two nodes of the list that have children share a value. */
  predicate DistinctParents(es: seq<Entry>) { Distinct(ConcatMap(ParentValue, es)) }

  function Shown(es: seq<Entry>): (r: seq<Val>)
    ensures |r| == |es|
  {
    seq(|es|, i requires 0 <= i < |es| => Val(es[i].pid, es[i].item.name, es[i].item.value))
  }

  /** A column shows the parent's value, the name and the value of each entry, in this order. */
  lemma ShownFields(es: seq<Entry>, i: nat)
    requires i < |es|
    ensures Shown(es)[i].pid == es[i].pid && Shown(es)[i].name == es[i].item.name
            && Shown(es)[i].value == es[i].item.value
  {}

  /** On the first level stand the roots, under "0"; on every other one the children, under their parent's value. */
  lemma {:induction false} LevelMeans(data: seq<Item>, k: nat, e: Entry)
    ensures e in Level(data, 0) <==> e.pid == "0" && e.item in data
    ensures e in Level(data, k + 1)
            <==> exists p :: p in Level(data, k) && e.pid == p.item.value && e.item in p.item.children
  {
    assert e in EntriesOf("0", data) <==> e.pid == "0" && e.item in data by { InEntries("0", data, e); }
    InConcatMap(ChildEntries, Level(data, k), e);
    forall p | p in Level(data, k)
      ensures e in ChildEntries(p) <==> e.pid == p.item.value && e.item in p.item.children
    {
      InEntries(p.item.value, p.item.children, e);
    }
  }

  lemma InEntries(pid: string, arr: seq<Item>, e: Entry)
    ensures e in EntriesOf(pid, arr) <==> e.pid == pid && e.item in arr
  {
    if e.pid == pid && e.item in arr {
      var i :| 0 <= i < |arr| && arr[i] == e.item;
      assert EntriesOf(pid, arr)[i] == e;
    }
  }

  lemma {:induction false} InConcatMap<T, U>(f: T -> seq<U>, s: seq<T>, x: U)
    ensures x in ConcatMap(f, s) <==> exists t :: t in s && x in f(t)
    decreases |s|
  {
    if s != [] {
      InConcatMap(f, s[1..], x);
      assert forall t :: t in s <==> t == s[0] || t in s[1..];
    }
  }

  predicate Owns(e: Entry, v: string) { e.item.children != [] && e.item.value == v }

  /** Two entries of the list have children under the same value. */
  predicate Clash(es: seq<Entry>, i: int, j: int) {
    0 <= i < j < |es| && es[i].item.children != [] && Owns(es[j], es[i].item.value)
  }

  /** The condition on a level, entry by entry. */
  lemma {:induction false} DistinctParentsMeans(es: seq<Entry>)
    ensures DistinctParents(es) <==> forall i, j :: !Clash(es, i, j)
    decreases |es|
  {
    if es != [] {
      var rest := es[1..];
      var vs, ws := ParentValue(es[0]), ConcatMap(ParentValue, rest);
      DistinctParentsMeans(rest);
      DistinctJoin(vs, ws);
      hide Distinct;
      forall j | 0 < j < |es| ensures es[j] == rest[j - 1] { }
      forall v ensures v in ws <==> exists t :: t in rest && Owns(t, v) {
        InConcatMap(ParentValue, rest, v);
      }
      forall i, j
        ensures Clash(es, i, j)
                <==> if i > 0 then Clash(rest, i - 1, j - 1)
                     else i == 0 < j < |es| && es[0].item.children != [] && Owns(rest[j - 1], es[0].item.value)
      {}
      if v :| v in vs && v in ws {
        var t :| t in rest && Owns(t, v);
        var j :| 0 <= j < |rest| && rest[j] == t;
        assert Clash(es, 0, j + 1);
      } else if i, j :| Clash(rest, i, j) {
        assert Clash(es, i + 1, j + 1);
      } else {
        var v := es[0].item.value;
        assert es[0].item.children != [] ==> vs == [v] && v in vs && v !in ws;
        assert es[0].item.children != [] ==> forall t :: t in rest ==> !Owns(t, v);
        assert forall j :: 0 <= j < |rest| ==> rest[j] in rest;
      }
    }
  }

  lemma DistinctJoin(s: seq<string>, t: seq<string>)
    requires |s| <= 1
    ensures Distinct(s + t) <==> Distinct(t) && forall v :: v in s ==> v !in t
  {
    if Distinct(s + t) {
      DistinctFront(s, t);
      assert forall i :: 0 <= i < |t| ==> t[i] == (s + t)[|s| + i];
    }
    if Distinct(t) && forall v :: v in s ==> v !in t {
      forall i, j | 0 <= i < j < |s + t| ensures (s + t)[i] != (s + t)[j] {
        assert (s + t)[j] == t[j - |s|] && (s + t)[j] in t;
        if i < |s| { assert (s + t)[i] == s[i] && s[i] in s; } else { assert (s + t)[i] == t[i - |s|]; }
      }
    }
  }

  type Temp = map<string, seq<Item>>

  function ListOf(temp: Temp): string -> seq<Entry> {
    (pid: string) => if pid in temp then EntriesOf(pid, temp[pid]) else []
  }

  /** `temp[value] = children` for every entry with children, one after the other. */
  function Assigned(es: seq<Entry>): Temp {
    if es == [] then map[]
    else
      var last := es[|es| - 1];
      var before := Assigned(es[..|es| - 1]);
      if last.item.children == [] then before else before[last.item.value := last.item.children]
  }

  // ---------------------------------------------------------------- order does not matter

  lemma {:induction false} ConcatMapSplit<T, U>(f: T -> seq<U>, s: seq<T>, t: seq<T>)
    ensures ConcatMap(f, s + t) == ConcatMap(f, s) + ConcatMap(f, t)
    decreases |s|
  {
    if s == [] {
      assert s + t == t;
    } else {
      assert (s + t)[1..] == s[1..] + t;
      ConcatMapSplit(f, s[1..], t);
    }
  }

  /** The first element of one sequence, taken out of a permutation of it. */
  lemma TakeOut<T>(s: seq<T>, t: seq<T>) returns (front: seq<T>, back: seq<T>)
    requires s != [] && multiset(s) == multiset(t)
    ensures t == front + ([s[0]] + back) && multiset(s[1..]) == multiset(front + back)
  {
    assert s == [s[0]] + s[1..] && s[0] in multiset(t);
    var k :| 0 <= k < |t| && t[k] == s[0];
    front, back := t[..k], t[k + 1..];
    assert t == front + ([s[0]] + back);
    CancelOne(s[0], s[1..], front, back);
  }

  lemma CancelOne<T>(x: T, s: seq<T>, front: seq<T>, back: seq<T>)
    requires multiset([x] + s) == multiset(front + ([x] + back))
    ensures multiset(s) == multiset(front + back)
  {
    forall y ensures multiset(s)[y] == multiset(front + back)[y] {
      assert multiset([x] + s)[y] == multiset([x])[y] + multiset(s)[y];
      assert multiset(front + ([x] + back))[y] == multiset(front)[y] + multiset([x] + back)[y];
      assert multiset([x] + back)[y] == multiset([x])[y] + multiset(back)[y];
      assert multiset(front + back)[y] == multiset(front)[y] + multiset(back)[y];
    }
  }

  lemma {:induction false} ConcatMapPermuted<T, U>(f: T -> seq<U>, s: seq<T>, t: seq<T>)
    requires multiset(s) == multiset(t)
    ensures multiset(ConcatMap(f, s)) == multiset(ConcatMap(f, t))
    decreases |s|
  {
    if s == [] {
      assert |multiset(t)| == 0;
    } else {
      var front, back := TakeOut(s, t);
      ConcatMapPermuted(f, s[1..], front + back);
      ConcatMapSplit(f, front, back);
      ConcatMapSplit(f, front, [s[0]] + back);
      assert ([s[0]] + back)[1..] == back;
    }
  }

  lemma {:induction false} SameSetSameMultiset(s: seq<string>, t: seq<string>)
    requires Distinct(s) && Distinct(t) && forall x :: x in s <==> x in t
    ensures multiset(s) == multiset(t)
  {
    forall x: string ensures multiset(s)[x] == multiset(t)[x] {
      Once(s, x);
      Once(t, x);
    }
  }

  lemma {:induction false} Once(s: seq<string>, x: string)
    requires Distinct(s)
    ensures multiset(s)[x] == if x in s then 1 else 0
    decreases |s|
  {
    if s != [] {
      assert s == [s[0]] + s[1..];
      Once(s[1..], x);
    }
  }

  lemma DistinctByMultiset(s: seq<string>, t: seq<string>)
    requires multiset(s) == multiset(t) && Distinct(s)
    ensures Distinct(t)
  {
    forall i, j | 0 <= i < j < |t| ensures t[i] != t[j] {
      Once(s, t[i]);
      assert t == t[..j] + [t[j]] + t[j + 1..];
      assert t[i] == t[..j][i];
    }
  }

  // ---------------------------------------------------------------- one level

  lemma {:induction false} AssignedKeys(es: seq<Entry>)
    ensures forall v :: v in Assigned(es) <==> v in ConcatMap(ParentValue, es)
    decreases |es|
  {
    if es != [] {
      var front, last := es[..|es| - 1], es[|es| - 1];
      AssignedKeys(front);
      assert es == front + [last];
      ConcatMapSplit(ParentValue, front, [last]);
      assert ConcatMap(ParentValue, [last]) == ParentValue(last);
    }
  }

  lemma LastMapped<T, U>(f: T -> seq<U>, front: seq<T>, last: T)
    ensures ConcatMap(f, front + [last]) == ConcatMap(f, front) + f(last)
  {
    ConcatMapSplit(f, front, [last]);
    assert ConcatMap(f, [last]) == f(last) + ConcatMap(f, []);
  }

  lemma OneOwner(temp: Temp, e: Entry)
    requires e.item.value in temp && temp[e.item.value] == e.item.children
    ensures ConcatMap(ListOf(temp), [e.item.value]) == ChildEntries(e)
  {
    LastMapped(ListOf(temp), [], e.item.value);
    assert [] + [e.item.value] == [e.item.value];
  }

  /** With distinct values the assigned lists, taken in order of their owners, are the next level. */
  lemma {:induction false} AssignedLists(es: seq<Entry>)
    requires DistinctParents(es)
    ensures ConcatMap(ListOf(Assigned(es)), ConcatMap(ParentValue, es)) == ConcatMap(ChildEntries, es)
    decreases |es|
  {
    if es != [] {
      var front, last := es[..|es| - 1], es[|es| - 1];
      var ps := ConcatMap(ParentValue, front);
      assert es == front + [last];
      LastMapped(ParentValue, front, last);
      LastMapped(ChildEntries, front, last);
      hide ConcatMap, ChildEntries, Assigned, ListOf, ParentValue;
      DistinctFront(ps, ParentValue(last));
      AssignedLists(front);
      AssignedKeys(front);
      OneMore(front, last);
      LastLists(Assigned(front), last, ps);
    }
  }

  lemma DistinctFront(s: seq<string>, t: seq<string>)
    requires Distinct(s + t)
    ensures Distinct(s) && forall x :: x in s ==> x !in t
  {
    assert forall i :: 0 <= i < |s| ==> s[i] == (s + t)[i];
    assert forall j :: 0 <= j < |t| ==> t[j] == (s + t)[|s| + j];
  }

  /** Assigning the list of one more owner adds it behind the lists of the others. */
  lemma LastLists(temp: Temp, last: Entry, ps: seq<string>)
    requires forall p :: p in ps ==> p in temp && p !in ParentValue(last)
    ensures var next := if last.item.children == [] then temp else temp[last.item.value := last.item.children];
            ConcatMap(ListOf(next), ps + ParentValue(last)) == ConcatMap(ListOf(temp), ps) + ChildEntries(last)
  {
    hide ConcatMap;
    if last.item.children == [] {
      assert ps + ParentValue(last) == ps;
    } else {
      var next := temp[last.item.value := last.item.children];
      SameLists(ListOf(temp), ListOf(next), ps);
      ConcatMapSplit(ListOf(next), ps, [last.item.value]);
      OneOwner(next, last);
    }
  }

  lemma {:induction false} SameLists<T, U>(f: T -> seq<U>, g: T -> seq<U>, s: seq<T>)
    requires forall x :: x in s ==> f(x) == g(x)
    ensures ConcatMap(f, s) == ConcatMap(g, s)
    decreases |s|
  {
    if s != [] { SameLists(f, g, s[1..]); }
  }

  /** The map holds exactly the nodes of depth k, whatever the order of its keys. */
  ghost predicate Holds(temp: Temp, data: seq<Item>, k: nat) {
    forall keys: seq<string> :: Distinct(keys) && (forall x :: x in keys <==> x in temp) ==>
      multiset(ConcatMap(ListOf(temp), keys)) == multiset(Level(data, k))
  }

  lemma NextHolds(data: seq<Item>, k: nat, es: seq<Entry>)
    requires multiset(es) == multiset(Level(data, k)) && DistinctParents(Level(data, k))
    ensures Holds(Assigned(es), data, k + 1)
  {
    ConcatMapPermuted(ParentValue, es, Level(data, k));
    DistinctByMultiset(ConcatMap(ParentValue, Level(data, k)), ConcatMap(ParentValue, es));
    ConcatMapPermuted(ChildEntries, es, Level(data, k));
    AssignedLists(es);
    AssignedKeys(es);
    var temp, parents := Assigned(es), ConcatMap(ParentValue, es);
    forall keys: seq<string> | Distinct(keys) && (forall x :: x in keys <==> x in temp)
      ensures multiset(ConcatMap(ListOf(temp), keys)) == multiset(Level(data, k + 1))
    {
      SameSetSameMultiset(keys, parents);
      ConcatMapPermuted(ListOf(temp), keys, parents);
    }
  }

  lemma FirstHolds(data: seq<Item>)
    ensures Holds(map["0" := data], data, 0)
  {
    var temp: Temp := map["0" := data];
    forall keys: seq<string> | Distinct(keys) && (forall x :: x in keys <==> x in temp)
      ensures multiset(ConcatMap(ListOf(temp), keys)) == multiset(Level(data, 0))
    {
      SameSetSameMultiset(keys, ["0"]);
      ConcatMapPermuted(ListOf(temp), keys, ["0"]);
      assert ConcatMap(ListOf(temp), ["0"]) == EntriesOf("0", data);
    }
  }

  function ShowOne(e: Entry): seq<Val> { [Val(e.pid, e.item.name, e.item.value)] }

  lemma {:induction false} ShownIsConcatMap(es: seq<Entry>)
    ensures Shown(es) == ConcatMap(ShowOne, es)
    decreases |es|
  {
    if es != [] {
      ShownIsConcatMap(es[1..]);
      assert Shown(es) == ShowOne(es[0]) + Shown(es[1..]);
    }
  }

  /** The entries are the lists of the map, each once, in some order. */
  ghost predicate ReadFrom(temp: Temp, es: seq<Entry>) {
    exists keys: seq<string> :: Distinct(keys) && (forall x :: x in keys <==> x in temp)
                                && es == ConcatMap(ListOf(temp), keys)
  }

  /** What was read from a map that holds level k is level k. */
  lemma ColumnHolds(temp: Temp, es: seq<Entry>, data: seq<Item>, k: nat)
    requires Holds(temp, data, k) && ReadFrom(temp, es)
    ensures multiset(es) == multiset(Level(data, k))
    ensures multiset(Shown(es)) == multiset(Shown(Level(data, k)))
    ensures es != [] ==> Level(data, k) != []
  {
    assert multiset(es) == multiset(Level(data, k)) by {
      hide Level, Distinct, ConcatMap, ListOf;
    }
    hide Holds, Level, Shown;
    ShownIsConcatMap(es);
    ShownIsConcatMap(Level(data, k));
    ConcatMapPermuted(ShowOne, es, Level(data, k));
    if es != [] { assert es[0] in multiset(Level(data, k)); }
  }

  lemma ReadSomething(temp: Temp, es: seq<Entry>, pid: string)
    requires ReadFrom(temp, es) && pid in temp && temp[pid] != []
    ensures es != []
  {
    var keys: seq<string> :| Distinct(keys) && (forall x :: x in keys <==> x in temp)
                             && es == ConcatMap(ListOf(temp), keys);
    var front, back := Around(keys, pid);
    hide Distinct, ConcatMap;
    SizeAround(ListOf(temp), front, pid, back);
  }

  // ---------------------------------------------------------------- colliding values

  /** The keys of `Assigned`, each once, in the order of their first assignment. */
  function Owners(es: seq<Entry>): (r: seq<string>)
    ensures Distinct(r)
    ensures forall v :: v in r <==> v in Assigned(es)
  {
    if es == [] then []
    else
      var before, last := Owners(es[..|es| - 1]), es[|es| - 1];
      if last.item.children == [] || last.item.value in before then before else before + [last.item.value]
  }

  lemma Around(keys: seq<string>, v: string) returns (front: seq<string>, back: seq<string>)
    requires Distinct(keys) && v in keys
    ensures keys == front + ([v] + back) && v !in front && v !in back
  {
    var i :| 0 <= i < |keys| && keys[i] == v;
    front, back := keys[..i], keys[i + 1..];
  }

  lemma UpdateSize(temp: Temp, keys: seq<string>, v: string, arr: seq<Item>)
    requires Distinct(keys) && v in keys && v in temp
    ensures |ConcatMap(ListOf(temp[v := arr]), keys)| == |ConcatMap(ListOf(temp), keys)| - |temp[v]| + |arr|
  {
    var front, back := Around(keys, v);
    hide Distinct, ConcatMap;
    SizeAround(ListOf(temp), front, v, back);
    SizeAround(ListOf(temp[v := arr]), front, v, back);
    SameLists(ListOf(temp), ListOf(temp[v := arr]), front);
    SameLists(ListOf(temp), ListOf(temp[v := arr]), back);
  }

  lemma SizeAround<T, U>(f: T -> seq<U>, front: seq<T>, v: T, back: seq<T>)
    ensures |ConcatMap(f, front + ([v] + back))| == |ConcatMap(f, front)| + |f(v)| + |ConcatMap(f, back)|
  {
    ConcatMapSplit(f, front, [v] + back);
    assert ([v] + back)[1..] == back;
  }

  lemma DistinctMore(s: seq<string>, v: string)
    ensures Distinct(s + [v]) <==> Distinct(s) && v !in s
  {
    var t := s + [v];
    if Distinct(t) {
      forall i, j | 0 <= i < j < |s| ensures s[i] != s[j] { assert t[i] != t[j]; }
      forall i | 0 <= i < |s| ensures s[i] != v { assert t[i] != t[|s|]; }
    }
  }

  /** A repeated value overwrites a list, so the map holds fewer nodes than there are children. */
  lemma {:induction false} AssignedSize(es: seq<Entry>)
    ensures |ConcatMap(ListOf(Assigned(es)), Owners(es))| <= |ConcatMap(ChildEntries, es)|
    ensures |ConcatMap(ListOf(Assigned(es)), Owners(es))| == |ConcatMap(ChildEntries, es)| <==> DistinctParents(es)
    decreases |es|
  {
    if es != [] {
      var front, last := es[..|es| - 1], es[|es| - 1];
      var v, arr, before, owners := last.item.value, last.item.children, Assigned(front), Owners(front);
      assert es == front + [last];
      ConcatMapSplit(ParentValue, front, [last]);
      ConcatMapSplit(ChildEntries, front, [last]);
      assert ConcatMap(ParentValue, [last]) == ParentValue(last);
      assert ConcatMap(ChildEntries, [last]) == ChildEntries(last);
      AssignedSize(front);
      AssignedKeys(front);
      if arr != [] {
        DistinctMore(ConcatMap(ParentValue, front), v);
        if v in before {
          UpdateSize(before, owners, v, arr);
          NextNotEmpty(front, v);
        } else {
          SameLists(ListOf(before), ListOf(before[v := arr]), owners);
          ConcatMapSplit(ListOf(before[v := arr]), owners, [v]);
          assert ConcatMap(ListOf(before[v := arr]), [v]) == EntriesOf(v, arr);
        }
      } else {
        assert ConcatMap(ParentValue, es) == ConcatMap(ParentValue, front);
      }
    }
  }

  lemma {:induction false} NextNotEmpty(es: seq<Entry>, v: string)
    requires v in Assigned(es)
    ensures Assigned(es)[v] != []
    decreases |es|
  {
    if v in Assigned(es[..|es| - 1]) { NextNotEmpty(es[..|es| - 1], v); }
  }

  /** The map holds fewer nodes than there are on level k. */
  ghost predicate Misses(temp: Temp, data: seq<Item>, k: nat) {
    forall es :: ReadFrom(temp, es) ==> |es| < |Level(data, k)|
  }

  lemma NextMisses(data: seq<Item>, k: nat, es: seq<Entry>)
    requires multiset(es) == multiset(Level(data, k)) && !DistinctParents(Level(data, k))
    ensures Misses(Assigned(es), data, k + 1)
  {
    ConcatMapPermuted(ParentValue, es, Level(data, k));
    if DistinctParents(es) {
      DistinctByMultiset(ConcatMap(ParentValue, es), ConcatMap(ParentValue, Level(data, k)));
    }
    ConcatMapPermuted(ChildEntries, es, Level(data, k));
    SameSize(ConcatMap(ChildEntries, es), Level(data, k + 1));
    AssignedSize(es);
    forall fs | ReadFrom(Assigned(es), fs) ensures |fs| < |Level(data, k + 1)| {
      var keys: seq<string> :| Distinct(keys) && (forall x :: x in keys <==> x in Assigned(es))
                               && fs == ConcatMap(ListOf(Assigned(es)), keys);
      SameSetSameMultiset(keys, Owners(es));
      ConcatMapPermuted(ListOf(Assigned(es)), keys, Owners(es));
      SameSize(fs, ConcatMap(ListOf(Assigned(es)), Owners(es)));
    }
  }

  lemma SameSize<T>(s: seq<T>, t: seq<T>)
    requires multiset(s) == multiset(t)
    ensures |s| == |t|
  {
    assert |multiset(s)| == |s| && |multiset(t)| == |t|;
  }

  // ---------------------------------------------------------------- termination

  function Height(arr: seq<Item>): nat {
    if arr == [] then 0
    else
      var h, r := Height(arr[0].children) + 1, Height(arr[1..]);
      if h > r then h else r
  }

  lemma {:induction false} HeightOf(arr: seq<Item>, i: nat)
    requires i < |arr|
    ensures Height(arr[i].children) < Height(arr)
  {
    if i > 0 {
      assert arr[1..][i - 1] == arr[i];
      HeightOf(arr[1..], i - 1);
    }
  }

  /** Every list of the next map is non-empty and lower than the lists it comes from. */
  lemma {:induction false} NextIsLower(temp: Temp, es: seq<Entry>, h: int)
    requires forall e :: e in es ==> e.pid in temp && e.item in temp[e.pid]
    requires forall pid :: pid in temp ==> Height(temp[pid]) < h
    ensures forall v :: v in Assigned(es) ==> Height(Assigned(es)[v]) < h - 1 && Assigned(es)[v] != []
    decreases |es|
  {
    if es != [] {
      var front, last := es[..|es| - 1], es[|es| - 1];
      NextIsLower(temp, front, h);
      var arr := temp[last.pid];
      var i :| 0 <= i < |arr| && arr[i] == last.item;
      HeightOf(arr, i);
    }
  }

  // ---------------------------------------------------------------- the columns

  /** The items of one list: shown in the column, their children noted for the next one. */
  method ReadList(pid: string, arr: seq<Item>, group0: seq<Val>, next0: Temp, ghost es: seq<Entry>)
    returns (group: seq<Val>, next: Temp)
    requires group0 == Shown(es) && next0 == Assigned(es)
    ensures group == Shown(es + EntriesOf(pid, arr)) && next == Assigned(es + EntriesOf(pid, arr))
  {
    group, next := group0, next0;
    ghost var all := EntriesOf(pid, arr);
    assert es + all[..0] == es;
    for idx := 0 to |arr|
      invariant group == Shown(es + all[..idx]) && next == Assigned(es + all[..idx])
    {
      var item := arr[idx];
      assert es + all[..idx + 1] == es + all[..idx] + [Entry(pid, item)];
      OneMore(es + all[..idx], Entry(pid, item));
      group := group + [Val(pid, item.name, item.value)];
      if |item.children| > 0 {
        next := next[item.value := item.children];
      }
    }
    assert all[..|arr|] == all;
  }

  lemma OneMore(es: seq<Entry>, e: Entry)
    ensures Shown(es + [e]) == Shown(es) + [Val(e.pid, e.item.name, e.item.value)]
    ensures Assigned(es + [e])
         == if e.item.children == [] then Assigned(es) else Assigned(es)[e.item.value := e.item.children]
  {
    assert (es + [e])[..|es|] == es;
  }

  /** One column: all lists of the map in some order, each item once; children go into the next map. */
  method Column(temp: Temp) returns (group: seq<Val>, next: Temp, ghost es: seq<Entry>)
    ensures group == Shown(es) && next == Assigned(es) && ReadFrom(temp, es)
    ensures forall e :: e in es ==> e.pid in temp && e.item in temp[e.pid]
  {
    hide Shown, Assigned, ConcatMap;
    group, next, es := [], map[], [];
    assert group == Shown(es) && next == Assigned(es) by { NothingRead(); }
    var todo := temp.Keys;
    ghost var keys: seq<string> := [];
    assert es == ConcatMap(ListOf(temp), keys) by { NoLists(ListOf(temp)); }
    while todo != {}
      invariant todo <= temp.Keys
      invariant Distinct(keys) && forall x :: x in keys <==> x in temp && x !in todo
      invariant es == ConcatMap(ListOf(temp), keys) && group == Shown(es) && next == Assigned(es)
      invariant forall e :: e in es ==> e.pid in temp && e.item in temp[e.pid]
      decreases todo
    {
      var pid :| pid in todo;
      todo := todo - {pid};
      group, next := ReadList(pid, temp[pid], group, next, es);
      OneList(temp, keys, pid);
      es := es + EntriesOf(pid, temp[pid]);
      keys := keys + [pid];
    }
  }

  lemma NothingRead()
    ensures Shown([]) == [] && Assigned([]) == map[]
  {}

  lemma NoLists<T, U>(f: T -> seq<U>)
    ensures ConcatMap(f, []) == []
  {}

  lemma OneList(temp: Temp, keys: seq<string>, pid: string)
    requires pid in temp
    ensures ConcatMap(ListOf(temp), keys + [pid]) == ConcatMap(ListOf(temp), keys) + EntriesOf(pid, temp[pid])
  {
    ConcatMapSplit(ListOf(temp), keys, [pid]);
    assert [pid][1..] == [];
  }

  ghost predicate Matches(result: seq<seq<Val>>, data: seq<Item>, n: nat)
    requires n <= |result|
  {
    forall k :: 0 <= k < n ==> multiset(result[k]) == multiset(Shown(Level(data, k)))
  }

  ghost predicate DistinctUpTo(data: seq<Item>, n: nat) {
    forall k :: 0 <= k < n ==> DistinctParents(Level(data, k))
  }

  /** On no level do two parents share a value. */
  ghost predicate AllDistinct(data: seq<Item>) {
    forall k: nat :: DistinctParents(Level(data, k))
  }

  lemma {:induction false} LevelsEnd(data: seq<Item>, n: nat, k: nat)
    requires Level(data, n) == [] && n <= k
    ensures Level(data, k) == []
    decreases k
  {
    if n < k { LevelsEnd(data, n, k - 1); }
  }

  lemma DistinctToTheEnd(data: seq<Item>, n: nat)
    requires Level(data, n) == []
    ensures DistinctUpTo(data, n) <==> AllDistinct(data)
  {
    if DistinctUpTo(data, n) {
      forall k: nat ensures DistinctParents(Level(data, k)) {
        if n <= k { LevelsEnd(data, n, k); }
      }
    }
  }

  /** Two roots with one value and a child each: the map for the next column has the second child only. */
  lemma RepeatedValueLoses(v: string, a: Item, b: Item)
    ensures var data := [Item("first", v, [a]), Item("second", v, [b])];
            Assigned(EntriesOf("0", data)) == map[v := [b]] && !AllDistinct(data)
  {
    var first, second := Entry("0", Item("first", v, [a])), Entry("0", Item("second", v, [b]));
    var data := [first.item, second.item];
    assert Level(data, 0) == [first] + [second];
    ConcatMapSplit(ParentValue, [first], [second]);
    var parents := ConcatMap(ParentValue, Level(data, 0));
    assert parents == [v, v] && parents[0] == parents[1];
    OneMore([], first);
    OneMore([first], second);
    assert [] + [first] == [first];
    assert !DistinctParents(Level(data, 0));
  }

  /** Some column already lacks nodes, or the next one will. */
  ghost predicate Lost(result: seq<seq<Val>>, temp: Temp, data: seq<Item>) {
    !Matches(result, data, |result|) || Misses(temp, data, |result|)
  }

  /**
   The columns of the menu. The walk ends for every tree. Every column k holds exactly the nodes of
   depth k with their parents' values, and there is a column for every level, exactly when on every
   level of the data the parents have distinct values.
   */
  method RenderLinkage(data: seq<Item>) returns (result: seq<seq<Val>>)
    ensures |result| > 0
    ensures Matches(result, data, |result|) && Level(data, |result|) == [] <==> AllDistinct(data)
    ensures AllDistinct(data) ==> forall k :: 0 < k < |result| ==> Level(data, k) != []
  {
    hide Holds, Level, Assigned, Shown, DistinctParents, ReadFrom, Height, Misses;
    result := [];
    var temp: Temp := map["0" := data];
    ghost var h: int := Height(data) + 1;
    FirstHolds(data);
    while result == [] || temp != map[]
      invariant result == [] ==> temp == map["0" := data]
      invariant forall pid :: pid in temp ==> Height(temp[pid]) < h && (result != [] ==> temp[pid] != [])
      invariant DistinctUpTo(data, |result|) ==> Holds(temp, data, |result|) && Matches(result, data, |result|)
      invariant DistinctUpTo(data, |result|) ==> forall k :: 0 < k < |result| ==> Level(data, k) != []
      invariant !DistinctUpTo(data, |result|) ==> Lost(result, temp, data)
      decreases h
    {
      ghost var es, before, n := [], temp, |result|;
      var group;
      assert result == [] ==> "0" in temp;
      ghost var pid :| pid in temp.Keys;
      assert 0 <= Height(temp[pid]) < h;
      group, temp, es := Column(temp);
      ghost var columns := result;
      result := result + [group];
      if DistinctUpTo(data, n) {
        ColumnHolds(before, es, data, n);
        if DistinctParents(Level(data, n)) { NextHolds(data, n, es); } else { NextMisses(data, n, es); }
        if n > 0 { ReadSomething(before, es, pid); }
      } else {
        StillLost(columns, before, data, es, group);
      }
      NextIsLower(before, es, h);
      h := h - 1;
    }
    if DistinctUpTo(data, |result|) {
      NothingLeft(data, |result|);
      DistinctToTheEnd(data, |result|);
    } else {
      NotAll(result, temp, data);
    }
  }

  lemma StillLost(result: seq<seq<Val>>, temp: Temp, data: seq<Item>, es: seq<Entry>, group: seq<Val>)
    requires Lost(result, temp, data) && ReadFrom(temp, es) && group == Shown(es)
    ensures !Matches(result + [group], data, |result| + 1)
  {
    hide Level, ReadFrom;
    var columns := result + [group];
    if !Matches(result, data, |result|) {
      var k :| 0 <= k < |result| && multiset(result[k]) != multiset(Shown(Level(data, k)));
      assert columns[k] == result[k];
    } else {
      assert |es| < |Level(data, |result|)|;
      assert columns[|result|] == group;
      if multiset(group) == multiset(Shown(Level(data, |result|))) {
        SameSize(group, Shown(Level(data, |result|)));
      }
    }
  }

  lemma NotAll(result: seq<seq<Val>>, temp: Temp, data: seq<Item>)
    requires Lost(result, temp, data) && temp == map[]
    ensures !(Matches(result, data, |result|) && Level(data, |result|) == [])
  {
    if Misses(temp, data, |result|) {
      var keys: seq<string> := [];
      assert Distinct(keys) && (forall x :: x in keys <==> x in temp);
      assert ConcatMap(ListOf(temp), keys) == [];
      assert ReadFrom(temp, []);
    }
  }

  lemma NothingLeft(data: seq<Item>, k: nat)
    requires Holds(map[], data, k)
    ensures Level(data, k) == []
  {
    var temp: Temp := map[];
    var keys: seq<string> := [];
    assert Distinct(keys) && (forall x :: x in keys <==> x in temp);
    assert multiset(ConcatMap(ListOf(temp), keys)) == multiset(Level(data, k));
    assert |multiset(Level(data, k))| == 0;
  }
}
