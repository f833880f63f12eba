/** Flattening an option tree: every option gets an id that spells its path. */
module TreeIds {
  import opened Decimals

  /** An option of the menu; an optgroup only separates and has no place in the tree. */
  datatype Choice = Choice(value: string, group: bool, disabled: bool, children: seq<Choice>)

  /** A line of the flattened list. */
  datatype Row = Row(value: string, group: bool, pid: seq<string>, disabled: bool, folder: bool)

  // ---------------------------------------------------------------- the ids

  function Segment(n: nat): string { Decimal(n) + "_E" }

  function Segments(p: seq<nat>): (r: seq<string>)
    ensures |r| == |p|
  {
    seq(|p|, i requires 0 <= i < |p| => Segment(p[i]))
  }

  /** `pid.join('-')`. */
  function JoinDash(pid: seq<string>): string {
    if pid == [] then "" else if |pid| == 1 then pid[0] else pid[0] + "-" + JoinDash(pid[1..])
  }

  function TreeId(p: seq<nat>): string { JoinDash(Segments(p)) }

  /** The id of the second root's eleventh child. */
  lemma TreeIdOf()
    ensures TreeId([1, 10]) == "1_E-10_E"
  {
    assert Decimal(1) == "1" && Decimal(10) == Decimal(1) + "0";
    assert Segment(1) == "1_E" && Segment(10) == "10_E";
    hide Segment;
    assert Segments([1, 10]) == [Segment(1), Segment(10)];
    assert [Segment(1), Segment(10)][1..] == [Segment(10)];
  }

  lemma TreeIdSplit(p: seq<nat>)
    requires p != []
    ensures TreeId(p) == Segment(p[0]) + if |p| == 1 then "" else "-" + TreeId(p[1..])
  {
    assert Segments(p)[1..] == Segments(p[1..]);
  }

  lemma SegmentStart(p: seq<nat>)
    requires p != []
    ensures var n := |Decimal(p[0])|;
            n < |TreeId(p)| && TreeId(p)[..n] == Decimal(p[0]) && TreeId(p)[n] == '_' && LeadingDigits(TreeId(p)) == n
  {
    TreeIdSplit(p);
    var rest := "_E" + if |p| == 1 then "" else "-" + TreeId(p[1..]);
    assert TreeId(p) == Decimal(p[0]) + rest;
    DigitsThenRest(Decimal(p[0]), rest);
  }

  /** The end mark of a segment makes the numbers of two ids comparable digit by digit. */
  lemma SameFirst(p: seq<nat>, q: seq<nat>)
    requires p != [] && q != [] && TreeId(p) <= TreeId(q)
    ensures p[0] == q[0]
  {
    SegmentStart(p);
    SegmentStart(q);
    var m, n := |Decimal(p[0])|, |Decimal(q[0])|;
    assert TreeId(q)[m] == '_';
    assert Decimal(p[0]) == Decimal(q[0]);
    ValueOfDecimal(p[0]);
    ValueOfDecimal(q[0]);
  }

  /** One id is a string prefix of another exactly when its path is a prefix of the other's path. */
  lemma {:induction false} PrefixIff(p: seq<nat>, q: seq<nat>)
    requires p != [] && q != []
    ensures TreeId(p) <= TreeId(q) <==> p <= q
    decreases |p|
  {
    hide TreeId;
    TreeIdSplit(p);
    TreeIdSplit(q);
    if p <= q {
      if |p| > 1 { PrefixIff(p[1..], q[1..]); }
    }
    if TreeId(p) <= TreeId(q) {
      SameFirst(p, q);
      if |p| > 1 {
        var head := Segment(p[0]);
        assert |q| > 1;
        assert TreeId(p)[|head| + 1..] == TreeId(p[1..]) && TreeId(q)[|head| + 1..] == TreeId(q[1..]);
        PrefixIff(p[1..], q[1..]);
        assert p == [p[0]] + p[1..] && q == [q[0]] + q[1..];
      }
    }
  }

  // ---------------------------------------------------------------- the flattening

  /** A row together with the path it was found on. */
  datatype Mark = Mark(row: Row, path: seq<nat>)

  function Marks(arr: seq<Choice>, above: seq<nat>, offset: nat, disabled: bool): seq<Mark>
    decreases arr
  {
    if arr == [] then []
    else
      var item := arr[0];
      if item.group then
        [Mark(Row(item.value, true, [], item.disabled, false), [])] + Marks(arr[1..], above, offset, disabled)
      else
        var path := above + [offset];
        var off := item.disabled || disabled;
        [Mark(Row(item.value, false, Segments(path), off, item.children != []), path)]
        + Marks(item.children, path, 0, off) + Marks(arr[1..], above, offset + 1, disabled)
  }

  function RowsOf(marks: seq<Mark>): (r: seq<Row>)
    ensures |r| == |marks|
    ensures forall i :: 0 <= i < |marks| ==> r[i] == marks[i].row
  {
    seq(|marks|, i requires 0 <= i < |marks| => marks[i].row)
  }

  method GetChildrenList(arr: seq<Choice>, pid: seq<string>, disabled: bool, ghost above: seq<nat>)
    returns (result: seq<Row>)
    requires pid == Segments(above)
    ensures result == RowsOf(Marks(arr, above, 0, disabled))
    decreases arr
  {
    hide Marks, RowsOf, Segments, Segment, RowsOfItem;
    ghost var total := RowsOf(Marks(arr, above, 0, disabled));
    assert arr[0..] == arr;
    result := [];
    var offset := 0;
    for a := 0 to |arr|
      invariant offset <= a
      invariant result + RowsOf(Marks(arr[a..], above, offset, disabled)) == total
    {
      var item := arr[a];
      assert arr[a..][1..] == arr[a + 1..];
      NextRows(arr[a..], above, offset, disabled);
      ghost var rest := RowsOf(Marks(arr[a + 1..], above, if item.group then offset else offset + 1, disabled));
      var rows := ItemRows(item, pid, offset, disabled, above);
      Assoc(result, rows, rest);
      result := result + rows;
      if !item.group { offset := offset + 1; }
    }
    NoRows(above, offset, disabled);
  }

  lemma Assoc<A>(s: seq<A>, t: seq<A>, u: seq<A>)
    ensures s + (t + u) == s + t + u
  {}

  /** One turn of the loop: the row of an option, then the rows of its children. */
  method ItemRows(item: Choice, pid: seq<string>, offset: nat, disabled: bool, ghost above: seq<nat>)
    returns (rows: seq<Row>)
    requires pid == Segments(above)
    ensures rows == RowsOfItem(item, above, offset, disabled)
    decreases item
  {
    hide Marks, RowsOf, Segments, Segment, RowsOfItem;
    ItemRow(item, above, offset, disabled);
    if item.group {
      rows := [Row(item.value, true, [], item.disabled, false)];
    } else {
      var parentIds := pid + [Segment(offset)];
      SegmentsMore(above, offset);
      var off := item.disabled || disabled;
      rows := [Row(item.value, false, parentIds, off, |item.children| > 0)];
      if |item.children| > 0 {
        var childResult := GetChildrenList(item.children, parentIds, off, above + [offset]);
        rows := rows + childResult;
      }
    }
  }

  /** The row of one option and the rows below it. */
  function RowsOfItem(item: Choice, above: seq<nat>, offset: nat, disabled: bool): seq<Row> {
    if item.group then [Row(item.value, true, [], item.disabled, false)]
    else
      var path, off := above + [offset], item.disabled || disabled;
      [Row(item.value, false, Segments(path), off, |item.children| > 0)]
      + if |item.children| > 0 then RowsOf(Marks(item.children, path, 0, off)) else []
  }

  lemma ItemRow(item: Choice, above: seq<nat>, offset: nat, disabled: bool)
    ensures item.group ==>
              RowsOfItem(item, above, offset, disabled) == [Row(item.value, true, [], item.disabled, false)]
    ensures !item.group ==>
              var path, off := above + [offset], item.disabled || disabled;
              var row := Row(item.value, false, Segments(path), off, |item.children| > 0);
              RowsOfItem(item, above, offset, disabled)
              == if |item.children| > 0 then [row] + RowsOf(Marks(item.children, path, 0, off)) else [row]
  {
    hide Segments, RowsOf, Marks;
  }

  lemma SegmentsMore(above: seq<nat>, n: nat)
    ensures Segments(above + [n]) == Segments(above) + [Segment(n)]
  {
    hide Segment;
  }

  lemma NoRows(above: seq<nat>, offset: nat, disabled: bool)
    ensures RowsOf(Marks([], above, offset, disabled)) == []
  {}

  lemma NextRows(arr: seq<Choice>, above: seq<nat>, offset: nat, disabled: bool)
    requires arr != []
    ensures RowsOf(Marks(arr, above, offset, disabled))
         == RowsOfItem(arr[0], above, offset, disabled)
            + RowsOf(Marks(arr[1..], above, if arr[0].group then offset else offset + 1, disabled))
  {
    var item, path, off := arr[0], above + [offset], arr[0].disabled || disabled;
    var rest := Marks(arr[1..], above, if item.group then offset else offset + 1, disabled);
    if item.group {
      var first := Mark(Row(item.value, true, [], item.disabled, false), []);
      RowsConcat([first], rest);
    } else {
      var first := Mark(Row(item.value, false, Segments(path), off, item.children != []), path);
      hide Segments;
      RowsConcat([first], Marks(item.children, path, 0, off));
      RowsConcat([first] + Marks(item.children, path, 0, off), rest);
    }
  }

  lemma RowsConcat(s: seq<Mark>, t: seq<Mark>)
    ensures RowsOf(s + t) == RowsOf(s) + RowsOf(t)
    ensures |s| == 1 ==> RowsOf(s) == [s[0].row]
    ensures |s| == 1 ==> Values(s) == [s[0].row.value]
    ensures Values(s + t) == Values(s) + Values(t)
  {}

  // ---------------------------------------------------------------- what the rows mean

  function Preorder(arr: seq<Choice>): seq<string> {
    if arr == [] then []
    else [arr[0].value] + (if arr[0].group then [] else Preorder(arr[0].children)) + Preorder(arr[1..])
  }

  function Values(marks: seq<Mark>): (r: seq<string>)
    ensures |r| == |marks|
  {
    seq(|marks|, i requires 0 <= i < |marks| => marks[i].row.value)
  }

  lemma {:induction false} RowsInPreorder(arr: seq<Choice>, above: seq<nat>, offset: nat, disabled: bool)
    ensures Values(Marks(arr, above, offset, disabled)) == Preorder(arr)
    decreases arr
  {
    hide Segments, Marks, Values;
    NextValues(arr, above, offset, disabled);
    if arr != [] {
      RowsInPreorder(arr[1..], above, if arr[0].group then offset else offset + 1, disabled);
      if !arr[0].group {
        RowsInPreorder(arr[0].children, above + [offset], 0, arr[0].disabled || disabled);
      }
    }
  }

  lemma NextValues(arr: seq<Choice>, above: seq<nat>, offset: nat, disabled: bool)
    ensures Values(Marks(arr, above, offset, disabled))
         == if arr == [] then []
            else if arr[0].group then [arr[0].value] + Values(Marks(arr[1..], above, offset, disabled))
            else [arr[0].value] + Values(Marks(arr[0].children, above + [offset], 0, arr[0].disabled || disabled))
                 + Values(Marks(arr[1..], above, offset + 1, disabled))
  {
    if arr != [] {
      var item, path, off := arr[0], above + [offset], arr[0].disabled || disabled;
      var rest := Marks(arr[1..], above, if item.group then offset else offset + 1, disabled);
      if item.group {
        RowsConcat([Mark(Row(item.value, true, [], item.disabled, false), [])], rest);
      } else {
        var first := Mark(Row(item.value, false, Segments(path), off, item.children != []), path);
        hide Segments;
        RowsConcat([first], Marks(item.children, path, 0, off));
        RowsConcat([first] + Marks(item.children, path, 0, off), rest);
      }
    }
  }

  /** The option at a path, where optgroups do not count. */
  function Lookup(arr: seq<Choice>, p: seq<nat>): seq<Choice>
    requires p != []
    decreases |p|, arr
  {
    if arr == [] then []
    else if arr[0].group then Lookup(arr[1..], p)
    else if p[0] > 0 then Lookup(arr[1..], [p[0] - 1] + p[1..])
    else if |p| == 1 then [arr[0]]
    else if Lookup(arr[0].children, p[1..]) == [] then []
    else [arr[0]] + Lookup(arr[0].children, p[1..])
  }

  ghost predicate RowIs(m: Mark, arr: seq<Choice>, above: seq<nat>, offset: nat, disabled: bool) {
    && (m.row.group ==> m.row.pid == [] && m.path == [] && !m.row.folder)
    && (!m.row.group ==>
          && |above| < |m.path| && m.path[..|above|] == above && m.path[|above|] >= offset
          && m.row.pid == Segments(m.path)
          && var p := [m.path[|above|] - offset] + m.path[|above| + 1..];
             var chain := Lookup(arr, p);
             && |chain| == |p| && chain[|p| - 1].value == m.row.value && !chain[|p| - 1].group
             && (m.row.folder <==> chain[|p| - 1].children != [])
             && (m.row.disabled <==> disabled || exists t :: t in chain && t.disabled))
  }

  /** Every row stands for the option at its path, and is disabled exactly when that option or an
      option above it is. */
  lemma {:induction false} RowsAreOptions(arr: seq<Choice>, above: seq<nat>, offset: nat, disabled: bool)
    ensures forall m :: m in Marks(arr, above, offset, disabled) ==> RowIs(m, arr, above, offset, disabled)
    decreases arr
  {
    if arr != [] {
      var item := arr[0];
      var path, off := above + [offset], item.disabled || disabled;
      if item.group {
        RowsAreOptions(arr[1..], above, offset, disabled);
      } else {
        RowsAreOptions(item.children, path, 0, off);
        RowsAreOptions(arr[1..], above, offset + 1, disabled);
        forall m | m in Marks(item.children, path, 0, off) ensures RowIs(m, arr, above, offset, disabled) {
          RowBelow(m, arr, above, offset, disabled);
        }
        forall m | m in Marks(arr[1..], above, offset + 1, disabled) ensures RowIs(m, arr, above, offset, disabled) {
          RowAfter(m, arr, above, offset, disabled);
        }
      }
    }
  }

  lemma RowBelow(m: Mark, arr: seq<Choice>, above: seq<nat>, offset: nat, disabled: bool)
    requires arr != [] && !arr[0].group
    requires RowIs(m, arr[0].children, above + [offset], 0, arr[0].disabled || disabled)
    ensures RowIs(m, arr, above, offset, disabled)
  {
    if !m.row.group {
      var n := |above|;
      BelowPath(m, arr[0].children, above, offset, arr[0].disabled || disabled);
      var p := [m.path[n] - offset] + m.path[n + 1..];
      assert p[1..] == [m.path[n + 1] - 0] + m.path[n + 2..];
      var below := Lookup(arr[0].children, p[1..]);
      LookupFirst(arr, p);
      hide Lookup, Segments;
      SomeDisabled(arr[0], below);
    }
  }

  lemma LookupFirst(arr: seq<Choice>, p: seq<nat>)
    requires arr != [] && !arr[0].group && |p| > 1 && p[0] == 0 && Lookup(arr[0].children, p[1..]) != []
    ensures Lookup(arr, p) == [arr[0]] + Lookup(arr[0].children, p[1..])
  {}

  lemma SomeDisabled(first: Choice, rest: seq<Choice>)
    ensures (exists t :: t in [first] + rest && t.disabled) <==> first.disabled || exists t :: t in rest && t.disabled
  {
    assert first in [first] + rest;
    assert forall t :: t in rest ==> t in [first] + rest;
    assert forall t :: t in [first] + rest ==> t == first || t in rest;
  }

  lemma RowAfter(m: Mark, arr: seq<Choice>, above: seq<nat>, offset: nat, disabled: bool)
    requires arr != [] && !arr[0].group
    requires RowIs(m, arr[1..], above, offset + 1, disabled)
    ensures RowIs(m, arr, above, offset, disabled)
  {
    if !m.row.group {
      var n := |above|;
      var p := [m.path[n] - offset] + m.path[n + 1..];
      assert [p[0] - 1] + p[1..] == [m.path[n] - (offset + 1)] + m.path[n + 1..];
    }
  }

  /** p comes before q: it is a proper beginning of q, or smaller where the two first differ, at n. */
  predicate LessAt(p: seq<nat>, q: seq<nat>, n: nat) {
    n <= |p| && n < |q| && p[..n] == q[..n] && (n == |p| || p[n] < q[n])
  }

  ghost predicate Less(p: seq<nat>, q: seq<nat>) { exists n: nat :: LessAt(p, q, n) }

  ghost predicate Before(x: Mark, y: Mark) { !x.row.group && !y.row.group ==> Less(x.path, y.path) }

  ghost predicate InOrder(marks: seq<Mark>) {
    forall i, j :: 0 <= i < j < |marks| ==> Before(marks[i], marks[j])
  }

  lemma InOrderJoin(s: seq<Mark>, t: seq<Mark>)
    requires InOrder(s) && InOrder(t) && forall x, y :: x in s && y in t ==> Before(x, y)
    ensures InOrder(s + t)
  {
    hide Before;
    forall i, j | 0 <= i < j < |s + t| ensures Before((s + t)[i], (s + t)[j]) {
      if i < |s| <= j {
        assert (s + t)[i] == s[i] && s[i] in s && (s + t)[j] == t[j - |s|] && t[j - |s|] in t;
      } else if i >= |s| {
        assert (s + t)[i] == t[i - |s|] && (s + t)[j] == t[j - |s|];
      }
    }
  }

  /** A path of the option that begins with `above` and `offset` comes before what lies below or after it. */
  lemma PathsCompare(above: seq<nat>, offset: nat, p: seq<nat>, q: seq<nat>)
    requires |above| < |p| && |above| < |q| && p[..|above|] == above == q[..|above|] && p[|above|] == offset
    ensures p == above + [offset] && q[|above|] == offset && |q| > |p| ==> Less(p, q)
    ensures offset < q[|above|] ==> Less(p, q)
  {
    var n := |above|;
    if offset < q[n] { assert LessAt(p, q, n); }
    if p == above + [offset] && q[n] == offset && |q| > |p| {
      assert q[..n + 1] == q[..n] + [q[n]] == p[..n + 1];
      assert LessAt(p, q, n + 1);
    }
  }

  /** The rows of options come in the order of their paths, every option directly before what lies below it. */
  lemma {:induction false} PathsInOrder(arr: seq<Choice>, above: seq<nat>, offset: nat, disabled: bool)
    ensures InOrder(Marks(arr, above, offset, disabled))
    decreases arr
  {
    if arr != [] {
      var item, n, marks := arr[0], |above|, Marks(arr, above, offset, disabled);
      hide Less;
      if item.group {
        PathsInOrder(arr[1..], above, offset, disabled);
        InOrderJoin([marks[0]], Marks(arr[1..], above, offset, disabled));
      } else {
        var path, off := above + [offset], item.disabled || disabled;
        var below, after := Marks(item.children, path, 0, off), Marks(arr[1..], above, offset + 1, disabled);
        PathsInOrder(item.children, path, 0, off);
        PathsInOrder(arr[1..], above, offset + 1, disabled);
        RowsAreOptions(item.children, path, 0, off);
        RowsAreOptions(arr[1..], above, offset + 1, disabled);
        hide RowIs, Marks, InOrder;
        var first := [marks[0]];
        assert marks == first + below + after && marks[0].path == path by { FirstMark(arr, above, offset, disabled); }
        forall x, y | x in first && y in below ensures Before(x, y) {
          BelowPath(y, item.children, above, offset, off);
          if !y.row.group { PathsCompare(above, offset, path, y.path); }
        }
        assert InOrder(first) by { InOrderOne(marks[0]); }
        InOrderJoin(first, below);
        forall x, y | x in first + below && y in after ensures Before(x, y) {
          if x in below { BelowPath(x, item.children, above, offset, off); }
          AfterPath(y, arr[1..], above, offset, disabled);
          if !x.row.group && !y.row.group { PathsCompare(above, offset, x.path, y.path); }
        }
        InOrderJoin(first + below, after);
      }
    }
  }

  lemma InOrderOne(m: Mark)
    ensures InOrder([m])
  {}

  lemma FirstMark(arr: seq<Choice>, above: seq<nat>, offset: nat, disabled: bool)
    requires arr != [] && !arr[0].group
    ensures var path, off := above + [offset], arr[0].disabled || disabled;
            var first := Mark(Row(arr[0].value, false, Segments(path), off, arr[0].children != []), path);
            Marks(arr, above, offset, disabled)
            == [first] + Marks(arr[0].children, path, 0, off) + Marks(arr[1..], above, offset + 1, disabled)
  {}

  lemma BelowPath(m: Mark, arr: seq<Choice>, above: seq<nat>, offset: nat, disabled: bool)
    requires RowIs(m, arr, above + [offset], 0, disabled)
    ensures !m.row.group ==> |above| + 1 < |m.path| && m.path[..|above|] == above && m.path[|above|] == offset
  {
    if !m.row.group {
      var n := |above|;
      assert m.path[..n + 1] == above + [offset];
      assert m.path[..n] == m.path[..n + 1][..n] && m.path[n] == m.path[..n + 1][n];
    }
  }

  lemma AfterPath(m: Mark, arr: seq<Choice>, above: seq<nat>, offset: nat, disabled: bool)
    requires RowIs(m, arr, above, offset + 1, disabled)
    ensures !m.row.group ==> |above| < |m.path| && m.path[..|above|] == above && m.path[|above|] > offset
  {}

  ghost predicate DistinctPaths(marks: seq<Mark>) {
    forall i, j :: 0 <= i < j < |marks| && !marks[i].row.group && !marks[j].row.group ==> marks[i].path != marks[j].path
  }

  lemma PathsDistinct(arr: seq<Choice>, above: seq<nat>, offset: nat, disabled: bool)
    ensures DistinctPaths(Marks(arr, above, offset, disabled))
  {
    PathsInOrder(arr, above, offset, disabled);
    var marks := Marks(arr, above, offset, disabled);
    forall i, j | 0 <= i < j < |marks| && !marks[i].row.group && !marks[j].row.group
      ensures marks[i].path != marks[j].path
    {
      assert Before(marks[i], marks[j]);
      LessDiffers(marks[i].path, marks[j].path);
    }
  }

  lemma LessDiffers(p: seq<nat>, q: seq<nat>)
    requires Less(p, q)
    ensures p != q
  {}

  /**
   On the flattened list of a whole tree, an id is a string prefix of another row's id exactly when
   the first row is the other one or stands above it in the tree, and no two options share an id.
   */
  lemma IdsTellAncestors(arr: seq<Choice>, i: nat, j: nat)
    requires var marks := Marks(arr, [], 0, false);
             i < |marks| && j < |marks| && !marks[i].row.group && !marks[j].row.group
    ensures var marks := Marks(arr, [], 0, false);
            var (x, y) := (marks[i], marks[j]);
            && (JoinDash(x.row.pid) <= JoinDash(y.row.pid) <==> x.path <= y.path)
            && (JoinDash(x.row.pid) == JoinDash(y.row.pid) <==> i == j)
  {
    var marks := Marks(arr, [], 0, false);
    var x, y := marks[i], marks[j];
    RowsAreOptions(arr, [], 0, false);
    PathsDistinct(arr, [], 0, false);
    assert x in marks && y in marks;
    assert RowIs(x, arr, [], 0, false) && RowIs(y, arr, [], 0, false);
    PrefixIff(x.path, y.path);
    PrefixIff(y.path, x.path);
  }
}
