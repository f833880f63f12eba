/** The selection of a drop-down: clicks and bulk operations on a list of values and the marks of its options. */
module Selection {

  /** Options are told apart by their values. A limit of 0 means none; `veto` is the caller's hook. */
  datatype Config = Config(options: seq<string>, disabled: set<string>, max: nat, radio: bool,
                           veto: (seq<string>, string, bool, bool) -> bool)
  {
    ghost predicate Valid() { NoRepeat(options) }
  }

  datatype State = State(values: seq<string>, marked: set<string>)

  predicate NoRepeat(s: seq<string>) { forall i, j :: 0 <= i < j < |s| ==> s[i] != s[j] }

  /** The marks agree with the values, no value is there twice, and a radio has at most one. */
  ghost predicate Consistent(c: Config, st: State) {
    && NoRepeat(st.values)
    && (forall o :: o in st.marked <==> o in c.options && o in st.values)
    && (c.radio ==> |st.values| <= 1)
  }

  function Remove(s: seq<string>, v: string): (r: seq<string>) {
    if s == [] then [] else if s[0] == v then s[1..] else [s[0]] + Remove(s[1..], v)
  }

  predicate Full(c: Config, st: State) { c.max > 0 && |st.values| >= c.max }

  predicate Vetoed(c: Config, st: State, v: string, isAdd: bool, notOn: bool) {
    !notOn && c.veto(st.values, v, isAdd, v in c.disabled)
  }

  predicate Refused(c: Config, st: State, v: string, isAdd: bool, notOn: bool) {
    (isAdd && Full(c, st)) || Vetoed(c, st, v, isAdd, notOn)
  }

  /** Adding or taking away one value. */
  function Handled(c: Config, st: State, v: string, isAdd: bool, notOn: bool): State {
    if Refused(c, st, v, isAdd, notOn) then st
    else if isAdd then
      State((if c.radio then [] else st.values) + [v], (if c.radio then st.marked * {v} else st.marked) + {v})
    else State(Remove(st.values, v), st.marked - {v})
  }

  /** The values one after the other; `isAdd` is decided for each from the marks at its turn. */
  datatype Mode = Add | Take | Toggle

  predicate Adds(m: Mode, st: State, v: string) { m == Add || (m == Toggle && v !in st.marked) }

  function HandledAll(c: Config, st: State, vs: seq<string>, m: Mode, notOn: bool): State
    decreases |vs|
  {
    if vs == [] then st
    else HandledAll(c, Handled(c, st, vs[0], Adds(m, st, vs[0]), notOn), vs[1..], m, notOn)
  }

  function Filter(vs: seq<string>, out: set<string>): (r: seq<string>)
    ensures forall v :: v in r <==> v in vs && v !in out
    ensures NoRepeat(vs) ==> NoRepeat(r)
  {
    if vs == [] then []
    else
      assert vs == [vs[0]] + vs[1..];
      (if vs[0] in out then [] else [vs[0]]) + Filter(vs[1..], out)
  }

  class Select {
    const c: Config
    var values: seq<string>
    var marked: set<string>

    ghost predicate Valid()
      reads this
    {
      c.Valid() && Consistent(c, St())
    }

    function St(): State
      reads this
    {
      State(values, marked)
    }

    constructor (c: Config)
      requires c.Valid()
      ensures Valid() && this.c == c && St() == State([], {})
    {
      this.c := c;
      values, marked := [], {};
    }

    method HandlerLabel(v: string, isAdd: bool, notOn: bool)
      modifies this
      ensures St() == Handled(c, old(St()), v, isAdd, notOn)
    {
      if isAdd && c.max > 0 && |values| >= c.max { return; }
      if !notOn {
        if c.veto(values, v, isAdd, v in c.disabled) { return; }
      }
      if isAdd {
        marked := marked + {v};
        if c.radio {
          values := [];
          marked := marked * {v};
        }
        values := values + [v];
      } else {
        marked := marked - {v};
        var idx := IndexOf(values, v);
        if idx > -1 {
          values := values[..idx] + values[idx + 1..];
        }
        RemoveAtIndex(old(values), v, idx);
      }
    }

    /** A click on an option: nothing if it is disabled, otherwise the opposite of its mark. */
    method Click(v: string)
      requires Valid() && v in c.options
      modifies this
      ensures Valid() && St() == if v in c.disabled then old(St()) else HandledAll(c, old(St()), [v], Toggle, false)
    {
      hide Handled, Consistent;
      HandledAllKeeps(c, St(), [v], Toggle, false);
      if v in c.disabled { return; }
      assert [v][1..] == [];
      HandlerLabel(v, v !in marked, false);
      assert St() == HandledAll(c, old(St()), [v], Toggle, false);
    }

    method Each(vs: seq<string>, m: Mode, notOn: bool)
      modifies this
      ensures St() == HandledAll(c, old(St()), vs, m, notOn)
    {
      for i := 0 to |vs|
        invariant HandledAll(c, St(), vs[i..], m, notOn) == HandledAll(c, old(St()), vs, m, notOn)
      {
        assert vs[i..][1..] == vs[i + 1..];
        HandlerLabel(vs[i], m == Add || (m == Toggle && vs[i] !in marked), notOn);
      }
    }

    method SelectAll(isOn: bool, skipDis: bool)
      requires Valid()
      modifies this
      ensures Valid()
      ensures St() == HandledAll(c, old(St()), Filter(c.options, old(marked) + Skipped(c, skipDis)), Add, !isOn)
    {
      hide Skipped, HandledAll;
      var vs := Filter(c.options, marked + Skipped(c, skipDis));
      HandledAllKeeps(c, St(), vs, Add, !isOn);
      Each(vs, Add, !isOn);
    }

    method RemoveAll(isOn: bool, skipDis: bool)
      requires Valid()
      modifies this
      ensures Valid()
      ensures St() == HandledAll(c, old(St()), Filter(old(values), Skipped(c, skipDis)), Take, !isOn)
    {
      hide Skipped, HandledAll;
      var vs := Filter(values, Skipped(c, skipDis));
      HandledAllKeeps(c, St(), vs, Take, !isOn);
      Each(vs, Take, !isOn);
    }

    method Reverse(isOn: bool, skipDis: bool)
      requires Valid()
      modifies this
      ensures Valid()
      ensures St() == Reversed(c, old(St()), isOn, skipDis)
    {
      var vs := Filter(c.options, Skipped(c, skipDis));
      HandledAllKeeps(c, St(), vs, Toggle, !isOn);
      Each(vs, Toggle, !isOn);
    }
  }

  /** The disabled options, when they are to be skipped. */
  function Skipped(c: Config, skipDis: bool): set<string> {
    if skipDis then set o | o in c.disabled && o in c.options else {}
  }

  function Reversed(c: Config, st: State, isOn: bool, skipDis: bool): State {
    HandledAll(c, st, Filter(c.options, Skipped(c, skipDis)), Toggle, !isOn)
  }

  method IndexOf(arr: seq<string>, v: string) returns (idx: int)
    ensures -1 <= idx < |arr|
    ensures idx >= 0 ==> arr[idx] == v && v !in arr[..idx]
    ensures idx == -1 ==> v !in arr
  {
    for i := 0 to |arr|
      invariant v !in arr[..i]
    {
      if arr[i] == v { return i; }
    }
    return -1;
  }

  lemma {:induction false} RemoveAtIndex(s: seq<string>, v: string, i: int)
    requires -1 <= i < |s| && (i >= 0 ==> s[i] == v && v !in s[..i]) && (i == -1 ==> v !in s)
    ensures Remove(s, v) == if i == -1 then s else s[..i] + s[i + 1..]
    decreases |s|
  {
    if i == 0 {
      assert s[..0] + s[1..] == s[1..];
    } else if i > 0 {
      assert s[0] == s[..i][0] && s[0] != v;
      var t := s[1..];
      assert t[..i - 1] == s[..i][1..] && t[i..] == s[i + 1..];
      assert forall x :: x in s[..i][1..] ==> x in s[..i];
      RemoveAtIndex(t, v, i - 1);
      hide Remove;
      assert s[..i] == [s[0]] + t[..i - 1];
    } else if s != [] {
      assert s[0] != v;
      RemoveAtIndex(s[1..], v, -1);
    }
  }

  lemma {:induction false} RemoveTakesOut(s: seq<string>, v: string)
    requires NoRepeat(s)
    ensures NoRepeat(Remove(s, v)) && forall x :: x in Remove(s, v) <==> x in s && x != v
    ensures |Remove(s, v)| == if v in s then |s| - 1 else |s|
    decreases |s|
  {
    if s != [] {
      assert s == [s[0]] + s[1..];
      RemoveTakesOut(s[1..], v);
      assert s[0] !in s[1..];
    }
  }

  // ---------------------------------------------------------------- every run

  /** One step keeps the state consistent, never passes the limit, and touches no other value. */
  lemma HandledKeeps(c: Config, st: State, v: string, isAdd: bool, notOn: bool)
    requires c.Valid() && Consistent(c, st) && (isAdd ==> v in c.options && v !in st.values)
    ensures Consistent(c, Handled(c, st, v, isAdd, notOn))
    ensures c.max > 0 && |Handled(c, st, v, isAdd, notOn).values| > |st.values|
            ==> |Handled(c, st, v, isAdd, notOn).values| <= c.max
    ensures forall x :: x != v && x in Handled(c, st, v, isAdd, notOn).values ==> x in st.values
    ensures !c.radio ==> forall x :: x != v && x in st.values ==> x in Handled(c, st, v, isAdd, notOn).values
    ensures !Refused(c, st, v, isAdd, notOn) ==> (v in Handled(c, st, v, isAdd, notOn).values <==> isAdd)
  {
    RemoveTakesOut(st.values, v);
  }

  function Larger(a: nat, b: nat): nat { if a < b then b else a }

  /** What a bulk operation may be given: for additions, options that are not selected yet. */
  ghost predicate Fit(c: Config, st: State, vs: seq<string>, m: Mode) {
    && NoRepeat(vs)
    && (m != Take ==> forall v :: v in vs ==> v in c.options)
    && (m == Add ==> forall v :: v in vs ==> v !in st.values)
  }

  lemma {:induction false} HandledAllKeeps(c: Config, st: State, vs: seq<string>, m: Mode, notOn: bool)
    requires c.Valid() && Consistent(c, st) && Fit(c, st, vs, m)
    ensures Consistent(c, HandledAll(c, st, vs, m, notOn))
    ensures c.max > 0 ==> |HandledAll(c, st, vs, m, notOn).values| <= Larger(|st.values|, c.max)
    decreases |vs|
  {
    if vs != [] {
      assert vs == [vs[0]] + vs[1..];
      HandledKeeps(c, st, vs[0], Adds(m, st, vs[0]), notOn);
      HandledAllKeeps(c, Handled(c, st, vs[0], Adds(m, st, vs[0]), notOn), vs[1..], m, notOn);
    }
  }

  datatype Event = Clicked(v: string) | AllSelected(isOn: bool, skipDis: bool) | AllRemoved(isOn: bool, skipDis: bool)
                 | AllReversed(isOn: bool, skipDis: bool)

  function Next(c: Config, st: State, e: Event): State {
    match e
    case Clicked(v) => if v !in c.options || v in c.disabled then st else HandledAll(c, st, [v], Toggle, false)
    case AllSelected(isOn, skip) =>
      HandledAll(c, st, Filter(c.options, st.marked + Skipped(c, skip)), Add, !isOn)
    case AllRemoved(isOn, skip) => HandledAll(c, st, Filter(st.values, Skipped(c, skip)), Take, !isOn)
    case AllReversed(isOn, skip) => Reversed(c, st, isOn, skip)
  }

  function Run(c: Config, st: State, run: seq<Event>): State {
    if run == [] then st else Next(c, Run(c, st, run[..|run| - 1]), run[|run| - 1])
  }

  /**
   Every run keeps marks and values in agreement and without repetition, and never grows past the
   limit: a list that is longer to begin with does not get any longer.
   */
  lemma {:induction false} RunKeeps(c: Config, st: State, run: seq<Event>)
    requires c.Valid() && Consistent(c, st)
    ensures Consistent(c, Run(c, st, run))
    ensures c.max > 0 ==> |Run(c, st, run).values| <= Larger(|st.values|, c.max)
    decreases |run|
  {
    if run != [] {
      hide HandledAll, Filter;
      RunKeeps(c, st, run[..|run| - 1]);
      var s := Run(c, st, run[..|run| - 1]);
      match run[|run| - 1]
      case Clicked(v) =>
        if v in c.options && v !in c.disabled { HandledAllKeeps(c, s, [v], Toggle, false); }
      case AllSelected(isOn, skip) =>
        HandledAllKeeps(c, s, Filter(c.options, s.marked + Skipped(c, skip)), Add, !isOn);
      case AllRemoved(isOn, skip) =>
        HandledAllKeeps(c, s, Filter(s.values, Skipped(c, skip)), Take, !isOn);
      case AllReversed(isOn, skip) =>
        HandledAllKeeps(c, s, Filter(c.options, Skipped(c, skip)), Toggle, !isOn);
    }
  }

  // ---------------------------------------------------------------- single operations, exactly

  /**
   One change. It is refused when it adds to a full list, or when the hook is asked, with the list as it is and
   whether the option is disabled, and says no. Otherwise an addition goes to the end of the list, in a radio to
   the empty list, and marks the option.
   */
  lemma HandledMeans(c: Config, st: State, v: string, isAdd: bool, notOn: bool)
    ensures var r := Handled(c, st, v, isAdd, notOn);
            if (isAdd && c.max > 0 && |st.values| >= c.max)
               || (!notOn && c.veto(st.values, v, isAdd, v in c.disabled)) then r == st
            else if isAdd then
              if c.radio then r == State([v], {v}) else r == State(st.values + [v], st.marked + {v})
            else r.marked == st.marked - {v} && (v !in st.values ==> r.values == st.values)
  {
    if v !in st.values { RemoveAtIndex(st.values, v, -1); }
  }

  /** A click asks the hook, does nothing on a disabled option, and otherwise changes the mark of the option. */
  lemma ClickMeans(c: Config, st: State, v: string)
    requires v in c.options
    ensures v in c.disabled ==> Next(c, st, Clicked(v)) == st
    ensures v !in c.disabled ==> Next(c, st, Clicked(v)) == Handled(c, st, v, v !in st.marked, false)
  {
    var r := Handled(c, st, v, v !in st.marked, false);
    assert [v][1..] == [] && HandledAll(c, r, [], Toggle, false) == r;
    assert HandledAll(c, st, [v], Toggle, false) == HandledAll(c, r, [v][1..], Toggle, false);
  }

  /** What is filtered out of a list stands in the order of the list. */
  lemma {:induction false} FilterKeepsOrder(vs: seq<string>, out: set<string>, i: nat, j: nat) returns (a: nat, b: nat)
    requires i < j < |Filter(vs, out)|
    ensures a < b < |vs| && vs[a] == Filter(vs, out)[i] && vs[b] == Filter(vs, out)[j]
    decreases |vs|
  {
    var rest := Filter(vs[1..], out);
    FilterStep(vs, out);
    hide Filter;
    if vs[0] in out {
      a, b := FilterKeepsOrder(vs[1..], out, i, j);
    } else if i > 0 {
      a, b := FilterKeepsOrder(vs[1..], out, i - 1, j - 1);
    } else {
      b := InFilter(vs[1..], out, j - 1);
      b := b + 1;
      return 0, b;
    }
    a, b := a + 1, b + 1;
  }

  lemma FilterStep(vs: seq<string>, out: set<string>)
    ensures vs == [] ==> Filter(vs, out) == []
    ensures vs != [] ==> Filter(vs, out) == (if vs[0] in out then [] else [vs[0]]) + Filter(vs[1..], out)
  {}

  lemma InFilter(vs: seq<string>, out: set<string>, j: nat) returns (b: nat)
    requires j < |Filter(vs, out)|
    ensures b < |vs| && vs[b] == Filter(vs, out)[j]
  {
    assert Filter(vs, out)[j] in Filter(vs, out);
    b :| 0 <= b < |vs| && vs[b] == Filter(vs, out)[j];
  }

  lemma FilterOrder(vs: seq<string>, out: set<string>, i: nat, j: nat, a: nat, b: nat)
    requires NoRepeat(vs) && i < |Filter(vs, out)| && j < |Filter(vs, out)| && a < b < |vs|
    requires Filter(vs, out)[i] == vs[a] && Filter(vs, out)[j] == vs[b]
    ensures i < j
  {
    hide Filter;
    if j < i {
      var b', a' := FilterKeepsOrder(vs, out, j, i);
      assert false;
    }
  }

  // ---------------------------------------------------------------- bulk operations, exactly

  ghost predicate NeverVetoes(c: Config, notOn: bool) {
    forall s, v, isAdd :: !Vetoed(c, s, v, isAdd, notOn)
  }

  /** Reversing flips exactly the given options and leaves every other value alone. */
  lemma {:induction false} ToggleFlips(c: Config, st: State, vs: seq<string>, notOn: bool)
    requires c.Valid() && Consistent(c, st) && Fit(c, st, vs, Toggle) && c.max == 0 && !c.radio
    requires NeverVetoes(c, notOn)
    ensures var r := HandledAll(c, st, vs, Toggle, notOn);
            forall x :: x in r.values <==> if x in vs then x !in st.values else x in st.values
    decreases |vs|
  {
    if vs != [] {
      assert vs == [vs[0]] + vs[1..];
      var add := Adds(Toggle, st, vs[0]);
      assert !Vetoed(c, st, vs[0], add, notOn);
      HandledKeeps(c, st, vs[0], add, notOn);
      ToggleFlips(c, Handled(c, st, vs[0], add, notOn), vs[1..], notOn);
    }
  }

  /** Without limit, radio or veto, reversing twice restores the selection, and skipped options never change. */
  lemma ReverseTwice(c: Config, st: State, isOn: bool, skipDis: bool)
    requires c.Valid() && Consistent(c, st) && c.max == 0 && !c.radio
    requires NeverVetoes(c, !isOn)
    ensures forall x :: x in Reversed(c, Reversed(c, st, isOn, skipDis), isOn, skipDis).values <==> x in st.values
    ensures Reversed(c, Reversed(c, st, isOn, skipDis), isOn, skipDis).marked == st.marked
    ensures skipDis ==> forall x :: x in c.disabled ==> (x in Reversed(c, st, isOn, skipDis).values <==> x in st.values)
  {
    var vs := Filter(c.options, Skipped(c, skipDis));
    var once := Reversed(c, st, isOn, skipDis);
    SkippedIs(c, skipDis);
    hide HandledAll, Skipped, Filter;
    HandledAllKeeps(c, st, vs, Toggle, !isOn);
    HandledAllKeeps(c, once, vs, Toggle, !isOn);
    ToggleFlips(c, st, vs, !isOn);
    ToggleFlips(c, once, vs, !isOn);
  }

  lemma SkippedIs(c: Config, skipDis: bool)
    ensures forall x :: x in Skipped(c, skipDis) <==> skipDis && x in c.disabled && x in c.options
  {}

  /** As many of the values, in order, as fit beside n values that are there already. */
  function Fitting(max: nat, n: nat, vs: seq<string>): seq<string> {
    if max == 0 || n + |vs| <= max then vs else if n >= max then [] else vs[..max - n]
  }

  lemma FittingStep(max: nat, n: nat, vs: seq<string>)
    requires vs != []
    ensures Fitting(max, n, vs) == if max > 0 && n >= max then [] else [vs[0]] + Fitting(max, n + 1, vs[1..])
    ensures max > 0 && n >= max ==> Fitting(max, n, vs[1..]) == []
  {}

  /** With a limit, selecting all adds the first options in order until the limit is reached. */
  lemma {:induction false} SelectAllFills(c: Config, st: State, vs: seq<string>, notOn: bool)
    requires c.Valid() && Consistent(c, st) && Fit(c, st, vs, Add) && !c.radio && NeverVetoes(c, notOn)
    ensures HandledAll(c, st, vs, Add, notOn).values == st.values + Fitting(c.max, |st.values|, vs)
    decreases |vs|
  {
    hide HandledAll, Consistent, Fit, NeverVetoes, Fitting, Full;
    SelectStep(c, st, vs, notOn);
    if vs != [] {
      FittingStep(c.max, |st.values|, vs);
      SelectAllFills(c, Handled(c, st, vs[0], true, notOn), vs[1..], notOn);
    }
  }

  lemma SelectStep(c: Config, st: State, vs: seq<string>, notOn: bool)
    requires c.Valid() && Consistent(c, st) && Fit(c, st, vs, Add) && !c.radio && NeverVetoes(c, notOn)
    ensures vs == [] ==> HandledAll(c, st, vs, Add, notOn) == st && Fitting(c.max, |st.values|, vs) == []
    ensures vs != [] ==>
              var next := Handled(c, st, vs[0], true, notOn);
              && HandledAll(c, st, vs, Add, notOn) == HandledAll(c, next, vs[1..], Add, notOn)
              && Consistent(c, next) && Fit(c, next, vs[1..], Add)
              && next.values == if c.max > 0 && |st.values| >= c.max then st.values else st.values + [vs[0]]
  {
    if vs != [] {
      assert vs == [vs[0]] + vs[1..];
      HandledKeeps(c, st, vs[0], true, notOn);
      assert !Vetoed(c, st, vs[0], true, notOn);
    }
  }

  /** Removing all, walked over a copy of the list that shrinks meanwhile, keeps exactly the skipped values. */
  lemma {:induction false} TakeRemoves(c: Config, st: State, vs: seq<string>, notOn: bool)
    requires c.Valid() && Consistent(c, st) && NoRepeat(vs)
    requires NeverVetoes(c, notOn)
    ensures forall x :: x in HandledAll(c, st, vs, Take, notOn).values <==> x in st.values && x !in vs
    decreases |vs|
  {
    if vs != [] {
      assert vs == [vs[0]] + vs[1..];
      assert !Vetoed(c, st, vs[0], false, notOn);
      HandledKeeps(c, st, vs[0], false, notOn);
      RemoveTakesOut(st.values, vs[0]);
      TakeRemoves(c, Handled(c, st, vs[0], false, notOn), vs[1..], notOn);
    }
  }

  /** An option that selecting all may add. */
  predicate Eligible(c: Config, st: State, skipDis: bool, v: string) {
    v in c.options && v !in st.values && !(skipDis && v in c.disabled)
  }

  /**
   Selecting all without a veto: the old list stays in front; only eligible options come behind it, and no
   eligible one is passed over for a later one. All of them come unless the limit is reached.
   */
  lemma SelectAllMeans(c: Config, st: State, isOn: bool, skipDis: bool)
    requires c.Valid() && Consistent(c, st) && !c.radio && NeverVetoes(c, !isOn)
    ensures var r := Next(c, st, AllSelected(isOn, skipDis)).values;
            && st.values <= r
            && (forall x :: x in r[|st.values|..] ==> Eligible(c, st, skipDis, x))
            && (c.max == 0 || |r| < c.max ==> forall x :: Eligible(c, st, skipDis, x) ==> x in r)
            && (forall a, b :: 0 <= a < b < |c.options| ==>
                  c.options[b] in r[|st.values|..] && Eligible(c, st, skipDis, c.options[a]) ==>
                  c.options[a] in r[|st.values|..])
  {
    var out := st.marked + Skipped(c, skipDis);
    var vs := Filter(c.options, out);
    SkippedIs(c, skipDis);
    assert forall x :: x in vs <==> Eligible(c, st, skipDis, x);
    SelectAllFills(c, st, vs, !isOn);
    hide Skipped, Filter, Consistent, NeverVetoes;
    var r := Next(c, st, AllSelected(isOn, skipDis)).values;
    var more := Fitting(c.max, |st.values|, vs);
    assert r == st.values + more && more <= vs && (c.max == 0 || |r| < c.max ==> more == vs);
    assert r[|st.values|..] == more;
    NonePassedOver(c.options, out, more);
  }

  lemma NonePassedOver(options: seq<string>, out: set<string>, more: seq<string>)
    requires NoRepeat(options) && more <= Filter(options, out)
    ensures forall a, b :: 0 <= a < b < |options| ==>
              options[b] in more && options[a] in Filter(options, out) ==> options[a] in more
  {
    hide Filter, NoRepeat;
    forall a, b | 0 <= a < b < |options| && options[b] in more && options[a] in Filter(options, out)
      ensures options[a] in more
    {
      var j :| 0 <= j < |more| && more[j] == options[b];
      var i :| 0 <= i < |Filter(options, out)| && Filter(options, out)[i] == options[a];
      assert Filter(options, out)[j] == more[j];
      FilterOrder(options, out, i, j, a, b);
      assert more[i] == Filter(options, out)[i];
    }
  }

  /** Removing all without a veto keeps the disabled options when they are to be skipped, and nothing else. */
  lemma RemoveAllMeans(c: Config, st: State, isOn: bool, skipDis: bool)
    requires c.Valid() && Consistent(c, st) && NeverVetoes(c, !isOn)
    ensures forall x :: x in Next(c, st, AllRemoved(isOn, skipDis)).values
                        <==> x in st.values && skipDis && x in c.disabled && x in c.options
  {
    SkippedIs(c, skipDis);
    TakeRemoves(c, st, Filter(st.values, Skipped(c, skipDis)), !isOn);
  }

  /** Reversing without limit, radio or veto turns over every option, or every one that is not disabled. */
  lemma ReverseMeans(c: Config, st: State, isOn: bool, skipDis: bool)
    requires c.Valid() && Consistent(c, st) && c.max == 0 && !c.radio && NeverVetoes(c, !isOn)
    ensures forall x :: x in Next(c, st, AllReversed(isOn, skipDis)).values
                        <==> if x in c.options && !(skipDis && x in c.disabled) then x !in st.values else x in st.values
  {
    SkippedIs(c, skipDis);
    ToggleFlips(c, st, Filter(c.options, Skipped(c, skipDis)), !isOn);
  }
}
