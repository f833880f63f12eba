# Verified models of the static widgets and the id generator

The auth-center server ships browser widgets whose logic is more than presentation: a tri-state
checkbox tree, a date picker, an MD5 implementation, a colour picker and a multi-select drop-down.
The id generator packs three fields into a long. This project models that logic and proves what it
keeps. Code that changes fields, arrays or lists step by step is modelled by classes, methods and
loops, each proved against a function of the old state; the guarantees are lemmas about those
functions, mostly over every input or every run.

| files | subject |
|---|---|
| CheckShape, CheckSpec, CheckFill, CheckTree, CheckRuns | the checkbox tree: a click's cascade and path repair against recomputation from the leaves; programmatic selection; whole runs |
| Trees, RenderTree, DragDrop, DataEdit | data tree and rendered tree kept in step by index paths; drag and drop; edits of a list during its own walk |
| Gregorian, Calendar, RangePick | day numbers, month lengths, the 42 cells, navigation, choosing a range |
| Decimals, DatePattern, DateFormat | printing a date in a format and reading it back through the generated pattern |
| Md5Words, Md5Spec, Md5Rounds, Md5Hash, Md5Known | MD5 (RFC 1321) and HMAC-MD5 (RFC 2104) from 16-bit additions and in-place padding |
| Color | RGB, HSB and hexadecimal text over exact reals |
| TreeIds, Linkage, Selection | option ids, linked columns, the selection of a drop-down |
| BitsAllocator | packing and parsing of ids, and the widths a generator accepts |
| Wrappers | values that may be missing |

`dafny verify dfyconfig.toml` checks everything.

The checkbox tree is kept as a table in document order (a parent comes before its children), so a
subtree is the set of nodes below an entry and a climb follows strictly smaller indexes.

## Where the code does not do what it promises

Each of these is stated with its exact condition; the code is modelled as it is.

- `CheckRuns.SetCheckedSelectsIff`: setting an empty selection returns before the marked nodes are
  applied, so nodes marked as checked in the data are lost although an internal clearing is meant to
  keep them. Input: `CheckRuns.MarkIsLost`.
- `CheckRuns.LooksDecideIff`: a half-selected box keeps the flag it had, so two trees that look alike
  answer the next click differently. Input: `CheckRuns.TwinsOfThree`.
- `RangePick.RangePicker.Choose`: the date constructor reads years below 100 as 19xx; two days chosen
  across year 100 can end up in the wrong order. Input: `RangePick.ChooseOutOfOrder`, for a picker whose
  `min` is set to year 99 or earlier; with the default `min` of 1900 these days are disabled.
- `RangePick.EndTimeKeptIff`: beginning a new range deletes the end with its time of day, so a range chosen
  later lacks the parts that the chosen end time does not have. Input: `RangePick.EndTimeLost`.
- `DateFormat.AcceptedIff`: the calendar goes up to year 200000 but a `yyyy` field above 9999 prints text
  that its own pattern refuses, and so does white space in a format that is not a single inner blank.
  Inputs: `DateFormat.LongYearRefused`, for a picker whose `max` is set beyond the default of 2099, and
  `DateFormat.WideBlankRefused`.
- `DateFormat.ReadBackIff`: touching tokens of one letter can be accepted and read as other numbers.
  Input: `DateFormat.NarrowMisread`.
- `Calendar.NextMonthGoesForward`, `Calendar.PrevMonthGoesBack`: one month after December of the highest
  year is January of that year, one month before January of the lowest year its December.
  Inputs: `Calendar.EndsWrapAround`.
- `DateFormat.ReadTimeIff`: the carry of seconds into minutes and of minutes into hours can leave 24
  hours. Input: `DateFormat.CarryPassesMidnight`.
- `Linkage.RenderLinkage`: children of a parent are lost when another parent on its level has the same
  value. Input: `Linkage.RepeatedValueLoses`.
- `DragDrop.RefusesRightlyIff`: nodes are compared by content, so a harmless drop is refused between
  equal siblings. Input: `DragDrop.TwinRootsRefuse`.
- `BitsAllocator.ParseRecoversIff`: the check on the widths adds them as ints, so widths of 64 bits and more
  can pass it by overflow, and their fields overlap. Input: `BitsAllocator.OverflowAccepted`. Widths below 64
  that the generator accepts always parse back (`BitsAllocator.UidGenerator.AfterPropertiesSet`).

## Model

| member | source | states |
|---|---|---|
| `CheckTree.CheckTree.constructor` | ac/auth-center-server/src/main/resources/static/eleTree.js:118-143 | a freshly rendered tree has the boxes that the data mark selected and flagged, every other box off, and remembers marks and default keys |
| `CheckTree.CheckTree.SiblingStates` | ac/auth-center-server/src/main/resources/static/eleTree.js:485-491 | the collected list holds exactly the states of all children of the parent (at roots: of all roots), so "all are v" can be read off it |
| `CheckTree.CheckTree.RepairParent` | ac/auth-center-server/src/main/resources/static/eleTree.js:496-514 | the three successive `if`s leave the parent with the fold of its children; only "all on" and "all off" touch its flag; nothing else changes |
| `CheckTree.CheckTree.SelectParents` | ac/auth-center-server/src/main/resources/static/eleTree.js:480-523 | the climb applies the repair to exactly the strict ancestors, nearest first, and stops at a root |
| `CheckTree.CheckTree.SetSubtree` | ac/auth-center-server/src/main/resources/static/eleTree.js:430-441 | a node and all its descendants, and nothing else, get the new state and flag |
| `CheckTree.CheckTree.Click` | ac/auth-center-server/src/main/resources/static/eleTree.js:401-446 | disabled boxes ignore a click; otherwise the `checked` flag decides between clearing and selecting the subtree, and outside strict mode the ancestors are repaired |
| `CheckTree.CheckTree.CheckedOneNode` | ac/auth-center-server/src/main/resources/static/eleTree.js:584-599 | the node (in strict mode) or its whole subtree with its ancestors repaired (otherwise) is selected |
| `CheckTree.CheckTree.CheckboxInit` | ac/auth-center-server/src/main/resources/static/eleTree.js:456-478 | the marked nodes are selected one after the other in document order, each with its subtree and ancestors outside strict mode |
| `CheckTree.CheckTree.DefaultChecked` | ac/auth-center-server/src/main/resources/static/eleTree.js:601-613 | the nodes of the remembered keys are selected in key order, unknown keys skipped, then the marked ones; with no keys nothing happens at all |
| `CheckTree.CheckTree.UnCheckNodes` | ac/auth-center-server/src/main/resources/static/eleTree.js:886-897 | every box that was not off is off and unflagged; an external call also removes the marks of those boxes, an internal one keeps them |
| `CheckTree.CheckTree.SetChecked` | ac/auth-center-server/src/main/resources/static/eleTree.js:870-885 | a reset replaces the keys, otherwise the new ones are merged; boxes are cleared first and the remembered keys and marks applied after |
| `CheckTree.CheckTree.Refresh` | ac/auth-center-server/src/main/resources/static/eleTree.js:743-745 | the boxes are cleared with the marks kept, then the keys and the marks are applied |
| `CheckTree.MarkedFrom` | ac/auth-center-server/src/main/resources/static/eleTree.js:459-459 | the marked nodes of the table and no others are visited |
| `CheckTree.NodesOf` | ac/auth-center-server/src/main/resources/static/eleTree.js:608-611 | every key selects the first node that carries it; keys without a node select nothing |
| `CheckTree.MergeKeys` | ac/auth-center-server/src/main/resources/static/eleTree.js:877-881 | the merged list has exactly the old and the new keys |
| `CheckShape.ConsistentMeansLeaves` | ac/auth-center-server/src/main/resources/static/eleTree.js:400-400 | when every inner state is the fold of its children, every state is on / off / half according to whether all, none or some of the leaves below are selected |
| `CheckShape.SettleConsistent` | ac/auth-center-server/src/main/resources/static/eleTree.js:496-514 | recomputing all states from any set of leaves gives a consistent tree with exactly these leaves selected |
| `CheckShape.ConsistentIsSettled` | ac/auth-center-server/src/main/resources/static/eleTree.js:400-400 | a consistent tree is determined by its selected leaves, up to the flags of half-selected boxes |
| `CheckSpec.CascadeConsistent` | ac/auth-center-server/src/main/resources/static/eleTree.js:430-441 | after the cascade every node off the path to the root is still consistent |
| `CheckSpec.RepairUpConsistent` | ac/auth-center-server/src/main/resources/static/eleTree.js:480-523 | repairing one path makes the whole tree consistent, changes strict ancestors only and keeps the flag of those that end half-selected |
| `CheckSpec.SetBelowIsRecompute` | ac/auth-center-server/src/main/resources/static/eleTree.js:430-448 | cascade plus path repair equals recomputing the whole tree from the old leaves with the leaves of the subtree added or removed |
| `CheckRuns.ClickIsRecompute` | ac/auth-center-server/src/main/resources/static/eleTree.js:401-448 | a click equals a full recomputation from the leaves; the leaves below the clicked node are removed when its flag was set and added otherwise |
| `CheckRuns.ClickDecides` | ac/auth-center-server/src/main/resources/static/eleTree.js:425-441 | the clicked box itself ends on or off, never half, according to its old flag |
| `CheckRuns.ClickAlone` | ac/auth-center-server/src/main/resources/static/eleTree.js:406-441 | a disabled box ignores a click; in strict mode any other box is turned over and no other box changes |
| `CheckRuns.HalfSelectedRemembers` | ac/auth-center-server/src/main/resources/static/eleTree.js:508-512 | a half-selected box has a hidden state: two trees that look the same answer the next click differently, because the flag of a half-selected box is left as it was |
| `CheckRuns.LooksDecideIff` | ac/auth-center-server/src/main/resources/static/eleTree.js:425-441 | the states shown after a click are a function of the states shown before it if and only if the clicked box is disabled or not half-selected |
| `CheckRuns.TwinsReachable` | ac/auth-center-server/src/main/resources/static/eleTree.js:401-446 | in every tree without disabled boxes, for every box with two leaves below, clicks after rendering lead to two trees that look the same everywhere and differ in the flag of that half-selected box |
| `CheckRuns.TwinsOfThree` | ac/auth-center-server/src/main/resources/static/eleTree.js:401-446 | a root with two leaves is such a tree: the next click selects the root in one and clears it in the other |
| `CheckFill.FillCascade` | ac/auth-center-server/src/main/resources/static/eleTree.js:584-599 | selecting one more subtree keeps every node that was already due, and settles the subtree |
| `CheckFill.FillPath` | ac/auth-center-server/src/main/resources/static/eleTree.js:480-523 | the climb after it brings every ancestor to the state that the nodes checked so far demand, even from inconsistent data |
| `CheckFill.CheckEachFills` | ac/auth-center-server/src/main/resources/static/eleTree.js:601-613 | after any list of nodes is checked, every box has the state that the set of these nodes demands; no flag is set before everything below is due |
| `CheckFill.FilledIsConsistent` | ac/auth-center-server/src/main/resources/static/eleTree.js:456-478 | once all marked nodes are done the tree is consistent although it started from pre-checked data that were not |
| `CheckFill.CheckEachSettles` | ac/auth-center-server/src/main/resources/static/eleTree.js:456-478 | checking a list of nodes, in any order and with repetitions, equals one recomputation from the leaves at or below them |
| `CheckRuns.InitialSettles` | ac/auth-center-server/src/main/resources/static/eleTree.js:249-257 | rendering selects exactly the leaves at or below a default key or a marked node, and folds everything else into a consistent tree |
| `CheckRuns.SetCheckedSelects` | ac/auth-center-server/src/main/resources/static/eleTree.js:870-885 | with a non-empty resulting key list exactly the leaves at or below a key or a remaining mark are selected, and the tree is consistent |
| `CheckRuns.SetCheckedMeans` | ac/auth-center-server/src/main/resources/static/eleTree.js:870-897 | a reset leaves exactly the given keys and the marks of boxes that were off, any other call all keys, old ones first, and all marks; with a key left exactly the leaves at or below a key or mark are on, without one every box is off |
| `CheckRuns.StrictSetCheckedMeans` | ac/auth-center-server/src/main/resources/static/eleTree.js:870-885 | in strict mode exactly the keyed and marked boxes are on when a key is left, and none otherwise |
| `CheckRuns.UnCheckMeans` | ac/auth-center-server/src/main/resources/static/eleTree.js:886-897 | a clearing from outside turns every box off, keeps the keys, and keeps the marks of boxes that were off already |
| `CheckRuns.SelectionSelects` | ac/auth-center-server/src/main/resources/static/eleTree.js:601-613 | the recomputed selection is consistent and has on exactly the leaves at or below a key or a mark |
| `CheckRuns.SetCheckedSelectsIff` | ac/auth-center-server/src/main/resources/static/eleTree.js:604-606 | a programmatic selection has its described effect if and only if the key list is not empty or no node is marked; with an empty list the early return leaves the marks unapplied |
| `CheckRuns.MarkIsLost` | ac/auth-center-server/src/main/resources/static/eleTree.js:604-606 | a single marked node is selected by rendering and no longer selected after setting the empty selection, although its mark is still there |
| `CheckRuns.RefreshSelects` | ac/auth-center-server/src/main/resources/static/eleTree.js:743-745 | whatever the boxes were, the refresh that ends a removal, a drop and an expansion selects exactly the leaves at or below a key or a mark, also without keys |
| `CheckRuns.KeyOrderIrrelevant` | ac/auth-center-server/src/main/resources/static/eleTree.js:870-885 | two key arrays with the same elements lead to the same boxes |
| `CheckRuns.NextGood` | ac/auth-center-server/src/main/resources/static/eleTree.js:396-448 | a click, a programmatic selection, a clearing or a refresh keeps the tree consistent |
| `CheckRuns.After` | ac/auth-center-server/src/main/resources/static/eleTree.js:396-448 | a run from a consistent tree ends in a consistent tree |
| `CheckRuns.RunsStayConsistent` | ac/auth-center-server/src/main/resources/static/eleTree.js:234-258 | from rendering on, every state of every run of clicks, selections, clearings and refreshes is consistent |
| `CheckRuns.StrictCheckAll` | ac/auth-center-server/src/main/resources/static/eleTree.js:584-590 | in strict mode checking a list selects exactly that list and changes no other box |
| `RenderTree.Rendering.constructor` | ac/auth-center-server/src/main/resources/static/eleTree.js:234-240 | the template renders the first level only and the path stack starts empty |
| `RenderTree.Rendering.ExpandAll` | ac/auth-center-server/src/main/resources/static/eleTree.js:525-582 | the recursion restores its path stack and replaces the list at the stack by the complete rendering of the data below, and nothing else |
| `RenderTree.FullAt` | ac/auth-center-server/src/main/resources/static/eleTree.js:525-582 | a full rendering has a node at a path exactly when the data have one, and it shows that item |
| `RenderTree.FloorIsDepth` | ac/auth-center-server/src/main/resources/static/eleTree.js:572-574 | in a full rendering the floor of a node is its depth, and it shows its item and as many children |
| `RenderTree.ParentByFloor` | ac/auth-center-server/src/main/resources/static/eleTree.js:648-648 | the ancestor looked up by the next lower floor is the parent |
| `RenderTree.IndexPath` | ac/auth-center-server/src/main/resources/static/eleTree.js:640-651 | the climb by floors collects, reversed, exactly the index path of the node |
| `RenderTree.LookUp` | ac/auth-center-server/src/main/resources/static/eleTree.js:652-658 | following an index path down the data gives the item at that path |
| `RenderTree.ReInitData` | ac/auth-center-server/src/main/resources/static/eleTree.js:640-672 | the returned index path, data, parent data and child index are those of the rendered node; the node is the child of the parent data at the index, and a root stands for its own parent |
| `Trees.RemoveConserves` | ac/auth-center-server/src/main/resources/static/eleTree.js:1055-1055 | what is left and what was taken out together are the old nodes |
| `Trees.PushConserves` | ac/auth-center-server/src/main/resources/static/eleTree.js:1057-1060 | a push adds exactly the nodes of the pushed subtree |
| `Trees.ShiftFollows` | ac/auth-center-server/src/main/resources/static/eleTree.js:1055-1060 | after the removal the target list is found at the shifted path and is unchanged, apart from losing the dragged node when it was there |
| `Trees.RemoveUndoesPush` | ac/auth-center-server/src/main/resources/static/eleTree.js:1055-1060 | the pushed node is the last of its list and taking it away restores the tree |
| `DragDrop.Widget.constructor` | ac/auth-center-server/src/main/resources/static/eleTree.js:234-240 | the widget starts with data and complete rendering in step |
| `DragDrop.Widget.Refused` | ac/auth-center-server/src/main/resources/static/eleTree.js:1013-1027 | a drop is refused if and only if some node at or below the dragged one equals the target; in particular always when the target itself is there |
| `DragDrop.Widget.Drop` | ac/auth-center-server/src/main/resources/static/eleTree.js:1013-1081 | a drop either changes nothing, exactly when the dragged subtree holds an equal of the target, or moves the subtree; data and separately edited rendering stay in step |
| `DragDrop.TwinIsFound` | ac/auth-center-server/src/main/resources/static/eleTree.js:1013-1024 | searching the nodes on the floor of the target finds an equal of it exactly when one lies anywhere in the dragged subtree |
| `DragDrop.RefusesRightlyIff` | ac/auth-center-server/src/main/resources/static/eleTree.js:1013-1027 | the guards are right for every pair of nodes, refusing exactly the node itself and what is inside it, if and only if no two items on one level are equal with their children |
| `DragDrop.TwinRootsRefuse` | ac/auth-center-server/src/main/resources/static/eleTree.js:1013-1016 | of two equal roots neither can be dropped on the other, although neither is inside the other; a different label allows it |
| `DragDrop.RefusedIffInside` | ac/auth-center-server/src/main/resources/static/eleTree.js:1013-1027 | with distinct keys only the node itself and what is inside it is refused |
| `DragDrop.LowerFull` | ac/auth-center-server/src/main/resources/static/eleTree.js:1077-1081 | lowering every floor by one difference turns the rendering at one depth into the rendering at the other |
| `DragDrop.DropRendered` | ac/auth-center-server/src/main/resources/static/eleTree.js:1064-1081 | moving the rendered nodes and adjusting floors gives the complete rendering of the moved data: floor = depth again for every node |
| `DragDrop.DropMovesOneSubtree` | ac/auth-center-server/src/main/resources/static/eleTree.js:1049-1061 | the nodes are conserved as a multiset, the subtree is the last child of the target, its other children keep their order, and without the subtree the tree is as it was |
| `DataEdit.Callback` | ac/auth-center-server/src/main/resources/static/eleTree.js:733-736 | at the matching position the list is spliced, before the match for an insertion before it and after it for one after it, and position and bound are set so that the walk continues after both |
| `DataEdit.SearchToOpera` | ac/auth-center-server/src/main/resources/static/eleTree.js:674-694 | the walk that edits its own list terminates and equals the recursive edit of every topmost match; inserted nodes are not visited |
| `DataEdit.EditedAround` | ac/auth-center-server/src/main/resources/static/eleTree.js:733-829 | item by item: a match is gone, directly behind or directly in front of the new item, or has got it as last child or got the given children; the items before and after keep their order; any other item has only its children edited |
| `DataEdit.EditedLength` | ac/auth-center-server/src/main/resources/static/eleTree.js:674-694 | a list changes its length by one per match of its own, up for an insertion beside it, down for a removal, else not at all |
| `DataEdit.EditedList` | ac/auth-center-server/src/main/resources/static/eleTree.js:674-694 | every list that is not below a match is found at its moved path, edited in its own right, under the same ancestors |
| `DataEdit.MatchNeighbours` | ac/auth-center-server/src/main/resources/static/eleTree.js:733-829 | wherever in the tree a topmost match stands, the new node is its direct neighbour on the right side, or its last child, and its siblings keep their order |
| `DataEdit.RemovePrunes` | ac/auth-center-server/src/main/resources/static/eleTree.js:733-736 | removal leaves exactly the nodes with no such key on their path, in document order and with their ancestors |
| `DataEdit.RemoveAbsent` | ac/auth-center-server/src/main/resources/static/eleTree.js:733-736 | afterwards the key occurs nowhere; if it did not occur before, nothing changed |
| `DataEdit.RemoveUndoesInsert` | ac/auth-center-server/src/main/resources/static/eleTree.js:808-811 | removing the key of an inserted node restores the tree, for insertions before, after and as a child |
| `DataEdit.InsertAddsOncePerMatch` | ac/auth-center-server/src/main/resources/static/eleTree.js:826-829 | an insertion adds the new node once per topmost match and conserves all other nodes |
| `Gregorian.YearStep` | ac/auth-center-server/src/main/resources/static/layui/lay/modules/laydate.js:1839-1848 | consecutive years differ by 365 or 366 days according to the leap rule (section 21.4.1 of ECMA-262) |
| `Gregorian.DayOrder` | ac/auth-center-server/src/main/resources/static/layui/lay/modules/laydate.js:1839-1848 | day numbers order valid dates as the calendar does, and no two share one |
| `Gregorian.DateOf` | ac/auth-center-server/src/main/resources/static/layui/lay/modules/laydate.js:1839-1848 | every day number has a valid date with that number |
| `Gregorian.LastOfMonth` | ac/auth-center-server/src/main/resources/static/layui/lay/modules/laydate.js:1846-1847 | the day before the first of the next month is the last day of this month, month lengths included |
| `Gregorian.KnownDays` | ac/auth-center-server/src/main/resources/static/layui/lay/modules/laydate.js:1839-1848 | day 0 is Thursday 1 January 1970; 29 February 2000 is a Tuesday, 1900 has no such day |
| `Calendar.EndDateIsMonthLength` | ac/auth-center-server/src/main/resources/static/layui/lay/modules/laydate.js:1839-1848 | the computed end date is the true length of the month; month or year 0 stand for the current one |
| `Calendar.GetAsYMInverse` | ac/auth-center-server/src/main/resources/static/layui/lay/modules/laydate.js:809-820 | stepping back and forward are inverse, and each moves the first of the month by exactly one month length |
| `Calendar.Cells` | ac/auth-center-server/src/main/resources/static/layui/lay/modules/laydate.js:1019-1053 | the 42 cells are consecutive valid days that fall on the weekday of their column; each day of the month appears exactly once |
| `Calendar.PreviousLength` | ac/auth-center-server/src/main/resources/static/layui/lay/modules/laydate.js:1019-1026 | the leading days of a January page are counted with the December of the same year, which has the right length |
| `Calendar.Picker.constructor` | ac/auth-center-server/src/main/resources/static/layui/lay/modules/laydate.js:848-858 | the picker holds the given date and the current day |
| `Calendar.Picker.CheckValid` | ac/auth-center-server/src/main/resources/static/layui/lay/modules/laydate.js:848-858 | the clamps, each reading the fields as the ones before left them |
| `Calendar.Picker.ClampPage` | ac/auth-center-server/src/main/resources/static/layui/lay/modules/laydate.js:1011-1012 | drawing a page clamps the year and nothing else |
| `Calendar.Picker.Change` | ac/auth-center-server/src/main/resources/static/layui/lay/modules/laydate.js:1683-1714 | a step leads to the neighbouring year or month with the day cut to the length of the month, and ends in range |
| `Calendar.SteppedInRange` | ac/auth-center-server/src/main/resources/static/layui/lay/modules/laydate.js:1683-1714 | one step keeps year, month and date within their limits, whatever the clamps do |
| `Calendar.StepMeans` | ac/auth-center-server/src/main/resources/static/layui/lay/modules/laydate.js:1683-1714 | field by field: one year on or back unless at the end of the years, the neighbouring month, the day kept or cut to the last of a shorter month, the time untouched |
| `Calendar.RunInRange` | ac/auth-center-server/src/main/resources/static/layui/lay/modules/laydate.js:1683-1714 | so does every run of steps, and the time of day never changes |
| `Calendar.NextMonthGoesForward` | ac/auth-center-server/src/main/resources/static/layui/lay/modules/laydate.js:1011-1012 | a step to the next month really moves one month ahead if and only if the page does not show the last month of the highest year; from there the year clamp leads back to January |
| `Calendar.PrevMonthGoesBack` | ac/auth-center-server/src/main/resources/static/layui/lay/modules/laydate.js:1011-1012 | a step to the previous month really moves one month back if and only if the page does not show the first month of the lowest year |
| `Calendar.EndsWrapAround` | ac/auth-center-server/src/main/resources/static/layui/lay/modules/laydate.js:1011-1012 | from December 200000 the next month is January 200000, from January 100 the previous month is December 100 |
| `Calendar.CheckedDate` | ac/auth-center-server/src/main/resources/static/layui/lay/modules/laydate.js:848-858 | after the clamps the day exists in its month, whatever day and month were asked for |
| `Calendar.CheckedMeans` | ac/auth-center-server/src/main/resources/static/layui/lay/modules/laydate.js:848-858 | field by field: highest year, last month, last day of the month for more; 0 for a time part that is too large, with one carried into the next larger part |
| `Calendar.CheckedTimeIff` | ac/auth-center-server/src/main/resources/static/layui/lay/modules/laydate.js:851-853 | the clamped time of day is a time if and only if no carry runs into a full hour or minute |
| `Calendar.CheckedTwiceIff` | ac/auth-center-server/src/main/resources/static/layui/lay/modules/laydate.js:851-853 | two passes of the clamps leave a time if and only if it is not the last minute of the day with too many seconds |
| `RangePick.JsOrder` | ac/auth-center-server/src/main/resources/static/layui/lay/modules/laydate.js:1394-1404 | the date constructor orders two clicked days as the calendar does if and only if the shift of years below 100 does no harm |
| `RangePick.LowestPageOutOfOrder` | ac/auth-center-server/src/main/resources/static/layui/lay/modules/laydate.js:1394-1404 | the page of January 100 shows 31 December 99; the date constructor puts it after 1 January 100 |
| `RangePick.RangePicker.constructor` | ac/auth-center-server/src/main/resources/static/layui/lay/modules/laydate.js:905-908 | nothing is chosen at first |
| `RangePick.RangePicker.Reopen` | ac/auth-center-server/src/main/resources/static/layui/lay/modules/laydate.js:905-939 | reopening drops a pending start; a refused text keeps both ends and times, an accepted one replaces the ends and merges the time parts it holds, and no text clears all |
| `RangePick.RangePicker.SetDateTime` | ac/auth-center-server/src/main/resources/static/layui/lay/modules/laydate.js:1491-1504 | the first click sets the start day and keeps the time of day it had |
| `RangePick.RangePicker.Done` | ac/auth-center-server/src/main/resources/static/layui/lay/modules/laydate.js:1463-1478 | each end takes over its own chosen time parts |
| `RangePick.ExtendWins` | ac/auth-center-server/src/main/resources/static/layui/lay/modules/laydate.js:1467-1468 | part by part the chosen time wins over the time of the end, which only fills its gaps |
| `RangePick.RangePicker.SwapIfBackwards` | ac/auth-center-server/src/main/resources/static/layui/lay/modules/laydate.js:1540-1552 | the days change places and the times stay; start <= end if and only if the shift of years below 100 does no harm |
| `RangePick.RangePicker.Choose` | ac/auth-center-server/src/main/resources/static/layui/lay/modules/laydate.js:1483-1563 | a completing click leaves exactly the two chosen days as ends, each with its own time of day, in order under the exact condition of the date constructor; any other click begins a range and keeps the times; both fix the chosen times; a disabled day changes nothing at all |
| `RangePick.ChooseAll` | ac/auth-center-server/src/main/resources/static/layui/lay/modules/laydate.js:1483-1563 | over any run of clicks from any state, an even number of enabled days (with a start that was waiting) has completed the range of the last two of them, in order under the exact condition; the times are those the run began with, overlaid by the chosen ones, except that from the second range on the end has the chosen end time alone |
| `RangePick.EndTimeKeptIff` | ac/auth-center-server/src/main/resources/static/layui/lay/modules/laydate.js:1527-1537 | every range completed in a run has the end time of the first one if and only if the chosen end time has all the parts of the time the first one found |
| `RangePick.EndTimeLost` | ac/auth-center-server/src/main/resources/static/layui/lay/modules/laydate.js:1527-1537 | with a value in a format without times the first range chosen ends at midnight and the second has no time of day at its end |
| `RangePick.ChooseOutOfOrder` | ac/auth-center-server/src/main/resources/static/layui/lay/modules/laydate.js:1483-1563 | choosing these two days one after the other ends with the start after the end, both at midnight |
| `Decimals.ValueOfDecimal` | ac/auth-center-server/src/main/resources/static/layui/lay/modules/laydate.js:1360-1391 | the numeral of a number reads back as the number |
| `Decimals.DigitsInOrder` | ac/auth-center-server/src/main/resources/static/layui/lay/modules/laydate.js:200-208 | the ten digits are worth their place after 0 |
| `Decimals.PadRoundTrip` | ac/auth-center-server/src/main/resources/static/layui/lay/modules/laydate.js:200-208 | so does the numeral filled up with zeros |
| `Decimals.DecimalLength` | ac/auth-center-server/src/main/resources/static/layui/lay/modules/laydate.js:200-208 | a numeral has at most k digits exactly when the number is below 10^k |
| `DateFormat.Parse` | ac/auth-center-server/src/main/resources/static/layui/lay/modules/laydate.js:1360-1391 | the text is the pieces of the format items joined in order: padded or plain fields, literals as they are |
| `DateFormat.FirstItemSpelled` | ac/auth-center-server/src/main/resources/static/layui/lay/modules/laydate.js:461-462 | the first piece of a format is spelled at its front; a one-letter token or a literal is taken only where no wider token stands |
| `DateFormat.ItemsSpell` | ac/auth-center-server/src/main/resources/static/layui/lay/modules/laydate.js:461-462 | the pieces of a format spell the format again |
| `DateFormat.ItemsOfSpelled` | ac/auth-center-server/src/main/resources/static/layui/lay/modules/laydate.js:461-462 | wide tokens and characters that begin no token are taken apart as they were spelled |
| `DateFormat.PieceMeans` | ac/auth-center-server/src/main/resources/static/layui/lay/modules/laydate.js:1370-1384 | a printed field is worth the field, months counted from 1, and as long as its numeral or its token |
| `DateFormat.GroupLengths` | ac/auth-center-server/src/main/resources/static/layui/lay/modules/laydate.js:474-480 | a token behind another one takes its own width, any other from one digit up to two, four or 308 |
| `DatePattern.MatchSound` | ac/auth-center-server/src/main/resources/static/layui/lay/modules/laydate.js:464-487 | the groups of a match spell the whole text and each is of its own kind |
| `DatePattern.MatchIsSplit` | ac/auth-center-server/src/main/resources/static/layui/lay/modules/laydate.js:464-487 | on a pattern whose touching groups all but the first have a fixed length, and that is every generated one, backtracking finds exactly what one pass over the text finds |
| `DatePattern.MatchJoined` | ac/auth-center-server/src/main/resources/static/layui/lay/modules/laydate.js:464-487 | a text put together from pieces gives back exactly these pieces as groups if and only if every piece has an allowed length |
| `DatePattern.MatchAccepts` | ac/auth-center-server/src/main/resources/static/layui/lay/modules/laydate.js:464-487 | it is accepted if and only if in every row of touching groups the digits that the fixed groups leave fit the first |
| `DateFormat.NormalizeKeeps` | ac/auth-center-server/src/main/resources/static/layui/lay/modules/laydate.js:899-902 | the clean-up of white space leaves printed text alone |
| `DateFormat.NormalizeCleans` | ac/auth-center-server/src/main/resources/static/layui/lay/modules/laydate.js:899-902 | after the clean-up white space is single blanks, and none at either end |
| `DateFormat.CollapseBlanks` | ac/auth-center-server/src/main/resources/static/layui/lay/modules/laydate.js:901-901 | any run of white space becomes one blank |
| `DateFormat.MatchNeedsPlainBlanks` | ac/auth-center-server/src/main/resources/static/layui/lay/modules/laydate.js:899-902 | whatever the format and the text, a cleaned text can only match when the white space of the format is single inner blanks |
| `DateFormat.PieceFits` | ac/auth-center-server/src/main/resources/static/layui/lay/modules/laydate.js:474-480 | when touching tokens are wide and the year fits, every printed piece has a length its group allows |
| `DateFormat.PatternRegular` | ac/auth-center-server/src/main/resources/static/layui/lay/modules/laydate.js:474-480 | in the generated pattern every token behind another token has a fixed length |
| `DateFormat.AcceptedExactly` | ac/auth-center-server/src/main/resources/static/layui/lay/modules/laydate.js:464-487 | any format without letters or digits between its tokens, any date: the printed text is accepted if and only if the white space of the format is single inner blanks and its rows of tokens fit |
| `DateFormat.ReadBackIff` | ac/auth-center-server/src/main/resources/static/layui/lay/modules/laydate.js:464-487 | for the same formats and dates the groups are the printed fields if and only if the white space is single inner blanks and every printed piece has an allowed length |
| `DateFormat.NarrowMisread` | ac/auth-center-server/src/main/resources/static/layui/lay/modules/laydate.js:474-480 | in the format -Md the text of 23 January is accepted and read as 3 December |
| `DateFormat.WideRow` | ac/auth-center-server/src/main/resources/static/layui/lay/modules/laydate.js:474-480 | a row of wide tokens fits when the year fits, and does not when it holds a year above 9999 |
| `DateFormat.PrintedIsMatched` | ac/auth-center-server/src/main/resources/static/layui/lay/modules/laydate.js:464-487 | text printed in a readable format is accepted and its groups are the printed pieces |
| `DateFormat.AcceptedIff` | ac/auth-center-server/src/main/resources/static/layui/lay/modules/laydate.js:464-487 | in a format that writes touching tokens in full width, with no letters or digits between tokens, the printed text is accepted if and only if no four-digit year is above 9999 and the white space is single inner blanks |
| `DateFormat.LongYearRefused` | ac/auth-center-server/src/main/resources/static/layui/lay/modules/laydate.js:474-480 | the year 10000 printed as yyyy is refused |
| `DateFormat.WideBlankRefused` | ac/auth-center-server/src/main/resources/static/layui/lay/modules/laydate.js:899-902 | with an ideographic space between year and month the printed text of every date is refused |
| `DateFormat.InitDate` | ac/auth-center-server/src/main/resources/static/layui/lay/modules/laydate.js:861-895 | every matched group is read into its field in order, then the clamps are applied |
| `DateFormat.AssignMeans` | ac/auth-center-server/src/main/resources/static/layui/lay/modules/laydate.js:868-891 | the number read goes into its field, months counted from 0, and a number that is too small becomes the least value |
| `DateFormat.MatchedValues` | ac/auth-center-server/src/main/resources/static/layui/lay/modules/laydate.js:861-895 | the groups of any accepted text are readable as numbers where a number is expected |
| `DateFormat.ReadPrinted` | ac/auth-center-server/src/main/resources/static/layui/lay/modules/laydate.js:861-895 | reading the pieces printed for a date overlays its printed fields on the base and keeps the others |
| `DateFormat.RoundTrip` | ac/auth-center-server/src/main/resources/static/layui/lay/modules/laydate.js:848-895 | every printed field comes back unchanged if and only if a printed date exists in the month read |
| `DateFormat.CheckDate` | ac/auth-center-server/src/main/resources/static/layui/lay/modules/laydate.js:910-941 | a text that matches is read, any other is refused and leaves the base with the clamps applied, and a blank one selects the current date |
| `DateFormat.RefusedRead` | ac/auth-center-server/src/main/resources/static/layui/lay/modules/laydate.js:910-941 | a refused text leaves a valid date as it was, a blank one brings the current date |
| `DateFormat.ShortTyped` | ac/auth-center-server/src/main/resources/static/layui/lay/modules/laydate.js:464-487 | in the format yyyy-MM-dd the text 2020-1-5 is accepted and read as 5 January 2020 |
| `DateFormat.ReadTimeIff` | ac/auth-center-server/src/main/resources/static/layui/lay/modules/laydate.js:851-853 | an accepted text gives a time of day if and only if it does not say 23:59 and more than 59 seconds |
| `DateFormat.CarryPassesMidnight` | ac/auth-center-server/src/main/resources/static/layui/lay/modules/laydate.js:851-853 | the text 23:59:60 in the format HH:mm:ss becomes 24:00:00 |
| `DateFormat.ShowThenRead` | ac/auth-center-server/src/main/resources/static/layui/lay/modules/laydate.js:861-941 | showing a date and reading the shown text back gives its printed fields over the base, with the day cut to the month |
| `Md5Words.SafeAddIsPlus` | ac/auth-center-server/src/main/resources/static/js/xadmin.js:344-348 | adding 16-bit halves with a sign-propagating carry is addition modulo 2^32 (section 2 of RFC 1321) |
| `Md5Words.BitRotateLeftIsRotate` | ac/auth-center-server/src/main/resources/static/js/xadmin.js:353-355 | two shifts and an or are the circular shift by s positions |
| `Md5Words.OrByteFills` | ac/auth-center-server/src/main/resources/static/js/xadmin.js:501-503 | or-ing a shifted byte into a word fills exactly that byte when it was still zero |
| `Md5Words.PackLowBytes` | ac/auth-center-server/src/main/resources/static/js/xadmin.js:483-485 | the four bytes read out of a word pack to that word |
| `Md5Words.LowBytesPack` | ac/auth-center-server/src/main/resources/static/js/xadmin.js:483-503 | four packed bytes are read out again unchanged |
| `Md5Words.PackInPlace` | ac/auth-center-server/src/main/resources/static/js/xadmin.js:501-503 | each byte of a packed word is in its place, low-order byte first |
| `Md5Words.LowByteInPlace` | ac/auth-center-server/src/main/resources/static/js/xadmin.js:483-485 | the bytes read out of a word are its bits in place |
| `Md5Words.DigitsWorth` | ac/auth-center-server/src/main/resources/static/js/xadmin.js:382-382 | the digits of a number in base 256 are worth the number |
| `Md5Words.ToWordWorth` | ac/auth-center-server/src/main/resources/static/js/xadmin.js:382-382 | the word written for a 32-bit length has four bytes that are worth the length |
| `Md5Words.PlusIs` | ac/auth-center-server/src/main/resources/static/js/xadmin.js:344-348 | the sum that everything is compared with is the addition of words |
| `Md5Words.RotateOneMoves` | ac/auth-center-server/src/main/resources/static/js/xadmin.js:353-355 | turning by one moves the other bits up and brings the highest in as the lowest |
| `Md5Words.XorUndone` | ac/auth-center-server/src/main/resources/static/js/xadmin.js:525-528 | exclusive or undoes itself, on words and on bytes |
| `Md5Words.XorPack` | ac/auth-center-server/src/main/resources/static/js/xadmin.js:525-528 | combining words with exclusive or combines their bytes |
| `Md5Spec.ZeroCountLeast` | ac/auth-center-server/src/main/resources/static/js/xadmin.js:381-382 | the padding is the shortest one that leaves eight bytes of the last block free (section 3.1 of RFC 1321) |
| `Md5Spec.LengthWorth` | ac/auth-center-server/src/main/resources/static/js/xadmin.js:382-382 | the eight length bytes are worth the length in bits (section 3.2 of RFC 1321) |
| `Md5Spec.AuxChooses` | ac/auth-center-server/src/main/resources/static/js/xadmin.js:363-374 | F and G choose between two words bit by bit, H is the parity, I turns over (section 3.4 of RFC 1321) |
| `Md5Spec.HmacOfSection2` | ac/auth-center-server/src/main/resources/static/js/xadmin.js:517-533 | a long key counts as its hash; a short one is filled up, and inner and outer pad are combined with it byte by byte (section 2 of RFC 2104) |
| `Md5Known.HashOfAbc` | ac/auth-center-server/src/main/resources/static/js/xadmin.js:510-512 | MD5 of "abc" is the value that section A.5 of RFC 1321 lists |
| `Md5Rounds.OpIsAux` | ac/auth-center-server/src/main/resources/static/js/xadmin.js:360-374 | each of the four line functions is a + the round function + word + constant, rotated, plus b |
| `Md5Rounds.LineIsStep` | ac/auth-center-server/src/main/resources/static/js/xadmin.js:400-466 | one line of the unrolled rounds is one table-driven step of section 3.4 of RFC 1321 |
| `Md5Rounds.FourLines` | ac/auth-center-server/src/main/resources/static/js/xadmin.js:400-466 | four lines are four steps and bring the registers back to their roles |
| `Md5Rounds.FirstRoundTables` | ac/auth-center-server/src/main/resources/static/js/xadmin.js:400-415 | word order, shift amounts and the signed constants of lines 1 to 16 are those of the tables of RFC 1321 |
| `Md5Rounds.SecondRoundTables` | ac/auth-center-server/src/main/resources/static/js/xadmin.js:417-432 | the same for lines 17 to 32 |
| `Md5Rounds.ThirdRoundTables` | ac/auth-center-server/src/main/resources/static/js/xadmin.js:434-449 | the same for lines 33 to 48 |
| `Md5Rounds.FourthRoundTables` | ac/auth-center-server/src/main/resources/static/js/xadmin.js:451-466 | the same for lines 49 to 64 |
| `Md5Rounds.FirstHalf` | ac/auth-center-server/src/main/resources/static/js/xadmin.js:400-407 | eight unrolled lines take the registers from step 0 to step 8 |
| `Md5Rounds.SecondHalf` | ac/auth-center-server/src/main/resources/static/js/xadmin.js:408-415 | from step 8 to step 16 |
| `Md5Rounds.FirstRound` | ac/auth-center-server/src/main/resources/static/js/xadmin.js:400-415 | sixteen unrolled lines take the registers from step 0 to step 16 |
| `Md5Rounds.SecondRound` | ac/auth-center-server/src/main/resources/static/js/xadmin.js:417-432 | from step 16 to step 32 |
| `Md5Rounds.ThirdRound` | ac/auth-center-server/src/main/resources/static/js/xadmin.js:434-449 | from step 32 to step 48 |
| `Md5Rounds.FourthRound` | ac/auth-center-server/src/main/resources/static/js/xadmin.js:451-466 | from step 48 to step 64 |
| `Md5Hash.PaddedLength` | ac/auth-center-server/src/main/resources/static/js/xadmin.js:381-382 | the block count is the one the code computes, and mark and length have room |
| `Md5Hash.AtPadInPlace` | ac/auth-center-server/src/main/resources/static/js/xadmin.js:381-382 | the two assignments go to different slots and every other slot keeps its value |
| `Md5Hash.PadInPlacePads` | ac/auth-center-server/src/main/resources/static/js/xadmin.js:381-382 | with missing slots counted as zero the padded array is the padded message of sections 3.1 and 3.2 of RFC 1321 |
| `Md5Hash.HashBlock` | ac/auth-center-server/src/main/resources/static/js/xadmin.js:394-471 | one turn of the loop is the compression of one block |
| `Md5Hash.BinlMd5` | ac/auth-center-server/src/main/resources/static/js/xadmin.js:379-474 | the loop over the blocks computes the hash words of RFC 1321 |
| `Md5Hash.PackByte` | ac/auth-center-server/src/main/resources/static/js/xadmin.js:501-503 | one turn of the packing loop adds one byte to the words |
| `Md5Hash.Rstr2Binl` | ac/auth-center-server/src/main/resources/static/js/xadmin.js:493-505 | the array has exactly the words of the string, the last filled up with zeros, and no slot more |
| `Md5Hash.Binl2Rstr` | ac/auth-center-server/src/main/resources/static/js/xadmin.js:479-487 | four bytes per slot, low-order byte first |
| `Md5Hash.BytesHeld` | ac/auth-center-server/src/main/resources/static/js/xadmin.js:479-505 | packing the unpacked words gives the words back |
| `Md5Hash.PackUnpack` | ac/auth-center-server/src/main/resources/static/js/xadmin.js:479-505 | unpacking a packed string gives the string filled up with zeros to a whole word |
| `Md5Hash.RstrMd5` | ac/auth-center-server/src/main/resources/static/js/xadmin.js:510-512 | the string function is MD5 of RFC 1321 |
| `Md5Hash.HoldsConcat` | ac/auth-center-server/src/main/resources/static/js/xadmin.js:529-532 | packing distributes over concatenation at a word boundary |
| `Md5Hash.KeyWords` | ac/auth-center-server/src/main/resources/static/js/xadmin.js:517-524 | the key words, hashed first for a long key, are those of the block key of section 2 of RFC 2104 |
| `Md5Hash.PadKey` | ac/auth-center-server/src/main/resources/static/js/xadmin.js:525-528 | the two arrays are the key xored with the inner and the outer pad |
| `Md5Hash.RstrHmacMd5` | ac/auth-center-server/src/main/resources/static/js/xadmin.js:517-533 | the function on word arrays is HMAC-MD5 of section 2 of RFC 2104 for every key |
| `Color.RgbToHsb` | ac/auth-center-server/src/main/resources/static/layui/lay/modules/colorpicker.js:50-78 | the successive assignments compute hue, saturation and brightness of the closed form |
| `Color.HsbToRgb` | ac/auth-center-server/src/main/resources/static/layui/lay/modules/colorpicker.js:93-114 | the six hue sectors, each channel rounded |
| `Color.HueSector` | ac/auth-center-server/src/main/resources/static/layui/lay/modules/colorpicker.js:58-75 | the hue decides sector and fraction, and from them smallest, largest and middle channel are the colour |
| `Color.SectorAt` | ac/auth-center-server/src/main/resources/static/layui/lay/modules/colorpicker.js:97-112 | seen from a sector and a fraction the branches give the two outer values and the middle one in the right channels |
| `Color.OuterValues` | ac/auth-center-server/src/main/resources/static/layui/lay/modules/colorpicker.js:95-101 | saturation and brightness lead back to the largest and the smallest channel |
| `Color.HsbInverts` | ac/auth-center-server/src/main/resources/static/layui/lay/modules/colorpicker.js:50-114 | for all real channels in range the conversion back is exact, with hue in [0, 360) and the others in [0, 100] |
| `Color.RoundTrip` | ac/auth-center-server/src/main/resources/static/layui/lay/modules/colorpicker.js:50-114 | for whole channels the final rounding is the identity |
| `Color.RoundNearest` | ac/auth-center-server/src/main/resources/static/layui/lay/modules/colorpicker.js:113-113 | every channel is rounded to the nearest whole number, the larger one half way |
| `Color.Greys` | ac/auth-center-server/src/main/resources/static/layui/lay/modules/colorpicker.js:65-70 | a grey has hue 0 and saturation 0 |
| `Color.FullColours` | ac/auth-center-server/src/main/resources/static/layui/lay/modules/colorpicker.js:57-75 | red, yellow, green, cyan, blue and magenta have the hues 0 to 300 in steps of 60 |
| `Color.OtherHues` | ac/auth-center-server/src/main/resources/static/layui/lay/modules/colorpicker.js:98-112 | a full turn is no turn, beyond it a colour is black, and without saturation the hue does not count |
| `Color.HexToHsb` | ac/auth-center-server/src/main/resources/static/layui/lay/modules/colorpicker.js:81-90 | an optional hash sign is dropped, a short colour has its digits doubled, and the bytes are converted |
| `Color.DigitsWorth` | ac/auth-center-server/src/main/resources/static/layui/lay/modules/colorpicker.js:87-88 | each of the sixteen digits, in either case, has its value |
| `Color.ChannelsOfText` | ac/auth-center-server/src/main/resources/static/layui/lay/modules/colorpicker.js:83-88 | 102aF3 is (16, 42, 243), and 1aF is (17, 170, 255) |
| `Color.HsbToHex` | ac/auth-center-server/src/main/resources/static/layui/lay/modules/colorpicker.js:117-130 | three channels with two hexadecimal digits each |
| `Color.HexRoundTrip` | ac/auth-center-server/src/main/resources/static/layui/lay/modules/colorpicker.js:81-130 | text to colour to text gives the six digits, character by character the digit that was given with A to F in lower case, doubled for a short colour |
| `Color.LowerDigitOf` | ac/auth-center-server/src/main/resources/static/layui/lay/modules/colorpicker.js:119-121 | the digit written for the value of a digit is that digit in lower case |
| `Color.ThereAndBack` | ac/auth-center-server/src/main/resources/static/layui/lay/modules/colorpicker.js:81-130 | both conversions called one after the other, with or without a hash sign, give these characters |
| `TreeIds.PrefixIff` | ac/auth-center-server/src/main/resources/static/formSelects-v4.js:911-911 | one tree-id is a string prefix of another if and only if its path is a prefix: the end mark keeps 1 and 10 apart |
| `TreeIds.TreeIdOf` | ac/auth-center-server/src/main/resources/static/formSelects-v4.js:569-571 | the eleventh child of the second root has the id 1_E-10_E |
| `TreeIds.ItemRows` | ac/auth-center-server/src/main/resources/static/formSelects-v4.js:561-585 | one turn of the loop gives the row of an option followed by those below it |
| `TreeIds.GetChildrenList` | ac/auth-center-server/src/main/resources/static/formSelects-v4.js:561-585 | the loop with its running offset gives the rows of the marked preorder |
| `TreeIds.RowsInPreorder` | ac/auth-center-server/src/main/resources/static/formSelects-v4.js:561-585 | the rows list all options, optgroups included, in preorder |
| `TreeIds.RowsAreOptions` | ac/auth-center-server/src/main/resources/static/formSelects-v4.js:561-585 | each row belongs to the option at its path, is a folder exactly when that has children, and is disabled exactly when that option or one above it was; optgroups have no path |
| `TreeIds.PathsDistinct` | ac/auth-center-server/src/main/resources/static/formSelects-v4.js:569-571 | no two rows that are not optgroups share a path |
| `TreeIds.PathsInOrder` | ac/auth-center-server/src/main/resources/static/formSelects-v4.js:561-585 | the rows of options come in the order of their paths, an option directly before what lies below it |
| `TreeIds.IdsTellAncestors` | ac/auth-center-server/src/main/resources/static/formSelects-v4.js:630-632 | among the rows of a tree prefix means same or ancestor, and equal ids mean the same row |
| `Linkage.ReadList` | ac/auth-center-server/src/main/resources/static/formSelects-v4.js:484-509 | the items of a list go into the column with their parent value, their children into the next map |
| `Linkage.Column` | ac/auth-center-server/src/main/resources/static/formSelects-v4.js:484-509 | one turn reads every list of the map once, in any order of its keys |
| `Linkage.NextHolds` | ac/auth-center-server/src/main/resources/static/formSelects-v4.js:484-509 | if the values of the parents on a level differ, the next map holds exactly the next level |
| `Linkage.NextMisses` | ac/auth-center-server/src/main/resources/static/formSelects-v4.js:484-509 | if two of them agree, the next map holds fewer nodes than the next level has |
| `Linkage.AssignedSize` | ac/auth-center-server/src/main/resources/static/formSelects-v4.js:484-509 | the map keeps all children if and only if no two parents with children share a value |
| `Linkage.ShownFields` | ac/auth-center-server/src/main/resources/static/formSelects-v4.js:495-500 | a column shows parent value, name and value of each entry |
| `Linkage.LevelMeans` | ac/auth-center-server/src/main/resources/static/formSelects-v4.js:484-509 | the first level has the roots under "0", every other one the children of the level above under their parent value |
| `Linkage.DistinctParentsMeans` | ac/auth-center-server/src/main/resources/static/formSelects-v4.js:503-506 | the condition on a level says that no two entries with children share a value |
| `Linkage.NextIsLower` | ac/auth-center-server/src/main/resources/static/formSelects-v4.js:484-509 | each map is lower than the one before, so the do-while loop ends |
| `Linkage.RenderLinkage` | ac/auth-center-server/src/main/resources/static/formSelects-v4.js:484-509 | there is one column per level, and the columns hold exactly the nodes of their levels, each once with the value of its parent, if and only if on no level of the data two parents with children share a value |
| `Linkage.DistinctToTheEnd` | ac/auth-center-server/src/main/resources/static/formSelects-v4.js:484-509 | an empty level ends the tree, so the condition need only be checked on the levels before it |
| `Linkage.RepeatedValueLoses` | ac/auth-center-server/src/main/resources/static/formSelects-v4.js:484-509 | of two roots with one value and a child each, only the second child reaches the next column |
| `Selection.IndexOf` | ac/auth-center-server/src/main/resources/static/formSelects-v4.js:1298-1305 | the first position of the value, or -1 if and only if it does not occur |
| `Selection.RemoveTakesOut` | ac/auth-center-server/src/main/resources/static/formSelects-v4.js:1307-1314 | removal takes out one value and keeps the rest |
| `Selection.Select.constructor` | ac/auth-center-server/src/main/resources/static/formSelects-v4.js:1101-1154 | nothing is selected at first |
| `Selection.Select.HandlerLabel` | ac/auth-center-server/src/main/resources/static/formSelects-v4.js:1101-1154 | a refused change has no effect; otherwise value list and mark change together, and a radio drops its old value |
| `Selection.Select.Click` | ac/auth-center-server/src/main/resources/static/formSelects-v4.js:887-889 | a click on a disabled option does nothing, on any other it toggles the mark |
| `Selection.Select.SelectAll` | ac/auth-center-server/src/main/resources/static/formSelects-v4.js:1316-1329 | exactly the options that were unmarked at the start, without disabled ones if asked, are tried in order |
| `Selection.Select.RemoveAll` | ac/auth-center-server/src/main/resources/static/formSelects-v4.js:1348-1354 | the values of a copy of the list are taken away, without disabled ones if asked |
| `Selection.Select.Reverse` | ac/auth-center-server/src/main/resources/static/formSelects-v4.js:1357-1370 | every option, or every enabled one, is toggled by its mark at its turn |
| `Selection.HandledKeeps` | ac/auth-center-server/src/main/resources/static/formSelects-v4.js:1101-1170 | one change keeps marks and values in agreement, without repetition, a radio at one value, never grows past the limit, and touches no other value |
| `Selection.HandledMeans` | ac/auth-center-server/src/main/resources/static/formSelects-v4.js:1101-1170 | a change is refused exactly by a full list or by the hook, which is asked with the list as it is; an addition goes to the end, in a radio to the empty list, and marks the option |
| `Selection.ClickMeans` | ac/auth-center-server/src/main/resources/static/formSelects-v4.js:887-889 | a click does nothing on a disabled option, and otherwise adds or takes away by the mark, asking the hook |
| `Selection.HandledAllKeeps` | ac/auth-center-server/src/main/resources/static/formSelects-v4.js:1316-1370 | so does every bulk operation, and the list never gets longer than the limit or than it was |
| `Selection.RunKeeps` | ac/auth-center-server/src/main/resources/static/formSelects-v4.js:1101-1370 | so does every run of clicks and bulk operations, from any consistent state: no growth past the limit |
| `Selection.ToggleFlips` | ac/auth-center-server/src/main/resources/static/formSelects-v4.js:1357-1370 | without limit, radio and veto a reversal flips exactly the given options |
| `Selection.ReverseTwice` | ac/auth-center-server/src/main/resources/static/formSelects-v4.js:1357-1370 | two reversals restore the selection, and skipped disabled options never change |
| `Selection.SelectAllFills` | ac/auth-center-server/src/main/resources/static/formSelects-v4.js:1316-1329 | with a limit, selecting all appends the first options in order until the limit is reached |
| `Selection.SelectAllMeans` | ac/auth-center-server/src/main/resources/static/formSelects-v4.js:1316-1329 | the old list stays in front; only unselected options come behind it, none passed over for a later one, and all of them unless the limit is reached |
| `Selection.FilterKeepsOrder` | ac/auth-center-server/src/main/resources/static/formSelects-v4.js:1325-1325 | options are tried in the order of the menu |
| `Selection.TakeRemoves` | ac/auth-center-server/src/main/resources/static/formSelects-v4.js:1348-1354 | removing a list of values leaves exactly the others |
| `Selection.RemoveAllMeans` | ac/auth-center-server/src/main/resources/static/formSelects-v4.js:1348-1354 | exactly the disabled options are kept, and only when they are to be skipped |
| `Selection.ReverseMeans` | ac/auth-center-server/src/main/resources/static/formSelects-v4.js:1357-1370 | exactly the options of the menu, or the enabled ones, are turned over |
| `BitsAllocator.MaxOf` | base/uid-generator/src/main/java/com/gapache/uid/BitsAllocator.java:64-67 | the largest value of a field, computed by shifting -1 and complementing, is 2^k - 1 |
| `BitsAllocator.InRangeIff` | base/uid-generator/src/main/java/com/gapache/uid/BitsAllocator.java:50-76 | fields are within the stored limits if and only if they fit their widths |
| `BitsAllocator.OrIsSum` | base/uid-generator/src/main/java/com/gapache/uid/BitsAllocator.java:87-89 | or-ing a number into bits left free by a shift adds it |
| `BitsAllocator.AllocateIsSum` | base/uid-generator/src/main/java/com/gapache/uid/BitsAllocator.java:87-89 | an id is the positional value of its fields and never negative |
| `BitsAllocator.FieldsRecovered` | base/uid-generator/src/main/java/com/gapache/uid/BitsAllocator.java:87-89 | all three fields come back from the id by shifting right and masking, so no two triples share one |
| `BitsAllocator.ParseRecovers` | base/uid-generator/src/main/java/com/gapache/uid/impl/DefaultUidGenerator.java:98-109 | for widths that add up to 63, with a bit each for worker and sequence, parsing gives back the fields of every id |
| `BitsAllocator.ParseRecoversIff` | base/uid-generator/src/main/java/com/gapache/uid/impl/DefaultUidGenerator.java:98-109 | for every allocator that passes the check on its widths, as ints add: parsing gives back all fields of all ids if and only if the widths modulo 64 add up to 63 and leave worker and sequence a bit each |
| `BitsAllocator.Misparsed` | base/uid-generator/src/main/java/com/gapache/uid/impl/DefaultUidGenerator.java:98-109 | a remark on the formula: with no bits for worker or sequence, which the setters do not let through, the id 1 would be parsed wrongly |
| `BitsAllocator.ResidueSums` | base/uid-generator/src/main/java/com/gapache/uid/BitsAllocator.java:50-58 | widths that pass the check leave 63 or 127 modulo 64, because the ints may overflow |
| `BitsAllocator.Overlap` | base/uid-generator/src/main/java/com/gapache/uid/impl/DefaultUidGenerator.java:98-109 | with 127 the fields overlap and some id is parsed wrongly |
| `BitsAllocator.OverflowAccepted` | base/uid-generator/src/main/java/com/gapache/uid/BitsAllocator.java:50-58 | the widths 2147483647, 2147483647 and 65 pass the check, and their ids are not parsed back |
| `BitsAllocator.UidGenerator.constructor` | base/uid-generator/src/main/java/com/gapache/uid/impl/DefaultUidGenerator.java:54-57 | the widths are 28, 22 and 13 unless they are set |
| `BitsAllocator.UidGenerator.SetTimeBits` | base/uid-generator/src/main/java/com/gapache/uid/impl/DefaultUidGenerator.java:182-186 | a width that is not positive is ignored |
| `BitsAllocator.UidGenerator.SetWorkerBits` | base/uid-generator/src/main/java/com/gapache/uid/impl/DefaultUidGenerator.java:188-192 | a width that is not positive is ignored |
| `BitsAllocator.UidGenerator.SetSeqBits` | base/uid-generator/src/main/java/com/gapache/uid/impl/DefaultUidGenerator.java:194-198 | a width that is not positive is ignored |
| `BitsAllocator.UidGenerator.AfterPropertiesSet` | base/uid-generator/src/main/java/com/gapache/uid/impl/DefaultUidGenerator.java:74-77 | every accepted configuration with widths below 64 parses all its ids back; for all accepted ones the exact condition |
| `BitsAllocator.Configured` | base/uid-generator/src/main/java/com/gapache/uid/impl/DefaultUidGenerator.java:182-198 | each width that is given and positive is taken, the others are 28, 22 and 13; the generator parses its ids back whenever the widths are below 64 and accepted |
| `BitsAllocator.AllocateOrder` | base/uid-generator/src/main/java/com/gapache/uid/BitsAllocator.java:87-89 | ids are ordered by seconds, then worker, then sequence |

## Left out

- Md5Hash.BinlMd5: messages of 2^31 bits and more are left out, because the slot index `len >> 5` is then negative; the array of the caller is taken by value, so that it is also padded for the caller is not captured.
- Md5Hash.RstrMd5: the same bound on the length.
- Md5Hash.RstrHmacMd5: the same bound, on the key and on the inner message.
- Md5Spec.Sine: the 64 constants are those printed in RFC 1321; that they are the leading bits of sines is not proved.
- CheckTree.CheckTree.SelectParents: the ancestor that the code finds by its floor number is taken to be the parent, which RenderTree.ParentByFloor proves of completely rendered trees.
- CheckRuns.RunsStayConsistent: speaks of trees that are completely rendered and outside strict mode; children that are rendered later are not part of this model.
- RenderTree.Rendering.ExpandAll: what a node shows besides key and label (marks, box state, open or closed) is one text carried with the item; how it changes in use is modelled for the boxes alone.
- CheckTree.NodesOf: when several nodes carry one key only the first is selected; a document with repeated keys would select from all of them, so keys are meant to be distinct.
- DragDrop.Widget.Drop: the refresh of the boxes that ends a drop is CheckTree.CheckTree.Refresh on the new table, not part of this method, and the triangles of the emptied and the filled group are not redrawn; data are values, so that dragged data and tree data are the same objects is not captured; the veto of the drag event is left out.
- DataEdit.SearchToOpera: the list is a value that is returned instead of an array edited in place; the rendered tree that the same operations also edit is left out.
- DateFormat.AcceptedExactly: literals that are letters or digits are left out, because a pattern reads some of them as escapes.
- DateFormat.CheckDate: the range form and the error flag set by the clamps are left out; the text is the one in effect after an empty input fell back to the configured value.
- BitsAllocator.AllocateIsSum: speaks of widths that really add up to 63; so do FieldsRecovered and AllocateOrder.
- BitsAllocator.UidGenerator.AfterPropertiesSet: asking for the worker id and refusing one that is too large is left out.
- RangePick.RangePicker.Reopen: takes what an accepted text gives for the two ends as a parameter; reading a text is modelled for a single date (DateFormat.CheckDate).
- Calendar.Picker.Change: stepping while a list of years or months is open is left out.
- RangePick.RangePicker.Choose: the marks on the cells and limits of the picker enter only as whether the clicked day is disabled.
- Color.HsbInverts: is about exact real numbers, not about floating point.
- Color.HexToHsb: text that is not three or six hexadecimal digits is left out.
- Selection.Select.Click: the veto of the caller is a pure function of what it is given.
- Selection.Select.RemoveAll: the branch for linked menus is left out.
- eleTree: lazy loading, un-checking by key, search, the right-click menu and all rendering.
- laydate: time lists, marks, holidays, limits of dates, Date and daylight saving.
- xadmin: hexadecimal output, UTF-8 encoding and menus: easy members or browser plumbing.
- formSelects: ids of options that are loaded later, search, linked selection and the document itself.
- The id generator around the bit packing (ring buffer, worker assignment), and the Spring, Redis, RocketMQ and gateway services: configuration and calls into libraries.
