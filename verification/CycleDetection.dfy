/** The three-colour depth-first search that looks for cycles among the declared dependencies. */
module CycleDetection {
  import opened Graphs
  import opened Sequences

  datatype Color = White | Gray | Black

  function ColorOf(colors: map<Id, Color>, x: Id): Color {
    if x in colors then colors[x] else White
  }

  /** A cycle without a repeated id. */
  predicate SimpleCycle(g: Deps, c: seq<Id>) {
    Cycle(g, c) && Distinct(c)
  }

  /** The back edges the cycles were found by: from the last id of each to its first. */
  ghost function BackEdges(cycles: seq<seq<Id>>): set<(Id, Id)> {
    set i | 0 <= i < |cycles| && |cycles[i]| > 0 :: (Last(cycles[i]), cycles[i][0])
  }

  /** The reports that were found by back edge `e`. */
  ghost function ReportsOf(cycles: seq<seq<Id>>, e: (Id, Id)): set<nat> {
    set k: nat | k < |cycles| && |cycles[k]| > 0 && Last(cycles[k]) == e.0 && cycles[k][0] == e.1
  }

  /** The names are those the ids were registered under; "unknown" is never used. */
  predicate NamedBy(typeNames: map<Id, string>, ids: seq<Id>, names: seq<string>) {
    && |names| == |ids|
    && forall k :: 0 <= k < |ids| ==> ids[k] in typeNames && names[k] == typeNames[ids[k]]
  }

  function NamesOf(ids: seq<Id>, typeNames: map<Id, string>): (r: seq<string>)
    ensures |r| == |ids|
    ensures forall i :: 0 <= i < |ids| ==>
              r[i] == if ids[i] in typeNames then typeNames[ids[i]] else "unknown"
  {
    seq(|ids|, i requires 0 <= i < |ids| => if ids[i] in typeNames then typeNames[ids[i]] else "unknown")
  }

  /** Everything one run of the search knows, with the stack split into ids and next child indices. */
  datatype Search = Search(
    colors: map<Id, Color>,
    stack: seq<(Id, nat)>,
    path: seq<Id>,
    cut: set<(Id, Id)>,
    finish: map<Id, nat>)

  /** Stack and path hold the same ids, gray means on the path, black means finished. */
  ghost predicate Colored(s: Search) {
    && |s.stack| == |s.path|
    && (forall i :: 0 <= i < |s.path| ==> s.stack[i].0 == s.path[i])
    && Distinct(s.path)
    && (forall x :: ColorOf(s.colors, x) == Gray <==> x in s.path)
    && (forall x :: ColorOf(s.colors, x) == Black <==> x in s.finish)
  }

  /** Child `c` of `path[i]` is reported, finished, or the next id on the path. */
  ghost predicate Handled(s: Search, i: nat, c: Id)
    requires i < |s.path|
  {
    || (s.path[i], c) in s.cut
    || c in s.finish
    || (i + 1 < |s.path| && c == s.path[i + 1])
  }

  /** Before its resume index, entry `i` has no child left to deal with; its last one is next on the path. */
  ghost predicate EntryOk(g: Deps, s: Search, i: nat)
    requires i < |s.path| == |s.stack|
  {
    var deps := DepsOf(g, s.path[i]);
    && s.stack[i].1 <= |deps|
    && (i + 1 < |s.path| ==> 0 < s.stack[i].1 && deps[s.stack[i].1 - 1] == s.path[i + 1])
    && forall j :: 0 <= j < s.stack[i].1 ==> Handled(s, i, deps[j])
  }

  ghost predicate OnTrack(g: Deps, s: Search) {
    && |s.stack| == |s.path|
    && forall i :: 0 <= i < |s.path| ==> EntryOk(g, s, i)
  }

  /** Finish numbers are a numbering of the finished ids that every unreported edge descends. */
  ghost predicate Numbered(g: Deps, cut: set<(Id, Id)>, finish: map<Id, nat>) {
    && (forall x :: x in finish ==> finish[x] < |finish|)
    && (forall x, y :: x in finish && y in finish && x != y ==> finish[x] != finish[y])
    && (forall u, v :: u in finish && Edge(g, u, v) && (u, v) !in cut ==>
          v in finish && finish[v] < finish[u])
  }

  /** A reported edge leads to an id that finishes no earlier: for now, to one lower on the path. */
  ghost predicate EdgeAscends(path: seq<Id>, finish: map<Id, nat>, e: (Id, Id)) {
    if e.0 in finish then e.1 in finish ==> finish[e.0] <= finish[e.1]
    else e.1 !in finish && exists i, j :: 0 <= i <= j < |path| && path[i] == e.1 && path[j] == e.0
  }

  ghost predicate Ascends(s: Search) {
    forall e :: e in s.cut ==> EdgeAscends(s.path, s.finish, e)
  }

  ghost predicate Inv(g: Deps, s: Search) {
    Colored(s) && OnTrack(g, s) && Numbered(g, s.cut, s.finish) && Ascends(s)
  }

  // ---- the steps of the search --------------------------------------------------------------

  /** Visit a white id: colour it gray and push it. */
  function Push(s: Search, x: Id): Search {
    s.(colors := s.colors[x := Gray], path := s.path + [x], stack := s.stack + [(x, 0)])
  }

  /** Finish the top of the stack: colour it black and pop it. */
  function Pop(s: Search): Search
    requires |s.path| == |s.stack| > 0
  {
    s.(colors := s.colors[Last(s.stack).0 := Black],
       path := s.path[..|s.path| - 1], stack := s.stack[..|s.stack| - 1],
       finish := s.finish[Last(s.stack).0 := |s.finish|])
  }

  /** Move the top of the stack past its next child. */
  function Advance(s: Search): Search
    requires |s.stack| > 0
  {
    s.(stack := s.stack[|s.stack| - 1 := (Last(s.stack).0, Last(s.stack).1 + 1)])
  }

  function NextChild(g: Deps, s: Search): Id
    requires |s.stack| == |s.path| > 0 && Last(s.stack).1 < |DepsOf(g, Last(s.path))|
  {
    DepsOf(g, Last(s.path))[Last(s.stack).1]
  }

  /** An entry stays in order while the search below it learns more. */
  lemma EntryKept(g: Deps, s: Search, t: Search, i: nat)
    requires i < |s.path| == |s.stack| && i < |t.path| == |t.stack|
    requires EntryOk(g, s, i) && s.path[i] == t.path[i] && s.stack[i] == t.stack[i]
    requires s.cut <= t.cut && s.finish.Keys <= t.finish.Keys
    requires i + 1 < |s.path| ==> if i + 1 < |t.path| then t.path[i + 1] == s.path[i + 1] else s.path[i + 1] in t.finish
    requires i + 1 < |t.path| ==> i + 1 < |s.path|
    ensures EntryOk(g, t, i)
  {
    var deps := DepsOf(g, s.path[i]);
    forall j | 0 <= j < t.stack[i].1 ensures Handled(t, i, deps[j]) {
      assert Handled(s, i, deps[j]);
    }
  }

  /** The top entry stays in order when its next child has been dealt with too. */
  lemma EntryMoved(g: Deps, s: Search, t: Search)
    requires |s.path| == |s.stack| > 0 && Last(s.stack).1 < |DepsOf(g, Last(s.path))|
    requires EntryOk(g, s, |s.path| - 1)
    requires |s.path| <= |t.path| == |t.stack| && t.path[|s.path| - 1] == Last(s.path)
    requires t.stack[|s.path| - 1].1 == Last(s.stack).1 + 1
    requires s.cut <= t.cut && s.finish.Keys <= t.finish.Keys
    requires Handled(t, |s.path| - 1, NextChild(g, s))
    requires |s.path| < |t.path| ==> t.path[|s.path|] == NextChild(g, s)
    ensures EntryOk(g, t, |s.path| - 1)
  {
    var n := |s.path| - 1;
    var deps := DepsOf(g, s.path[n]);
    forall j | 0 <= j < t.stack[n].1 ensures Handled(t, n, deps[j]) {
      if j < s.stack[n].1 {
        assert Handled(s, n, deps[j]);
      }
    }
  }

  lemma ColorsAfterPush(s: Search, x: Id)
    requires Colored(s) && ColorOf(s.colors, x) == White
    ensures Colored(Push(s, x)) && x !in s.path && x !in s.finish
  {
    var t := Push(s, x);
    assert ColorOf(s.colors, x) != Gray && ColorOf(s.colors, x) != Black;
    forall y
      ensures ColorOf(t.colors, y) == Gray <==> y in t.path
      ensures ColorOf(t.colors, y) == Black <==> y in t.finish
    {
      assert ColorOf(t.colors, y) == if y == x then Gray else ColorOf(s.colors, y);
      assert y in t.path <==> y in s.path || y == x;
    }
  }

  lemma ColorsAfterPop(s: Search)
    requires Colored(s) && |s.path| > 0
    ensures Colored(Pop(s)) && Last(s.path) !in s.finish
    ensures forall x :: x in s.path <==> x in Pop(s).path || x == Last(s.path)
  {
    var t, n := Pop(s), |s.path| - 1;
    assert s.path == t.path + [s.path[n]];
    assert ColorOf(s.colors, s.path[n]) == Gray;
    forall y
      ensures ColorOf(t.colors, y) == Gray <==> y in t.path
      ensures ColorOf(t.colors, y) == Black <==> y in t.finish
    {
      assert ColorOf(t.colors, y) == if y == s.path[n] then Black else ColorOf(s.colors, y);
    }
  }

  lemma PushRoot(g: Deps, s: Search, root: Id)
    requires Inv(g, s) && s.path == [] && ColorOf(s.colors, root) == White
    ensures Inv(g, Search(s.colors[root := Gray], [(root, 0)], [root], s.cut, s.finish)) && root !in s.finish
  {
    ColorsAfterPush(s, root);
    assert Push(s, root) == Search(s.colors[root := Gray], [(root, 0)], [root], s.cut, s.finish);
  }

  lemma AscendsAfterPush(s: Search, x: Id)
    requires Ascends(s) && |s.stack| > 0
    ensures Ascends(Push(Advance(s), x))
  {
    var path := s.path + [x];
    forall e | e in s.cut ensures EdgeAscends(path, s.finish, e) {
      assert EdgeAscends(s.path, s.finish, e);
      if e.0 !in s.finish {
        var i, j :| 0 <= i <= j < |s.path| && s.path[i] == e.1 && s.path[j] == e.0;
        assert path[i] == e.1 && path[j] == e.0;
      }
    }
  }

  lemma PushChildOnTrack(g: Deps, s: Search)
    requires OnTrack(g, s) && |s.path| > 0 && Last(s.stack).1 < |DepsOf(g, Last(s.path))|
    ensures OnTrack(g, Push(Advance(s), NextChild(g, s)))
  {
    var t, n := Push(Advance(s), NextChild(g, s)), |s.path| - 1;
    EntryMoved(g, s, t);
    forall i | 0 <= i < n ensures EntryOk(g, t, i) {
      EntryKept(g, s, t, i);
    }
    assert EntryOk(g, t, n + 1);
  }

  /** The next child is white: it joins the path. */
  lemma PushChild(g: Deps, s: Search)
    requires Inv(g, s) && |s.path| > 0 && Last(s.stack).1 < |DepsOf(g, Last(s.path))|
    requires ColorOf(s.colors, NextChild(g, s)) == White
    ensures Inv(g, Push(Advance(s), NextChild(g, s)))
    ensures NextChild(g, s) !in s.path && NextChild(g, s) !in s.finish
  {
    ColorsAfterPush(Advance(s), NextChild(g, s));
    PushChildOnTrack(g, s);
    AscendsAfterPush(s, NextChild(g, s));
  }

  lemma EdgeAfterPop(path: seq<Id>, finish: map<Id, nat>, e: (Id, Id))
    requires |path| > 0 && Distinct(path) && EdgeAscends(path, finish, e)
    requires Last(path) !in finish && forall x :: x in finish ==> finish[x] < |finish|
    ensures EdgeAscends(path[..|path| - 1], finish[Last(path) := |finish|], e)
  {
    var rest := path[..|path| - 1];
    if e.0 !in finish {
      var i, j :| 0 <= i <= j < |path| && path[i] == e.1 && path[j] == e.0;
      if j < |rest| {
        assert rest[i] == e.1 && rest[j] == e.0;
      }
    }
  }

  lemma PathIsUnfinished(s: Search)
    requires Colored(s)
    ensures forall x :: x in s.path ==> x !in s.finish
  {
    forall x | x in s.path ensures x !in s.finish {
      assert ColorOf(s.colors, x) == Gray;
    }
  }

  /** The top finishes before everything below it on the path. */
  lemma AscendsAfterPop(g: Deps, s: Search)
    requires Colored(s) && |s.path| > 0 && Ascends(s) && Numbered(g, s.cut, s.finish)
    ensures Ascends(Pop(s))
  {
    PathIsUnfinished(s);
    assert Last(s.stack).0 == Last(s.path) && Distinct(s.path);
    assert forall x :: x in s.finish ==> s.finish[x] < |s.finish|;
    hide Colored, Numbered;
    forall e | e in s.cut ensures EdgeAscends(Pop(s).path, Pop(s).finish, e) {
      EdgeAfterPop(s.path, s.finish, e);
    }
  }

  lemma AscendsAfterReport(s: Search, cut: set<(Id, Id)>, x: Id)
    requires |s.path| > 0 && Ascends(s) && forall y :: y in s.path ==> y !in s.finish
    requires forall e :: e in cut ==> e in s.cut || (e == (Last(s.path), x) && x in s.path)
    ensures Ascends(s.(cut := cut))
  {
    forall e | e in cut && e !in s.cut ensures EdgeAscends(s.path, s.finish, e) {
      assert s.path[|s.path| - 1] == e.0;
    }
  }

  /** The next child is finished or its edge is reported: the top moves on. */
  lemma SkipChild(g: Deps, s: Search, cut: set<(Id, Id)>)
    requires Inv(g, s) && |s.path| > 0 && Last(s.stack).1 < |DepsOf(g, Last(s.path))|
    requires s.cut <= cut
    requires NextChild(g, s) in s.finish || (Last(s.path), NextChild(g, s)) in cut
    requires forall e :: e in cut ==> e in s.cut || (e == (Last(s.path), NextChild(g, s)) && NextChild(g, s) in s.path)
    ensures Inv(g, Advance(s).(cut := cut))
  {
    var t := Advance(s).(cut := cut);
    var n := |s.path| - 1;
    PathIsUnfinished(s);
    AscendsAfterReport(s, cut, NextChild(g, s));
    EntryMoved(g, s, t);
    forall i | 0 <= i < n ensures EntryOk(g, t, i) {
      EntryKept(g, s, t, i);
    }
  }

  /** The next child is gray: the path from it to the top closes into a simple cycle. */
  lemma GrayClosesCycle(g: Deps, s: Search, start: nat)
    requires Inv(g, s) && |s.path| > 0 && Last(s.stack).1 < |DepsOf(g, Last(s.path))|
    requires start < |s.path| && s.path[start] == NextChild(g, s)
    ensures SimpleCycle(g, s.path[start..]) && Last(s.path[start..]) == Last(s.path)
  {
    var c := s.path[start..];
    forall i | 0 <= i < |c| - 1 ensures Edge(g, c[i], c[i + 1]) {
      assert EntryOk(g, s, start + i);
    }
  }

  lemma TopIsDone(g: Deps, s: Search)
    requires OnTrack(g, s) && |s.path| > 0 && Last(s.stack).1 >= |DepsOf(g, Last(s.path))|
    ensures forall v :: Edge(g, Last(s.path), v) && (Last(s.path), v) !in s.cut ==> v in s.finish
    ensures Last(s.stack).1 == |DepsOf(g, Last(s.path))|
  {
    var u, n := Last(s.path), |s.path| - 1;
    assert EntryOk(g, s, n);
    forall v | Edge(g, u, v) && (u, v) !in s.cut ensures v in s.finish {
      var j :| 0 <= j < |DepsOf(g, u)| && DepsOf(g, u)[j] == v;
      assert Handled(s, n, DepsOf(g, u)[j]);
    }
  }

  /** Giving the next number to an id whose unreported children are numbered keeps the numbering. */
  lemma FinishNext(g: Deps, cut: set<(Id, Id)>, finish: map<Id, nat>, u: Id)
    requires Numbered(g, cut, finish) && u !in finish
    requires forall v :: Edge(g, u, v) && (u, v) !in cut ==> v in finish
    ensures Numbered(g, cut, finish[u := |finish|])
  {
    var next := finish[u := |finish|];
    assert next.Keys == finish.Keys + {u};
    assert |next| == |finish| + 1;
  }

  /** All children are dealt with: the top finishes after every child not reported. */
  lemma PopTop(g: Deps, s: Search)
    requires Inv(g, s) && |s.path| > 0 && Last(s.stack).1 >= |DepsOf(g, Last(s.path))|
    ensures Inv(g, Pop(s)) && Last(s.path) !in s.finish
    ensures Last(s.stack).0 == Last(s.path) && Last(s.stack).1 == |DepsOf(g, Last(s.path))|
    ensures forall x :: x in s.path <==> x in Pop(s).path || x == Last(s.path)
  {
    var t, n := Pop(s), |s.path| - 1;
    var u := s.path[n];
    ColorsAfterPop(s);
    TopIsDone(g, s);
    FinishNext(g, s.cut, s.finish, u);
    AscendsAfterPop(g, s);
    forall i | 0 <= i < n ensures EntryOk(g, t, i) {
      EntryKept(g, s, t, i);
    }
  }

  // The same steps in terms of the variables of the loop, with `(x, i)` on top of the stack.

  lemma TopIsGray(g: Deps, s: Search, x: Id, i: nat)
    requires Inv(g, s) && |s.stack| > 0 && Last(s.stack).0 == x && Last(s.stack).1 == i
    ensures x == Last(s.path) && |s.path| == |s.stack| && i <= |DepsOf(g, x)| && x !in s.finish
  {
    assert EntryOk(g, s, |s.path| - 1);
    assert ColorOf(s.colors, x) == Gray;
  }

  lemma StepBack(g: Deps, s: Search, x: Id, i: nat)
    requires Inv(g, s) && |s.stack| > 0 && Last(s.stack).0 == x && Last(s.stack).1 == i && i == |DepsOf(g, x)|
    ensures Inv(g, Search(s.colors[x := Black], s.stack[..|s.stack| - 1], s.path[..|s.path| - 1], s.cut,
                          s.finish[x := |s.finish|]))
    ensures forall y :: y in s.path <==> y in s.path[..|s.path| - 1] || y == x
  {
    TopIsGray(g, s, x, i);
    PopTop(g, s);
    assert s.path == s.path[..|s.path| - 1] + [x];
  }

  lemma StepInto(g: Deps, s: Search, x: Id, i: nat, dep: Id)
    requires Inv(g, s) && |s.stack| > 0 && Last(s.stack).0 == x && Last(s.stack).1 == i
    requires i < |DepsOf(g, x)| && dep == DepsOf(g, x)[i] && ColorOf(s.colors, dep) == White
    ensures Inv(g, Search(s.colors[dep := Gray], s.stack[|s.stack| - 1 := (x, i + 1)] + [(dep, 0)],
                          s.path + [dep], s.cut, s.finish))
    ensures dep !in s.path && dep !in s.finish
  {
    hide Inv;
    TopIsGray(g, s, x, i);
    PushChild(g, s);
  }

  lemma StepOver(g: Deps, s: Search, x: Id, i: nat, dep: Id)
    requires Inv(g, s) && |s.stack| > 0 && Last(s.stack).0 == x && Last(s.stack).1 == i
    requires i < |DepsOf(g, x)| && dep == DepsOf(g, x)[i] && ColorOf(s.colors, dep) == Black
    ensures Inv(g, Search(s.colors, s.stack[|s.stack| - 1 := (x, i + 1)], s.path, s.cut, s.finish))
  {
    TopIsGray(g, s, x, i);
    assert dep in s.finish;
    hide Inv;
    SkipChild(g, s, s.cut);
  }

  lemma AdvanceReported(s: Search, x: Id, i: nat, dep: Id)
    requires |s.stack| > 0 && Last(s.stack).0 == x && Last(s.stack).1 == i
    ensures Advance(s).(cut := s.cut + {(x, dep)}) ==
            Search(s.colors, s.stack[|s.stack| - 1 := (x, i + 1)], s.path, s.cut + {(x, dep)}, s.finish)
  {
  }

  lemma StepReport(g: Deps, s: Search, x: Id, i: nat, dep: Id)
    requires Inv(g, s) && |s.stack| > 0 && Last(s.stack).0 == x && Last(s.stack).1 == i
    requires i < |DepsOf(g, x)| && dep == DepsOf(g, x)[i] && ColorOf(s.colors, dep) == Gray
    ensures Inv(g, Search(s.colors, s.stack[|s.stack| - 1 := (x, i + 1)], s.path, s.cut + {(x, dep)}, s.finish))
    ensures dep in s.path
  {
    TopIsGray(g, s, x, i);
    assert dep in s.path;
    hide *;
    SkipChild(g, s, s.cut + {(x, dep)});
    AdvanceReported(s, x, i, dep);
  }

  // ---- what a finished search proves ---------------------------------------------------------

  /** Each back edge was reported once for every time it is listed, so once if no list repeats an id. */
  ghost predicate OncePerOccurrence(g: Deps, cycles: seq<seq<Id>>) {
    forall e :: e in BackEdges(cycles) ==> |ReportsOf(cycles, e)| == multiset(DepsOf(g, e.0))[e.1]
  }

  /** `num` numbers exactly the ids of `g`; the edges that do not descend it are exactly the cut ones. */
  ghost predicate TopologicalUpTo(g: Deps, cut: set<(Id, Id)>, num: map<Id, nat>) {
    && num.Keys == Nodes(g)
    && (forall x :: x in num ==> num[x] < |num|)
    && (forall x, y :: x in num && y in num && x != y ==> num[x] != num[y])
    && Descends(g, cut, num)
    && (forall e :: e in cut ==> e.0 in num && e.1 in num && num[e.0] <= num[e.1])
  }

  /** Reported cycles are cycles; a search that reports none leaves a topological numbering. */
  lemma NoReportIffAcyclic(g: Deps, cycles: seq<seq<Id>>, num: map<Id, nat>)
    requires forall i :: 0 <= i < |cycles| ==> SimpleCycle(g, cycles[i])
    requires TopologicalUpTo(g, BackEdges(cycles), num)
    ensures cycles == [] <==> Acyclic(g)
    ensures Acyclic(Without(g, BackEdges(cycles)))
  {
    DescendsIsAcyclic(g, BackEdges(cycles), num);
    if cycles == [] {
      var h := Without(g, {});
      assert BackEdges(cycles) == {};
      assert forall u, v :: Edge(g, u, v) ==> Edge(h, u, v);
      forall p: seq<Id> ensures !Cycle(g, p) {
        assert Walk(g, p) ==> Walk(h, p);
        assert !Cycle(h, p);
      }
    } else {
      assert Cycle(g, cycles[0]);
    }
  }

  // ---- counting ----------------------------------------------------------------------------------

  /** Sum of the resume indices on the stack. */
  ghost function Pending(stack: seq<(Id, nat)>): nat {
    if stack == [] then 0 else Pending(stack[..|stack| - 1]) + Last(stack).1
  }

  lemma PendingPush(stack: seq<(Id, nat)>, x: Id)
    ensures Pending(stack + [(x, 0)]) == Pending(stack)
  {
    assert (stack + [(x, 0)])[..|stack|] == stack;
  }

  ghost function Left(g: Deps, entry: (Id, nat)): nat {
    1 + if entry.1 <= |DepsOf(g, entry.0)| then |DepsOf(g, entry.0)| - entry.1 else 0
  }

  /** Child positions on the stack not examined yet, and one for leaving each entry. */
  ghost function Unexamined(g: Deps, stack: seq<(Id, nat)>): nat {
    if stack == [] then 0
    else Unexamined(g, stack[..|stack| - 1]) + Left(g, Last(stack))
  }

  lemma AdvanceOne(g: Deps, stack: seq<(Id, nat)>, x: Id, i: nat)
    requires |stack| > 0 && Last(stack).0 == x && Last(stack).1 == i && i < |DepsOf(g, x)|
    ensures var next := stack[|stack| - 1 := (x, i + 1)];
            && Pending(next) == Pending(stack) + 1
            && Unexamined(g, next) < Unexamined(g, stack)
  {
    var next := stack[|stack| - 1 := (x, i + 1)];
    assert next[..|stack| - 1] == stack[..|stack| - 1];
  }

  lemma FinishOne(g: Deps, finish: map<Id, nat>, stack: seq<(Id, nat)>, x: Id)
    requires x !in finish && |stack| > 0 && Last(stack).0 == x && Last(stack).1 == |DepsOf(g, x)|
    ensures var next := finish[x := |finish|];
            && next.Keys == finish.Keys + {x} && |next| == |finish| + 1
            && ListedBy(g, next.Keys) + Pending(stack[..|stack| - 1]) == ListedBy(g, finish.Keys) + Pending(stack)
    ensures Unexamined(g, stack[..|stack| - 1]) < Unexamined(g, stack)
  {
    ListedByAdd(g, finish.Keys, x);
    assert finish[x := |finish|].Keys == finish.Keys + {x};
  }

  // ---- the reports -------------------------------------------------------------------------------

  /** The reports so far: simple cycles among the ids seen, by name in `errors`, by back edge in `cut`. */
  ghost predicate Reported(g: Deps, errors: seq<seq<string>>, cycles: seq<seq<Id>>, cut: set<(Id, Id)>,
                           typeNames: map<Id, string>, seen: set<Id>)
  {
    && |errors| == |cycles|
    && (forall i :: 0 <= i < |cycles| ==> SimpleCycle(g, cycles[i]) && NamedBy(typeNames, cycles[i], errors[i]))
    && cut == BackEdges(cycles)
    && (forall e :: e in cut ==> e.1 in seen)
  }

  lemma BackEdgesAppend(cycles: seq<seq<Id>>, c: seq<Id>)
    requires |c| > 0
    ensures BackEdges(cycles + [c]) == BackEdges(cycles) + {(Last(c), c[0])}
  {
    var more := cycles + [c];
    forall e ensures e in BackEdges(more) <==> e in BackEdges(cycles) || e == (Last(c), c[0]) {
      if e in BackEdges(cycles) {
        var i :| 0 <= i < |cycles| && |cycles[i]| > 0 && e == (Last(cycles[i]), cycles[i][0]);
        assert more[i] == cycles[i];
      }
      assert more[|cycles|] == c;
    }
  }

  /** The cycle found at `start` joins the reports. */
  lemma ReportOne(g: Deps, s: Search, errors: seq<seq<string>>, cycles: seq<seq<Id>>,
                  typeNames: map<Id, string>, seen: set<Id>, start: nat)
    requires Inv(g, s) && |s.stack| == |s.path| > 0 && Last(s.stack).0 == Last(s.path)
    requires Last(s.stack).1 < |DepsOf(g, Last(s.path))|
    requires start < |s.path| && s.path[start] == NextChild(g, s) && s.path[start] in seen
    requires Reported(g, errors, cycles, s.cut, typeNames, seen) && typeNames.Keys == g.Keys
    ensures Reported(g, errors + [NamesOf(s.path[start..], typeNames)], cycles + [s.path[start..]],
                     s.cut + {(Last(s.path), s.path[start])}, typeNames, seen)
  {
    var c := s.path[start..];
    GrayClosesCycle(g, s, start);
    hide Inv;
    forall k | 0 <= k < |c| ensures c[k] in typeNames {
      assert Edge(g, c[k], if k + 1 < |c| then c[k + 1] else c[0]);
    }
    BackEdgesAppend(cycles, c);
  }

  lemma SeeMore(g: Deps, errors: seq<seq<string>>, cycles: seq<seq<Id>>, cut: set<(Id, Id)>,
                typeNames: map<Id, string>, seen: set<Id>, more: set<Id>)
    requires Reported(g, errors, cycles, cut, typeNames, seen) && seen <= more
    ensures Reported(g, errors, cycles, cut, typeNames, more)
  {
  }

  // ---- one report for each listed occurrence --------------------------------------------------------

  /** How often the first `n` entries of the list of `u` name `v`. */
  ghost function Listed(g: Deps, u: Id, n: nat, v: Id): nat
    requires n <= |DepsOf(g, u)|
  {
    multiset(DepsOf(g, u)[..n])[v]
  }

  /** A reported edge out of `u` has a report for each of the first `n` entries of its list that name it. */
  ghost predicate CountedAt(g: Deps, cycles: seq<seq<Id>>, cut: set<(Id, Id)>, u: Id, n: nat) {
    n <= |DepsOf(g, u)| && forall v :: (u, v) in cut ==> |ReportsOf(cycles, (u, v))| == Listed(g, u, n, v)
  }

  /** The whole lists of finished ids are accounted for, and what was examined of the ids on the path. */
  ghost predicate Counted(g: Deps, cycles: seq<seq<Id>>, s: Search) {
    && |s.stack| == |s.path|
    && (forall u :: u in s.finish ==> CountedAt(g, cycles, s.cut, u, |DepsOf(g, u)|))
    && (forall i :: 0 <= i < |s.path| ==> CountedAt(g, cycles, s.cut, s.path[i], s.stack[i].1))
  }

  lemma ListedNext(g: Deps, u: Id, n: nat, v: Id)
    requires n < |DepsOf(g, u)|
    ensures Listed(g, u, n + 1, v) == Listed(g, u, n, v) + if DepsOf(g, u)[n] == v then 1 else 0
  {
    assert DepsOf(g, u)[..n + 1] == DepsOf(g, u)[..n] + [DepsOf(g, u)[n]];
  }

  lemma ListedNone(g: Deps, u: Id, n: nat, v: Id)
    requires n <= |DepsOf(g, u)| && forall j :: 0 <= j < n ==> DepsOf(g, u)[j] != v
    ensures Listed(g, u, n, v) == 0
  {
    assert v !in DepsOf(g, u)[..n];
  }

  lemma ReportsAppend(cycles: seq<seq<Id>>, c: seq<Id>, e: (Id, Id))
    requires |c| > 0
    ensures |ReportsOf(cycles + [c], e)| == |ReportsOf(cycles, e)| + if e == (Last(c), c[0]) then 1 else 0
  {
    var more := cycles + [c];
    assert more[|cycles|] == c;
    assert forall k: nat :: k < |cycles| ==> more[k] == cycles[k];
    if e == (Last(c), c[0]) {
      assert ReportsOf(more, e) == ReportsOf(cycles, e) + {|cycles|};
    } else {
      assert ReportsOf(more, e) == ReportsOf(cycles, e);
    }
  }

  lemma NoReports(cycles: seq<seq<Id>>, e: (Id, Id))
    ensures e !in BackEdges(cycles) ==> |ReportsOf(cycles, e)| == 0
  {
    if ReportsOf(cycles, e) != {} {
      var k :| k in ReportsOf(cycles, e);
      assert e == (Last(cycles[k]), cycles[k][0]);
    }
  }

  /** No reported edge leads out of an id not seen yet. */
  lemma UnseenIsNotCut(g: Deps, s: Search, e: (Id, Id))
    requires Inv(g, s) && e in s.cut
    ensures e.0 in s.path || e.0 in s.finish
  {
    assert EdgeAscends(s.path, s.finish, e);
  }

  /** An edge from the top of the stack to an id that is not on the path was not reported. */
  lemma TopEdgeIsNotCut(g: Deps, s: Search, dep: Id)
    requires Inv(g, s) && |s.path| > 0 && dep !in s.path
    ensures (Last(s.path), dep) !in s.cut
  {
    var e := (Last(s.path), dep);
    assert ColorOf(s.colors, Last(s.path)) == Gray;
    assert Last(s.path) !in s.finish;
    assert e in s.cut ==> EdgeAscends(s.path, s.finish, e);
  }

  lemma PathIsDistinct(g: Deps, s: Search, n: nat)
    requires Inv(g, s) && n < |s.path|
    ensures forall i :: 0 <= i < |s.path| && i != n ==> s.path[i] != s.path[n]
  {
  }

  lemma TopEntry(g: Deps, s: Search)
    requires Inv(g, s) && |s.path| > 0
    ensures |s.stack| == |s.path| && EntryOk(g, s, |s.path| - 1)
    ensures forall y :: y in s.path ==> y !in s.finish
  {
    assert forall y :: y in s.path ==> ColorOf(s.colors, y) == Gray;
  }

  /** An id on the path that the top has examined was reported. */
  lemma ExaminedIsCut(g: Deps, s: Search, x: Id, i: nat, dep: Id)
    requires Inv(g, s) && |s.stack| > 0 && Last(s.stack).0 == x && Last(s.stack).1 == i
    requires i <= |DepsOf(g, x)| && dep in s.path && (x, dep) !in s.cut
    ensures forall j :: 0 <= j < i ==> DepsOf(g, x)[j] != dep
  {
    TopIsGray(g, s, x, i);
    TopEntry(g, s);
    hide Inv, DepsOf;
    forall j | 0 <= j < i ensures DepsOf(g, x)[j] != dep {
      assert Handled(s, |s.path| - 1, DepsOf(g, x)[j]);
    }
  }

  /** No reported edge leads out of a new id on the path. */
  lemma CountedPush(g: Deps, cycles: seq<seq<Id>>, s: Search, t: Search, x: Id)
    requires Inv(g, s) && Counted(g, cycles, s) && x !in s.path && x !in s.finish
    requires t.path == s.path + [x] && t.stack == s.stack + [(x, 0)] && t.cut == s.cut && t.finish == s.finish
    ensures Counted(g, cycles, t)
  {
    forall e | e in s.cut ensures e.0 != x {
      UnseenIsNotCut(g, s, e);
    }
    assert CountedAt(g, cycles, s.cut, x, 0);
    hide Inv, CountedAt;
  }

  lemma CountedSkips(g: Deps, cycles: seq<seq<Id>>, cut: set<(Id, Id)>, x: Id, i: nat)
    requires CountedAt(g, cycles, cut, x, i) && i < |DepsOf(g, x)| && (x, DepsOf(g, x)[i]) !in cut
    ensures CountedAt(g, cycles, cut, x, i + 1)
  {
    hide Listed, ReportsOf;
    forall v | (x, v) in cut ensures Listed(g, x, i + 1, v) == Listed(g, x, i, v) {
      ListedNext(g, x, i, v);
    }
  }

  /** Only the top entry changes. */
  lemma CountedMove(g: Deps, cycles: seq<seq<Id>>, cycles': seq<seq<Id>>, s: Search, t: Search, x: Id)
    requires Counted(g, cycles, s) && |s.path| > 0 && s.path[|s.path| - 1] == x && x !in s.finish
    requires forall i :: 0 <= i < |s.path| - 1 ==> s.path[i] != x
    requires t.path == s.path && t.finish == s.finish && |t.stack| == |s.stack|
    requires forall i :: 0 <= i < |s.path| - 1 ==> t.stack[i] == s.stack[i]
    requires CountedAt(g, cycles', t.cut, x, t.stack[|t.stack| - 1].1)
    requires forall u, n :: u != x && CountedAt(g, cycles, s.cut, u, n) ==> CountedAt(g, cycles', t.cut, u, n)
    ensures Counted(g, cycles', t)
  {
    hide CountedAt, DepsOf;
    forall u | u in t.finish ensures CountedAt(g, cycles', t.cut, u, |DepsOf(g, u)|) {
      assert CountedAt(g, cycles, s.cut, u, |DepsOf(g, u)|);
    }
    forall i | 0 <= i < |t.path| ensures CountedAt(g, cycles', t.cut, t.path[i], t.stack[i].1) {
      assert CountedAt(g, cycles, s.cut, s.path[i], s.stack[i].1);
    }
  }

  lemma CountedOver(g: Deps, cycles: seq<seq<Id>>, s: Search, x: Id, i: nat)
    requires Inv(g, s) && Counted(g, cycles, s)
    requires |s.stack| > 0 && Last(s.stack).0 == x && Last(s.stack).1 == i && i < |DepsOf(g, x)|
    requires DepsOf(g, x)[i] !in s.path
    ensures Counted(g, cycles, Search(s.colors, s.stack[|s.stack| - 1 := (x, i + 1)], s.path, s.cut, s.finish))
  {
    TopEdgeIsNotCut(g, s, DepsOf(g, x)[i]);
    TopIsGray(g, s, x, i);
    PathIsDistinct(g, s, |s.path| - 1);
    hide Inv, CountedAt;
    assert CountedAt(g, cycles, s.cut, s.path[|s.path| - 1], i);
    CountedSkips(g, cycles, s.cut, x, i);
    CountedMove(g, cycles, cycles, s, Search(s.colors, s.stack[|s.stack| - 1 := (x, i + 1)], s.path, s.cut, s.finish), x);
  }

  lemma CountedInto(g: Deps, cycles: seq<seq<Id>>, s: Search, x: Id, i: nat)
    requires Inv(g, s) && Counted(g, cycles, s)
    requires |s.stack| > 0 && Last(s.stack).0 == x && Last(s.stack).1 == i && i < |DepsOf(g, x)|
    requires DepsOf(g, x)[i] !in s.path && DepsOf(g, x)[i] !in s.finish
    ensures Counted(g, cycles, Search(s.colors[DepsOf(g, x)[i] := Gray],
                                      s.stack[|s.stack| - 1 := (x, i + 1)] + [(DepsOf(g, x)[i], 0)],
                                      s.path + [DepsOf(g, x)[i]], s.cut, s.finish))
  {
    var dep := DepsOf(g, x)[i];
    CountedOver(g, cycles, s, x, i);
    forall e | e in s.cut ensures e.0 != dep {
      UnseenIsNotCut(g, s, e);
    }
    assert CountedAt(g, cycles, s.cut, dep, 0);
    hide Inv, CountedAt;
  }

  /** The reports about other ids are as they were. */
  lemma CountedElsewhere(g: Deps, cycles: seq<seq<Id>>, cut: set<(Id, Id)>, u: Id, n: nat, c: seq<Id>)
    requires CountedAt(g, cycles, cut, u, n) && |c| > 0 && Last(c) != u
    ensures CountedAt(g, cycles + [c], cut + {(Last(c), c[0])}, u, n)
  {
    hide Listed, ReportsOf;
    forall v ensures |ReportsOf(cycles + [c], (u, v))| == |ReportsOf(cycles, (u, v))| {
      ReportsAppend(cycles, c, (u, v));
    }
  }

  /** The report counts for the entry it was found at. */
  lemma CountedHere(g: Deps, cycles: seq<seq<Id>>, cut: set<(Id, Id)>, x: Id, i: nat, c: seq<Id>)
    requires CountedAt(g, cycles, cut, x, i) && i < |DepsOf(g, x)| && cut == BackEdges(cycles)
    requires |c| > 0 && Last(c) == x && c[0] == DepsOf(g, x)[i]
    requires (x, c[0]) !in cut ==> forall j :: 0 <= j < i ==> DepsOf(g, x)[j] != c[0]
    ensures CountedAt(g, cycles + [c], cut + {(x, c[0])}, x, i + 1)
  {
    if (x, c[0]) !in cut {
      ListedNone(g, x, i, c[0]);
      NoReports(cycles, (x, c[0]));
    }
    hide Listed, ReportsOf, BackEdges;
    forall v | (x, v) in cut + {(x, c[0])} ensures |ReportsOf(cycles + [c], (x, v))| == Listed(g, x, i + 1, v) {
      ReportsAppend(cycles, c, (x, v));
      ListedNext(g, x, i, v);
    }
  }

  lemma CountedReport(g: Deps, cycles: seq<seq<Id>>, s: Search, x: Id, i: nat, c: seq<Id>)
    requires Inv(g, s) && Counted(g, cycles, s) && s.cut == BackEdges(cycles)
    requires |s.stack| > 0 && Last(s.stack).0 == x && Last(s.stack).1 == i && i < |DepsOf(g, x)|
    requires |c| > 0 && Last(c) == x && c[0] == DepsOf(g, x)[i] && c[0] in s.path
    ensures Counted(g, cycles + [c], Search(s.colors, s.stack[|s.stack| - 1 := (x, i + 1)], s.path,
                                            s.cut + {(x, DepsOf(g, x)[i])}, s.finish))
  {
    TopIsGray(g, s, x, i);
    PathIsDistinct(g, s, |s.path| - 1);
    if (x, c[0]) !in s.cut {
      ExaminedIsCut(g, s, x, i, c[0]);
    }
    hide Inv, CountedAt, BackEdges;
    assert CountedAt(g, cycles, s.cut, s.path[|s.path| - 1], i);
    CountedHere(g, cycles, s.cut, x, i, c);
    forall u, n | CountedAt(g, cycles, s.cut, u, n) && u != x
      ensures CountedAt(g, cycles + [c], s.cut + {(x, c[0])}, u, n)
    {
      CountedElsewhere(g, cycles, s.cut, u, n, c);
    }
    CountedMove(g, cycles, cycles + [c], s,
                Search(s.colors, s.stack[|s.stack| - 1 := (x, i + 1)], s.path, s.cut + {(x, c[0])}, s.finish), x);
  }

  lemma CountedBack(g: Deps, cycles: seq<seq<Id>>, s: Search, t: Search, x: Id, i: nat)
    requires Inv(g, s) && Counted(g, cycles, s)
    requires |s.stack| > 0 && Last(s.stack).0 == x && Last(s.stack).1 == i && i >= |DepsOf(g, x)|
    requires |s.path| == |s.stack| && t.stack == s.stack[..|s.stack| - 1] && t.path == s.path[..|s.path| - 1]
    requires t.cut == s.cut && t.finish.Keys == s.finish.Keys + {x}
    ensures Counted(g, cycles, t)
  {
    TopIsGray(g, s, x, i);
    hide Inv, CountedAt;
    assert CountedAt(g, cycles, s.cut, s.path[|s.path| - 1], i);
  }

  // ---- the invariant of the inner loop -----------------------------------------------------------

  ghost function Seen(s: Search): set<Id> {
    s.finish.Keys + set x | x in s.path
  }

  lemma SeenAfterPush(s: Search, t: Search, x: Id)
    requires t.finish == s.finish && t.path == s.path + [x]
    ensures Seen(t) == Seen(s) + {x}
  {
  }

  lemma SeenAfterPop(s: Search, t: Search, x: Id)
    requires t.finish.Keys == s.finish.Keys + {x}
    requires forall y :: y in s.path <==> y in t.path || y == x
    ensures Seen(t) == Seen(s)
  {
  }

  /** The invariant of the inner loop. */
  ghost predicate Live(g: Deps, typeNames: map<Id, string>, errors: seq<seq<string>>, cycles: seq<seq<Id>>,
                       s: Search, steps: int)
  {
    && Inv(g, s)
    && Seen(s) <= Nodes(g)
    && typeNames.Keys == g.Keys
    && Reported(g, errors, cycles, s.cut, typeNames, Seen(s))
    && Counted(g, cycles, s)
    && steps == |s.finish| + ListedBy(g, s.finish.Keys) + Pending(s.stack)
  }

  lemma InvInit(g: Deps, colors: map<Id, Color>)
    requires forall x :: x in colors ==> colors[x] == White
    ensures Inv(g, Search(colors, [], [], {}, map[]))
  {
    hide DepsOf;
  }

  lemma LiveInit(g: Deps, typeNames: map<Id, string>, colors: map<Id, Color>)
    requires typeNames.Keys == g.Keys && forall x :: x in colors ==> colors[x] == White
    ensures Live(g, typeNames, [], [], Search(colors, [], [], {}, map[]), 0)
  {
    var s := Search(colors, [], [], {}, map[]);
    InvInit(g, colors);
    hide Inv, Nodes, SimpleCycle, NamedBy;
    assert Seen(s) == {} && BackEdges([]) == {};
  }

  lemma LiveVisited(g: Deps, typeNames: map<Id, string>, errors: seq<seq<string>>, cycles: seq<seq<Id>>,
                    s: Search, steps: int, root: Id)
    requires Live(g, typeNames, errors, cycles, s, steps) && s.path == [] && ColorOf(s.colors, root) != White
    ensures root in s.finish
  {
    assert ColorOf(s.colors, root) != Gray;
  }

  lemma RegisteredIsNode(g: Deps, x: Id)
    requires x in g
    ensures x in Nodes(g)
  {
  }

  lemma SeenAtStart(s: Search)
    requires s.path == []
    ensures Seen(s) == s.finish.Keys
  {
  }

  /** A new id on the path. */
  lemma LivePush(g: Deps, typeNames: map<Id, string>, errors: seq<seq<string>>, cycles: seq<seq<Id>>,
                 s: Search, t: Search, steps: int, steps': int, x: Id)
    requires Live(g, typeNames, errors, cycles, s, steps)
    requires Inv(g, t) && Counted(g, cycles, t) && x in Nodes(g)
    requires t.cut == s.cut && t.finish == s.finish && t.path == s.path + [x]
    requires Pending(t.stack) - Pending(s.stack) == steps' - steps
    ensures Live(g, typeNames, errors, cycles, t, steps') && Seen(t) == Seen(s) + {x}
  {
    hide Inv, Reported, Counted, Nodes, ListedBy, Pending;
    SeenAfterPush(s, t, x);
    SeeMore(g, errors, cycles, s.cut, typeNames, Seen(s), Seen(t));
  }

  lemma PushRootOnTrack(g: Deps, s: Search, root: Id)
    requires Inv(g, s) && ColorOf(s.colors, root) == White && s.path == [] && s.stack == []
    ensures root !in s.path && root !in s.finish
    ensures Inv(g, Search(s.colors[root := Gray], [(root, 0)], [root], s.cut, s.finish))
  {
    PushRoot(g, s, root);
    assert ColorOf(s.colors, root) != Gray && ColorOf(s.colors, root) != Black;
  }

  lemma LiveStart(g: Deps, typeNames: map<Id, string>, errors: seq<seq<string>>, cycles: seq<seq<Id>>,
                  s: Search, steps: int, root: Id)
    requires Live(g, typeNames, errors, cycles, s, steps)
    requires s.path == [] && s.stack == [] && root in g && ColorOf(s.colors, root) == White
    ensures var t := Search(s.colors[root := Gray], [(root, 0)], [root], s.cut, s.finish);
            Live(g, typeNames, errors, cycles, t, steps) && Seen(t) == s.finish.Keys + {root}
  {
    var t := Search(s.colors[root := Gray], [(root, 0)], [root], s.cut, s.finish);
    hide Inv, Reported, Counted, Nodes, ListedBy, Pending, ColorOf, Seen;
    PushRootOnTrack(g, s, root);
    assert t.stack == s.stack + [(root, 0)] && t.path == s.path + [root];
    CountedPush(g, cycles, s, t, root);
    PendingPush(s.stack, root);
    RegisteredIsNode(g, root);
    LivePush(g, typeNames, errors, cycles, s, t, steps, steps, root);
    SeenAtStart(s);
  }

  lemma LiveBack(g: Deps, typeNames: map<Id, string>, errors: seq<seq<string>>, cycles: seq<seq<Id>>,
                 s: Search, steps: int, x: Id, i: nat)
    requires Live(g, typeNames, errors, cycles, s, steps)
    requires |s.stack| > 0 && Last(s.stack).0 == x && Last(s.stack).1 == i && i >= |DepsOf(g, x)|
    ensures |s.path| > 0
    ensures var t := Search(s.colors[x := Black], s.stack[..|s.stack| - 1], s.path[..|s.path| - 1], s.cut,
                            s.finish[x := |s.finish|]);
            Live(g, typeNames, errors, cycles, t, steps + 1) && Seen(t) == Seen(s)
    ensures Unexamined(g, s.stack[..|s.stack| - 1]) < Unexamined(g, s.stack)
  {
    hide Inv, Reported, Counted, Nodes, ListedBy, Pending, Unexamined, DepsOf, ColorOf;
    TopIsGray(g, s, x, i);
    StepBack(g, s, x, i);
    var t := Search(s.colors[x := Black], s.stack[..|s.stack| - 1], s.path[..|s.path| - 1], s.cut,
                    s.finish[x := |s.finish|]);
    FinishOne(g, s.finish, s.stack, x);
    SeenAfterPop(s, t, x);
    CountedBack(g, cycles, s, t, x, i);
  }

  lemma EdgeInNodes(g: Deps, u: Id, v: Id)
    requires Edge(g, u, v)
    ensures v in Nodes(g)
  {
    var j :| 0 <= j < |DepsOf(g, u)| && DepsOf(g, u)[j] == v;
    assert g[u][j] == v;
  }

  lemma LiveInto(g: Deps, typeNames: map<Id, string>, errors: seq<seq<string>>, cycles: seq<seq<Id>>,
                 s: Search, steps: int, x: Id, i: nat)
    requires Live(g, typeNames, errors, cycles, s, steps)
    requires |s.stack| > 0 && Last(s.stack).0 == x && Last(s.stack).1 == i && i < |DepsOf(g, x)|
    requires ColorOf(s.colors, DepsOf(g, x)[i]) == White
    ensures var dep := DepsOf(g, x)[i];
            var t := Search(s.colors[dep := Gray], s.stack[|s.stack| - 1 := (x, i + 1)] + [(dep, 0)],
                            s.path + [dep], s.cut, s.finish);
            && Live(g, typeNames, errors, cycles, t, steps + 1)
            && Seen(s) <= Seen(t) && Nodes(g) - Seen(t) < Nodes(g) - Seen(s)
  {
    hide Inv, Reported, Counted, Nodes, ListedBy, Pending, Unexamined, DepsOf, ColorOf;
    var dep := DepsOf(g, x)[i];
    StepInto(g, s, x, i, dep);
    CountedInto(g, cycles, s, x, i);
    EdgeInNodes(g, x, dep);
    AdvanceOne(g, s.stack, x, i);
    PendingPush(s.stack[|s.stack| - 1 := (x, i + 1)], dep);
    var t := Search(s.colors[dep := Gray], s.stack[|s.stack| - 1 := (x, i + 1)] + [(dep, 0)],
                    s.path + [dep], s.cut, s.finish);
    LivePush(g, typeNames, errors, cycles, s, t, steps, steps + 1, dep);
    assert dep in Nodes(g) - Seen(s);
  }

  lemma BlackIsOffPath(g: Deps, s: Search, x: Id)
    requires Inv(g, s) && ColorOf(s.colors, x) == Black
    ensures x !in s.path
  {
    assert ColorOf(s.colors, x) != Gray;
  }

  lemma LiveOver(g: Deps, typeNames: map<Id, string>, errors: seq<seq<string>>, cycles: seq<seq<Id>>,
                 s: Search, steps: int, x: Id, i: nat)
    requires Live(g, typeNames, errors, cycles, s, steps)
    requires |s.stack| > 0 && Last(s.stack).0 == x && Last(s.stack).1 == i && i < |DepsOf(g, x)|
    requires ColorOf(s.colors, DepsOf(g, x)[i]) == Black
    ensures Live(g, typeNames, errors, cycles,
                 Search(s.colors, s.stack[|s.stack| - 1 := (x, i + 1)], s.path, s.cut, s.finish), steps + 1)
    ensures Seen(Search(s.colors, s.stack[|s.stack| - 1 := (x, i + 1)], s.path, s.cut, s.finish)) == Seen(s)
    ensures Unexamined(g, s.stack[|s.stack| - 1 := (x, i + 1)]) < Unexamined(g, s.stack)
  {
    hide Inv, Reported, Counted, Nodes, ListedBy, Pending, Unexamined, DepsOf, ColorOf;
    StepOver(g, s, x, i, DepsOf(g, x)[i]);
    BlackIsOffPath(g, s, DepsOf(g, x)[i]);
    CountedOver(g, cycles, s, x, i);
    AdvanceOne(g, s.stack, x, i);
  }

  lemma GrayOnPath(g: Deps, typeNames: map<Id, string>, errors: seq<seq<string>>, cycles: seq<seq<Id>>,
                   s: Search, steps: int, x: Id)
    requires Live(g, typeNames, errors, cycles, s, steps) && ColorOf(s.colors, x) == Gray
    ensures x in s.path
  {
  }

  lemma CutIsReported(g: Deps, errors: seq<seq<string>>, cycles: seq<seq<Id>>, cut: set<(Id, Id)>,
                      typeNames: map<Id, string>, seen: set<Id>)
    requires Reported(g, errors, cycles, cut, typeNames, seen)
    ensures cut == BackEdges(cycles)
  {
  }

  lemma LiveMeans(g: Deps, typeNames: map<Id, string>, errors: seq<seq<string>>, cycles: seq<seq<Id>>,
                  s: Search, steps: int)
    requires Live(g, typeNames, errors, cycles, s, steps)
    ensures Inv(g, s) && Reported(g, errors, cycles, s.cut, typeNames, Seen(s)) && Counted(g, cycles, s)
    ensures typeNames.Keys == g.Keys
  {
  }

  lemma OnPathIsSeen(s: Search, i: nat)
    requires i < |s.path|
    ensures s.path[i] in Seen(s)
  {
  }

  /** The top moves on by one child, with or without a report. */
  lemma LiveAdvance(g: Deps, typeNames: map<Id, string>, errors: seq<seq<string>>, cycles: seq<seq<Id>>,
                    s: Search, steps: int, errors': seq<seq<string>>, cycles': seq<seq<Id>>, t: Search)
    requires Live(g, typeNames, errors, cycles, s, steps)
    requires Inv(g, t) && Counted(g, cycles', t) && t.path == s.path && t.finish == s.finish
    requires Reported(g, errors', cycles', t.cut, typeNames, Seen(s)) && Pending(t.stack) == Pending(s.stack) + 1
    ensures Live(g, typeNames, errors', cycles', t, steps + 1) && Seen(t) == Seen(s)
  {
    hide Inv, Reported, Counted, Nodes, ListedBy, Pending;
  }

  lemma LiveReport(g: Deps, typeNames: map<Id, string>, errors: seq<seq<string>>, cycles: seq<seq<Id>>,
                   s: Search, steps: int, x: Id, i: nat, start: nat)
    requires Live(g, typeNames, errors, cycles, s, steps)
    requires |s.stack| > 0 && Last(s.stack).0 == x && Last(s.stack).1 == i && i < |DepsOf(g, x)|
    requires ColorOf(s.colors, DepsOf(g, x)[i]) == Gray
    requires start < |s.path| && s.path[start] == DepsOf(g, x)[i]
    ensures var t := Search(s.colors, s.stack[|s.stack| - 1 := (x, i + 1)], s.path,
                            s.cut + {(x, DepsOf(g, x)[i])}, s.finish);
            && Live(g, typeNames, errors + [NamesOf(s.path[start..], typeNames)], cycles + [s.path[start..]],
                    t, steps + 1)
            && Seen(t) == Seen(s)
    ensures Unexamined(g, s.stack[|s.stack| - 1 := (x, i + 1)]) < Unexamined(g, s.stack)
  {
    LiveMeans(g, typeNames, errors, cycles, s, steps);
    hide Live, Inv, Reported, Counted, Nodes, Pending, Unexamined, DepsOf, ColorOf, NamesOf, Seen;
    var dep := DepsOf(g, x)[i];
    TopIsGray(g, s, x, i);
    OnPathIsSeen(s, start);
    StepReport(g, s, x, i, dep);
    AdvanceOne(g, s.stack, x, i);
    ReportOne(g, s, errors, cycles, typeNames, Seen(s), start);
    CutIsReported(g, errors, cycles, s.cut, typeNames, Seen(s));
    var c := s.path[start..];
    CountedReport(g, cycles, s, x, i, c);
    var t := Search(s.colors, s.stack[|s.stack| - 1 := (x, i + 1)], s.path, s.cut + {(x, dep)}, s.finish);
    LiveAdvance(g, typeNames, errors, cycles, s, steps, errors + [NamesOf(c, typeNames)], cycles + [c], t);
  }

  lemma LiveDone(g: Deps, typeNames: map<Id, string>, errors: seq<seq<string>>, cycles: seq<seq<Id>>,
                 s: Search, steps: int)
    requires Live(g, typeNames, errors, cycles, s, steps) && s.stack == []
    ensures Live(g, typeNames, errors, cycles, Search(s.colors, [], [], s.cut, s.finish), steps)
    ensures Seen(s) == s.finish.Keys
  {
    assert s == Search(s.colors, [], [], s.cut, s.finish);
  }

  lemma CutAscends(s: Search)
    requires Ascends(s) && s.path == [] && forall e :: e in s.cut ==> e.1 in s.finish
    ensures forall e :: e in s.cut ==> e.0 in s.finish && s.finish[e.0] <= s.finish[e.1]
  {
    forall e | e in s.cut ensures e.0 in s.finish {
      assert EdgeAscends(s.path, s.finish, e);
    }
  }

  lemma EdgesStartRegistered(g: Deps)
    ensures forall u, v :: Edge(g, u, v) ==> u in g
  {
  }

  lemma NodesAreVisited(g: Deps, finish: map<Id, nat>)
    requires g.Keys <= finish.Keys && forall u, v :: Edge(g, u, v) ==> v in finish
    ensures Nodes(g) <= finish.Keys
  {
    forall u, i | u in g && 0 <= i < |g[u]| ensures g[u][i] in finish {
      assert Edge(g, u, g[u][i]);
    }
  }

  lemma AllVisited(g: Deps, cut: set<(Id, Id)>, finish: map<Id, nat>)
    requires Numbered(g, cut, finish) && g.Keys <= finish.Keys <= Nodes(g)
    requires forall e :: e in cut ==> e.0 in finish && e.1 in finish && finish[e.0] <= finish[e.1]
    ensures TopologicalUpTo(g, cut, finish)
  {
    EdgesStartRegistered(g);
    hide Nodes, Edge;
    forall u, v | Edge(g, u, v) ensures v in finish {
      assert (u, v) in cut ==> (u, v).1 in finish;
    }
    NodesAreVisited(g, finish);
  }

  lemma FinishedNumbering(g: Deps, s: Search)
    requires Inv(g, s) && s.path == [] && g.Keys <= s.finish.Keys <= Nodes(g)
    requires forall e :: e in s.cut ==> e.1 in s.finish
    ensures TopologicalUpTo(g, s.cut, s.finish)
  {
    hide Colored, OnTrack, Numbered, Nodes, TopologicalUpTo, Ascends;
    CutAscends(s);
    AllVisited(g, s.cut, s.finish);
  }

  lemma FinishedCount(g: Deps, cut: set<(Id, Id)>, finish: map<Id, nat>)
    requires TopologicalUpTo(g, cut, finish) && g.Keys <= finish.Keys
    ensures |finish| == |Nodes(g)| && ListedBy(g, finish.Keys) == ListedBy(g, g.Keys)
  {
    hide ListedBy, Nodes, Descends;
    ListedByRegistered(g, finish.Keys - g.Keys);
    assert g.Keys + (finish.Keys - g.Keys) == finish.Keys;
    assert |finish| == |finish.Keys|;
  }

  lemma FinishedReports(g: Deps, cycles: seq<seq<Id>>, s: Search)
    requires Inv(g, s) && Counted(g, cycles, s) && s.path == [] && s.cut == BackEdges(cycles)
    ensures OncePerOccurrence(g, cycles)
  {
    forall e | e in BackEdges(cycles) ensures |ReportsOf(cycles, e)| == multiset(DepsOf(g, e.0))[e.1] {
      UnseenIsNotCut(g, s, e);
      assert CountedAt(g, cycles, s.cut, e.0, |DepsOf(g, e.0)|) && e == (e.0, e.1);
      assert DepsOf(g, e.0)[..|DepsOf(g, e.0)|] == DepsOf(g, e.0);
    }
  }

  lemma FinishedSearch(g: Deps, typeNames: map<Id, string>, errors: seq<seq<string>>, cycles: seq<seq<Id>>,
                       s: Search, steps: int)
    requires Live(g, typeNames, errors, cycles, s, steps)
    requires s.path == [] && s.stack == [] && g.Keys <= s.finish.Keys
    ensures |errors| == |cycles|
    ensures forall i :: 0 <= i < |cycles| ==>
              SimpleCycle(g, cycles[i]) && NamedBy(typeNames, cycles[i], errors[i])
    ensures TopologicalUpTo(g, BackEdges(cycles), s.finish)
    ensures errors == [] <==> Acyclic(g)
    ensures Acyclic(Without(g, BackEdges(cycles)))
    ensures OncePerOccurrence(g, cycles)
    ensures steps == |Nodes(g)| + ListedBy(g, g.Keys)
  {
    FinishedReports(g, cycles, s);
    hide OncePerOccurrence, Counted, NamedBy, SimpleCycle, Inv, ListedBy, Nodes, BackEdges, TopologicalUpTo, Acyclic, Without;
    assert Seen(s) == s.finish.Keys;
    FinishedNumbering(g, s);
    FinishedCount(g, s.cut, s.finish);
    NoReportIffAcyclic(g, cycles, s.finish);
  }

  // ---- the search --------------------------------------------------------------------------------

  /** The first place of `x` on the path; the search asks only for ids that are on it. */
  method Position(path: seq<Id>, x: Id) returns (start: nat)
    requires x in path
    ensures start < |path| && path[start] == x
  {
    start := 0;
    while path[start] != x
      invariant start < |path| && x in path[start..]
      decreases |path| - start
    {
      start := start + 1;
    }
  }

  /** One root: everything reachable from it and not seen before gets finished. */
  method SearchFrom(g: Deps, typeNames: map<Id, string>, root: Id, colors0: map<Id, Color>, errors0: seq<seq<string>>,
                    ghost cycles0: seq<seq<Id>>, ghost cut0: set<(Id, Id)>, ghost finish0: map<Id, nat>,
                    ghost steps0: nat)
    returns (colors: map<Id, Color>, errors: seq<seq<string>>, ghost cycles: seq<seq<Id>>,
             ghost cut: set<(Id, Id)>, ghost finish: map<Id, nat>, ghost steps: nat)
    requires root in g && ColorOf(colors0, root) == White
    requires Live(g, typeNames, errors0, cycles0, Search(colors0, [], [], cut0, finish0), steps0)
    ensures Live(g, typeNames, errors, cycles, Search(colors, [], [], cut, finish), steps)
    ensures finish0.Keys + {root} <= finish.Keys
  {
    hide Live, Unexamined, Nodes, ColorOf, DepsOf, Seen;
    colors, errors, cycles, cut, finish, steps := colors0, errors0, cycles0, cut0, finish0, steps0;
    var stack: seq<(Id, nat)>, path := [(root, 0)], [root];
    LiveStart(g, typeNames, errors, cycles, Search(colors, [], [], cut, finish), steps, root);
    colors := colors[root := Gray];
    while |stack| > 0
      invariant Live(g, typeNames, errors, cycles, Search(colors, stack, path, cut, finish), steps)
      invariant finish0.Keys + {root} <= Seen(Search(colors, stack, path, cut, finish))
      decreases Nodes(g) - Seen(Search(colors, stack, path, cut, finish)), Unexamined(g, stack)
    {
      ghost var s := Search(colors, stack, path, cut, finish);
      var node, childIdx := Last(stack).0, Last(stack).1;
      var deps := DepsOf(g, node);
      if childIdx >= |deps| {
        LiveBack(g, typeNames, errors, cycles, s, steps, node, childIdx);
        colors := colors[node := Black];
        stack := stack[..|stack| - 1];
        path := path[..|path| - 1];
        finish := finish[node := |finish|];
        steps := steps + 1;
        continue;
      }
      var dep := deps[childIdx];
      match ColorOf(colors, dep) {
        case Gray =>
          GrayOnPath(g, typeNames, errors, cycles, s, steps, dep);
          var start := Position(path, dep);
          LiveReport(g, typeNames, errors, cycles, s, steps, node, childIdx, start);
          errors := errors + [NamesOf(path[start..], typeNames)];
          cycles := cycles + [path[start..]];
          cut := cut + {(node, dep)};
          stack := stack[|stack| - 1 := (node, childIdx + 1)];
        case White =>
          LiveInto(g, typeNames, errors, cycles, s, steps, node, childIdx);
          colors := colors[dep := Gray];
          path := path + [dep];
          stack := stack[|stack| - 1 := (node, childIdx + 1)] + [(dep, 0)];
        case Black =>
          LiveOver(g, typeNames, errors, cycles, s, steps, node, childIdx);
          stack := stack[|stack| - 1 := (node, childIdx + 1)];
      }
      steps := steps + 1;
    }
    LiveDone(g, typeNames, errors, cycles, Search(colors, stack, path, cut, finish), steps);
  }

  /**
   * The search itself. Roots come in any order, the graph may list an id twice and may list ids
   * that were never registered. `cycles` are the reported cycles as ids, `errors` the same cycles
   * by name; `finish` numbers the ids in the order they turned black and `steps` counts the
   * iterations of the inner loop.
   */
  method DetectCycles(dependencies: Deps, typeNames: map<Id, string>)
    returns (errors: seq<seq<string>>, ghost cycles: seq<seq<Id>>, ghost finish: map<Id, nat>, ghost steps: nat)
    requires typeNames.Keys == dependencies.Keys
    ensures errors == [] <==> Acyclic(dependencies)
    ensures |errors| == |cycles|
    ensures forall i :: 0 <= i < |cycles| ==>
              SimpleCycle(dependencies, cycles[i]) && NamedBy(typeNames, cycles[i], errors[i])
    ensures TopologicalUpTo(dependencies, BackEdges(cycles), finish)
    ensures Acyclic(Without(dependencies, BackEdges(cycles)))
    ensures OncePerOccurrence(dependencies, cycles)
    ensures steps == |Nodes(dependencies)| + ListedBy(dependencies, dependencies.Keys)
  {
    hide Live, OncePerOccurrence, TopologicalUpTo, SimpleCycle, NamedBy, BackEdges, Acyclic, ListedBy, Nodes, ColorOf;
    var g := dependencies;
    var colors := map x | x in g.Keys :: White;
    errors, cycles, finish, steps := [], [], map[], 0;
    ghost var cut: set<(Id, Id)> := {};
    LiveInit(g, typeNames, colors);
    var roots := g.Keys;
    while roots != {}
      invariant roots <= g.Keys
      invariant Live(g, typeNames, errors, cycles, Search(colors, [], [], cut, finish), steps)
      invariant g.Keys - roots <= finish.Keys
      decreases roots
    {
      var root :| root in roots;
      roots := roots - {root};
      if ColorOf(colors, root) != White {
        LiveVisited(g, typeNames, errors, cycles, Search(colors, [], [], cut, finish), steps, root);
        continue;
      }
      colors, errors, cycles, cut, finish, steps :=
        SearchFrom(g, typeNames, root, colors, errors, cycles, cut, finish, steps);
    }
    FinishedSearch(g, typeNames, errors, cycles, Search(colors, [], [], cut, finish), steps);
  }
}
