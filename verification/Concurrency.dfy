/**
 * Any number of threads asking one container, step by step.
 *
 * A thread works off a list of lookups: the keys it gets, or the keys an eager validation walks
 * over, each panic caught. It keeps a stack of the cells it is filling; a step starts filling an
 * empty cell, takes the content of a full one, completes or panics, or gives one cell back while
 * unwinding. A cell that is being filled blocks whoever wants it.
 */
module Concurrency {
  import opened Graphs
  import opened Sequences
  import opened Fates

  /** What is registered: the reads of every factory, and the factories that panic on their own. */
  datatype Config = Config(lists: Deps, panics: set<Id>)

  /** A built service with its identity and the services it holds. */
  datatype Obj = Obj(uid: nat, key: Id, fields: seq<Obj>)

  datatype Cell = Uninit | RunningBy(thread: nat) | Init(obj: Obj)

  /** A factory call in progress and what it has read so far. */
  datatype Frame = Frame(key: Id, got: seq<Obj>)

  /** The answer to one lookup; `Panicked` is what the caller caught. */
  datatype Answer = Got(obj: Obj) | Panicked

  datatype Thread = Thread(goals: seq<Id>, stack: seq<Frame>, unwinding: bool, answers: seq<(Id, Answer)>)

  /** `completed` counts the factory calls that returned. */
  datatype State = State(cells: map<Id, Cell>, threads: seq<Thread>, nextUid: nat, completed: multiset<Id>)

  // ---- steps ----------------------------------------------------------------------------------

  function ListOf(c: Config, f: Frame): seq<Id> {
    DepsOf(c.lists, f.key)
  }

  /** The thread asks for a key: the next read of its innermost factory, or its next lookup. */
  predicate Asks(c: Config, th: Thread) {
    !th.unwinding &&
    if th.stack == [] then th.goals != [] else |Last(th.stack).got| < |ListOf(c, Last(th.stack))|
  }

  function Asked(c: Config, th: Thread): Id
    requires Asks(c, th)
  {
    if th.stack == [] then th.goals[0] else ListOf(c, Last(th.stack))[|Last(th.stack).got|]
  }

  predicate Finished(th: Thread) {
    th.goals == [] && th.stack == []
  }

  predicate CanStep(c: Config, s: State, t: nat) {
    && t < |s.threads|
    && var th := s.threads[t];
       (th.stack != [] ==> th.goals != []) &&
       if Asks(c, th) then Asked(c, th) in s.cells ==> !s.cells[Asked(c, th)].RunningBy?
       else th.stack != []
  }

  function Answered(th: Thread, a: Answer): Thread
    requires th.goals != []
  {
    th.(goals := th.goals[1..], answers := th.answers + [(th.goals[0], a)])
  }

  /** The thread takes `o` for what it asked. */
  function Receive(th: Thread, o: Obj): Thread
    requires th.stack == [] ==> th.goals != []
  {
    if th.stack == [] then Answered(th, Got(o))
    else
      var top := Last(th.stack);
      th.(stack := th.stack[|th.stack| - 1 := top.(got := top.got + [o])])
  }

  /** The thread starts to panic. */
  function Throw(th: Thread): Thread
    requires th.stack == [] ==> th.goals != []
  {
    if th.stack == [] then Answered(th, Panicked) else th.(unwinding := true)
  }

  /** The innermost call is gone; when it was the outermost too, the panic has been caught. */
  function Unwound(th: Thread): Thread
    requires |th.stack| > 0 && th.goals != []
  {
    var rest := th.(stack := th.stack[..|th.stack| - 1]);
    if rest.stack == [] then Answered(rest.(unwinding := false), Panicked) else rest
  }

  /** The one step thread `t` can make. */
  function Step(c: Config, s: State, t: nat): State
    requires CanStep(c, s, t)
  {
    var th := s.threads[t];
    if Asks(c, th) then
      var k := Asked(c, th);
      if k !in s.cells then s.(threads := s.threads[t := Throw(th)])
      else match s.cells[k] {
        case Init(o) => s.(threads := s.threads[t := Receive(th, o)])
        case _ =>
          s.(cells := s.cells[k := RunningBy(t)],
             threads := s.threads[t := th.(stack := th.stack + [Frame(k, [])])])
      }
    else
      var top := Last(th.stack);
      if th.unwinding then
        s.(cells := s.cells[top.key := Uninit], threads := s.threads[t := Unwound(th)])
      else if top.key in c.panics then s.(threads := s.threads[t := Throw(th)])
      else
        s.(cells := s.cells[top.key := Init(Obj(s.nextUid, top.key, top.got))],
           threads := s.threads[t := th.(stack := th.stack[..|th.stack| - 1])],
           nextUid := s.nextUid + 1, completed := s.completed + multiset{top.key})
  }

  // ---- the invariant ----------------------------------------------------------------------------

  predicate Holds(cells: map<Id, Cell>, k: Id, o: Obj) {
    k in cells && cells[k] == Init(o)
  }

  /** A call in progress: its cell is marked, and it has read the first cells of its list. */
  ghost predicate FrameOk(c: Config, cells: map<Id, Cell>, t: nat, f: Frame) {
    && f.key in c.lists && f.key in cells && cells[f.key] == RunningBy(t)
    && |f.got| <= |ListOf(c, f)|
    && forall j :: 0 <= j < |f.got| ==> Holds(cells, ListOf(c, f)[j], f.got[j])
  }

  /** Frame `i` waits for frame `i + 1`. */
  ghost predicate LinkOk(c: Config, stack: seq<Frame>, i: nat)
    requires i + 1 < |stack|
  {
    |stack[i].got| < |ListOf(c, stack[i])| && ListOf(c, stack[i])[|stack[i].got|] == stack[i + 1].key
  }

  ghost predicate StackOk(c: Config, cells: map<Id, Cell>, t: nat, stack: seq<Frame>) {
    && (forall i :: 0 <= i < |stack| ==> FrameOk(c, cells, t, stack[i]))
    && (forall i :: 0 <= i < |stack| - 1 ==> LinkOk(c, stack, i))
    && (forall i, j :: 0 <= i < j < |stack| ==> stack[i].key != stack[j].key)
  }

  /** A lookup of `k` ends, and ends in a panic. */
  ghost predicate Failing(c: Config, k: Id) {
    Hopeless(c.lists, c.panics, k) && Answerable(c.lists, c.panics, k)
  }

  ghost predicate AnswerOk(c: Config, cells: map<Id, Cell>, k: Id, a: Answer) {
    match a
    case Got(o) => Holds(cells, k, o)
    case Panicked => Failing(c, k)
  }

  ghost predicate ThreadOk(c: Config, cells: map<Id, Cell>, t: nat, th: Thread) {
    && StackOk(c, cells, t, th.stack)
    && (th.stack != [] ==> th.goals != [] && th.stack[0].key == th.goals[0])
    && (th.unwinding ==> th.stack != [] && Failing(c, Last(th.stack).key))
    && (forall i :: 0 <= i < |th.answers| ==> AnswerOk(c, cells, th.answers[i].0, th.answers[i].1))
  }

  /** A full cell holds its own service, wired to the content of the cells its factory read. */
  ghost predicate CellOk(c: Config, cells: map<Id, Cell>, nextUid: nat, k: Id)
    requires k in c.lists && k in cells
  {
    cells[k].Init? ==>
      var o := cells[k].obj;
      && k !in c.panics && o.key == k && o.uid < nextUid
      && |o.fields| == |c.lists[k]|
      && forall i :: 0 <= i < |o.fields| ==> Holds(cells, c.lists[k][i], o.fields[i])
  }

  predicate OnStack(th: Thread, k: Id) {
    exists i :: 0 <= i < |th.stack| && th.stack[i].key == k
  }

  ghost predicate CellsOk(c: Config, s: State) {
    && s.cells.Keys == c.lists.Keys
    && (forall k :: k in s.cells ==> CellOk(c, s.cells, s.nextUid, k))
    && (forall k, l :: k in s.cells && l in s.cells && s.cells[k].Init? && s.cells[l].Init? && k != l ==>
          s.cells[k].obj.uid != s.cells[l].obj.uid)
    && (forall k :: k in s.cells && s.cells[k].RunningBy? ==>
          s.cells[k].thread < |s.threads| && OnStack(s.threads[s.cells[k].thread], k))
    && (forall k :: s.completed[k] <= 1)
    && (forall k :: k in s.completed ==> k in s.cells && s.cells[k].Init?)
  }

  ghost predicate Inv(c: Config, s: State) {
    && CellsOk(c, s)
    && forall t :: 0 <= t < |s.threads| ==> ThreadOk(c, s.cells, t, s.threads[t])
  }

  // ---- every step keeps the invariant -----------------------------------------------------------

  /** A cell goes from empty to marked by `t`, or from marked by `t` to full or empty. */
  ghost predicate CellStep(cells: map<Id, Cell>, next: map<Id, Cell>, t: nat, k: Id) {
    && k in cells && k in next && next == cells[k := next[k]]
    && ((cells[k].Uninit? && next[k] == RunningBy(t)) || (cells[k] == RunningBy(t) && !next[k].RunningBy?))
  }

  /** Full cells stay as they are. */
  lemma FullStays(cells: map<Id, Cell>, next: map<Id, Cell>, t: nat, k: Id)
    requires CellStep(cells, next, t, k)
    ensures forall l, o :: Holds(cells, l, o) ==> Holds(next, l, o)
  {
  }

  lemma OthersKept(c: Config, cells: map<Id, Cell>, next: map<Id, Cell>, t: nat, k: Id, u: nat, th: Thread)
    requires CellStep(cells, next, t, k) && u != t && ThreadOk(c, cells, u, th)
    ensures ThreadOk(c, next, u, th)
  {
    FullStays(cells, next, t, k);
    forall i | 0 <= i < |th.stack| ensures FrameOk(c, next, u, th.stack[i]) {
      assert FrameOk(c, cells, u, th.stack[i]);
    }
    forall i | 0 <= i < |th.answers| ensures AnswerOk(c, next, th.answers[i].0, th.answers[i].1) {
      assert AnswerOk(c, cells, th.answers[i].0, th.answers[i].1);
    }
  }

  /** The thread's own stack without the frame of the cell that changes. */
  lemma OwnFramesKept(c: Config, cells: map<Id, Cell>, next: map<Id, Cell>, t: nat, k: Id, stack: seq<Frame>)
    requires CellStep(cells, next, t, k) && StackOk(c, cells, t, stack)
    requires forall i :: 0 <= i < |stack| ==> stack[i].key != k
    ensures StackOk(c, next, t, stack)
  {
    FullStays(cells, next, t, k);
    forall i | 0 <= i < |stack| ensures FrameOk(c, next, t, stack[i]) {
      assert FrameOk(c, cells, t, stack[i]);
    }
  }

  lemma AnswersKept(c: Config, cells: map<Id, Cell>, next: map<Id, Cell>, t: nat, k: Id, th: Thread)
    requires CellStep(cells, next, t, k)
    requires forall i :: 0 <= i < |th.answers| ==> AnswerOk(c, cells, th.answers[i].0, th.answers[i].1)
    ensures forall i :: 0 <= i < |th.answers| ==> AnswerOk(c, next, th.answers[i].0, th.answers[i].1)
  {
    FullStays(cells, next, t, k);
    forall i | 0 <= i < |th.answers| ensures AnswerOk(c, next, th.answers[i].0, th.answers[i].1) {
      assert AnswerOk(c, cells, th.answers[i].0, th.answers[i].1);
    }
  }

  lemma PrefixOk(c: Config, cells: map<Id, Cell>, t: nat, stack: seq<Frame>, rest: seq<Frame>)
    requires StackOk(c, cells, t, stack) && |stack| > 0 && rest == stack[..|stack| - 1]
    ensures StackOk(c, cells, t, rest)
    ensures forall i :: 0 <= i < |rest| ==> rest[i].key != Last(stack).key
  {
    forall i | 0 <= i < |rest| - 1 ensures LinkOk(c, rest, i) {
      assert LinkOk(c, stack, i);
    }
  }

  lemma LastLink(c: Config, cells: map<Id, Cell>, t: nat, stack: seq<Frame>)
    requires StackOk(c, cells, t, stack) && |stack| > 1
    ensures LinkOk(c, stack, |stack| - 2)
  {
  }

  /** Taking the content of a full cell. */
  lemma ReceiveOk(c: Config, cells: map<Id, Cell>, t: nat, th: Thread, o: Obj)
    requires ThreadOk(c, cells, t, th) && Asks(c, th) && Holds(cells, Asked(c, th), o)
    ensures ThreadOk(c, cells, t, Receive(th, o))
    ensures forall k :: OnStack(th, k) ==> OnStack(Receive(th, o), k)
  {
    var th' := Receive(th, o);
    if th.stack != [] {
      var n := |th.stack| - 1;
      assert FrameOk(c, cells, t, th.stack[n]);
      forall i | 0 <= i < n ensures LinkOk(c, th'.stack, i) {
        assert LinkOk(c, th.stack, i);
      }
      forall i | 0 <= i < |th'.stack| ensures FrameOk(c, cells, t, th'.stack[i]) {
        assert FrameOk(c, cells, t, th.stack[i]);
      }
      forall k | OnStack(th, k) ensures OnStack(th', k) {
        var i :| 0 <= i < |th.stack| && th.stack[i].key == k;
        assert th'.stack[i].key == k;
      }
    }
  }

  /** What is full could be had. */
  ghost predicate FullAreGood(c: Config, cells: map<Id, Cell>) {
    forall k, o :: Holds(cells, k, o) ==> Good(c.lists, c.panics, k)
  }

  lemma {:induction false} FullIsGood(c: Config, cells: map<Id, Cell>, nextUid: nat, k: Id, o: Obj)
    requires cells.Keys == c.lists.Keys && forall l :: l in cells ==> CellOk(c, cells, nextUid, l)
    requires Holds(cells, k, o)
    ensures Good(c.lists, c.panics, k)
    decreases o
  {
    hide Good;
    assert CellOk(c, cells, nextUid, k);
    forall i | 0 <= i < |c.lists[k]| ensures Good(c.lists, c.panics, c.lists[k][i]) {
      FullIsGood(c, cells, nextUid, c.lists[k][i], o.fields[i]);
    }
    GoodUnfold(c.lists, c.panics, k);
  }

  lemma CellsAreGood(c: Config, s: State)
    requires CellsOk(c, s)
    ensures FullAreGood(c, s.cells)
  {
    forall k, o | Holds(s.cells, k, o) ensures Good(c.lists, c.panics, k) {
      FullIsGood(c, s.cells, s.nextUid, k, o);
    }
  }

  /** Reads made so far are good. */
  lemma ReadsAreGood(c: Config, cells: map<Id, Cell>, t: nat, f: Frame)
    requires FullAreGood(c, cells) && FrameOk(c, cells, t, f)
    ensures f.key in c.lists && |f.got| <= |c.lists[f.key]|
    ensures forall j :: 0 <= j < |f.got| ==> Good(c.lists, c.panics, c.lists[f.key][j])
  {
    forall j | 0 <= j < |f.got| ensures Good(c.lists, c.panics, c.lists[f.key][j]) {
      assert Holds(cells, ListOf(c, f)[j], f.got[j]);
    }
  }

  /** A call whose next read fails, or that fails on its own after the last one, fails. */
  lemma CallFails(c: Config, cells: map<Id, Cell>, t: nat, f: Frame)
    requires FullAreGood(c, cells) && FrameOk(c, cells, t, f)
    requires |f.got| < |ListOf(c, f)| ==> Failing(c, ListOf(c, f)[|f.got|])
    requires |f.got| == |ListOf(c, f)| ==> f.key in c.panics
    ensures Failing(c, f.key)
  {
    hide Answerable, Hopeless, AcyclicFrom;
    ReadsAreGood(c, cells, t, f);
    HopelessUnfold(c.lists, c.panics, f.key);
    AnswerableByReads(c.lists, c.panics, f.key, |f.got|);
  }

  /** Starting to panic over a key that cannot be had, or over the factory's own failure. */
  lemma ThrowOk(c: Config, cells: map<Id, Cell>, t: nat, th: Thread)
    requires FullAreGood(c, cells)
    requires ThreadOk(c, cells, t, th) && !th.unwinding && (th.stack == [] ==> th.goals != [])
    requires Asks(c, th) ==> Failing(c, Asked(c, th))
    requires !Asks(c, th) ==> th.stack != [] && Last(th.stack).key in c.panics
    ensures ThreadOk(c, cells, t, Throw(th))
    ensures forall k :: OnStack(th, k) ==> OnStack(Throw(th), k)
  {
    if th.stack != [] {
      assert FrameOk(c, cells, t, Last(th.stack));
      CallFails(c, cells, t, Last(th.stack));
    }
  }

  lemma StartOk(c: Config, cells: map<Id, Cell>, t: nat, th: Thread)
    requires cells.Keys == c.lists.Keys
    requires ThreadOk(c, cells, t, th) && Asks(c, th) && Asked(c, th) in cells && cells[Asked(c, th)].Uninit?
    ensures ThreadOk(c, cells[Asked(c, th) := RunningBy(t)], t,
                     th.(stack := th.stack + [Frame(Asked(c, th), [])]))
  {
    var k := Asked(c, th);
    var next := cells[k := RunningBy(t)];
    var stack := th.stack + [Frame(k, [])];
    forall i | 0 <= i < |th.stack| ensures th.stack[i].key != k {
      assert FrameOk(c, cells, t, th.stack[i]);
    }
    OwnFramesKept(c, cells, next, t, k, th.stack);
    AnswersKept(c, cells, next, t, k, th);
    forall i | 0 <= i < |stack| - 1 ensures LinkOk(c, stack, i) {
      if i < |th.stack| - 1 {
        assert LinkOk(c, th.stack, i);
      }
    }
    assert FrameOk(c, next, t, stack[|th.stack|]);
  }

  lemma FinishOk(c: Config, cells: map<Id, Cell>, t: nat, th: Thread, o: Obj)
    requires ThreadOk(c, cells, t, th) && th.stack != [] && !th.unwinding
    ensures ThreadOk(c, cells[Last(th.stack).key := Init(o)], t, th.(stack := th.stack[..|th.stack| - 1]))
  {
    var k := Last(th.stack).key;
    assert FrameOk(c, cells, t, Last(th.stack));
    PrefixOk(c, cells, t, th.stack, th.stack[..|th.stack| - 1]);
    OwnFramesKept(c, cells, cells[k := Init(o)], t, k, th.stack[..|th.stack| - 1]);
    AnswersKept(c, cells, cells[k := Init(o)], t, k, th);
  }

  lemma UnwoundOk(c: Config, cells: map<Id, Cell>, t: nat, th: Thread)
    requires FullAreGood(c, cells) && ThreadOk(c, cells, t, th) && th.unwinding
    ensures ThreadOk(c, cells[Last(th.stack).key := Uninit], t, Unwound(th))
  {
    var n := |th.stack| - 1;
    var k := Last(th.stack).key;
    var next := cells[k := Uninit];
    assert FrameOk(c, cells, t, Last(th.stack));
    PrefixOk(c, cells, t, th.stack, th.stack[..|th.stack| - 1]);
    OwnFramesKept(c, cells, next, t, k, th.stack[..n]);
    AnswersKept(c, cells, next, t, k, th);
    if n > 0 {
      assert LinkOk(c, th.stack, n - 1);
      assert FrameOk(c, cells, t, th.stack[n - 1]);
      CallFails(c, cells, t, th.stack[n - 1]);
    }
  }

  /** Marks stay on the stack of the thread that set them. */
  lemma StackAfterPop(th: Thread, k: Id)
    requires |th.stack| > 0 && OnStack(th, k) && k != Last(th.stack).key
    ensures OnStack(th.(stack := th.stack[..|th.stack| - 1]), k)
  {
    var i :| 0 <= i < |th.stack| && th.stack[i].key == k;
    assert th.stack[..|th.stack| - 1][i].key == k;
  }

  lemma CellsAfterChange(c: Config, s: State, t: nat, k: Id, cell: Cell, th: Thread)
    requires CellsOk(c, s) && t < |s.threads| && CellStep(s.cells, s.cells[k := cell], t, k)
    requires !cell.Init?
    requires k !in s.completed
    requires cell.RunningBy? ==> OnStack(th, k)
    requires forall l :: l != k && OnStack(s.threads[t], l) ==> OnStack(th, l)
    ensures CellsOk(c, s.(cells := s.cells[k := cell], threads := s.threads[t := th]))
  {
    var s' := s.(cells := s.cells[k := cell], threads := s.threads[t := th]);
    FullStays(s.cells, s'.cells, t, k);
    forall l | l in s'.cells ensures CellOk(c, s'.cells, s'.nextUid, l) {
      assert CellOk(c, s.cells, s.nextUid, l);
    }
    hide CellOk, Holds, OnStack;
  }

  lemma WiringAfterFinish(c: Config, s: State, t: nat, k: Id, got: seq<Obj>)
    requires CellsOk(c, s) && k in s.cells && s.cells[k] == RunningBy(t) && k !in c.panics
    requires |got| == |c.lists[k]| && forall i :: 0 <= i < |got| ==> Holds(s.cells, c.lists[k][i], got[i])
    ensures var next := s.cells[k := Init(Obj(s.nextUid, k, got))];
            && (forall l :: l in next ==> CellOk(c, next, s.nextUid + 1, l))
            && (forall l :: l in s.cells && s.cells[l].Init? ==> s.cells[l].obj.uid < s.nextUid)
  {
    var next := s.cells[k := Init(Obj(s.nextUid, k, got))];
    FullStays(s.cells, next, t, k);
    forall l | l in next ensures CellOk(c, next, s.nextUid + 1, l) {
      assert CellOk(c, s.cells, s.nextUid, l);
    }
    forall l | l in s.cells && s.cells[l].Init? ensures s.cells[l].obj.uid < s.nextUid {
      assert CellOk(c, s.cells, s.nextUid, l);
    }
  }

  lemma CellsAfterFinish(c: Config, s: State, t: nat, k: Id, got: seq<Obj>, th: Thread)
    requires CellsOk(c, s) && t < |s.threads| && k in s.cells && s.cells[k] == RunningBy(t) && k !in c.panics
    requires |got| == |c.lists[k]| && forall i :: 0 <= i < |got| ==> Holds(s.cells, c.lists[k][i], got[i])
    requires forall l :: l != k && OnStack(s.threads[t], l) ==> OnStack(th, l)
    ensures CellsOk(c, State(s.cells[k := Init(Obj(s.nextUid, k, got))], s.threads[t := th], s.nextUid + 1,
                             s.completed + multiset{k}))
  {
    var s' := State(s.cells[k := Init(Obj(s.nextUid, k, got))], s.threads[t := th], s.nextUid + 1,
                    s.completed + multiset{k});
    WiringAfterFinish(c, s, t, k, got);
    assert k !in s.completed;
    hide CellOk, OnStack, Holds;
    assert s'.cells.Keys == s.cells.Keys;
    assert forall l :: l in s'.cells && l != k ==> s'.cells[l] == s.cells[l];
  }

  lemma CellsAfterThread(c: Config, s: State, t: nat, th: Thread)
    requires CellsOk(c, s) && t < |s.threads|
    requires forall l :: OnStack(s.threads[t], l) ==> OnStack(th, l)
    ensures CellsOk(c, s.(threads := s.threads[t := th]))
  {
  }

  lemma OtherThreads(c: Config, s: State, next: map<Id, Cell>, t: nat, k: Id)
    requires Inv(c, s) && CellStep(s.cells, next, t, k)
    ensures forall u :: 0 <= u < |s.threads| && u != t ==> ThreadOk(c, next, u, s.threads[u])
  {
    forall u | 0 <= u < |s.threads| && u != t ensures ThreadOk(c, next, u, s.threads[u]) {
      OthersKept(c, s.cells, next, t, k, u, s.threads[u]);
    }
  }

  /** The parts of the invariant after a step of thread `t`. */
  lemma InvIs(c: Config, s: State, s': State, t: nat)
    requires CellsOk(c, s') && t < |s.threads| == |s'.threads| && s'.threads == s.threads[t := s'.threads[t]]
    requires ThreadOk(c, s'.cells, t, s'.threads[t])
    requires forall u :: 0 <= u < |s.threads| && u != t ==> ThreadOk(c, s'.cells, u, s.threads[u])
    ensures Inv(c, s')
  {
    hide CellsOk, ThreadOk;
  }

  lemma StartStep(c: Config, s: State, t: nat)
    requires CanStep(c, s, t) && Asks(c, s.threads[t]) && Asked(c, s.threads[t]) in s.cells
    requires !s.cells[Asked(c, s.threads[t])].Init?
    ensures var th, k := s.threads[t], Asked(c, s.threads[t]);
            && s.cells[k].Uninit?
            && Step(c, s, t) == s.(cells := s.cells[k := RunningBy(t)],
                                   threads := s.threads[t := th.(stack := th.stack + [Frame(k, [])])])
  {
  }

  lemma UnwindStep(c: Config, s: State, t: nat)
    requires CanStep(c, s, t) && !Asks(c, s.threads[t]) && s.threads[t].unwinding
    ensures var th := s.threads[t];
            && th.stack != [] && th.goals != []
            && Step(c, s, t) == s.(cells := s.cells[Last(th.stack).key := Uninit], threads := s.threads[t := Unwound(th)])
  {
    hide Unwound;
  }

  lemma FinishStep(c: Config, s: State, t: nat)
    requires CanStep(c, s, t) && !Asks(c, s.threads[t]) && !s.threads[t].unwinding
    requires s.threads[t].stack != [] ==> Last(s.threads[t].stack).key !in c.panics
    ensures var th := s.threads[t];
            && th.stack != []
            && var top := Last(th.stack);
               Step(c, s, t) == State(s.cells[top.key := Init(Obj(s.nextUid, top.key, top.got))],
                                      s.threads[t := th.(stack := th.stack[..|th.stack| - 1])],
                                      s.nextUid + 1, s.completed + multiset{top.key})
  {
  }

  lemma OnStackSnoc(th: Thread, f: Frame)
    ensures forall l :: l == f.key || OnStack(th, l) ==> OnStack(th.(stack := th.stack + [f]), l)
  {
    var th' := th.(stack := th.stack + [f]);
    forall l | l == f.key || OnStack(th, l) ensures OnStack(th', l) {
      if l == f.key {
        assert th'.stack[|th.stack|].key == l;
      } else {
        var i :| 0 <= i < |th.stack| && th.stack[i].key == l;
        assert th'.stack[i].key == l;
      }
    }
  }

  lemma CellKeys(c: Config, s: State)
    requires Inv(c, s)
    ensures s.cells.Keys == c.lists.Keys && CellsOk(c, s)
  {
  }

  lemma StepStarts(c: Config, s: State, t: nat)
    requires Inv(c, s) && CanStep(c, s, t) && Asks(c, s.threads[t]) && Asked(c, s.threads[t]) in s.cells
    requires !s.cells[Asked(c, s.threads[t])].Init?
    ensures Inv(c, Step(c, s, t))
  {
    var th := s.threads[t];
    var k := Asked(c, th);
    var th' := th.(stack := th.stack + [Frame(k, [])]);
    StartStep(c, s, t);
    assert k !in s.completed;
    hide Step, CellsOk, ThreadOk, OnStack, Asked, Asks, CanStep;
    assert ThreadOk(c, s.cells, t, th);
    CellKeys(c, s);
    StartOk(c, s.cells, t, th);
    OnStackSnoc(th, Frame(k, []));
    CellsAfterChange(c, s, t, k, RunningBy(t), th');
    OtherThreads(c, s, s.cells[k := RunningBy(t)], t, k);
    InvIs(c, s, Step(c, s, t), t);
  }

  lemma StepAsks(c: Config, s: State, t: nat)
    requires Inv(c, s) && CanStep(c, s, t) && Asks(c, s.threads[t])
    ensures Inv(c, Step(c, s, t))
  {
    var th := s.threads[t];
    var k := Asked(c, th);
    if k !in s.cells {
      HopelessUnfold(c.lists, c.panics, k);
      UnregisteredIsAnswerable(c.lists, c.panics, k);
      CellsAreGood(c, s);
      ThrowOk(c, s.cells, t, th);
      CellsAfterThread(c, s, t, Throw(th));
    } else if s.cells[k].Init? {
      ReceiveOk(c, s.cells, t, th, s.cells[k].obj);
      CellsAfterThread(c, s, t, Receive(th, s.cells[k].obj));
    } else {
      StepStarts(c, s, t);
    }
  }

  /** The cell and the remaining marks of a thread whose innermost call ends. */
  lemma TopIsMarked(c: Config, s: State, t: nat)
    requires Inv(c, s) && t < |s.threads| && s.threads[t].stack != []
    ensures ThreadOk(c, s.cells, t, s.threads[t])
    ensures var top := Last(s.threads[t].stack);
            FrameOk(c, s.cells, t, top) && top.key !in s.completed
    ensures forall l :: l != Last(s.threads[t].stack).key && OnStack(s.threads[t], l) ==>
              OnStack(s.threads[t].(stack := s.threads[t].stack[..|s.threads[t].stack| - 1]), l)
  {
    var th := s.threads[t];
    assert ThreadOk(c, s.cells, t, th);
    assert FrameOk(c, s.cells, t, Last(th.stack));
    forall l | l != Last(th.stack).key && OnStack(th, l)
      ensures OnStack(th.(stack := th.stack[..|th.stack| - 1]), l)
    {
      StackAfterPop(th, l);
    }
  }

  lemma StepUnwinds(c: Config, s: State, t: nat)
    requires Inv(c, s) && CanStep(c, s, t) && !Asks(c, s.threads[t]) && s.threads[t].unwinding
    ensures Inv(c, Step(c, s, t))
  {
    var th := s.threads[t];
    var k := Last(th.stack).key;
    TopIsMarked(c, s, t);
    CellsAreGood(c, s);
    UnwindStep(c, s, t);
    CellKeys(c, s);
    hide CellsOk, FullAreGood, ThreadOk, Step, CanStep, OnStack;
    UnwoundOk(c, s.cells, t, th);
    CellsAfterChange(c, s, t, k, Uninit, Unwound(th));
    OtherThreads(c, s, s.cells[k := Uninit], t, k);
    InvIs(c, s, Step(c, s, t), t);
  }

  /** A call that asks for nothing more has read its whole list. */
  lemma AllRead(c: Config, cells: map<Id, Cell>, t: nat, th: Thread)
    requires th.stack != [] && FrameOk(c, cells, t, Last(th.stack)) && !Asks(c, th) && !th.unwinding
    ensures var top := Last(th.stack);
            && top.key in c.lists && top.key in cells && cells[top.key] == RunningBy(t)
            && |top.got| == |c.lists[top.key]|
            && forall j :: 0 <= j < |top.got| ==> Holds(cells, c.lists[top.key][j], top.got[j])
  {
  }

  lemma StepFinishes(c: Config, s: State, t: nat)
    requires Inv(c, s) && CanStep(c, s, t) && !Asks(c, s.threads[t]) && !s.threads[t].unwinding
    requires Last(s.threads[t].stack).key !in c.panics
    ensures Inv(c, Step(c, s, t))
  {
    var th := s.threads[t];
    var top := Last(th.stack);
    TopIsMarked(c, s, t);
    FinishStep(c, s, t);
    CellKeys(c, s);
    AllRead(c, s.cells, t, th);
    hide CellsOk, ThreadOk, Step, CanStep, OnStack, FrameOk;
    FinishOk(c, s.cells, t, th, Obj(s.nextUid, top.key, top.got));
    CellsAfterFinish(c, s, t, top.key, top.got, th.(stack := th.stack[..|th.stack| - 1]));
    OtherThreads(c, s, s.cells[top.key := Init(Obj(s.nextUid, top.key, top.got))], t, top.key);
    InvIs(c, s, Step(c, s, t), t);
  }

  lemma StepReturns(c: Config, s: State, t: nat)
    requires Inv(c, s) && CanStep(c, s, t) && !Asks(c, s.threads[t])
    ensures Inv(c, Step(c, s, t))
  {
    var th := s.threads[t];
    TopIsMarked(c, s, t);
    CellsAreGood(c, s);
    if th.unwinding {
      StepUnwinds(c, s, t);
    } else if Last(th.stack).key in c.panics {
      ThrowOk(c, s.cells, t, th);
      CellsAfterThread(c, s, t, Throw(th));
    } else {
      StepFinishes(c, s, t);
    }
  }

  /** Safety: every step of every thread keeps the invariant. */
  lemma StepKeepsInv(c: Config, s: State, t: nat)
    requires Inv(c, s) && CanStep(c, s, t)
    ensures Inv(c, Step(c, s, t))
  {
    var th := s.threads[t];
    assert ThreadOk(c, s.cells, t, th);
    if Asks(c, th) {
      StepAsks(c, s, t);
    } else {
      StepReturns(c, s, t);
    }
  }

  // ---- progress -----------------------------------------------------------------------------------

  /** The reads that can happen. */
  ghost function Trimmed(c: Config): Deps {
    Trim(c.lists, c.panics)
  }

  /** The read in progress, like those before it, is one that can happen. */
  lemma NextHappens(c: Config, cells: map<Id, Cell>, t: nat, f: Frame)
    requires FullAreGood(c, cells) && FrameOk(c, cells, t, f) && |f.got| < |ListOf(c, f)|
    ensures |f.got| < |DepsOf(Trimmed(c), f.key)|
    ensures DepsOf(Trimmed(c), f.key)[|f.got|] == ListOf(c, f)[|f.got|]
    ensures Edge(Trimmed(c), f.key, ListOf(c, f)[|f.got|])
  {
    ReadsAreGood(c, cells, t, f);
    NextReadHappens(c.lists, c.panics, f.key, |f.got|);
  }

  /** Whatever is on a thread's stack leads to the key on top, over reads that can happen. */
  lemma {:induction false} StackReaches(c: Config, cells: map<Id, Cell>, t: nat, stack: seq<Frame>, i: nat, j: nat)
    requires FullAreGood(c, cells) && StackOk(c, cells, t, stack) && i <= j < |stack|
    ensures Reach(Trimmed(c), stack[i].key, stack[j].key)
    decreases j - i
  {
    hide Trimmed, FullAreGood, Reach;
    if i == j {
      ReachRefl(Trimmed(c), stack[i].key);
    } else {
      StackReaches(c, cells, t, stack, i + 1, j);
      assert LinkOk(c, stack, i) && FrameOk(c, cells, t, stack[i]);
      NextHappens(c, cells, t, stack[i]);
      ReachCons(Trimmed(c), stack[i].key, stack[i + 1].key, stack[j].key);
    }
  }

  /** From every key a thread holds, what it asks for can be reached, in at least one read. */
  lemma HeldReachesAsked(c: Config, cells: map<Id, Cell>, t: nat, th: Thread, k: Id)
    requires FullAreGood(c, cells) && ThreadOk(c, cells, t, th) && OnStack(th, k) && Asks(c, th)
    ensures Reach(Trimmed(c), k, Last(th.stack).key)
    ensures Edge(Trimmed(c), Last(th.stack).key, Asked(c, th))
  {
    hide Trimmed, FullAreGood, AnswerOk, Failing, Reach, Edge, FrameOk, LinkOk;
    var i :| 0 <= i < |th.stack| && th.stack[i].key == k;
    StackReaches(c, cells, t, th.stack, i, |th.stack| - 1);
    assert FrameOk(c, cells, t, th.stack[|th.stack| - 1]);
    NextHappens(c, cells, t, Last(th.stack));
  }

  /** A thread asks for something of smaller rank than any answerable key it holds. */
  lemma HeldOutranksAsked(c: Config, cells: map<Id, Cell>, t: nat, th: Thread, k: Id)
    requires FullAreGood(c, cells) && ThreadOk(c, cells, t, th) && OnStack(th, k) && Asks(c, th)
    requires Answerable(c.lists, c.panics, k)
    ensures Answerable(c.lists, c.panics, Asked(c, th))
    ensures Rank(Trimmed(c), Asked(c, th)) < Rank(Trimmed(c), k)
  {
    var top := Last(th.stack).key;
    HeldReachesAsked(c, cells, t, th, k);
    ReachDecreasesRank(Trimmed(c), k, top);
    AcyclicFromReach(Trimmed(c), k, top);
    EdgeDecreasesRank(Trimmed(c), top, Asked(c, th));
    AcyclicFromEdge(Trimmed(c), top, Asked(c, th));
  }

  /** While the lookup of an answerable key lasts, everything asked for on its behalf is answerable. */
  lemma AskedIsAnswerable(c: Config, s: State, t: nat)
    requires Inv(c, s) && t < |s.threads| && Asks(c, s.threads[t])
    requires s.threads[t].goals != [] && Answerable(c.lists, c.panics, s.threads[t].goals[0])
    ensures Answerable(c.lists, c.panics, Asked(c, s.threads[t]))
  {
    var th := s.threads[t];
    assert ThreadOk(c, s.cells, t, th);
    CellsAreGood(c, s);
    if th.stack != [] {
      assert OnStack(th, th.stack[0].key);
      HeldOutranksAsked(c, s.cells, t, th, th.stack[0].key);
    }
  }

  /** Looking up an answerable key, no thread asks for a cell it is filling itself. */
  lemma NoReentry(c: Config, s: State, t: nat)
    requires Inv(c, s) && t < |s.threads| && Asks(c, s.threads[t])
    requires s.threads[t].goals != [] && Answerable(c.lists, c.panics, s.threads[t].goals[0])
    ensures Asked(c, s.threads[t]) in s.cells ==> s.cells[Asked(c, s.threads[t])] != RunningBy(t)
  {
    var th := s.threads[t];
    assert ThreadOk(c, s.cells, t, th);
    var k := Asked(c, th);
    if k in s.cells && s.cells[k] == RunningBy(t) {
      CellsAreGood(c, s);
      AskedIsAnswerable(c, s, t);
      HeldOutranksAsked(c, s.cells, t, th, k);
    }
  }

  /** A thread that waits for an answerable key waits for one that can step, or for one that waits too. */
  lemma {:induction false} WaitingEnds(c: Config, s: State, t: nat) returns (u: nat)
    requires Inv(c, s) && t < |s.threads| && Asks(c, s.threads[t])
    requires s.threads[t].goals != [] && Answerable(c.lists, c.panics, Asked(c, s.threads[t]))
    ensures CanStep(c, s, u)
    decreases Rank(Trimmed(c), Asked(c, s.threads[t]))
  {
    hide Answerable, Rank, FrameOk, LinkOk, AnswerOk, Failing, CellOk;
    if CanStep(c, s, t) {
      u := t;
    } else {
      var k := Asked(c, s.threads[t]);
      var owner := s.cells[k].thread;
      assert ThreadOk(c, s.cells, owner, s.threads[owner]) && OnStack(s.threads[owner], k);
      if CanStep(c, s, owner) {
        u := owner;
      } else {
        CellsAreGood(c, s);
        HeldOutranksAsked(c, s.cells, owner, s.threads[owner], k);
        u := WaitingEnds(c, s, owner);
      }
    }
  }

  /**
   * Deadlock freedom, lookup by lookup: as long as some thread has an answerable key to look up, some
   * thread can step, whatever the other threads look up and wherever they hang.
   */
  lemma SomeThreadCanStep(c: Config, s: State, t: nat) returns (u: nat)
    requires Inv(c, s) && t < |s.threads| && s.threads[t].goals != []
    requires Answerable(c.lists, c.panics, s.threads[t].goals[0])
    ensures CanStep(c, s, u)
  {
    if Asks(c, s.threads[t]) {
      AskedIsAnswerable(c, s, t);
      u := WaitingEnds(c, s, t);
    } else {
      u := t;
    }
  }

  // ---- every run is finite --------------------------------------------------------------------------

  /** The most steps that resolving `k` from scratch can take one thread. */
  ghost function Cost(g: Deps, k: Id): nat
    requires AcyclicFrom(g, k)
    decreases Rank(g, k), |DepsOf(g, k)| + 1
  {
    3 + CostFrom(g, k, 0)
  }

  ghost function CostFrom(g: Deps, k: Id, j: nat): nat
    requires AcyclicFrom(g, k) && j <= |DepsOf(g, k)|
    decreases Rank(g, k), |DepsOf(g, k)| - j
  {
    if j == |DepsOf(g, k)| then 0
    else
      EdgeDecreasesRank(g, k, DepsOf(g, k)[j]);
      AcyclicFromEdge(g, k, DepsOf(g, k)[j]);
      Cost(g, DepsOf(g, k)[j]) + CostFrom(g, k, j + 1)
  }

  /**
   * What asking for `k` can still cost: one step once its cell is full. Starting a key that is not
   * answerable is paid for by `Opening`, since it is started at most once in all.
   */
  ghost function Ask(c: Config, cells: map<Id, Cell>, k: Id): nat {
    if !Answerable(c.lists, c.panics, k) then 0
    else if k in cells && cells[k].Init? then 1
    else Cost(Trimmed(c), k)
  }

  ghost function AskAll(c: Config, cells: map<Id, Cell>, ks: seq<Id>): nat {
    if ks == [] then 0 else Ask(c, cells, ks[0]) + AskAll(c, cells, ks[1..])
  }

  /** What starting `k` can cost before it hangs in a read that is not answerable. */
  ghost function Opening(c: Config): Id -> nat {
    k => 3 + AskAll(c, map[], DepsOf(Trimmed(c), k))
  }

  /** The keys that were not started and will hang. */
  ghost function Unopened(c: Config, cells: map<Id, Cell>): set<Id> {
    set k | k in cells && cells[k].Uninit? && !Answerable(c.lists, c.panics, k)
  }

  ghost function OpeningsLeft(c: Config, cells: map<Id, Cell>): nat {
    Sum(Opening(c), Unopened(c, cells))
  }

  ghost function Unbegun(c: Config, f: Frame, inner: bool): seq<Id> {
    var n := |f.got| + if inner then 1 else 0;
    if n <= |DepsOf(Trimmed(c), f.key)| then DepsOf(Trimmed(c), f.key)[n..] else []
  }

  /**
   * What the calls on the stack can still cost: two steps each, to return and to have the result
   * taken, and the reads not begun. The read in progress of an outer call is its inner call.
   */
  ghost function StackLeft(c: Config, cells: map<Id, Cell>, stack: seq<Frame>, inner: bool): nat {
    if stack == [] then 0
    else
      StackLeft(c, cells, stack[..|stack| - 1], true) + 2 + AskAll(c, cells, Unbegun(c, Last(stack), inner))
  }

  /** The lookups not begun: the first one is in progress while there is a call on the stack. */
  function GoalsLeft(th: Thread): seq<Id> {
    if th.stack != [] && th.goals != [] then th.goals[1..] else th.goals
  }

  ghost function ThreadLeft(c: Config, cells: map<Id, Cell>, th: Thread): nat {
    AskAll(c, cells, GoalsLeft(th)) + if th.unwinding then |th.stack| else StackLeft(c, cells, th.stack, false)
  }

  /** What is full in `cells` is full in `next`, with the same service. */
  ghost predicate KeepsFull(cells: map<Id, Cell>, next: map<Id, Cell>) {
    forall l, o :: Holds(cells, l, o) ==> Holds(next, l, o)
  }

  lemma {:induction false} AskAllCheaper(c: Config, cells: map<Id, Cell>, next: map<Id, Cell>, ks: seq<Id>)
    requires KeepsFull(cells, next)
    ensures AskAll(c, next, ks) <= AskAll(c, cells, ks)
  {
    if ks == [] {
    } else {
      AskAllCheaper(c, cells, next, ks[1..]);
      if ks[0] in cells && cells[ks[0]].Init? {
        assert Holds(cells, ks[0], cells[ks[0]].obj);
      }
    }
  }

  lemma {:induction false} StackCheaper(c: Config, cells: map<Id, Cell>, next: map<Id, Cell>, stack: seq<Frame>, inner: bool)
    requires KeepsFull(cells, next)
    ensures StackLeft(c, next, stack, inner) <= StackLeft(c, cells, stack, inner)
    decreases |stack|
  {
    if stack == [] {
    } else {
      StackCheaper(c, cells, next, stack[..|stack| - 1], true);
      AskAllCheaper(c, cells, next, Unbegun(c, Last(stack), inner));
    }
  }

  lemma ThreadCheaper(c: Config, cells: map<Id, Cell>, next: map<Id, Cell>, th: Thread)
    requires KeepsFull(cells, next)
    ensures ThreadLeft(c, next, th) <= ThreadLeft(c, cells, th)
  {
    AskAllCheaper(c, cells, next, GoalsLeft(th));
    StackCheaper(c, cells, next, th.stack, false);
  }

  lemma {:induction false} StackIsWorthTwo(c: Config, cells: map<Id, Cell>, stack: seq<Frame>, inner: bool)
    ensures StackLeft(c, cells, stack, inner) >= 2 * |stack|
    decreases |stack|
  {
    if stack == [] {
    } else {
      StackIsWorthTwo(c, cells, stack[..|stack| - 1], true);
    }
  }

  /** Beginning an answerable key costs less than asking for it. */
  lemma {:induction false} AskAllWithinCost(c: Config, cells: map<Id, Cell>, k: Id, j: nat)
    requires Answerable(c.lists, c.panics, k) && j <= |DepsOf(Trimmed(c), k)|
    ensures AskAll(c, cells, DepsOf(Trimmed(c), k)[j..]) <= CostFrom(Trimmed(c), k, j)
    decreases |DepsOf(Trimmed(c), k)| - j
  {
    var list := DepsOf(Trimmed(c), k);
    if j == |list| {
    } else {
      AskAllWithinCost(c, cells, k, j + 1);
      assert list[j..][1..] == list[j + 1..];
      assert Edge(Trimmed(c), k, list[j]);
      AcyclicFromEdge(Trimmed(c), k, list[j]);
    }
  }

  /** The read in progress of the innermost call. */
  lemma NextRead(c: Config, cells: map<Id, Cell>, f: Frame)
    requires |f.got| < |DepsOf(Trimmed(c), f.key)|
    ensures AskAll(c, cells, Unbegun(c, f, false)) ==
            Ask(c, cells, DepsOf(Trimmed(c), f.key)[|f.got|]) + AskAll(c, cells, Unbegun(c, f, true))
  {
    assert Unbegun(c, f, false)[1..] == Unbegun(c, f, true);
  }

  /** A thread that asks for `k`: what is left is asking for `k` and what comes after. */
  ghost function AfterAsked(c: Config, cells: map<Id, Cell>, th: Thread): nat
    requires Asks(c, th)
  {
    if th.stack == [] then AskAll(c, cells, th.goals[1..])
    else AskAll(c, cells, GoalsLeft(th)) + StackLeft(c, cells, th.stack, true)
  }

  lemma AskedIsLeft(c: Config, cells: map<Id, Cell>, t: nat, th: Thread)
    requires FullAreGood(c, cells) && ThreadOk(c, cells, t, th) && Asks(c, th)
    ensures ThreadLeft(c, cells, th) == Ask(c, cells, Asked(c, th)) + AfterAsked(c, cells, th)
  {
    if th.stack != [] {
      NextHappens(c, cells, t, Last(th.stack));
      NextRead(c, cells, Last(th.stack));
    }
  }

  lemma AskedIsAnswered(c: Config, cells: map<Id, Cell>, th: Thread, o: Obj)
    requires FullAreGood(c, cells) && Asks(c, th) && Holds(cells, Asked(c, th), o)
    ensures Ask(c, cells, Asked(c, th)) == 1
  {
    GoodIsAnswerable(c.lists, c.panics, Asked(c, th));
  }

  lemma ReceiveIsCheaper(c: Config, cells: map<Id, Cell>, t: nat, th: Thread, o: Obj)
    requires FullAreGood(c, cells) && ThreadOk(c, cells, t, th) && Asks(c, th) && Holds(cells, Asked(c, th), o)
    ensures ThreadLeft(c, cells, Receive(th, o)) < ThreadLeft(c, cells, th)
  {
    hide ThreadOk, FullAreGood, Answerable, Good;
    AskedIsLeft(c, cells, t, th);
    AskedIsAnswered(c, cells, th, o);
    if th.stack != [] {
      var n := |th.stack| - 1;
      var th' := Receive(th, o);
      assert th'.stack[..n] == th.stack[..n];
      assert Unbegun(c, Last(th'.stack), false) == Unbegun(c, Last(th.stack), true);
    }
  }

  lemma ThrowIsCheaper(c: Config, cells: map<Id, Cell>, th: Thread)
    requires cells.Keys == c.lists.Keys && !th.unwinding
    requires th.stack == [] ==> th.goals != [] && th.goals[0] !in cells
    ensures ThreadLeft(c, cells, Throw(th)) < ThreadLeft(c, cells, th)
  {
    StackIsWorthTwo(c, cells, th.stack, false);
    if th.stack == [] {
      UnregisteredIsAnswerable(c.lists, c.panics, th.goals[0]);
    }
  }

  /** Starting a key is paid for by the asker if the key is answerable, and by its opening if not. */
  lemma StartIsCheaper(c: Config, cells: map<Id, Cell>, t: nat, th: Thread)
    requires FullAreGood(c, cells) && ThreadOk(c, cells, t, th)
    requires Asks(c, th) && Asked(c, th) in cells && cells[Asked(c, th)].Uninit?
    ensures var k := Asked(c, th);
            ThreadLeft(c, cells, th.(stack := th.stack + [Frame(k, [])])) <
            ThreadLeft(c, cells, th) + if Answerable(c.lists, c.panics, k) then 0 else Opening(c)(k)
  {
    var k := Asked(c, th);
    var th' := th.(stack := th.stack + [Frame(k, [])]);
    var list := DepsOf(Trimmed(c), k);
    AskedIsLeft(c, cells, t, th);
    assert th'.stack[..|th.stack|] == th.stack;
    assert Unbegun(c, Frame(k, []), false) == list;
    assert list[0..] == list;
    assert StackLeft(c, cells, th'.stack, false) == StackLeft(c, cells, th.stack, true) + 2 + AskAll(c, cells, list);
    if Answerable(c.lists, c.panics, k) {
      AskAllWithinCost(c, cells, k, 0);
    } else {
      AskAllCheaper(c, map[], cells, list);
    }
  }

  /** The caller of a key that has become full takes its content in one step. */
  lemma CallerTakes(c: Config, cells: map<Id, Cell>, next: map<Id, Cell>, t: nat, stack: seq<Frame>, k: Id)
    requires FullAreGood(c, cells) && StackOk(c, cells, t, stack) && stack != [] && KeepsFull(cells, next)
    requires |Last(stack).got| < |ListOf(c, Last(stack))| && ListOf(c, Last(stack))[|Last(stack).got|] == k
    requires k in next && next[k].Init?
    ensures StackLeft(c, next, stack, false) <= StackLeft(c, cells, stack, true) + 1
  {
    hide Answerable, Trimmed, Cost, FullAreGood, KeepsFull, LinkOk;
    var f := stack[|stack| - 1];
    assert FrameOk(c, cells, t, f);
    NextHappens(c, cells, t, f);
    NextRead(c, next, f);
    StackCheaper(c, cells, next, stack, true);
    hide FrameOk, Unbegun;
    assert Ask(c, next, k) <= 1;
  }

  /** What is left to a thread inside a call. */
  lemma BusyThreadLeft(c: Config, cells: map<Id, Cell>, th: Thread)
    requires th.stack != [] && th.goals != [] && !th.unwinding
    ensures ThreadLeft(c, cells, th) >=
            AskAll(c, cells, th.goals[1..]) + StackLeft(c, cells, th.stack[..|th.stack| - 1], true) + 2
  {
  }

  lemma BusyThreadIs(c: Config, cells: map<Id, Cell>, th: Thread)
    requires th.stack != [] && th.goals != [] && !th.unwinding
    ensures ThreadLeft(c, cells, th) == AskAll(c, cells, th.goals[1..]) + StackLeft(c, cells, th.stack, false)
  {
  }

  /** What is left to a thread between two lookups, the next of which finds its cell full. */
  lemma IdleThreadLeft(c: Config, cells: map<Id, Cell>, th: Thread, k: Id)
    requires th.stack == [] && th.goals != [] && th.goals[0] == k && !th.unwinding && k in cells && cells[k].Init?
    ensures ThreadLeft(c, cells, th) <= AskAll(c, cells, th.goals[1..]) + 1
  {
    hide Answerable, Cost;
  }

  /** The innermost call returned and its cell is full. */
  lemma FinishIsCheaper(c: Config, cells: map<Id, Cell>, next: map<Id, Cell>, t: nat, th: Thread, o: Obj)
    requires FullAreGood(c, cells) && ThreadOk(c, cells, t, th) && th.stack != [] && !th.unwinding && !Asks(c, th)
    requires next == cells[Last(th.stack).key := Init(o)]
    ensures ThreadLeft(c, next, th.(stack := th.stack[..|th.stack| - 1])) < ThreadLeft(c, cells, th)
  {
    var k := Last(th.stack).key;
    var rest := th.stack[..|th.stack| - 1];
    assert FrameOk(c, cells, t, Last(th.stack));
    FullStays(cells, next, t, k);
    PrefixOk(c, cells, t, th.stack, rest);
    if rest != [] {
      LastLink(c, cells, t, th.stack);
    }
    hide *;
    BusyThreadLeft(c, cells, th);
    AskAllCheaper(c, cells, next, th.goals[1..]);
    if rest == [] {
      IdleThreadLeft(c, next, th.(stack := rest), k);
    } else {
      CallerTakes(c, cells, next, t, rest, k);
      BusyThreadIs(c, next, th.(stack := rest));
    }
  }

  lemma UnwoundIsCheaper(c: Config, cells: map<Id, Cell>, th: Thread)
    requires th.unwinding && th.stack != [] && th.goals != []
    ensures ThreadLeft(c, cells, Unwound(th)) < ThreadLeft(c, cells, th)
  {
  }

  /** A key that will hang is opened at most once: its cell is never given back. */
  lemma OpeningsAfter(c: Config, cells: map<Id, Cell>, next: map<Id, Cell>, t: nat, k: Id)
    requires CellStep(cells, next, t, k)
    requires next[k].Uninit? ==> Answerable(c.lists, c.panics, k)
    ensures OpeningsLeft(c, next) + (if cells[k].Uninit? && !Answerable(c.lists, c.panics, k) then Opening(c)(k) else 0)
            == OpeningsLeft(c, cells)
  {
    hide Answerable;
    if cells[k].Uninit? && !Answerable(c.lists, c.panics, k) {
      assert Unopened(c, cells) == Unopened(c, next) + {k};
      SumAdd(Opening(c), Unopened(c, next), k);
    } else {
      assert Unopened(c, cells) == Unopened(c, next);
    }
  }

  /** What is full stays full with the same service, whoever steps. */
  lemma StepKeepsFull(c: Config, s: State, t: nat)
    requires Inv(c, s) && CanStep(c, s, t)
    ensures KeepsFull(s.cells, Step(c, s, t).cells)
  {
    var th := s.threads[t];
    assert ThreadOk(c, s.cells, t, th);
    if !Asks(c, th) {
      assert FrameOk(c, s.cells, t, Last(th.stack));
    }
  }

  lemma ReturnIsPaid(c: Config, s: State, t: nat)
    requires Inv(c, s) && CanStep(c, s, t) && !Asks(c, s.threads[t])
    ensures var s' := Step(c, s, t);
            && ThreadLeft(c, s'.cells, s'.threads[t]) < ThreadLeft(c, s.cells, s.threads[t])
            && OpeningsLeft(c, s'.cells) == OpeningsLeft(c, s.cells)
  {
    var th, s' := s.threads[t], Step(c, s, t);
    assert ThreadOk(c, s.cells, t, th);
    var top := Last(th.stack);
    assert FrameOk(c, s.cells, t, top);
    CellsAreGood(c, s);
    StepKeepsFull(c, s, t);
    ThreadCheaper(c, s.cells, s'.cells, s'.threads[t]);
    if th.unwinding {
      UnwoundIsCheaper(c, s.cells, th);
      OpeningsAfter(c, s.cells, s'.cells, t, top.key);
    } else if top.key in c.panics {
      ThrowIsCheaper(c, s.cells, th);
    } else {
      FinishIsCheaper(c, s.cells, s'.cells, t, th, Obj(s.nextUid, top.key, top.got));
      OpeningsAfter(c, s.cells, s'.cells, t, top.key);
    }
  }

  lemma StartIsPaid(c: Config, s: State, t: nat)
    requires Inv(c, s) && CanStep(c, s, t) && Asks(c, s.threads[t])
    requires Asked(c, s.threads[t]) in s.cells && !s.cells[Asked(c, s.threads[t])].Init?
    ensures var s', k := Step(c, s, t), Asked(c, s.threads[t]);
            && ThreadLeft(c, s'.cells, s'.threads[t]) + OpeningsLeft(c, s'.cells) <
               ThreadLeft(c, s.cells, s.threads[t]) + OpeningsLeft(c, s.cells)
            && OpeningsLeft(c, s'.cells) <= OpeningsLeft(c, s.cells)
            && (Answerable(c.lists, c.panics, k) ==> OpeningsLeft(c, s'.cells) == OpeningsLeft(c, s.cells))
  {
    var th, s' := s.threads[t], Step(c, s, t);
    var k := Asked(c, th);
    assert ThreadOk(c, s.cells, t, th);
    CellsAreGood(c, s);
    StepKeepsFull(c, s, t);
    hide ThreadOk, FullAreGood, CellsOk, KeepsFull, ThreadLeft, OpeningsLeft, Answerable, Opening;
    ThreadCheaper(c, s.cells, s'.cells, s'.threads[t]);
    assert s'.threads[t] == th.(stack := th.stack + [Frame(k, [])]);
    StartIsCheaper(c, s.cells, t, th);
    OpeningsAfter(c, s.cells, s'.cells, t, k);
  }

  /** The share of the thread that steps. */
  lemma StepIsPaid(c: Config, s: State, t: nat)
    requires Inv(c, s) && CanStep(c, s, t)
    ensures var s' := Step(c, s, t);
            && ThreadLeft(c, s'.cells, s'.threads[t]) + OpeningsLeft(c, s'.cells) <
               ThreadLeft(c, s.cells, s.threads[t]) + OpeningsLeft(c, s.cells)
            && OpeningsLeft(c, s'.cells) <= OpeningsLeft(c, s.cells)
            && ((Asks(c, s.threads[t]) ==> Answerable(c.lists, c.panics, Asked(c, s.threads[t]))) ==>
                  OpeningsLeft(c, s'.cells) == OpeningsLeft(c, s.cells))
  {
    var th, s' := s.threads[t], Step(c, s, t);
    assert ThreadOk(c, s.cells, t, th);
    CellsAreGood(c, s);
    StepKeepsFull(c, s, t);
    ThreadCheaper(c, s.cells, s'.cells, s'.threads[t]);
    hide ThreadOk, FullAreGood, KeepsFull, CellOk, ThreadLeft, OpeningsLeft, Answerable, Opening, Failing;
    if !Asks(c, th) {
      ReturnIsPaid(c, s, t);
    } else if Asked(c, th) !in s.cells {
      ThrowIsCheaper(c, s.cells, th);
    } else if s.cells[Asked(c, th)].Init? {
      ReceiveIsCheaper(c, s.cells, t, th, s.cells[Asked(c, th)].obj);
    } else {
      StartIsPaid(c, s, t);
    }
  }

  /**
   * Every step lowers the work left: what the thread that makes it has left, and what is left to open
   * of the keys that hang. It raises no other thread's, and a thread looking up an answerable key
   * comes closer to its own end.
   */
  lemma StepIsCheaper(c: Config, s: State, t: nat)
    requires Inv(c, s) && CanStep(c, s, t)
    ensures var s' := Step(c, s, t);
            && |s'.threads| == |s.threads|
            && ThreadLeft(c, s'.cells, s'.threads[t]) + OpeningsLeft(c, s'.cells) <
               ThreadLeft(c, s.cells, s.threads[t]) + OpeningsLeft(c, s.cells)
            && (s.threads[t].goals != [] && Answerable(c.lists, c.panics, s.threads[t].goals[0]) ==>
                  ThreadLeft(c, s'.cells, s'.threads[t]) < ThreadLeft(c, s.cells, s.threads[t]))
            && OpeningsLeft(c, s'.cells) <= OpeningsLeft(c, s.cells)
            && forall u :: 0 <= u < |s.threads| && u != t ==>
                 ThreadLeft(c, s'.cells, s'.threads[u]) <= ThreadLeft(c, s.cells, s.threads[u])
  {
    hide ThreadLeft, OpeningsLeft, Answerable, Inv;
    var s' := Step(c, s, t);
    StepKeepsFull(c, s, t);
    StepIsPaid(c, s, t);
    forall u | 0 <= u < |s.threads| && u != t
      ensures ThreadLeft(c, s'.cells, s'.threads[u]) <= ThreadLeft(c, s.cells, s.threads[u])
    {
      ThreadCheaper(c, s.cells, s'.cells, s.threads[u]);
    }
    if Asks(c, s.threads[t]) && s.threads[t].goals != [] && Answerable(c.lists, c.panics, s.threads[t].goals[0]) {
      AskedIsAnswerable(c, s, t);
    }
  }

  ghost function ThreadsLeft(c: Config, cells: map<Id, Cell>, threads: seq<Thread>): nat {
    if threads == [] then 0 else ThreadLeft(c, cells, threads[0]) + ThreadsLeft(c, cells, threads[1..])
  }

  lemma {:induction false} ThreadsNotMore(c: Config, cells: map<Id, Cell>, threads: seq<Thread>,
                                          next: map<Id, Cell>, threads': seq<Thread>)
    requires |threads| == |threads'|
    requires forall u :: 0 <= u < |threads| ==> ThreadLeft(c, next, threads'[u]) <= ThreadLeft(c, cells, threads[u])
    ensures ThreadsLeft(c, next, threads') <= ThreadsLeft(c, cells, threads)
  {
    hide ThreadLeft;
    if threads == [] {
    } else {
      assert ThreadLeft(c, next, threads'[0]) <= ThreadLeft(c, cells, threads[0]);
      ThreadsNotMore(c, cells, threads[1..], next, threads'[1..]);
    }
  }

  lemma {:induction false} ThreadsDrop(c: Config, cells: map<Id, Cell>, threads: seq<Thread>,
                                       next: map<Id, Cell>, threads': seq<Thread>, t: nat, extra: int)
    requires t < |threads| == |threads'|
    requires forall u :: 0 <= u < |threads| && u != t ==>
               ThreadLeft(c, next, threads'[u]) <= ThreadLeft(c, cells, threads[u])
    requires ThreadLeft(c, next, threads'[t]) < ThreadLeft(c, cells, threads[t]) + extra
    ensures ThreadsLeft(c, next, threads') < ThreadsLeft(c, cells, threads) + extra
  {
    hide ThreadLeft;
    if t > 0 {
      assert threads[1..][t - 1] == threads[t] && threads'[1..][t - 1] == threads'[t];
      assert ThreadLeft(c, next, threads'[0]) <= ThreadLeft(c, cells, threads[0]);
      ThreadsDrop(c, cells, threads[1..], next, threads'[1..], t - 1, extra);
    } else {
      ThreadsNotMore(c, cells, threads[1..], next, threads'[1..]);
    }
  }

  /** All that can still happen. */
  ghost function TotalLeft(c: Config, s: State): nat {
    ThreadsLeft(c, s.cells, s.threads) + OpeningsLeft(c, s.cells)
  }

  lemma TotalDrops(c: Config, s: State, t: nat)
    requires Inv(c, s) && CanStep(c, s, t)
    ensures |Step(c, s, t).threads| == |s.threads|
    ensures TotalLeft(c, Step(c, s, t)) < TotalLeft(c, s)
  {
    hide Inv, Step, ThreadLeft, OpeningsLeft, ThreadsLeft;
    var s' := Step(c, s, t);
    StepIsCheaper(c, s, t);
    ThreadsDrop(c, s.cells, s.threads, s'.cells, s'.threads, t, OpeningsLeft(c, s.cells) - OpeningsLeft(c, s'.cells));
  }

  // ---- runs -----------------------------------------------------------------------------------------

  /** A run: from each state, the thread named in `who` makes its step. */
  ghost predicate IsRun(c: Config, run: seq<State>, who: seq<nat>) {
    && |run| == |who| + 1
    && forall i :: 0 <= i < |who| ==> CanStep(c, run[i], who[i]) && run[i + 1] == Step(c, run[i], who[i])
  }

  /** The lookups a thread was given, answered or not. */
  function Script(th: Thread): seq<Id> {
    seq(|th.answers|, i requires 0 <= i < |th.answers| => th.answers[i].0) + th.goals
  }

  lemma StepKeepsScript(c: Config, s: State, t: nat, u: nat)
    requires CanStep(c, s, t) && u < |s.threads|
    ensures |Step(c, s, t).threads| == |s.threads|
    ensures Script(Step(c, s, t).threads[u]) == Script(s.threads[u])
  {
    var th := s.threads[t];
    if th.goals != [] {
      forall a ensures Script(Answered(th, a)) == Script(th) {
        assert th.goals == [th.goals[0]] + th.goals[1..];
      }
      if |th.stack| > 0 {
        var rest := th.(stack := th.stack[..|th.stack| - 1], unwinding := false);
        forall a ensures Script(Answered(rest, a)) == Script(th) {
          assert th.goals == [th.goals[0]] + th.goals[1..];
        }
      }
    }
  }

  /** The cells filled in between. */
  ghost function BecameFull(cells: map<Id, Cell>, next: map<Id, Cell>): set<Id> {
    set k | k in next && next[k].Init? && !(k in cells && cells[k].Init?)
  }

  lemma BecameFullRefl(cells: map<Id, Cell>)
    ensures BecameFull(cells, cells) == {} && KeepsFull(cells, cells)
  {
  }

  lemma BecameFullTrans(a: map<Id, Cell>, b: map<Id, Cell>, c: map<Id, Cell>)
    requires KeepsFull(a, b) && KeepsFull(b, c)
    ensures KeepsFull(a, c)
    ensures multiset(BecameFull(a, c)) == multiset(BecameFull(a, b)) + multiset(BecameFull(b, c))
  {
    assert forall k :: k in a && a[k].Init? ==> Holds(a, k, a[k].obj) && Holds(b, k, a[k].obj);
    assert forall k :: k in b && b[k].Init? ==> Holds(b, k, b[k].obj) && Holds(c, k, b[k].obj);
    assert BecameFull(a, c) == BecameFull(a, b) + BecameFull(b, c);
    assert BecameFull(a, b) !! BecameFull(b, c);
  }

  /** A factory call that returns fills one cell, and nothing else does. */
  lemma StepCompletes(c: Config, s: State, t: nat)
    requires Inv(c, s) && CanStep(c, s, t)
    ensures Step(c, s, t).completed == s.completed + multiset(BecameFull(s.cells, Step(c, s, t).cells))
  {
    var th, s' := s.threads[t], Step(c, s, t);
    assert ThreadOk(c, s.cells, t, th);
    if !Asks(c, th) && !th.unwinding && Last(th.stack).key !in c.panics {
      assert FrameOk(c, s.cells, t, Last(th.stack));
      assert BecameFull(s.cells, s'.cells) == {Last(th.stack).key};
    } else {
      assert BecameFull(s.cells, s'.cells) == {};
    }
  }

  lemma RunTail(c: Config, run: seq<State>, who: seq<nat>)
    requires IsRun(c, run, who)
    ensures |run| == |who| + 1
    ensures who != [] ==>
              && CanStep(c, run[0], who[0]) && run[1] == Step(c, run[0], who[0])
              && IsRun(c, run[1..], who[1..]) && Last(run[1..]) == Last(run) && run[1..][0] == run[1]
  {
    hide Step, CanStep;
  }

  /** What one step does to the whole. */
  lemma StepIsSafe(c: Config, s: State, t: nat)
    requires Inv(c, s) && CanStep(c, s, t)
    ensures var s' := Step(c, s, t);
            && Inv(c, s') && |s'.threads| == |s.threads| && KeepsFull(s.cells, s'.cells)
            && s'.completed == s.completed + multiset(BecameFull(s.cells, s'.cells))
            && (forall u :: 0 <= u < |s.threads| ==> Script(s'.threads[u]) == Script(s.threads[u]))
            && TotalLeft(c, s') < TotalLeft(c, s)
  {
    hide Inv, Step, CanStep, KeepsFull, BecameFull, Script, TotalLeft;
    StepKeepsInv(c, s, t);
    StepKeepsFull(c, s, t);
    StepCompletes(c, s, t);
    TotalDrops(c, s, t);
    forall u | 0 <= u < |s.threads| ensures Script(Step(c, s, t).threads[u]) == Script(s.threads[u]) {
      StepKeepsScript(c, s, t, u);
    }
  }

  /**
   * Every run is safe and finite: the invariant holds at its end, full cells never changed, each cell
   * that was filled was filled by one factory call that returned, every thread still has its script,
   * and it made no more steps than the work left at its start.
   */
  lemma {:induction false} RunsAreSafeAndFinite(c: Config, run: seq<State>, who: seq<nat>)
    requires IsRun(c, run, who) && Inv(c, run[0])
    ensures Inv(c, Last(run)) && |Last(run).threads| == |run[0].threads|
    ensures KeepsFull(run[0].cells, Last(run).cells)
    ensures Last(run).completed == run[0].completed + multiset(BecameFull(run[0].cells, Last(run).cells))
    ensures forall u :: 0 <= u < |run[0].threads| ==> Script(Last(run).threads[u]) == Script(run[0].threads[u])
    ensures |who| + TotalLeft(c, Last(run)) <= TotalLeft(c, run[0])
    decreases |who|
  {
    hide Inv, Step, KeepsFull, BecameFull, Script, TotalLeft, IsRun;
    RunTail(c, run, who);
    if who == [] {
      BecameFullRefl(run[0].cells);
    } else {
      StepIsSafe(c, run[0], who[0]);
      RunsAreSafeAndFinite(c, run[1..], who[1..]);
      BecameFullTrans(run[0].cells, run[1].cells, Last(run).cells);
    }
  }

  // ---- what the answers are ---------------------------------------------------------------------------

  lemma AnswerIsAnswerable(c: Config, s: State, t: nat, i: nat)
    requires Inv(c, s) && t < |s.threads| && i < |s.threads[t].answers|
    ensures var (k, a) := s.threads[t].answers[i];
            && Answerable(c.lists, c.panics, k)
            && (a == Panicked <==> !Good(c.lists, c.panics, k))
            && (a == Panicked <==> Hopeless(c.lists, c.panics, k))
            && (a.Got? ==> Holds(s.cells, k, a.obj))
  {
    var (k, a) := s.threads[t].answers[i];
    assert ThreadOk(c, s.cells, t, s.threads[t]);
    assert AnswerOk(c, s.cells, k, a);
    CellsAreGood(c, s);
    if a.Got? {
      GoodIsAnswerable(c.lists, c.panics, k);
    }
  }

  /**
   * The verdict of a lookup does not depend on the schedule. Only answerable keys get an answer; it
   * panicked exactly when an unregistered id or a panicking factory can be reached from its key, and
   * otherwise gave the one service in the cell of its key, as it gave everyone.
   */
  lemma AnswersAreDetermined(c: Config, s: State, t: nat, i: nat)
    requires Inv(c, s) && t < |s.threads| && i < |s.threads[t].answers|
    ensures var (k, a) := s.threads[t].answers[i];
            && Answerable(c.lists, c.panics, k)
            && (a == Panicked <==> Hopeless(c.lists, c.panics, k))
            && (a.Got? <==> Good(c.lists, c.panics, k))
            && (a.Got? ==> Holds(s.cells, k, a.obj))
            && forall u, j ::
                 (0 <= u < |s.threads| && 0 <= j < |s.threads[u].answers| && s.threads[u].answers[j].0 == k) ==>
                 s.threads[u].answers[j].1 == a
  {
    var (k, a) := s.threads[t].answers[i];
    AnswerIsAnswerable(c, s, t, i);
    forall u, j | 0 <= u < |s.threads| && 0 <= j < |s.threads[u].answers| && s.threads[u].answers[j].0 == k
      ensures s.threads[u].answers[j].1 == a
    {
      AnswerIsAnswerable(c, s, u, j);
    }
  }

  /**
   * At the end of a run that cannot go on, every thread has the answers to the lookups of its script
   * up to the first key that is not answerable, whatever the other threads looked up: it finished
   * exactly when its whole script is answerable.
   */
  lemma StuckMeansAnswered(c: Config, s: State, t: nat)
    requires Inv(c, s) && t < |s.threads|
    requires forall u :: 0 <= u < |s.threads| ==> !CanStep(c, s, u)
    ensures var n := |s.threads[t].answers|;
            && n <= |Script(s.threads[t])|
            && (forall i :: 0 <= i < n ==>
                  && s.threads[t].answers[i].0 == Script(s.threads[t])[i]
                  && Answerable(c.lists, c.panics, Script(s.threads[t])[i])
                  && (s.threads[t].answers[i].1 == Panicked <==>
                      Hopeless(c.lists, c.panics, Script(s.threads[t])[i])))
            && (n < |Script(s.threads[t])| ==> !Answerable(c.lists, c.panics, Script(s.threads[t])[n]))
    ensures Finished(s.threads[t]) <==>
            forall k :: k in Script(s.threads[t]) ==> Answerable(c.lists, c.panics, k)
  {
    var th := s.threads[t];
    hide Answerable, Hopeless, CanStep;
    if th.goals != [] && Answerable(c.lists, c.panics, th.goals[0]) {
      var u := SomeThreadCanStep(c, s, t);
    }
    forall i | 0 <= i < |th.answers|
      ensures Answerable(c.lists, c.panics, th.answers[i].0)
      ensures th.answers[i].1 == Panicked <==> Hopeless(c.lists, c.panics, th.answers[i].0)
    {
      AnswersAreDetermined(c, s, t, i);
    }
    assert th.goals != [] ==> Script(th)[|th.answers|] == th.goals[0];
    assert ThreadOk(c, s.cells, t, th);
  }

  predicate ObjFits(o: Obj, path: seq<nat>)
    decreases |path|
  {
    path != [] ==> path[0] < |o.fields| && ObjFits(o.fields[path[0]], path[1..])
  }

  /** The service a path of field positions leads to. */
  function ObjAt(o: Obj, path: seq<nat>): Obj
    requires ObjFits(o, path)
    decreases |path|
  {
    if path == [] then o else ObjAt(o.fields[path[0]], path[1..])
  }

  /** Following fields ends in the cell of the declared key, so sharing is as declared under any schedule. */
  lemma {:induction false} FieldsFollowDeclarations(c: Config, s: State, k: Id, o: Obj, path: seq<nat>)
    requires CellsOk(c, s) && Holds(s.cells, k, o) && PathFits(c.lists, k, path)
    ensures ObjFits(o, path) && Holds(s.cells, KeyAt(c.lists, k, path), ObjAt(o, path))
    decreases |path|
  {
    if path == [] {
    } else {
      assert CellOk(c, s.cells, s.nextUid, k);
      FieldsFollowDeclarations(c, s, c.lists[k][path[0]], o.fields[path[0]], path[1..]);
    }
  }

  lemma SharingIsDeclared(c: Config, s: State, k: Id, o: Obj, p: seq<nat>, l: Id, r: Obj, q: seq<nat>)
    requires Inv(c, s) && Holds(s.cells, k, o) && Holds(s.cells, l, r)
    requires PathFits(c.lists, k, p) && PathFits(c.lists, l, q)
    ensures ObjFits(o, p) && ObjFits(r, q)
    ensures ObjAt(o, p).uid == ObjAt(r, q).uid <==> KeyAt(c.lists, k, p) == KeyAt(c.lists, l, q)
  {
    FieldsFollowDeclarations(c, s, k, o, p);
    FieldsFollowDeclarations(c, s, l, r, q);
  }

  /** A container before any lookup: empty cells, and full ones for the pre-built instances. */
  ghost predicate Initial(c: Config, s: State) {
    && s.cells.Keys == c.lists.Keys && s.completed == multiset{}
    && (forall k :: k in s.cells ==> !s.cells[k].RunningBy? && CellOk(c, s.cells, s.nextUid, k))
    && (forall k :: k in s.cells && s.cells[k].Init? ==> c.lists[k] == [])
    && (forall k, l :: k in s.cells && l in s.cells && s.cells[k].Init? && s.cells[l].Init? && k != l ==>
          s.cells[k].obj.uid != s.cells[l].obj.uid)
    && (forall t :: 0 <= t < |s.threads| ==>
          s.threads[t].stack == [] && s.threads[t].answers == [] && !s.threads[t].unwinding)
  }

  lemma InitialIsInv(c: Config, s: State)
    requires Initial(c, s)
    ensures Inv(c, s)
  {
  }

  /** A run from a container before any lookup, to where no thread can go on. */
  ghost predicate IsFullRun(c: Config, run: seq<State>, who: seq<nat>) {
    IsRun(c, run, who) && Initial(c, run[0]) && forall u :: 0 <= u < |Last(run).threads| ==> !CanStep(c, Last(run), u)
  }

  /**
   * What came of a full run, thread by thread: the answers to its lookups up to the first key that is
   * not answerable. The verdict of an answer is that of its key.
   */
  lemma FullRunAnswers(c: Config, run: seq<State>, who: seq<nat>, t: nat)
    requires IsFullRun(c, run, who) && t < |run[0].threads|
    ensures |Last(run).threads| == |run[0].threads|
    ensures var goals, answers := run[0].threads[t].goals, Last(run).threads[t].answers;
            && |answers| <= |goals|
            && (forall i :: 0 <= i < |answers| ==>
                  && answers[i].0 == goals[i] && Answerable(c.lists, c.panics, goals[i])
                  && (answers[i].1 == Panicked <==> Hopeless(c.lists, c.panics, goals[i])))
            && (|answers| < |goals| ==> !Answerable(c.lists, c.panics, goals[|answers|]))
  {
    hide Inv, Answerable, Hopeless, Step, CanStep;
    InitialIsInv(c, run[0]);
    RunsAreSafeAndFinite(c, run, who);
    assert Script(run[0].threads[t]) == run[0].threads[t].goals;
    StuckMeansAnswered(c, Last(run), t);
  }

  /** Schedules do not matter: full runs of the same lookups give the same keys the same verdicts. */
  lemma SchedulesAgree(c: Config, run: seq<State>, who: seq<nat>, run': seq<State>, who': seq<nat>, t: nat)
    requires IsFullRun(c, run, who) && IsFullRun(c, run', who') && run[0] == run'[0] && t < |run[0].threads|
    ensures |Last(run).threads| == |Last(run').threads| == |run[0].threads|
    ensures var answers, answers' := Last(run).threads[t].answers, Last(run').threads[t].answers;
            && |answers| == |answers'|
            && forall i :: 0 <= i < |answers| ==>
                 answers[i].0 == answers'[i].0 && (answers[i].1 == Panicked <==> answers'[i].1 == Panicked)
  {
    hide IsFullRun, Answerable, Hopeless;
    FullRunAnswers(c, run, who, t);
    FullRunAnswers(c, run', who', t);
  }

  /**
   * A service that reads itself first is not answerable and hangs whoever asks for it: one step leads
   * to a state where no thread can go on and the lookup has no answer.
   */
  lemma SelfReadHangs(c: Config, s: State, k: Id)
    requires Initial(c, s) && k in c.lists && c.lists[k] != [] && c.lists[k][0] == k && s.cells[k].Uninit?
    requires |s.threads| == 1 && s.threads[0].goals != [] && s.threads[0].goals[0] == k
    ensures CanStep(c, s, 0)
    ensures var s' := Step(c, s, 0);
            !Finished(s'.threads[0]) && s'.threads[0].answers == [] && forall t :: !CanStep(c, s', t)
    ensures !Acyclic(c.lists) && !Answerable(c.lists, c.panics, k)
  {
    hide Inv, Answerable;
    var s' := Step(c, s, 0);
    InitialIsInv(c, s);
    StepKeepsInv(c, s, 0);
    assert s'.threads[0] == s.threads[0].(stack := [Frame(k, [])]);
    assert Asked(c, s'.threads[0]) == k && s'.cells[k] == RunningBy(0);
    StuckMeansAnswered(c, s', 0);
    assert Script(s'.threads[0])[0] == k;
    assert Cycle(c.lists, [k]);
  }

  /** A cycle behind an unregistered read does no harm: the lookup is answered with a panic. */
  lemma CycleBehindFailure(c: Config, k: Id, m: Id)
    requires k in c.lists && c.lists[k] == [m, k] && m !in c.lists
    ensures !Acyclic(c.lists) && Failing(c, k)
  {
    UnregisteredIsAnswerable(c.lists, c.panics, m);
    HopelessUnfold(c.lists, c.panics, m);
    HopelessUnfold(c.lists, c.panics, k);
    AnswerableByReads(c.lists, c.panics, k, 0);
    assert Cycle(c.lists, [k]);
  }
}
