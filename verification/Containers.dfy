/**
 * The container: four maps, lazily filled once-cells, and startup validation.
 *
 * The assumptions of the model. A factory reads what it reads in a fixed order and whether it
 * panics on its own is fixed too; one that builds makes a new instance. A once-cell must not be
 * entered while it is being filled, and stays empty when its initialiser panics. A lookup is asked
 * for only if it ends: `Decided`. `Honest` says that factories read exactly what was declared for
 * them, and only what validation promises in terms of the declarations needs it.
 */
module Containers {
  import opened Graphs
  import opened Sequences
  import opened Wrappers
  import opened Fates
  import opened Resolution
  import opened CycleDetection

  datatype ContainerError =
    | NotRegistered(key: Id)
    | DowncastFailed(key: Id)
    | FactoryPanic(name: string)
    | CyclicDependency(names: seq<string>)

  /** A call either returns or unwinds. */
  datatype Outcome<+T> = Done(value: T) | Panic

  /** Every cell being filled waits for `k`, over reads that can still happen. */
  ghost predicate RunningWait(f: Factories, cells: Cells, k: Id) {
    forall r :: r in cells && cells[r].Running? ==> ReachPlus(Feasible(f, cells), r, k)
  }

  /** The same while `k` itself is being filled. */
  ghost predicate OthersWait(f: Factories, cells: Cells, k: Id) {
    forall r :: r in cells && cells[r].Running? ==> r == k || ReachPlus(Feasible(f, cells), r, k)
  }

  /** `k` may be asked for now: its lookup ends, and the cells being filled are waiting for it. */
  ghost predicate Ready(f: Factories, cells: Cells, k: Id) {
    Decided(f, cells, k) && RunningWait(f, cells, k)
  }

  /** The cells that are not being filled. */
  function Idle(cells: Cells): set<Id> {
    set k | k in cells && !cells[k].Running?
  }

  /** A cell that may be asked for is not being filled: no once-cell is ever entered twice. */
  lemma NeverReentered(f: Factories, cells: Cells, k: Id)
    requires Ready(f, cells, k)
    ensures k in cells ==> !cells[k].Running?
  {
    NotFromItself(Feasible(f, cells), k);
  }

  /** While `k` is being filled and the first `n` of its reads are done, the next may be asked for. */
  lemma ReadsAreReady(f: Factories, cells: Cells, k: Id, n: nat)
    requires k in f && !IsFull(cells, k) && n < |f[k].Reads()|
    requires Decided(f, cells, k) && OthersWait(f, cells, k)
    requires forall j :: 0 <= j < n ==> Sound(f, cells, f[k].Reads()[j])
    ensures Ready(f, cells, f[k].Reads()[n])
  {
    var t, dep := Feasible(f, cells), f[k].Reads()[n];
    NextReadHappens(Unresolved(f, cells), Explosive(f, cells), k, n);
    AcyclicFromEdge(t, k, dep);
    forall r | r in cells && cells[r].Running? ensures ReachPlus(t, r, dep) {
      ReachRefl(t, dep);
      if r != k {
        var w :| Edge(t, r, w) && Reach(t, w, k);
        ReachSnoc(t, w, k, dep);
      }
    }
  }

  lemma SettlesKeepsRunning(f: Factories, a: Cells, b: Cells)
    requires Settles(f, a, b)
    ensures Idle(a) == Idle(b)
    ensures forall k :: k in b ==> (b[k].Running? <==> a[k].Running?)
  {
  }

  /** Lookups on behalf of `k` change nothing about who waits for it. */
  lemma OthersStillWait(f: Factories, a: Cells, b: Cells, k: Id)
    requires Settles(f, a, b) && k in f && a[k].Running? && OthersWait(f, a, k)
    ensures OthersWait(f, b, k)
  {
    hide UpToBad;
    SettlesKeepsRunning(f, a, b);
    FeasibleShrinks(f, a, b);
    forall r | r in b && b[r].Running? && r != k ensures ReachPlus(Feasible(f, b), r, k) {
      var w :| Edge(Feasible(f, a), r, w) && Reach(Feasible(f, a), w, k);
      ReachKept(f, a, b, w, k);
      assert Edge(Feasible(f, b), r, w);
    }
  }

  /** Without cycles of reads every lookup ends. */
  lemma AcyclicIsDecided(f: Factories, cells: Cells, k: Id)
    requires Acyclic(ReadsOf(f))
    ensures Decided(f, cells, k)
  {
    UnresolvedIsRead(f, cells);
    SubgraphAcyclicFrom(Unresolved(f, cells), ReadsOf(f), k);
    TrimIsSubgraph(Unresolved(f, cells), Explosive(f, cells));
    SubgraphAcyclicFrom(Feasible(f, cells), Unresolved(f, cells), k);
  }

  // ---- filling a cell -------------------------------------------------------------------------------

  /** The first `n` reads of `k` can all be resolved. */
  ghost predicate ReadsGood(f: Factories, a: Cells, k: Id, n: nat)
    requires k in f && n <= |f[k].Reads()|
  {
    forall j :: 0 <= j < n ==> !Doomed(f, a, f[k].Reads()[j])
  }

  /** What a call for `k` does to the cells, whatever its outcome. */
  ghost predicate Resolved(f: Factories, a: Cells, b: Cells, k: Id, ok: bool) {
    && Grows(f, a, b, k)
    && AllTyped(f, b)
    && (ok <==> !Doomed(f, a, k))
    && (ok ==> IsFull(b, k))
    && (k in f ==> forall i :: 0 <= i < |f[k].Reads()| && !IsFull(a, k) && ReadsGood(f, a, k, i + 1) ==>
          IsFull(b, f[k].Reads()[i]))
  }

  /** `v` is what the factory of `key` makes of the cells it read. */
  ghost predicate Yields(f: Factories, m: Cells, key: Id, v: Erased)
    requires key in f
  {
    && v.tag == TagFor(key) && v.obj.key == key
    && (f[key].Build? ==>
          && !f[key].panics && |v.obj.fields| == |f[key].wants|
          && forall i :: 0 <= i < |f[key].wants| ==>
               IsFull(m, f[key].wants[i]) && v.obj.fields[i] == m[f[key].wants[i]].value.obj)
  }

  lemma AlreadyFull(f: Factories, a: Cells, k: Id)
    requires AllTyped(f, a) && IsFull(a, k)
    ensures Resolved(f, a, a, k, true)
  {
    FullIsSound(f, a, k);
  }

  /** Marking the cell of `k` makes it the one cell being filled that does not wait for `k`. */
  lemma StartFilling(f: Factories, a: Cells, k: Id)
    requires AllTyped(f, a) && k in a && a[k].Empty? && Ready(f, a, k)
    ensures k in f && AllTyped(f, a[k := Running])
    ensures Decided(f, a[k := Running], k) && OthersWait(f, a[k := Running], k)
    ensures Idle(a[k := Running]) < Idle(a)
  {
    var b := a[k := Running];
    RunningIsUnresolved(f, a, k);
    assert k in Idle(a) && k !in Idle(b);
    forall l | l in f ensures Typed(f, b, l) {
      assert Typed(f, a, l);
    }
  }

  /** Filling the cell of `k` after its factory returned `v`, from the cells at its start. */
  lemma FillDone(f: Factories, a: Cells, m: Cells, k: Id, v: Erased)
    requires AllTyped(f, a) && k in f && a[k].Empty?
    requires AllTyped(f, m) && Grows(f, a[k := Running], m, k)
    requires Decided(f, a, k) && !Doomed(f, a[k := Running], k)
    requires Yields(f, m, k, v)
    ensures Resolved(f, a, m[k := Full(v)], k, true) && AllTyped(f, m[k := Full(v)])
    ensures Gained(a, m[k := Full(v)]) == Gained(a[k := Running], m) + {k}
    ensures k !in Gained(a[k := Running], m)
  {
    var b := m[k := Full(v)];
    hide Doomed, Sound, Decided, Unresolved, Explosive;
    RunningIsUnresolved(f, a, k);
    DecidedSucceeds(f, a, k);
    ReachRefl(ReadsOf(f), k);
    assert WiredAt(f, b, k);
    forall l | l in f && IsFull(b, l) && !IsFull(a, l) ensures NewlyFull(f, a, b, l) {
      if l != k {
        assert NewlyFull(f, a[k := Running], m, l);
      }
    }
  }

  lemma EmptyIsTyped(f: Factories, m: Cells, k: Id)
    requires AllTyped(f, m) && k in f
    ensures AllTyped(f, m[k := Empty])
  {
    forall l | l in f ensures Typed(f, m[k := Empty], l) {
      assert Typed(f, m, l);
    }
  }

  lemma WiredWithout(f: Factories, m: Cells, k: Id, l: Id)
    requires l in f && IsFull(m, l) && WiredAt(f, m, l) && k in m && !m[k].Full?
    ensures l != k && WiredAt(f, m[k := Empty], l)
  {
  }

  lemma GivenBack(f: Factories, a: Cells, m: Cells, k: Id)
    requires AllTyped(f, a) && k in f && a[k].Empty?
    requires AllTyped(f, m) && Grows(f, a[k := Running], m, k)
    ensures m[k].Running? && Grows(f, a, m[k := Empty], k) && AllTyped(f, m[k := Empty])
  {
    hide Sound, Doomed, ReadsOf, Typed, Unresolved, Explosive;
    var b := m[k := Empty];
    RunningIsUnresolved(f, a, k);
    forall l | l in f && IsFull(b, l) && !IsFull(a, l) ensures NewlyFull(f, a, b, l) {
      assert NewlyFull(f, a[k := Running], m, l);
      WiredWithout(f, m, k, l);
    }
    EmptyIsTyped(f, m, k);
  }

  /** Giving the cell of `k` back after its factory panicked. */
  lemma FillPanicked(f: Factories, a: Cells, m: Cells, k: Id)
    requires AllTyped(f, a) && k in f && a[k].Empty?
    requires AllTyped(f, m) && Grows(f, a[k := Running], m, k)
    requires Doomed(f, a[k := Running], k)
    requires forall i :: 0 <= i < |f[k].Reads()| && ReadsGood(f, a[k := Running], k, i + 1) ==>
               IsFull(m, f[k].Reads()[i])
    ensures Resolved(f, a, m[k := Empty], k, false) && AllTyped(f, m[k := Empty])
  {
    hide Doomed, Sound, ReadsOf, WiredAt, NewlyFull, Typed;
    RunningIsUnresolved(f, a, k);
    GivenBack(f, a, m, k);
    forall i | 0 <= i < |f[k].Reads()| && ReadsGood(f, a, k, i + 1) ensures IsFull(m[k := Empty], f[k].Reads()[i]) {
      assert ReadsGood(f, a[k := Running], k, i + 1);
    }
  }

  // ---- validating -----------------------------------------------------------------------------------

  /** With nothing being filled, what was decided at the start may be asked for. */
  lemma StillReady(f: Factories, a: Cells, b: Cells, k: Id)
    requires Settles(f, a, b) && Decided(f, a, k) && forall l :: l in b ==> !b[l].Running?
    ensures Ready(f, b, k)
  {
    DecidedKept(f, a, b, k);
  }

  /** One key of the startup pass has been looked at: it is resolved now, or doomed from the start. */
  lemma ValidatedOne(f: Factories, a: Cells, b: Cells, c: Cells, k: Id, ok: bool)
    requires Settles(f, a, b) && Resolved(f, b, c, k, ok) && k in f
    ensures Settles(f, a, c)
    ensures ok <==> !Doomed(f, a, k)
    ensures ok ==> IsFull(c, k)
    ensures forall l :: IsFull(b, l) ==> IsFull(c, l)
    ensures c.Keys == f.Keys
  {
    SettlesTrans(f, a, b, c);
    DoomedStable(f, a, b, k);
  }

  lemma StaysQuiet(f: Factories, b: Cells, c: Cells, k: Id, ok: bool)
    requires Resolved(f, b, c, k, ok) && forall l :: l in b ==> !b[l].Running?
    ensures forall l :: l in c ==> !c[l].Running?
  {
    SettlesKeepsRunning(f, b, c);
  }

  lemma SettledIsNotDoomed(f: Factories, a: Cells, b: Cells, k: Id)
    requires Settles(f, a, b) && k in f && IsFull(b, k)
    ensures !Doomed(f, a, k)
  {
    FullIsSound(f, b, k);
    DoomedStable(f, a, b, k);
  }

  lemma AfterValidation(f: Factories, a: Cells, b: Cells)
    requires Settles(f, a, b)
    ensures Wired(f, a) ==> Wired(f, b)
    ensures Wired(f, a) ==> forall k :: Doomed(f, a, k) <==> Hopeless(ReadsOf(f), Panicking(f), k)
    ensures forall k :: k in f && IsFull(b, k) ==> !Doomed(f, a, k)
  {
    if Wired(f, a) {
      WiredKept(f, a, b);
      forall k ensures Doomed(f, a, k) <==> Hopeless(ReadsOf(f), Panicking(f), k) {
        DoomedIsHopeless(f, a, k);
      }
    }
    forall k | k in f && IsFull(b, k) ensures !Doomed(f, a, k) {
      SettledIsNotDoomed(f, a, b, k);
    }
  }

  lemma Begin(f: Factories, a: Cells)
    requires AllTyped(f, a)
    ensures a.Keys == f.Keys && Settles(f, a, a)
  {
  }

  // ---- one factory call -----------------------------------------------------------------------------

  /** The factory of `key`, called at `a`, has read `fields` so far. */
  ghost predicate ReadSoFar(f: Factories, a: Cells, m: Cells, key: Id, fields: seq<Instance>) {
    && Grows(f, a, m, key) && AllTyped(f, m)
    && key in f && |fields| <= |f[key].Reads()|
    && forall j :: 0 <= j < |fields| ==>
         && IsFull(m, f[key].Reads()[j]) && !Doomed(f, a, f[key].Reads()[j])
         && fields[j] == m[f[key].Reads()[j]].value.obj
  }

  predicate NextIs(f: Factories, key: Id, n: nat, dep: Id)
    requires key in f
  {
    n < |f[key].Reads()| && f[key].Reads()[n] == dep
  }

  /** The read after `fields` panicked. */
  ghost predicate Stopped(f: Factories, a: Cells, m: Cells, key: Id, fields: seq<Instance>) {
    && key in f && |fields| < |f[key].Reads()| && Doomed(f, a, f[key].Reads()[|fields|])
    && forall j :: 0 <= j < |fields| ==> IsFull(m, f[key].Reads()[j])
  }

  lemma BeginAt(f: Factories, a: Cells, key: Id)
    requires AllTyped(f, a) && key in a
    ensures key in f && ReadSoFar(f, a, a, key, []) && Gained(a, a) == {} && Typed(f, a, key)
  {
  }

  lemma BeforeRead(f: Factories, start: Cells, before: Cells, key: Id, dep: Id, fields: seq<Instance>)
    requires key in start && start[key].Running? && Decided(f, start, key) && OthersWait(f, start, key)
    requires ReadSoFar(f, start, before, key, fields) && NextIs(f, key, |fields|, dep)
    ensures Ready(f, before, dep)
  {
    hide Decided, OthersWait;
    SettlesKeepsRunning(f, start, before);
    DecidedKept(f, start, before, key);
    OthersStillWait(f, start, before, key);
    forall j | 0 <= j < |fields| ensures Sound(f, before, f[key].Reads()[j]) {
      FullIsSound(f, before, f[key].Reads()[j]);
    }
    ReadsAreReady(f, before, key, |fields|);
  }

  lemma AfterRead(f: Factories, start: Cells, before: Cells, after: Cells, key: Id, dep: Id,
                  fields: seq<Instance>, r: Outcome<Instance>)
    requires ReadSoFar(f, start, before, key, fields) && NextIs(f, key, |fields|, dep)
    requires Resolved(f, before, after, dep, r.Done?)
    requires r.Done? ==> r.value == after[dep].value.obj
    ensures Grows(f, start, after, key)
    ensures r.Done? ==> dep in f && ReadSoFar(f, start, after, key, fields + [r.value])
    ensures r.Panic? ==> Stopped(f, start, after, key, fields)
    ensures Settles(f, start, before) && Settles(f, before, after) && Idle(after) == Idle(before)
  {
    hide Doomed, AllTyped, Sound, WiredAt;
    assert Edge(ReadsOf(f), key, dep);
    ReachRefl(ReadsOf(f), dep);
    ReachCons(ReadsOf(f), key, dep, dep);
    DoomedStable(f, start, before, dep);
    GrowsTrans(f, start, before, after, key, dep);
    SettlesKeepsRunning(f, before, after);
    assert forall j :: 0 <= j < |fields| ==> after[f[key].Reads()[j]] == before[f[key].Reads()[j]];
  }

  lemma RunsAfterRead(f: Factories, start: Cells, before: Cells, after: Cells, dep: Id, ok: bool,
                      runsBefore: multiset<Id>, runs: multiset<Id>, base: multiset<Id>)
    requires Settles(f, start, before) && Settles(f, before, after)
    requires runsBefore == base + multiset(Gained(start, before))
    requires ok ==> runs == runsBefore + multiset(Gained(before, after))
    requires forall k :: IsFull(before, k) ==> runs[k] == runsBefore[k]
    ensures ok ==> runs == base + multiset(Gained(start, after))
    ensures forall k :: IsFull(start, k) ==> runs[k] == base[k]
  {
    SettlesTrans(f, start, before, after);
    forall k | IsFull(start, k) ensures runs[k] == base[k] {
      assert k !in Gained(start, before);
    }
  }

  /** A factory whose read panicked panics, and had resolved everything before that read. */
  lemma StoppedAt(f: Factories, a: Cells, m: Cells, key: Id, fields: seq<Instance>)
    requires Stopped(f, a, m, key, fields) && !IsFull(a, key)
    ensures Doomed(f, a, key)
    ensures forall i :: 0 <= i < |f[key].Reads()| && ReadsGood(f, a, key, i + 1) ==> IsFull(m, f[key].Reads()[i])
  {
    hide Doomed;
    DoomedUnfold(f, a, key);
  }

  /** A factory that has read everything fails only on its own. */
  lemma AfterReads(f: Factories, a: Cells, m: Cells, key: Id, fields: seq<Instance>)
    requires ReadSoFar(f, a, m, key, fields) && |fields| == |f[key].Reads()| && !IsFull(a, key)
    ensures Grows(f, a, m, key)
    ensures Doomed(f, a, key) <==> f[key].Panics()
    ensures forall i :: 0 <= i < |f[key].Reads()| ==> IsFull(m, f[key].Reads()[i])
    ensures forall k :: IsFull(a, k) ==> k != key && k !in Gained(a, m)
  {
    hide Doomed;
    DoomedUnfold(f, a, key);
  }

  lemma GivenYields(f: Factories, m: Cells, key: Id)
    requires AllTyped(f, m) && key in f && f[key].CloneOf?
    ensures Yields(f, m, key, f[key].value)
  {
    assert Typed(f, m, key);
  }

  lemma BuiltYields(f: Factories, a: Cells, m: Cells, key: Id, v: Erased)
    requires ReadSoFar(f, a, m, key, v.obj.fields) && |v.obj.fields| == |f[key].Reads()|
    requires f[key].Build? && !f[key].panics && v.tag == f[key].tag && v.obj.key == key
    ensures Yields(f, m, key, v)
  {
    assert Typed(f, m, key);
  }

  lemma GetFails(f: Factories, cells: Cells, k: Id)
    ensures k !in f ==> Doomed(f, cells, k)
    ensures cells.Keys == f.Keys ==> Grows(f, cells, cells, k)
  {
    if k !in f {
      UnregisteredIsDoomed(f, cells, k);
    }
  }

  // ---- registrations --------------------------------------------------------------------------------

  /** The resolved service `k` read `key` and holds something else than `cell` does. */
  ghost predicate HoldsOther(f: Factories, cells: Cells, k: Id, key: Id, cell: Cell)
    requires k in f && IsFull(cells, k)
  {
    exists i :: 0 <= i < |f[k].Reads()| && f[k].Reads()[i] == key &&
      !(cell.Full? && i < |cells[k].value.obj.fields| && cells[k].value.obj.fields[i] == cell.value.obj)
  }

  lemma RegistrationTyped(f: Factories, cells: Cells, key: Id, factory: Factory, cell: Cell)
    requires AllTyped(f, cells) && !cell.Running?
    requires Typed(map[key := factory], map[key := cell], key)
    ensures AllTyped(f[key := factory], cells[key := cell])
  {
    var g, after := f[key := factory], cells[key := cell];
    forall k | k in g ensures Typed(g, after, k) {
      if k != key {
        assert Typed(f, cells, k);
      }
    }
  }

  /** Replacing an entry keeps a wired container wired unless some resolved service held the old content. */
  lemma RegistrationEffect(f: Factories, cells: Cells, key: Id, factory: Factory, cell: Cell)
    requires AllTyped(f, cells) && (cell.Empty? || (factory.CloneOf? && cell == Full(factory.value)))
    ensures ReadsOf(f[key := factory]) == ReadsOf(f)[key := factory.Reads()]
    ensures Wired(f, cells) ==>
              (Wired(f[key := factory], cells[key := cell]) <==>
               !exists k :: k in f && k != key && IsFull(cells, k) && HoldsOther(f, cells, k, key, cell))
  {
    var g, after := f[key := factory], cells[key := cell];
    assert ReadsOf(g) == ReadsOf(f)[key := factory.Reads()];
    if Wired(f, cells) {
      forall k | k in f && k != key && IsFull(cells, k)
        ensures WiredAt(g, after, k) <==> !HoldsOther(f, cells, k, key, cell)
      {
        assert WiredAt(f, cells, k);
      }
      if Wired(g, after) {
        forall k | k in f && k != key && IsFull(cells, k) ensures !HoldsOther(f, cells, k, key, cell) {
          assert WiredAt(g, after, k);
        }
      }
    }
  }

  // ---- the container ----------------------------------------------------------------------------------

  class Container {
    var factories: Factories
    var singletons: Cells
    var typeNames: map<Id, string>
    var dependencies: Deps
    /** Every factory call made so far. */
    ghost var runs: multiset<Id>

    /** The four maps have the same keys, and every key its representation. */
    ghost predicate Valid()
      reads this
    {
      && typeNames.Keys == dependencies.Keys == factories.Keys
      && AllTyped(factories, singletons)
    }

    /** Every factory reads exactly the dependencies declared for it, in order. */
    ghost predicate Honest()
      reads this
    {
      ReadsOf(factories) == dependencies
    }

    ghost predicate Quiet()
      reads this
    {
      forall k :: k in singletons ==> !singletons[k].Running?
    }

    constructor ()
      ensures Valid() && Quiet() && Honest() && Wired(factories, singletons)
      ensures factories == map[] && runs == multiset{}
    {
      factories, singletons, typeNames, dependencies := map[], map[], map[], map[];
      runs := multiset{};
    }

    // ---- registration ---------------------------------------------------------------------------

    /** Another resolved service holds something else than what `key` is about to hold. */
    ghost predicate Stale(key: Id, cell: Cell)
      reads this
    {
      exists k :: k in factories && k != key && IsFull(singletons, k) && HoldsOther(factories, singletons, k, key, cell)
    }

    method RegisterWithDeps(t: nat, wants: seq<Id>, panics: bool, typeName: string, deps: seq<Id>)
      requires Valid()
      modifies this
      ensures Valid() && Replaced(old(factories), old(singletons), old(typeNames), old(dependencies),
                                  Concrete(t), Build(Of(t), wants, panics), Empty, typeName, deps)
      ensures runs == old(runs)
      ensures old(Wired(factories, singletons)) ==> (Wired(factories, singletons) <==> !old(Stale(Concrete(t), Empty)))
      ensures old(Honest()) ==> (Honest() <==> wants == deps)
    {
      var typeId := Concrete(t);
      hide AllTyped, Wired, HoldsOther, ReadsOf;
      RegistrationEffect(factories, singletons, typeId, Build(Of(t), wants, panics), Empty);
      RegistrationTyped(factories, singletons, typeId, Build(Of(t), wants, panics), Empty);
      factories := factories[typeId := Build(Of(t), wants, panics)];
      singletons := singletons[typeId := Empty];
      typeNames := typeNames[typeId := typeName];
      dependencies := dependencies[typeId := deps];
      assert dependencies[typeId] == deps;
    }

    method RegisterTraitWithDeps(t: nat, wants: seq<Id>, panics: bool, typeName: string, deps: seq<Id>)
      requires Valid()
      modifies this
      ensures Valid() && Replaced(old(factories), old(singletons), old(typeNames), old(dependencies),
                                  TraitObject(t), Build(ArcOfDyn(t), wants, panics), Empty, typeName, deps)
      ensures runs == old(runs)
      ensures old(Wired(factories, singletons)) ==> (Wired(factories, singletons) <==> !old(Stale(TraitObject(t), Empty)))
      ensures old(Honest()) ==> (Honest() <==> wants == deps)
    {
      var typeId := TraitObject(t);
      hide AllTyped, Wired, HoldsOther, ReadsOf;
      RegistrationEffect(factories, singletons, typeId, Build(ArcOfDyn(t), wants, panics), Empty);
      RegistrationTyped(factories, singletons, typeId, Build(ArcOfDyn(t), wants, panics), Empty);
      factories := factories[typeId := Build(ArcOfDyn(t), wants, panics)];
      singletons := singletons[typeId := Empty];
      typeNames := typeNames[typeId := typeName];
      dependencies := dependencies[typeId := deps];
      assert dependencies[typeId] == deps;
    }

    /** A pre-built instance fills its cell at once. */
    method RegisterInstance(t: nat, instance: Instance, typeName: string)
      requires Valid() && instance.key == Concrete(t)
      modifies this
      ensures Valid() && Replaced(old(factories), old(singletons), old(typeNames), old(dependencies),
                                  Concrete(t), CloneOf(Erased(Of(t), instance)), Full(Erased(Of(t), instance)),
                                  typeName, [])
      ensures runs == old(runs)
      ensures old(Wired(factories, singletons)) ==>
                (Wired(factories, singletons) <==> !old(Stale(Concrete(t), Full(Erased(Of(t), instance)))))
      ensures old(Honest()) ==> Honest()
    {
      var typeId := Concrete(t);
      hide AllTyped, Wired, HoldsOther, ReadsOf;
      RegistrationEffect(factories, singletons, typeId, CloneOf(Erased(Of(t), instance)),
                         Full(Erased(Of(t), instance)));
      RegistrationTyped(factories, singletons, typeId, CloneOf(Erased(Of(t), instance)),
                        Full(Erased(Of(t), instance)));
      factories := factories[typeId := CloneOf(Erased(Of(t), instance))];
      singletons := singletons[typeId := Full(Erased(Of(t), instance))];
      typeNames := typeNames[typeId := typeName];
      dependencies := dependencies[typeId := []];
    }

    /** The registration of `key` is as given and every other entry is as it was. */
    ghost predicate Replaced(f: Factories, s: Cells, n: map<Id, string>, d: Deps,
                             key: Id, factory: Factory, cell: Cell, typeName: string, deps: seq<Id>)
      reads this
    {
      && factories == f[key := factory] && singletons == s[key := cell]
      && typeNames == n[key := typeName] && dependencies == d[key := deps]
    }

    // ---- lookups ----------------------------------------------------------------------------------

    /** Fallible lookup of a concrete type. */
    method TryGet(t: nat) returns (r: Outcome<Result<Instance, ContainerError>>)
      requires Valid() && Ready(factories, singletons, Concrete(t))
      modifies this`singletons, this`runs
      decreases Idle(singletons), 2
      ensures Valid() && LookedUp(old(singletons), old(runs), Concrete(t), r)
    {
      var typeId := Concrete(t);
      NeverReentered(factories, singletons, typeId);
      if typeId !in singletons {
        GrowsRefl(factories, singletons, typeId);
        return Done(Err(NotRegistered(typeId)));
      }
      var instance := GetOrInit(typeId);
      match instance
      case Panic => r := Panic;
      case Done(e) => r := Done(if e.tag == Of(t) then Ok(e.obj) else Err(DowncastFailed(typeId)));
    }

    /** Fallible lookup of a trait object. */
    method TryGetTrait(t: nat) returns (r: Outcome<Result<Instance, ContainerError>>)
      requires Valid() && Ready(factories, singletons, TraitObject(t))
      modifies this`singletons, this`runs
      decreases Idle(singletons), 2
      ensures Valid() && LookedUp(old(singletons), old(runs), TraitObject(t), r)
    {
      var typeId := TraitObject(t);
      NeverReentered(factories, singletons, typeId);
      if typeId !in singletons {
        GrowsRefl(factories, singletons, typeId);
        return Done(Err(NotRegistered(typeId)));
      }
      var instance := GetOrInit(typeId);
      match instance
      case Panic => r := Panic;
      case Done(e) => r := Done(if e.tag == ArcOfDyn(t) then Ok(e.obj) else Err(DowncastFailed(typeId)));
    }

    /** An unregistered key is reported; a registered one yields its cell's instance unless it is doomed. */
    ghost predicate LookedUp(before: Cells, runsBefore: multiset<Id>, key: Id, r: Outcome<Result<Instance, ContainerError>>)
      reads this
    {
      && (key !in factories ==> r == Done(Err(NotRegistered(key))) && singletons == before && runs == runsBefore)
      && (key in factories ==>
            && Resolved(factories, before, singletons, key, r.Done?)
            && (r.Done? ==> r.value == Ok(singletons[key].value.obj)))
      && Counted(before, runsBefore, key, r.Done?)
    }

    /** A resolved key runs no factory; a success runs the factory of each newly resolved key once. */
    ghost predicate Counted(before: Cells, runsBefore: multiset<Id>, key: Id, ok: bool)
      reads this
    {
      && (IsFull(before, key) ==> singletons == before && runs == runsBefore)
      && (ok && key in factories ==> runs == runsBefore + multiset(Gained(before, singletons)))
      && (forall k :: IsFull(before, k) ==> runs[k] == runsBefore[k])
    }

    /** Panicking lookup of a concrete type. */
    method Get(t: nat) returns (r: Outcome<Instance>)
      requires Valid() && Ready(factories, singletons, Concrete(t))
      modifies this`singletons, this`runs
      decreases Idle(singletons), 3
      ensures Valid() && Obtained(old(singletons), old(runs), Concrete(t), r)
    {
      var found := TryGet(t);
      r := if found.Done? && found.value.Ok? then Done(found.value.value) else Panic;
      GetFails(factories, old(singletons), Concrete(t));
    }

    /** Panicking lookup of a trait object. */
    method GetTrait(t: nat) returns (r: Outcome<Instance>)
      requires Valid() && Ready(factories, singletons, TraitObject(t))
      modifies this`singletons, this`runs
      decreases Idle(singletons), 3
      ensures Valid() && Obtained(old(singletons), old(runs), TraitObject(t), r)
    {
      var found := TryGetTrait(t);
      r := if found.Done? && found.value.Ok? then Done(found.value.value) else Panic;
      GetFails(factories, old(singletons), TraitObject(t));
    }

    ghost predicate Obtained(before: Cells, runsBefore: multiset<Id>, key: Id, r: Outcome<Instance>)
      reads this
    {
      && Resolved(factories, before, singletons, key, r.Done?)
      && (r.Done? ==> r.value == singletons[key].value.obj)
      && Counted(before, runsBefore, key, r.Done?)
    }

    // ---- startup validation -----------------------------------------------------------------------

    /** Where factories read what was declared for them, validation may always be asked for. */
    lemma HonestIsDecided()
      requires Honest()
      ensures Acyclic(dependencies) ==> forall k :: Decided(factories, singletons, k)
    {
      if Acyclic(dependencies) {
        forall k ensures Decided(factories, singletons, k) {
          AcyclicIsDecided(factories, singletons, k);
        }
      }
    }

    /**
     * Looks for cycles among the declared dependencies and, if there is none, fills every cell.
     * `cycles` are the reported cycles and `failed` the keys whose initialisation panicked, as ids.
     */
    method Validate()
      returns (r: Result<(), seq<ContainerError>>, ghost cycles: seq<seq<Id>>, ghost failed: seq<Id>)
      requires Valid() && Quiet()
      requires Acyclic(dependencies) ==> forall k :: k in factories ==> Decided(factories, singletons, k)
      modifies this`singletons, this`runs
      ensures Valid() && Quiet()
      ensures r.Ok? <==> cycles == [] && failed == []
      ensures cycles == [] <==> Acyclic(dependencies)
      ensures cycles != [] ==> r.Err? && CyclesReported(r.error, cycles)
      ensures cycles != [] ==> singletons == old(singletons) && runs == old(runs)
      ensures cycles == [] && r.Err? ==> FailuresReported(r.error, failed)
      ensures cycles == [] ==> AllTried(old(singletons), failed)
      // success means every later lookup finds its cell filled
      ensures r.Ok? ==> forall k :: k in factories ==> IsFull(singletons, k) && Ready(factories, singletons, k)
      ensures old(Wired(factories, singletons)) ==> Wired(factories, singletons)
      ensures Honest() && old(Wired(factories, singletons)) && cycles == [] ==>
                forall k :: k in failed <==> k in factories && Hopeless(dependencies, Panicking(factories), k)
    {
      hide Settles, Doomed, Decided, Hopeless, Wired, Acyclic, AllTyped, ReadsOf, SimpleCycle, NamedBy, Ready, TopologicalUpTo,
           OncePerOccurrence, Without, BackEdges, ListedBy, Nodes, Panicking, Distinct;
      failed := [];
      var found;
      ghost var numbering, steps;
      found, cycles, numbering, steps := DetectCycles(dependencies, typeNames);
      if found != [] {
        var errors := seq(|found|, i requires 0 <= i < |found| => CyclicDependency(found[i]));
        return Err(errors), cycles, failed;
      }
      var errors;
      errors, failed := FillAll();
      AfterValidation(factories, old(singletons), singletons);
      forall k | k in factories ensures Ready(factories, singletons, k) {
        StillReady(factories, old(singletons), singletons, k);
      }
      r := if errors == [] then Ok(()) else Err(errors);
    }

    /**
     * One error for each cycle, naming its ids in order; one cycle for every time a back edge is listed,
     * and without the back edges there is no cycle left.
     */
    ghost predicate CyclesReported(errors: seq<ContainerError>, cycles: seq<seq<Id>>)
      reads this
    {
      && |errors| == |cycles|
      && (forall i :: 0 <= i < |errors| ==>
            && SimpleCycle(dependencies, cycles[i])
            && errors[i].CyclicDependency? && NamedBy(typeNames, cycles[i], errors[i].names))
      && OncePerOccurrence(dependencies, cycles)
      && Acyclic(Without(dependencies, BackEdges(cycles)))
    }

    /** One error for each failed key, in the order they were tried. */
    ghost predicate FailuresReported(errors: seq<ContainerError>, failed: seq<Id>)
      reads this
    {
      && Distinct(failed) && |errors| == |failed|
      && forall i :: 0 <= i < |errors| ==>
           failed[i] in typeNames && errors[i] == FactoryPanic(typeNames[failed[i]])
    }

    /** The doomed keys failed, every other key is resolved, and what was resolved before is as it was. */
    ghost predicate AllTried(before: Cells, failed: seq<Id>)
      reads this
    {
      && Settles(factories, before, singletons)
      && (forall k :: k in failed <==> k in factories && Doomed(factories, before, k))
      && (forall k :: k in factories ==> (IsFull(singletons, k) <==> k !in failed))
    }

    /** The eager pass: asks for every key that is not resolved, in any order, and catches the panics. */
    method FillAll() returns (errors: seq<ContainerError>, ghost failed: seq<Id>)
      requires Valid() && Quiet() && forall k :: k in factories ==> Decided(factories, singletons, k)
      modifies this`singletons, this`runs
      ensures Valid() && Quiet()
      ensures FailuresReported(errors, failed) && AllTried(old(singletons), failed)
    {
      hide Settles, Doomed, Decided, Resolved, Grows, AllTyped, Ready, Counted, ReadsOf;
      ghost var a := singletons;
      errors, failed := [], [];
      Begin(factories, a);
      var keys := singletons.Keys;
      while keys != {}
        invariant Valid() && Quiet() && Settles(factories, a, singletons) && keys <= factories.Keys
        invariant FailuresReported(errors, failed) && singletons.Keys == factories.Keys
        invariant forall k :: k in failed ==> k in factories && k !in keys && Doomed(factories, a, k)
        invariant forall k :: k in factories && k !in keys ==> k in failed || IsFull(singletons, k)
        decreases keys
      {
        var typeId :| typeId in keys;
        keys := keys - {typeId};
        if singletons[typeId].Empty? {
          ghost var b := singletons;
          StillReady(factories, a, singletons, typeId);
          var result := GetOrInit(typeId);
          ValidatedOne(factories, a, b, singletons, typeId, result.Done?);
          StaysQuiet(factories, b, singletons, typeId, result.Done?);
          if result.Panic? {
            errors := errors + [FactoryPanic(typeNames[typeId])];
            failed := failed + [typeId];
          }
        }
      }
      AfterValidation(factories, a, singletons);
    }

    /** The once-cell of a registered key: hand out its content, or fill it by calling the factory. */
    method GetOrInit(key: Id) returns (r: Outcome<Erased>)
      requires Valid() && key in singletons && !singletons[key].Running?
      requires Ready(factories, singletons, key)
      modifies this`singletons, this`runs
      decreases Idle(singletons), 1
      ensures Valid() && Resolved(factories, old(singletons), singletons, key, r.Done?)
      ensures r.Done? ==> r.value == singletons[key].value
      ensures Counted(old(singletons), old(runs), key, r.Done?)
    {
      hide Resolved, Grows, Doomed, Decided, RunningWait, OthersWait, AllTyped, Typed, WiredAt, ReadsGood, Yields, Idle;
      ghost var a := singletons;
      if singletons[key].Full? {
        r := Done(singletons[key].value);
        AlreadyFull(factories, a, key);
      } else {
        StartFilling(factories, a, key);
        singletons := singletons[key := Running];
        r := CallFactory(key);
        match r {
          case Done(v) =>
            FillDone(factories, a, singletons, key, v);
            singletons := singletons[key := Full(v)];
          case Panic =>
            FillPanicked(factories, a, singletons, key);
            singletons := singletons[key := Empty];
        }
      }
    }

    /** The wrapped factory of `key`, run while the cell of `key` is being filled. */
    method CallFactory(key: Id) returns (r: Outcome<Erased>)
      requires Valid() && key in singletons && singletons[key].Running?
      requires Decided(factories, singletons, key) && OthersWait(factories, singletons, key)
      modifies this`singletons, this`runs
      decreases Idle(singletons), 5
      ensures Valid() && Grows(factories, old(singletons), singletons, key)
      ensures r.Done? <==> !Doomed(factories, old(singletons), key)
      ensures r.Done? ==> Yields(factories, singletons, key, r.value)
      ensures forall i :: 0 <= i < |factories[key].Reads()| && ReadsGood(factories, old(singletons), key, i + 1) ==>
                IsFull(singletons, factories[key].Reads()[i])
      ensures r.Done? ==> runs == old(runs) + multiset{key} + multiset(Gained(old(singletons), singletons))
      ensures forall k :: IsFull(old(singletons), k) ==> runs[k] == old(runs)[k]
    {
      hide Grows, Doomed, Decided, OthersWait, AllTyped, Idle, Gained, ReadSoFar, ReadsGood, Yields;
      ghost var a := singletons;
      runs := runs + multiset{key};
      BeginAt(factories, a, key);
      match factories[key] {
        case CloneOf(v) =>
          r := Done(v);
          AfterReads(factories, a, singletons, key, []);
          GivenYields(factories, singletons, key);
        case Build(tag, wants, panics) =>
          var fields: seq<Instance> := [];
          var i := 0;
          while i < |wants|
            invariant i == |fields| <= |wants|
            invariant Valid() && ReadSoFar(factories, a, singletons, key, fields)
            invariant runs == old(runs) + multiset{key} + multiset(Gained(a, singletons))
            invariant Idle(singletons) == Idle(a)
          {
            var o := Read(key, wants[i], fields, a, old(runs) + multiset{key});
            match o {
              case Panic =>
                StoppedAt(factories, a, singletons, key, fields);
                return Panic;
              case Done(instance) =>
                fields := fields + [instance];
            }
            i := i + 1;
          }
          AfterReads(factories, a, singletons, key, fields);
          if panics {
            return Panic;
          }
          var obj := new Instance(key, fields);
          r := Done(Erased(tag, obj));
          BuiltYields(factories, a, singletons, key, r.value);
      }
    }

    /** The next read of the factory of `key`, by the accessor that fits the kind of the dependency. */
    method Read(key: Id, dep: Id, ghost fields: seq<Instance>, ghost start: Cells, ghost base: multiset<Id>)
      returns (r: Outcome<Instance>)
      requires Valid() && key in factories && key in start && start[key].Running?
      requires ReadSoFar(factories, start, singletons, key, fields) && NextIs(factories, key, |fields|, dep)
      requires Decided(factories, start, key) && OthersWait(factories, start, key)
      requires runs == base + multiset(Gained(start, singletons))
      modifies this`singletons, this`runs
      decreases Idle(singletons), 4
      ensures Valid() && Grows(factories, start, singletons, key)
      ensures r.Done? ==> ReadSoFar(factories, start, singletons, key, fields + [r.value])
      ensures r.Done? ==> runs == base + multiset(Gained(start, singletons))
      ensures r.Panic? ==> Stopped(factories, start, singletons, key, fields)
      ensures forall k :: IsFull(start, k) ==> runs[k] == base[k]
      ensures Idle(singletons) == old(Idle(singletons))
    {
      hide Resolved, Grows, Settles, Doomed, Ready, AllTyped, Idle, IsFull, Gained, Decided, OthersWait, ReadSoFar, Stopped;
      ghost var before := singletons;
      BeforeRead(factories, start, before, key, dep, fields);
      match dep {
        case Concrete(t) => r := Get(t);
        case TraitObject(t) => r := GetTrait(t);
      }
      AfterRead(factories, start, before, singletons, key, dep, fields, r);
      RunsAfterRead(factories, start, before, singletons, dep, r.Done?, old(runs), runs, base);
    }
  }
}
