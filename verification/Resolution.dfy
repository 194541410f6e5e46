/** What resolving a key means, before any cell is touched: factories, cells, and when a lookup must fail. */
module Resolution {
  import opened Graphs
  import opened Sequences
  import opened Fates

  /** The dynamic type inside an erased instance: `Arc<T>` itself, or an `Arc<dyn T>` boxed once more. */
  datatype Tag = Of(t: nat) | ArcOfDyn(t: nat)

  /** The representation that the accessor for this key downcasts to. */
  function TagFor(key: Id): Tag {
    match key
    case Concrete(t) => Of(t)
    case TraitObject(t) => ArcOfDyn(t)
  }

  /** A built service: the key it was built for and its resolved fields, shared by reference. */
  class Instance {
    const key: Id
    const fields: seq<Instance>

    constructor (key: Id, fields: seq<Instance>)
      ensures this.key == key && this.fields == fields
    {
      this.key := key;
      this.fields := fields;
    }
  }

  datatype Erased = Erased(tag: Tag, obj: Instance)

  /** A registered factory: it reads the container in order and may then panic, or hands out a given instance. */
  datatype Factory =
    | Build(tag: Tag, wants: seq<Id>, panics: bool)
    | CloneOf(value: Erased)
  {
    function Reads(): seq<Id> {
      if Build? then wants else []
    }

    predicate Panics() {
      Build? && panics
    }
  }

  /** The state of a once-cell. */
  datatype Cell = Empty | Running | Full(value: Erased)

  type Factories = map<Id, Factory>
  type Cells = map<Id, Cell>

  /** The graph of what the factories really read. */
  function ReadsOf(f: Factories): Deps {
    map k | k in f :: f[k].Reads()
  }

  predicate IsFull(cells: Cells, k: Id) {
    k in cells && cells[k].Full?
  }

  // ---- fates of lookups -----------------------------------------------------------------------

  /** What is still to be read: a resolved key reads nothing any more. */
  function Unresolved(f: Factories, cells: Cells): Deps {
    map k | k in f :: if IsFull(cells, k) then [] else f[k].Reads()
  }

  /** The unresolved keys whose factory panics on its own. */
  function Explosive(f: Factories, cells: Cells): set<Id> {
    set k | k in f && !IsFull(cells, k) && f[k].Panics()
  }

  /** Resolving `k` cannot succeed, given what is resolved already. */
  ghost predicate Doomed(f: Factories, cells: Cells, k: Id) {
    Hopeless(Unresolved(f, cells), Explosive(f, cells), k)
  }

  /** Resolving `k` succeeds. */
  ghost predicate Sound(f: Factories, cells: Cells, k: Id) {
    Good(Unresolved(f, cells), Explosive(f, cells), k)
  }

  /** Resolving `k` ends, either way. */
  ghost predicate Decided(f: Factories, cells: Cells, k: Id) {
    Answerable(Unresolved(f, cells), Explosive(f, cells), k)
  }

  /** The reads that can still happen. */
  ghost function Feasible(f: Factories, cells: Cells): Deps {
    Trim(Unresolved(f, cells), Explosive(f, cells))
  }

  lemma UnregisteredIsDoomed(f: Factories, cells: Cells, k: Id)
    requires k !in f
    ensures Doomed(f, cells, k) && Decided(f, cells, k)
  {
    HopelessUnfold(Unresolved(f, cells), Explosive(f, cells), k);
    UnregisteredIsAnswerable(Unresolved(f, cells), Explosive(f, cells), k);
  }

  lemma FullIsSound(f: Factories, cells: Cells, k: Id)
    requires IsFull(cells, k) && k in f
    ensures Sound(f, cells, k) && !Doomed(f, cells, k)
  {
    GoodUnfold(Unresolved(f, cells), Explosive(f, cells), k);
  }

  /** An unresolved key fails exactly when its factory panics on its own or one of its reads fails. */
  lemma DoomedUnfold(f: Factories, cells: Cells, k: Id)
    requires k in f && !IsFull(cells, k)
    ensures Doomed(f, cells, k) <==>
            f[k].Panics() || exists i :: 0 <= i < |f[k].Reads()| && Doomed(f, cells, f[k].Reads()[i])
  {
    HopelessUnfold(Unresolved(f, cells), Explosive(f, cells), k);
  }

  lemma DecidedSucceeds(f: Factories, cells: Cells, k: Id)
    requires Decided(f, cells, k) && !Doomed(f, cells, k)
    ensures Sound(f, cells, k)
  {
    AnswerableSucceeds(Unresolved(f, cells), Explosive(f, cells), k);
  }

  /** Marking an empty cell as being filled changes no key's fate. */
  lemma RunningIsUnresolved(f: Factories, a: Cells, k: Id)
    requires k in a && a[k].Empty?
    ensures Unresolved(f, a[k := Running]) == Unresolved(f, a)
    ensures Explosive(f, a[k := Running]) == Explosive(f, a)
    ensures forall l :: Doomed(f, a[k := Running], l) <==> Doomed(f, a, l)
    ensures forall l :: Sound(f, a[k := Running], l) <==> Sound(f, a, l)
  {
    hide Hopeless, Good;
    assert forall l :: IsFull(a[k := Running], l) <==> IsFull(a, l);
  }

  function Panicking(f: Factories): set<Id> {
    set k | k in f && f[k].Panics()
  }

  /** Before anything but pre-built instances is resolved, fates are those of the registrations. */
  lemma FreshIsUnresolved(f: Factories, cells: Cells)
    requires forall k :: k in f && IsFull(cells, k) ==> f[k].CloneOf?
    ensures Unresolved(f, cells) == ReadsOf(f) && Explosive(f, cells) == Panicking(f)
  {
  }

  lemma UnresolvedIsRead(f: Factories, cells: Cells)
    ensures Subgraph(Unresolved(f, cells), ReadsOf(f))
  {
  }

  // ---- how a resolution may change the cells ---------------------------------------------------

  /** A resolved built service holds, field by field, the instances of the cells it read. */
  ghost predicate WiredAt(f: Factories, cells: Cells, k: Id)
    requires k in f && IsFull(cells, k)
  {
    f[k].Build? ==>
      && !f[k].panics
      && |cells[k].value.obj.fields| == |f[k].wants|
      && forall i :: 0 <= i < |f[k].wants| ==>
           IsFull(cells, f[k].wants[i]) && cells[k].value.obj.fields[i] == cells[f[k].wants[i]].value.obj
  }

  ghost predicate Wired(f: Factories, cells: Cells) {
    forall k :: k in f && IsFull(cells, k) ==> WiredAt(f, cells, k)
  }

  /** Content and factory of a key have the representation its accessor expects. */
  predicate Typed(f: Factories, cells: Cells, k: Id)
    requires k in f && k in cells
  {
    && (cells[k].Full? ==> cells[k].value.tag == TagFor(k) && cells[k].value.obj.key == k)
    && (f[k].Build? ==> f[k].tag == TagFor(k))
    && (f[k].CloneOf? ==> f[k].value.tag == TagFor(k) && f[k].value.obj.key == k)
  }

  ghost predicate AllTyped(f: Factories, cells: Cells) {
    cells.Keys == f.Keys && forall k :: k in f ==> Typed(f, cells, k)
  }

  /** Key `k` was resolved between `a` and `b`, and rightly so. */
  ghost predicate NewlyFull(f: Factories, a: Cells, b: Cells, k: Id)
    requires k in f && k in a && IsFull(b, k)
  {
    a[k].Empty? && Sound(f, a, k) && WiredAt(f, b, k)
  }

  /** Lookups led from `a` to `b`: whatever was resolved stays, whatever is not resolved now is untouched. */
  ghost predicate Settles(f: Factories, a: Cells, b: Cells) {
    && a.Keys == b.Keys == f.Keys
    && (forall k :: k in f ==> IsFull(a, k) || !IsFull(b, k) ==> b[k] == a[k])
    && (forall k :: k in f && IsFull(b, k) && !IsFull(a, k) ==> NewlyFull(f, a, b, k))
  }

  /** The lookup of `from` led from `a` to `b`: only what it reads, directly or not, was resolved. */
  ghost predicate Grows(f: Factories, a: Cells, b: Cells, from: Id) {
    Settles(f, a, b) && forall k :: k in f && IsFull(b, k) && !IsFull(a, k) ==> Reach(ReadsOf(f), from, k)
  }

  /** The keys resolved between `a` and `b`. */
  function Gained(a: Cells, b: Cells): set<Id> {
    set k | k in b && IsFull(b, k) && !IsFull(a, k)
  }

  lemma GrowsRefl(f: Factories, a: Cells, from: Id)
    requires a.Keys == f.Keys
    ensures Grows(f, a, a, from)
  {
  }

  /** A key that is not resolved rightly is not resolved in between: it reads what it read. */
  lemma StillUnresolved(f: Factories, a: Cells, b: Cells, k: Id)
    requires Settles(f, a, b) && k in f && !Sound(f, a, k)
    ensures Unresolved(f, b)[k] == Unresolved(f, a)[k]
    ensures k in Explosive(f, b) <==> k in Explosive(f, a)
  {
    if IsFull(a, k) {
      FullIsSound(f, a, k);
    }
  }

  lemma SettlesShrinks(f: Factories, a: Cells, b: Cells)
    requires Settles(f, a, b)
    ensures Subgraph(Unresolved(f, b), Unresolved(f, a)) && Explosive(f, b) <= Explosive(f, a)
  {
    hide Sound, WiredAt;
    assert forall k :: k in f && IsFull(a, k) ==> IsFull(b, k);
  }

  /** A walk through keys whose lookups do not succeed stays open. */
  lemma WalkKept(f: Factories, a: Cells, b: Cells, p: seq<Id>)
    requires Settles(f, a, b) && Walk(Unresolved(f, a), p)
    requires forall i :: 0 <= i < |p| ==> !Sound(f, a, p[i])
    ensures Walk(Unresolved(f, b), p)
  {
    hide Settles, Sound;
    forall i | 0 <= i < |p| - 1 ensures Edge(Unresolved(f, b), p[i], p[i + 1]) {
      assert Edge(Unresolved(f, a), p[i], p[i + 1]);
      StillUnresolved(f, a, b, p[i]);
    }
  }

  /** What leads to a key whose lookup does not succeed still leads there. */
  lemma OpenReachKept(f: Factories, a: Cells, b: Cells, k: Id, v: Id)
    requires Settles(f, a, b) && Reach(Unresolved(f, a), k, v) && !Sound(f, a, v)
    ensures Reach(Unresolved(f, b), k, v)
  {
    hide Settles, Unresolved, Explosive, Good;
    var p :| WalkFromTo(Unresolved(f, a), p, k, v);
    forall i | 0 <= i < |p| ensures !Sound(f, a, p[i]) {
      if Sound(f, a, p[i]) {
        assert WalkFromTo(Unresolved(f, a), p[i..], p[i], v);
        GoodReach(Unresolved(f, a), Explosive(f, a), p[i], v);
      }
    }
    WalkKept(f, a, b, p);
    assert WalkFromTo(Unresolved(f, b), p, k, v);
  }

  lemma BadIsUnsound(f: Factories, a: Cells, v: Id)
    requires v !in f || v in Explosive(f, a)
    ensures !Sound(f, a, v)
  {
    HopelessUnfold(Unresolved(f, a), Explosive(f, a), v);
  }

  /** A resolution changes no key's fate: not whether its lookup fails. */
  lemma DoomedStable(f: Factories, a: Cells, b: Cells, k: Id)
    requires Settles(f, a, b)
    ensures Doomed(f, a, k) <==> Doomed(f, b, k)
  {
    var g, h := Unresolved(f, a), Unresolved(f, b);
    SettlesShrinks(f, a, b);
    hide Settles, Sound, Reach;
    if Doomed(f, b, k) {
      var v :| Reach(h, k, v) && (v !in h || v in Explosive(f, b));
      SubgraphReach(h, g, k, v);
    }
    if Doomed(f, a, k) {
      var v :| Reach(g, k, v) && (v !in g || v in Explosive(f, a));
      BadIsUnsound(f, a, v);
      if v in f {
        StillUnresolved(f, a, b, v);
      }
      OpenReachKept(f, a, b, k, v);
    }
  }

  lemma OnCycleIsUnsound(f: Factories, a: Cells, p: seq<Id>, i: nat)
    requires Cycle(Unresolved(f, a), p) && i < |p|
    ensures !Sound(f, a, p[i])
  {
    CycleReaches(Unresolved(f, a), p, i);
  }

  lemma CycleKept(f: Factories, a: Cells, b: Cells, p: seq<Id>)
    requires Settles(f, a, b) && Cycle(Unresolved(f, a), p)
    ensures Cycle(Unresolved(f, b), p)
  {
    hide Settles, Sound, Explosive;
    forall i | 0 <= i < |p| ensures !Sound(f, a, p[i]) {
      OnCycleIsUnsound(f, a, p, i);
    }
    WalkKept(f, a, b, p);
    StillUnresolved(f, a, b, Last(p));
  }

  /** Nor whether a cycle can be reached over what is still to be read. */
  lemma AcyclicFromStable(f: Factories, a: Cells, b: Cells, k: Id)
    requires Settles(f, a, b)
    ensures AcyclicFrom(Unresolved(f, a), k) <==> AcyclicFrom(Unresolved(f, b), k)
  {
    SettlesShrinks(f, a, b);
    hide Settles, Unresolved, Explosive, Sound, Cycle, Reach;
    if AcyclicFrom(Unresolved(f, a), k) {
      SubgraphAcyclicFrom(Unresolved(f, b), Unresolved(f, a), k);
    } else {
      var p :| Cycle(Unresolved(f, a), p) && Reach(Unresolved(f, a), k, p[0]);
      CycleKept(f, a, b, p);
      OnCycleIsUnsound(f, a, p, 0);
      OpenReachKept(f, a, b, k, p[0]);
    }
  }

  lemma SoundStable(f: Factories, a: Cells, b: Cells)
    requires Settles(f, a, b)
    ensures forall k :: Sound(f, a, k) <==> Sound(f, b, k)
  {
    forall k ensures Sound(f, a, k) <==> Sound(f, b, k) {
      DoomedStable(f, a, b, k);
      AcyclicFromStable(f, a, b, k);
    }
  }

  /** What can still happen shrinks, and only at keys that were resolved. */
  lemma FeasibleShrinks(f: Factories, a: Cells, b: Cells)
    requires Settles(f, a, b)
    ensures Subgraph(Feasible(f, b), Feasible(f, a))
    ensures forall k :: k in f && !IsFull(b, k) ==> Feasible(f, b)[k] == Feasible(f, a)[k]
  {
    SoundStable(f, a, b);
    hide Good, WiredAt;
    forall k ensures Good(Unresolved(f, a), Explosive(f, a), k) <==> Good(Unresolved(f, b), Explosive(f, b), k) {
      assert Sound(f, a, k) <==> Sound(f, b, k);
    }
    forall k | k in f && !IsFull(b, k) ensures Feasible(f, b)[k] == Feasible(f, a)[k] {
      UpToBadSame(Unresolved(f, a), Explosive(f, a), Unresolved(f, b), Explosive(f, b), f[k].Reads());
    }
  }

  /** A resolution keeps a lookup decided. */
  lemma DecidedKept(f: Factories, a: Cells, b: Cells, k: Id)
    requires Settles(f, a, b) && Decided(f, a, k)
    ensures Decided(f, b, k)
  {
    FeasibleShrinks(f, a, b);
    SubgraphAcyclicFrom(Feasible(f, b), Feasible(f, a), k);
  }

  lemma FullStep(f: Factories, a: Cells, b: Cells, u: Id, v: Id)
    requires Settles(f, a, b) && Edge(Feasible(f, a), u, v) && IsFull(b, u)
    ensures IsFull(b, v)
  {
    hide Sound, Explosive, Trim;
    TrimIsSubgraph(Unresolved(f, a), Explosive(f, a));
    assert Edge(Unresolved(f, a), u, v);
    assert NewlyFull(f, a, b, u);
  }

  /** Whatever a newly resolved key had to read is resolved too. */
  lemma {:induction false} FullAlong(f: Factories, a: Cells, b: Cells, p: seq<Id>, n: nat)
    requires Settles(f, a, b) && Walk(Feasible(f, a), p) && IsFull(b, p[0]) && n < |p|
    ensures IsFull(b, p[n])
  {
    hide Settles, Feasible, IsFull, Edge;
    if n == 0 {
    } else {
      FullAlong(f, a, b, p, n - 1);
      assert Edge(Feasible(f, a), p[n - 1], p[n]);
      FullStep(f, a, b, p[n - 1], p[n]);
    }
  }

  lemma FeasibleEdgeKept(f: Factories, a: Cells, b: Cells, u: Id, v: Id)
    requires Settles(f, a, b) && Edge(Feasible(f, a), u, v) && !IsFull(b, u)
    ensures Edge(Feasible(f, b), u, v)
  {
    FeasibleShrinks(f, a, b);
  }

  lemma FeasibleWalkKept(f: Factories, a: Cells, b: Cells, p: seq<Id>)
    requires Settles(f, a, b) && Walk(Feasible(f, a), p) && forall i :: 0 <= i < |p| ==> !IsFull(b, p[i])
    ensures Walk(Feasible(f, b), p)
  {
    forall i | 0 <= i < |p| - 1 ensures Edge(Feasible(f, b), p[i], p[i + 1]) {
      assert Edge(Feasible(f, a), p[i], p[i + 1]);
      FeasibleEdgeKept(f, a, b, p[i], p[i + 1]);
    }
  }

  /** A key whose lookup does not end is not resolved. */
  lemma UndecidedIsOpen(f: Factories, a: Cells, b: Cells, k: Id)
    requires Settles(f, a, b) && !Decided(f, a, k)
    ensures !IsFull(b, k)
  {
    if IsFull(b, k) {
      if IsFull(a, k) {
        FullIsSound(f, a, k);
      }
      GoodIsAnswerable(Unresolved(f, a), Explosive(f, a), k);
    }
  }

  lemma FeasibleDecided(f: Factories, a: Cells, u: Id, v: Id)
    requires Decided(f, a, u) && Reach(Feasible(f, a), u, v)
    ensures Decided(f, a, v)
  {
    AcyclicFromReach(Feasible(f, a), u, v);
  }

  /** A feasible walk to a key whose lookup does not end stays feasible. */
  lemma UndecidedWalkKept(f: Factories, a: Cells, b: Cells, p: seq<Id>)
    requires Settles(f, a, b) && Walk(Feasible(f, a), p) && !Decided(f, a, Last(p))
    ensures Walk(Feasible(f, b), p) && forall i :: 0 <= i < |p| ==> !IsFull(b, p[i])
  {
    hide Settles, Feasible, IsFull, Edge;
    forall i | 0 <= i < |p| ensures !IsFull(b, p[i]) {
      assert WalkFromTo(Feasible(f, a), p[i..], p[i], Last(p));
      if Decided(f, a, p[i]) {
        FeasibleDecided(f, a, p[i], Last(p));
      }
      UndecidedIsOpen(f, a, b, p[i]);
    }
    FeasibleWalkKept(f, a, b, p);
  }

  lemma OnFeasibleCycle(f: Factories, a: Cells, p: seq<Id>, i: nat)
    requires Cycle(Feasible(f, a), p) && i < |p|
    ensures !Decided(f, a, p[i])
  {
    CycleReaches(Feasible(f, a), p, i);
  }

  lemma FeasibleCycleKept(f: Factories, a: Cells, b: Cells, p: seq<Id>)
    requires Settles(f, a, b) && Cycle(Feasible(f, a), p)
    ensures Cycle(Feasible(f, b), p) && !Decided(f, a, p[0])
  {
    OnFeasibleCycle(f, a, p, 0);
    OnFeasibleCycle(f, a, p, |p| - 1);
    hide Settles, Feasible, IsFull, Edge, Decided;
    UndecidedWalkKept(f, a, b, p);
    FeasibleEdgeKept(f, a, b, p[|p| - 1], p[0]);
  }

  /** A resolution changes for no key whether its lookup ends. */
  lemma DecidedStable(f: Factories, a: Cells, b: Cells, k: Id)
    requires Settles(f, a, b)
    ensures Decided(f, a, k) <==> Decided(f, b, k)
  {
    if Decided(f, a, k) {
      DecidedKept(f, a, b, k);
    } else {
      var g, h := Feasible(f, a), Feasible(f, b);
      var p :| Cycle(g, p) && Reach(g, k, p[0]);
      FeasibleCycleKept(f, a, b, p);
      var q :| WalkFromTo(g, q, k, p[0]);
      UndecidedWalkKept(f, a, b, q);
      assert WalkFromTo(h, q, k, p[0]);
    }
  }

  /** What waits for a key that is not resolved yet still waits for it. */
  lemma ReachKept(f: Factories, a: Cells, b: Cells, u: Id, v: Id)
    requires Settles(f, a, b) && Reach(Feasible(f, a), u, v) && v in f && !IsFull(b, v)
    ensures Reach(Feasible(f, b), u, v)
  {
    hide Settles, Feasible, IsFull, Edge;
    var p :| WalkFromTo(Feasible(f, a), p, u, v);
    forall i | 0 <= i < |p| ensures !IsFull(b, p[i]) {
      if IsFull(b, p[i]) {
        assert Walk(Feasible(f, a), p[i..]);
        FullAlong(f, a, b, p[i..], |p| - i - 1);
      }
    }
    FeasibleWalkKept(f, a, b, p);
    assert WalkFromTo(Feasible(f, b), p, u, v);
  }

  lemma WiredAtKept(f: Factories, a: Cells, b: Cells, k: Id)
    requires Settles(f, a, b) && k in f && IsFull(a, k) && WiredAt(f, a, k)
    ensures WiredAt(f, b, k)
  {
  }

  lemma WiredKept(f: Factories, a: Cells, b: Cells)
    requires Settles(f, a, b) && Wired(f, a)
    ensures Wired(f, b)
  {
    forall k | k in f && IsFull(b, k) ensures WiredAt(f, b, k) {
      if IsFull(a, k) {
        WiredAtKept(f, a, b, k);
      }
    }
  }

  lemma SettlesTrans(f: Factories, a: Cells, b: Cells, c: Cells)
    requires Settles(f, a, b) && Settles(f, b, c)
    ensures Settles(f, a, c)
    ensures Gained(a, c) == Gained(a, b) + Gained(b, c) && Gained(a, b) !! Gained(b, c)
  {
    forall k | k in f && IsFull(c, k) && !IsFull(a, k) ensures NewlyFull(f, a, c, k) {
      if IsFull(b, k) {
        WiredAtKept(f, b, c, k);
      } else {
        SoundStable(f, a, b);
      }
    }
  }

  /** Resolving `mid` on behalf of `from`, which reads it, is part of resolving `from`. */
  lemma GrowsTrans(f: Factories, a: Cells, b: Cells, c: Cells, from: Id, mid: Id)
    requires Grows(f, a, b, from) && Grows(f, b, c, mid) && Reach(ReadsOf(f), from, mid)
    ensures Grows(f, a, c, from)
    ensures Gained(a, c) == Gained(a, b) + Gained(b, c) && Gained(a, b) !! Gained(b, c)
  {
    SettlesTrans(f, a, b, c);
    forall k | k in f && IsFull(c, k) && !IsFull(a, k) ensures Reach(ReadsOf(f), from, k) {
      if !IsFull(b, k) {
        ReachTrans(ReadsOf(f), from, mid, k);
      }
    }
  }

  // ---- the object graph -------------------------------------------------------------------------

  lemma {:induction false} WiredAlong(f: Factories, cells: Cells, p: seq<Id>, n: nat)
    requires Wired(f, cells) && cells.Keys == f.Keys && Walk(ReadsOf(f), p) && IsFull(cells, p[0]) && n < |p|
    ensures IsFull(cells, p[n])
  {
    if n == 0 {
    } else {
      WiredAlong(f, cells, p, n - 1);
      assert WiredAt(f, cells, p[n - 1]);
      assert Edge(ReadsOf(f), p[n - 1], p[n]);
    }
  }

  /** Everything a resolved cell can reach is resolved, sound, and never asked to fail. */
  lemma WiredReach(f: Factories, cells: Cells, k: Id, v: Id)
    requires Wired(f, cells) && cells.Keys == f.Keys && IsFull(cells, k) && Reach(ReadsOf(f), k, v)
    ensures v in f && IsFull(cells, v) && !f[v].Panics()
  {
    var p :| WalkFromTo(ReadsOf(f), p, k, v);
    WiredAlong(f, cells, p, |p| - 1);
    assert WiredAt(f, cells, v);
  }

  /**
   * In a wired container the order of earlier lookups does not matter: a lookup fails exactly when
   * an unregistered id or a panicking factory can be reached from it.
   */
  lemma DoomedIsHopeless(f: Factories, cells: Cells, k: Id)
    requires Wired(f, cells) && cells.Keys == f.Keys
    ensures Doomed(f, cells, k) <==> Hopeless(ReadsOf(f), Panicking(f), k)
  {
    var g, h := ReadsOf(f), Unresolved(f, cells);
    if Doomed(f, cells, k) {
      var v :| Reach(h, k, v) && (v !in h || v in Explosive(f, cells));
      UnresolvedIsRead(f, cells);
      SubgraphReach(h, g, k, v);
    }
    if Hopeless(g, Panicking(f), k) {
      var v :| Reach(g, k, v) && (v !in g || v in Panicking(f));
      var p :| WalkFromTo(g, p, k, v);
      forall i | 0 <= i < |p| ensures !IsFull(cells, p[i]) {
        if IsFull(cells, p[i]) {
          assert WalkFromTo(g, p[i..], p[i], v);
          WiredReach(f, cells, p[i], v);
        }
      }
      forall i | 0 <= i < |p| - 1 ensures Edge(h, p[i], p[i + 1]) {
        assert Edge(g, p[i], p[i + 1]);
      }
      assert p[|p| - 1] == v;
      assert WalkFromTo(h, p, k, v);
      assert Reach(h, k, v);
    }
  }

  /** The object a path of field positions leads to. */
  ghost predicate ObjectAt(o: Instance, path: seq<nat>, r: Instance)
    decreases |path|
  {
    if path == [] then r == o
    else path[0] < |o.fields| && ObjectAt(o.fields[path[0]], path[1..], r)
  }

  /** Following fields from a resolved service ends at the instance in the cell of the declared key. */
  lemma {:induction false} FieldsFollowDeclarations(f: Factories, cells: Cells, k: Id, path: seq<nat>, r: Instance)
    requires Wired(f, cells) && cells.Keys == f.Keys && IsFull(cells, k) && PathFits(ReadsOf(f), k, path)
    ensures IsFull(cells, KeyAt(ReadsOf(f), k, path))
    ensures ObjectAt(cells[k].value.obj, path, r) <==> r == cells[KeyAt(ReadsOf(f), k, path)].value.obj
    decreases |path|
  {
    if path == [] {
    } else {
      assert WiredAt(f, cells, k);
      FieldsFollowDeclarations(f, cells, f[k].wants[path[0]], path[1..], r);
    }
  }

  /**
   * The object graph is the same however it was resolved: two field paths, in any two wired
   * containers with the same factories, meet in one object in the first exactly when they do in
   * the second, namely when the declarations send them to one key.
   */
  lemma SharingIsDeclared(f: Factories, a: Cells, b: Cells, k: Id, p: seq<nat>, l: Id, q: seq<nat>, r: Instance, s: Instance)
    requires AllTyped(f, a) && AllTyped(f, b) && Wired(f, a) && Wired(f, b)
    requires IsFull(a, k) && IsFull(a, l) && IsFull(b, k) && IsFull(b, l)
    requires PathFits(ReadsOf(f), k, p) && PathFits(ReadsOf(f), l, q)
    requires ObjectAt(a[k].value.obj, p, r) && ObjectAt(b[k].value.obj, p, s)
    ensures ObjectAt(a[l].value.obj, q, r) <==> KeyAt(ReadsOf(f), k, p) == KeyAt(ReadsOf(f), l, q)
    ensures ObjectAt(a[l].value.obj, q, r) <==> ObjectAt(b[l].value.obj, q, s)
  {
    FieldsFollowDeclarations(f, a, k, p, r);
    FieldsFollowDeclarations(f, a, l, q, r);
    FieldsFollowDeclarations(f, b, k, p, s);
    FieldsFollowDeclarations(f, b, l, q, s);
  }
}
