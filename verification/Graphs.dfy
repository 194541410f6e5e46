/** The declared dependency graph: type ids, edges, walks, cycles and reachability. */
module Graphs {
  import opened Sequences

  /** A container key. A concrete type and a trait object never share a key, even under one name. */
  datatype Id = Concrete(t: nat) | TraitObject(t: nat)

  /** For every registered id, its dependency list in declaration order (repeats allowed). */
  type Deps = map<Id, seq<Id>>

  /** An unregistered id has no outgoing edges. */
  function DepsOf(g: Deps, n: Id): seq<Id> {
    if n in g then g[n] else []
  }

  predicate Edge(g: Deps, u: Id, v: Id) {
    v in DepsOf(g, u)
  }

  /** The registered ids and everything they list. */
  function Nodes(g: Deps): set<Id> {
    g.Keys + set u, i | u in g && 0 <= i < |g[u]| :: g[u][i]
  }

  predicate Walk(g: Deps, p: seq<Id>) {
    |p| > 0 && forall i :: 0 <= i < |p| - 1 ==> Edge(g, p[i], p[i + 1])
  }

  predicate Cycle(g: Deps, p: seq<Id>) {
    Walk(g, p) && Edge(g, Last(p), p[0])
  }

  ghost predicate Acyclic(g: Deps) {
    forall p: seq<Id> :: !Cycle(g, p)
  }

  ghost predicate WalkFromTo(g: Deps, p: seq<Id>, u: Id, v: Id) {
    Walk(g, p) && p[0] == u && Last(p) == v
  }

  /** `v` can be reached from `u` in zero or more edges. */
  ghost predicate Reach(g: Deps, u: Id, v: Id) {
    exists p: seq<Id> :: WalkFromTo(g, p, u, v)
  }

  /** No cycle can be reached from `k`. */
  ghost predicate AcyclicFrom(g: Deps, k: Id) {
    forall p: seq<Id> :: Cycle(g, p) ==> !Reach(g, k, p[0])
  }

  lemma ReachRefl(g: Deps, u: Id)
    ensures Reach(g, u, u)
  {
    assert WalkFromTo(g, [u], u, u);
  }

  lemma ReachCons(g: Deps, u: Id, v: Id, w: Id)
    requires Edge(g, u, v) && Reach(g, v, w)
    ensures Reach(g, u, w)
  {
    var p :| WalkFromTo(g, p, v, w);
    assert WalkFromTo(g, [u] + p, u, w);
  }

  lemma ReachSnoc(g: Deps, u: Id, v: Id, w: Id)
    requires Reach(g, u, v) && Edge(g, v, w)
    ensures Reach(g, u, w)
  {
    var p :| WalkFromTo(g, p, u, v);
    assert WalkFromTo(g, p + [w], u, w);
  }

  lemma ReachTrans(g: Deps, u: Id, v: Id, w: Id)
    requires Reach(g, u, v) && Reach(g, v, w)
    ensures Reach(g, u, w)
  {
    var p :| WalkFromTo(g, p, u, v);
    var q :| WalkFromTo(g, q, v, w);
    var r := p + q[1..];
    forall i | 0 <= i < |r| - 1 ensures Edge(g, r[i], r[i + 1]) {
      if i >= |p| - 1 {
        assert r[i] == q[i - |p| + 1] && r[i + 1] == q[i - |p| + 2];
      }
    }
    assert WalkFromTo(g, r, u, w);
  }

  /** A walk leaves its start along an edge unless it is trivial. */
  lemma ReachFirst(g: Deps, u: Id, w: Id) returns (v: Id)
    requires Reach(g, u, w) && u != w
    ensures Edge(g, u, v) && Reach(g, v, w)
  {
    var p :| WalkFromTo(g, p, u, w);
    v := p[1];
    assert WalkFromTo(g, p[1..], v, w);
  }

  /** An edge together with a walk back is a cycle. */
  lemma EdgeAndReturn(g: Deps, u: Id, v: Id) returns (p: seq<Id>)
    requires Edge(g, u, v) && Reach(g, v, u)
    ensures Cycle(g, p) && p[0] == v
  {
    p :| WalkFromTo(g, p, v, u);
  }

  lemma AcyclicFromEdge(g: Deps, u: Id, v: Id)
    requires AcyclicFrom(g, u) && Edge(g, u, v)
    ensures AcyclicFrom(g, v)
  {
    forall p: seq<Id> | Cycle(g, p) ensures !Reach(g, v, p[0]) {
      if Reach(g, v, p[0]) {
        ReachCons(g, u, v, p[0]);
      }
    }
  }

  lemma AcyclicFromReach(g: Deps, u: Id, v: Id)
    requires AcyclicFrom(g, u) && Reach(g, u, v)
    ensures AcyclicFrom(g, v)
  {
    forall p: seq<Id> | Cycle(g, p) ensures !Reach(g, v, p[0]) {
      if Reach(g, v, p[0]) {
        ReachTrans(g, u, v, p[0]);
      }
    }
  }

  /** From the second id of a cycle, or the only one, the first can be reached. */
  lemma CycleReturns(g: Deps, p: seq<Id>)
    requires Cycle(g, p)
    ensures var v := if |p| > 1 then p[1] else p[0]; Edge(g, p[0], v) && Reach(g, v, p[0])
  {
    if |p| > 1 {
      assert WalkFromTo(g, p[1..], p[1], Last(p));
      ReachSnoc(g, p[1], Last(p), p[0]);
    } else {
      ReachRefl(g, p[0]);
    }
  }

  /** A cycle reachable from a key is reachable from one of the keys it lists. */
  lemma AcyclicFromSuccessors(g: Deps, u: Id)
    requires forall v :: Edge(g, u, v) ==> AcyclicFrom(g, v)
    ensures AcyclicFrom(g, u)
  {
    forall p: seq<Id> | Cycle(g, p) ensures !Reach(g, u, p[0]) {
      if Reach(g, u, p[0]) {
        if u != p[0] {
          var w := ReachFirst(g, u, p[0]);
        } else {
          CycleReturns(g, p);
        }
      }
    }
  }

  /** Every id of a cycle reaches its first. */
  lemma CycleReaches(g: Deps, p: seq<Id>, i: nat)
    requires Cycle(g, p) && i < |p|
    ensures Reach(g, p[i], p[0])
  {
    assert WalkFromTo(g, p[i..], p[i], Last(p));
    ReachSnoc(g, p[i], Last(p), p[0]);
  }

  /** `h` has no edge that `g` does not have. */
  ghost predicate Subgraph(h: Deps, g: Deps) {
    forall u, v :: Edge(h, u, v) ==> Edge(g, u, v)
  }

  lemma SubgraphReach(h: Deps, g: Deps, u: Id, v: Id)
    requires Subgraph(h, g) && Reach(h, u, v)
    ensures Reach(g, u, v)
  {
    var p :| WalkFromTo(h, p, u, v);
    assert WalkFromTo(g, p, u, v);
  }

  lemma SubgraphAcyclicFrom(h: Deps, g: Deps, k: Id)
    requires Subgraph(h, g) && AcyclicFrom(g, k)
    ensures AcyclicFrom(h, k)
  {
    forall p: seq<Id> | Cycle(h, p) ensures !Reach(h, k, p[0]) {
      assert Cycle(g, p);
      if Reach(h, k, p[0]) {
        SubgraphReach(h, g, k, p[0]);
      }
    }
  }

  /** `v` can be reached from `u` in one or more edges. */
  ghost predicate ReachPlus(g: Deps, u: Id, v: Id) {
    exists w :: Edge(g, u, w) && Reach(g, w, v)
  }

  lemma NotFromItself(g: Deps, k: Id)
    requires AcyclicFrom(g, k)
    ensures !ReachPlus(g, k, k)
  {
    if ReachPlus(g, k, k) {
      var w :| Edge(g, k, w) && Reach(g, w, k);
      var p := EdgeAndReturn(g, k, w);
      ReachRefl(g, w);
      ReachCons(g, k, w, w);
    }
  }

  // ---- fates and field paths ---------------------------------------------------------------

  /** The fate of a key, read off the registrations alone. */
  ghost predicate Hopeless(g: Deps, panicking: set<Id>, k: Id) {
    exists v :: Reach(g, k, v) && (v !in g || v in panicking)
  }

  lemma HopelessUnfold(g: Deps, panicking: set<Id>, k: Id)
    ensures k !in g ==> Hopeless(g, panicking, k)
    ensures k in g ==> (Hopeless(g, panicking, k) <==>
              k in panicking || exists i :: 0 <= i < |g[k]| && Hopeless(g, panicking, g[k][i]))
  {
    ReachRefl(g, k);
    if k in g {
      forall i | 0 <= i < |g[k]| && Hopeless(g, panicking, g[k][i]) ensures Hopeless(g, panicking, k) {
        var v :| Reach(g, g[k][i], v) && (v !in g || v in panicking);
        assert Edge(g, k, g[k][i]);
        ReachCons(g, k, g[k][i], v);
      }
      if Hopeless(g, panicking, k) && k !in panicking {
        var v :| Reach(g, k, v) && (v !in g || v in panicking);
        var w := ReachFirst(g, k, v);
        assert Hopeless(g, panicking, w);
      }
    }
  }

  predicate PathFits(g: Deps, k: Id, path: seq<nat>)
    decreases |path|
  {
    path != [] ==> path[0] < |DepsOf(g, k)| && PathFits(g, DepsOf(g, k)[path[0]], path[1..])
  }

  /** Which key a path of field positions leads to, by declarations alone. */
  function KeyAt(g: Deps, k: Id, path: seq<nat>): Id
    requires PathFits(g, k, path)
    decreases |path|
  {
    if path == [] then k else KeyAt(g, DepsOf(g, k)[path[0]], path[1..])
  }

  // ---- ranks ------------------------------------------------------------------------------

  ghost function ReachSet(g: Deps, u: Id): set<Id> {
    set v | v in Nodes(g) + {u} && Reach(g, u, v)
  }

  /** How many ids can be reached: the rank that every edge of an acyclic graph decreases. */
  ghost function Rank(g: Deps, u: Id): nat {
    |ReachSet(g, u)|
  }

  lemma {:induction false} SubsetIsNotLarger<T>(a: set<T>, b: set<T>)
    requires a <= b
    ensures |a| <= |b|
  {
    if a == {} {
    } else {
      var x :| x in a;
      SubsetIsNotLarger(a - {x}, b - {x});
    }
  }

  lemma ProperSubsetIsSmaller<T>(a: set<T>, b: set<T>)
    requires a < b
    ensures |a| < |b|
  {
    var x :| x in b && x !in a;
    SubsetIsNotLarger(a, b - {x});
  }

  lemma EdgeDecreasesRank(g: Deps, u: Id, v: Id)
    requires AcyclicFrom(g, u) && Edge(g, u, v)
    ensures Rank(g, v) < Rank(g, u)
  {
    ReachRefl(g, u);
    if Reach(g, v, u) {
      var p := EdgeAndReturn(g, u, v);
      ReachRefl(g, v);
      ReachCons(g, u, v, v);
    }
    forall w | w in ReachSet(g, v) ensures w in ReachSet(g, u) {
      ReachCons(g, u, v, w);
    }
    assert u in ReachSet(g, u) && u !in ReachSet(g, v);
    ProperSubsetIsSmaller(ReachSet(g, v), ReachSet(g, u));
  }

  lemma ReachNode(g: Deps, u: Id, v: Id)
    requires Reach(g, u, v)
    ensures v in Nodes(g) + {u}
  {
    var p :| WalkFromTo(g, p, u, v);
    if |p| > 1 {
      assert Edge(g, p[|p| - 2], p[|p| - 1]);
    }
  }

  lemma ReachDecreasesRank(g: Deps, u: Id, v: Id)
    requires AcyclicFrom(g, u) && Reach(g, u, v)
    ensures Rank(g, v) <= Rank(g, u)
  {
    if u != v {
      var w := ReachFirst(g, u, v);
      EdgeDecreasesRank(g, u, w);
      forall x | x in ReachSet(g, v) ensures x in ReachSet(g, w) {
        ReachTrans(g, w, v, x);
        ReachNode(g, w, x);
      }
      SubsetIsNotLarger(ReachSet(g, v), ReachSet(g, w));
    }
  }

  // ---- deleting edges ---------------------------------------------------------------------

  /** `s` without the targets of the deleted edges out of `u`. */
  function Keep(u: Id, s: seq<Id>, cut: set<(Id, Id)>): (r: seq<Id>)
    ensures forall v :: v in r <==> v in s && (u, v) !in cut
  {
    if s == [] then []
    else (if (u, s[0]) in cut then [] else [s[0]]) + Keep(u, s[1..], cut)
  }

  function Without(g: Deps, cut: set<(Id, Id)>): Deps {
    map u | u in g :: Keep(u, g[u], cut)
  }

  /** `num` is a topological numbering of everything but the deleted edges. */
  ghost predicate Descends(g: Deps, cut: set<(Id, Id)>, num: map<Id, nat>) {
    forall u, v :: Edge(g, u, v) && (u, v) !in cut ==> u in num && v in num && num[v] < num[u]
  }

  lemma {:induction false} WalkDescends(h: Deps, num: map<Id, nat>, p: seq<Id>, n: nat)
    requires Walk(h, p) && n < |p|
    requires p[0] in num
    requires forall u, v :: Edge(h, u, v) ==> u in num && v in num && num[v] < num[u]
    ensures p[n] in num && num[p[n]] <= num[p[0]]
  {
    if n == 0 {
    } else {
      WalkDescends(h, num, p, n - 1);
      assert Edge(h, p[n - 1], p[n]);
    }
  }

  lemma DescendsIsAcyclic(g: Deps, cut: set<(Id, Id)>, num: map<Id, nat>)
    requires Descends(g, cut, num)
    ensures Acyclic(Without(g, cut))
  {
    var h := Without(g, cut);
    assert forall u, v :: Edge(h, u, v) ==> Edge(g, u, v) && (u, v) !in cut;
    forall p: seq<Id> ensures !Cycle(h, p) {
      if Cycle(h, p) {
        WalkDescends(h, num, p, |p| - 1);
      }
    }
  }

  // ---- sums over ids ----------------------------------------------------------------------

  ghost function Sum(weight: Id -> nat, s: set<Id>): nat {
    if s == {} then 0
    else
      var x :| x in s;
      weight(x) + Sum(weight, s - {x})
  }

  lemma {:induction false} SumAdd(weight: Id -> nat, s: set<Id>, y: Id)
    requires y !in s
    ensures Sum(weight, s + {y}) == weight(y) + Sum(weight, s)
  {
    var whole := s + {y};
    var x :| x in whole && Sum(weight, whole) == weight(x) + Sum(weight, whole - {x});
    if x == y {
      assert whole - {x} == s;
    } else {
      assert whole - {x} == (s - {x}) + {y};
      SumAdd(weight, s - {x}, y);
      SumAdd(weight, s - {x}, x);
      assert (s - {x}) + {x} == s;
    }
  }

  function ListLength(g: Deps): Id -> nat {
    x => |DepsOf(g, x)|
  }

  /** Total length of the dependency lists of `s`. */
  ghost function ListedBy(g: Deps, s: set<Id>): nat {
    Sum(ListLength(g), s)
  }

  lemma ListedByAdd(g: Deps, s: set<Id>, y: Id)
    requires y !in s
    ensures ListedBy(g, s + {y}) == |DepsOf(g, y)| + ListedBy(g, s)
  {
    SumAdd(ListLength(g), s, y);
  }

  /** Unregistered ids contribute nothing. */
  lemma {:induction false} ListedByRegistered(g: Deps, extra: set<Id>)
    requires extra !! g.Keys
    ensures ListedBy(g, g.Keys + extra) == ListedBy(g, g.Keys)
  {
    if extra == {} {
      assert g.Keys + extra == g.Keys;
    } else {
      var y :| y in extra;
      ListedByRegistered(g, extra - {y});
      assert g.Keys + extra == (g.Keys + (extra - {y})) + {y};
      ListedByAdd(g, g.Keys + (extra - {y}), y);
    }
  }
}
