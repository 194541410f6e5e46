/**
 * Which lookups ever get an answer, read off the registrations alone.
 *
 * A factory reads its list in order and stops at the first read that panics. So a cycle does no
 * harm behind a read that panics first, and only reads up to that point count.
 */
module Fates {
  import opened Graphs
  import opened Sequences

  /** A lookup of `k` succeeds: nothing unregistered, nothing panicking and no cycle can be reached. */
  ghost predicate Good(g: Deps, panicking: set<Id>, k: Id) {
    !Hopeless(g, panicking, k) && AcyclicFrom(g, k)
  }

  lemma GoodUnfold(g: Deps, panicking: set<Id>, k: Id)
    ensures Good(g, panicking, k) <==>
            k in g && k !in panicking && forall i :: 0 <= i < |g[k]| ==> Good(g, panicking, g[k][i])
  {
    HopelessUnfold(g, panicking, k);
    if k in g {
      forall i | 0 <= i < |g[k]| && Good(g, panicking, k) ensures Good(g, panicking, g[k][i]) {
        assert Edge(g, k, g[k][i]);
        AcyclicFromEdge(g, k, g[k][i]);
      }
      if forall i :: 0 <= i < |g[k]| ==> Good(g, panicking, g[k][i]) {
        AcyclicFromSuccessors(g, k);
      }
    }
  }

  lemma GoodReach(g: Deps, panicking: set<Id>, k: Id, v: Id)
    requires Good(g, panicking, k) && Reach(g, k, v)
    ensures Good(g, panicking, v)
  {
    AcyclicFromReach(g, k, v);
    if Hopeless(g, panicking, v) {
      var w :| Reach(g, v, w) && (w !in g || w in panicking);
      ReachTrans(g, k, v, w);
    }
  }

  /** The place of the first read that does not succeed, or the length if all do. */
  ghost function FirstBad(g: Deps, panicking: set<Id>, list: seq<Id>): (n: nat)
    ensures n <= |list|
    ensures forall i :: 0 <= i < n ==> Good(g, panicking, list[i])
    ensures n < |list| ==> !Good(g, panicking, list[n])
  {
    if list == [] || !Good(g, panicking, list[0]) then 0
    else 1 + FirstBad(g, panicking, list[1..])
  }

  lemma FirstBadIs(g: Deps, panicking: set<Id>, list: seq<Id>, n: nat)
    requires n <= |list| && forall i :: 0 <= i < n ==> Good(g, panicking, list[i])
    ensures n <= FirstBad(g, panicking, list)
    ensures n < |list| && !Good(g, panicking, list[n]) ==> FirstBad(g, panicking, list) == n
  {
    assert FirstBad(g, panicking, list) < |list| ==> !Good(g, panicking, list[FirstBad(g, panicking, list)]);
  }

  /** The reads that can happen: those that succeed, and the first that does not. */
  ghost function UpToBad(g: Deps, panicking: set<Id>, list: seq<Id>): seq<Id> {
    var n := FirstBad(g, panicking, list);
    if n < |list| then list[..n + 1] else list
  }

  lemma UpToBadSame(g: Deps, panicking: set<Id>, h: Deps, panicking': set<Id>, list: seq<Id>)
    requires forall k :: Good(g, panicking, k) <==> Good(h, panicking', k)
    ensures UpToBad(g, panicking, list) == UpToBad(h, panicking', list)
  {
    FirstBadIs(g, panicking, list, FirstBad(h, panicking', list));
    FirstBadIs(h, panicking', list, FirstBad(g, panicking, list));
  }

  ghost function Trim(g: Deps, panicking: set<Id>): Deps {
    map k | k in g :: UpToBad(g, panicking, g[k])
  }

  /** A lookup of `k` gets an answer: no cycle can be reached over reads that can happen. */
  ghost predicate Answerable(g: Deps, panicking: set<Id>, k: Id) {
    AcyclicFrom(Trim(g, panicking), k)
  }

  lemma TrimIsSubgraph(g: Deps, panicking: set<Id>)
    ensures Subgraph(Trim(g, panicking), g)
  {
  }

  lemma GoodIsAnswerable(g: Deps, panicking: set<Id>, k: Id)
    requires Good(g, panicking, k)
    ensures Answerable(g, panicking, k)
  {
    TrimIsSubgraph(g, panicking);
    SubgraphAcyclicFrom(Trim(g, panicking), g, k);
  }

  lemma UnregisteredIsAnswerable(g: Deps, panicking: set<Id>, k: Id)
    requires k !in g
    ensures Answerable(g, panicking, k) && !Good(g, panicking, k)
  {
    AcyclicFromSuccessors(Trim(g, panicking), k);
    HopelessUnfold(g, panicking, k);
  }

  /** After `n` reads that succeed, the next one can happen. */
  lemma NextReadHappens(g: Deps, panicking: set<Id>, k: Id, n: nat)
    requires k in g && n < |g[k]| && forall i :: 0 <= i < n ==> Good(g, panicking, g[k][i])
    ensures var t := Trim(g, panicking); n < |t[k]| && t[k][n] == g[k][n] && Edge(t, k, g[k][n])
  {
    FirstBadIs(g, panicking, g[k], n);
  }

  /** Which read a trimmed edge stands for. */
  lemma TrimmedRead(g: Deps, panicking: set<Id>, k: Id, n: nat, v: Id) returns (i: nat)
    requires k in g && n <= |g[k]| && forall j :: 0 <= j < n ==> Good(g, panicking, g[k][j])
    requires n < |g[k]| ==> !Good(g, panicking, g[k][n])
    requires Edge(Trim(g, panicking), k, v)
    ensures i <= n && i < |g[k]| && g[k][i] == v
  {
    hide Good;
    FirstBadIs(g, panicking, g[k], n);
    var list := UpToBad(g, panicking, g[k]);
    i :| 0 <= i < |list| && list[i] == v;
  }

  /** A key is answerable if the reads before its first failure are good and the failure itself is answerable. */
  lemma AnswerableByReads(g: Deps, panicking: set<Id>, k: Id, n: nat)
    requires k in g && n <= |g[k]| && forall i :: 0 <= i < n ==> Good(g, panicking, g[k][i])
    requires n < |g[k]| ==> !Good(g, panicking, g[k][n]) && Answerable(g, panicking, g[k][n])
    ensures Answerable(g, panicking, k)
  {
    var t := Trim(g, panicking);
    hide Good, AcyclicFrom;
    forall v | Edge(t, k, v) ensures AcyclicFrom(t, v) {
      var i := TrimmedRead(g, panicking, k, n, v);
      if i < n {
        GoodIsAnswerable(g, panicking, v);
      }
    }
    AcyclicFromSuccessors(t, k);
  }

  // ---- falling -----------------------------------------------------------------------------------

  ghost predicate FallsInto(g: Deps, panicking: set<Id>, k: Id, next: Id) {
    && k in g
    && var n := FirstBad(g, panicking, g[k]);
       n < |g[k]| && g[k][n] == next
  }

  /**
   * From each id of `p` the first read that does not succeed is the next one, and the last is
   * unregistered, or panics on its own after reads that all succeed.
   */
  ghost predicate Falls(g: Deps, panicking: set<Id>, p: seq<Id>) {
    && |p| > 0
    && (forall i :: 0 <= i < |p| - 1 ==> FallsInto(g, panicking, p[i], p[i + 1]))
    && (Last(p) in g ==> Last(p) in panicking && FirstBad(g, panicking, g[Last(p)]) == |g[Last(p)]|)
  }

  lemma FallsTail(g: Deps, panicking: set<Id>, p: seq<Id>)
    requires Falls(g, panicking, p) && |p| > 1
    ensures Falls(g, panicking, p[1..])
  {
    forall i | 0 <= i < |p[1..]| - 1 ensures FallsInto(g, panicking, p[1..][i], p[1..][i + 1]) {
      assert FallsInto(g, panicking, p[i + 1], p[i + 2]);
    }
  }

  lemma {:induction false} FallingIsAnswerable(g: Deps, panicking: set<Id>, p: seq<Id>)
    requires Falls(g, panicking, p)
    ensures Answerable(g, panicking, p[0]) && !Good(g, panicking, p[0])
  {
    var k := p[0];
    if |p| == 1 {
      if k in g {
        AnswerableByReads(g, panicking, k, |g[k]|);
      } else {
        UnregisteredIsAnswerable(g, panicking, k);
      }
    } else {
      assert FallsInto(g, panicking, p[0], p[1]);
      FallsTail(g, panicking, p);
      FallingIsAnswerable(g, panicking, p[1..]);
      AnswerableByReads(g, panicking, k, FirstBad(g, panicking, g[k]));
    }
    GoodUnfold(g, panicking, k);
  }

  lemma {:induction false} BadAnswerableFalls(g: Deps, panicking: set<Id>, k: Id) returns (p: seq<Id>)
    requires Answerable(g, panicking, k) && !Good(g, panicking, k)
    ensures Falls(g, panicking, p) && p[0] == k
    decreases Rank(Trim(g, panicking), k)
  {
    var t := Trim(g, panicking);
    GoodUnfold(g, panicking, k);
    if k !in g || FirstBad(g, panicking, g[k]) == |g[k]| {
      p := [k];
    } else {
      var n := FirstBad(g, panicking, g[k]);
      NextReadHappens(g, panicking, k, n);
      EdgeDecreasesRank(t, k, g[k][n]);
      AcyclicFromEdge(t, k, g[k][n]);
      var rest := BadAnswerableFalls(g, panicking, g[k][n]);
      p := [k] + rest;
      forall i | 0 <= i < |p| - 1 ensures FallsInto(g, panicking, p[i], p[i + 1]) {
        if i > 0 {
          assert FallsInto(g, panicking, rest[i - 1], rest[i]);
        }
      }
    }
  }

  /**
   * The condition a caller can check: a lookup gets an answer exactly when it succeeds, or when
   * following the first read that does not succeed ends at an unregistered id or at a factory that
   * panics on its own after all its reads succeeded.
   */
  lemma AnswerableExactlyWhen(g: Deps, panicking: set<Id>, k: Id)
    ensures Answerable(g, panicking, k) <==>
            Good(g, panicking, k) || exists p :: Falls(g, panicking, p) && p[0] == k
  {
    if Good(g, panicking, k) {
      GoodIsAnswerable(g, panicking, k);
    }
    forall p | Falls(g, panicking, p) && p[0] == k ensures Answerable(g, panicking, k) {
      FallingIsAnswerable(g, panicking, p);
    }
    if Answerable(g, panicking, k) && !Good(g, panicking, k) {
      var p := BadAnswerableFalls(g, panicking, k);
    }
  }

  lemma {:induction false} FallingReaches(g: Deps, panicking: set<Id>, p: seq<Id>)
    requires Falls(g, panicking, p)
    ensures Hopeless(g, panicking, p[0])
  {
    HopelessUnfold(g, panicking, p[0]);
    if |p| == 1 {
    } else {
      assert FallsInto(g, panicking, p[0], p[1]);
      FallsTail(g, panicking, p);
      FallingReaches(g, panicking, p[1..]);
    }
  }

  /** An answerable key that cannot fail succeeds. */
  lemma AnswerableSucceeds(g: Deps, panicking: set<Id>, k: Id)
    requires Answerable(g, panicking, k) && !Hopeless(g, panicking, k)
    ensures Good(g, panicking, k)
  {
    if !Good(g, panicking, k) {
      var p := BadAnswerableFalls(g, panicking, k);
      FallingReaches(g, panicking, p);
    }
  }

  /** Without any cycle every lookup gets an answer. */
  lemma AcyclicIsAnswerable(g: Deps, panicking: set<Id>, k: Id)
    requires Acyclic(g)
    ensures Answerable(g, panicking, k)
  {
    TrimIsSubgraph(g, panicking);
    SubgraphAcyclicFrom(Trim(g, panicking), g, k);
  }
}
