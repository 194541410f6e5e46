/** The split of an attribute's tokens at its top-level commas. */
module KeySplitting {
  import opened Sequences
  import opened Syntax

  /** The angle depth after `t`; a `>` too many is ignored. */
  function NextDepth(d: nat, t: TokenTree): nat {
    if t == Punct('<') then d + 1
    else if t == Punct('>') && d > 0 then d - 1
    else d
  }

  function DepthAfter(ts: Tokens, d: nat): nat {
    if ts == [] then d else DepthAfter(ts[1..], NextDepth(d, ts[0]))
  }

  /** A comma here separates keys. */
  predicate Separates(d: nat, t: TokenTree) {
    t == COMMA && d == 0
  }

  /** No separating comma in `ts`, read from depth `d`. */
  predicate Unbroken(ts: Tokens, d: nat) {
    ts == [] || (!Separates(d, ts[0]) && Unbroken(ts[1..], NextDepth(d, ts[0])))
  }

  /** A key: something without a separating comma. */
  predicate IsChunk(c: Tokens) {
    c != [] && Unbroken(c, 0)
  }

  /** Reading `c` leaves no angle bracket open. */
  predicate Closed(c: Tokens) {
    DepthAfter(c, 0) == 0
  }

  function Collected(current: Tokens): seq<Tokens> {
    if current == [] then [] else [current]
  }

  /** The split, with `current` the key being collected. */
  function SplitFrom(ts: Tokens, current: Tokens, d: nat): seq<Tokens>
    decreases |ts|
  {
    if ts == [] then Collected(current)
    else if Separates(d, ts[0]) then Collected(current) + SplitFrom(ts[1..], [], 0)
    else SplitFrom(ts[1..], current + [ts[0]], NextDepth(d, ts[0]))
  }

  function Split(ts: Tokens): seq<Tokens> {
    SplitFrom(ts, [], 0)
  }

  function Join(chunks: seq<Tokens>): Tokens {
    if chunks == [] then []
    else if |chunks| == 1 then chunks[0]
    else chunks[0] + [COMMA] + Join(chunks[1..])
  }

  function Concat(chunks: seq<Tokens>): Tokens {
    if chunks == [] then [] else chunks[0] + Concat(chunks[1..])
  }

  /** `ts` without its separating commas. */
  function WithoutSeparators(ts: Tokens, d: nat): Tokens {
    if ts == [] then []
    else if Separates(d, ts[0]) then WithoutSeparators(ts[1..], 0)
    else [ts[0]] + WithoutSeparators(ts[1..], NextDepth(d, ts[0]))
  }

  /** All keys but the last leave no angle bracket open. */
  predicate Separable(chunks: seq<Tokens>) {
    && (forall i :: 0 <= i < |chunks| ==> IsChunk(chunks[i]))
    && (forall i :: 0 <= i < |chunks| - 1 ==> Closed(chunks[i]))
  }

  // ---- lemmas about reading on ----------------------------------------------------------------

  lemma {:induction false} DepthOfConcat(a: Tokens, b: Tokens, d: nat)
    ensures DepthAfter(a + b, d) == DepthAfter(b, DepthAfter(a, d))
    decreases |a|
  {
    if a == [] {
      assert a + b == b;
    } else {
      DepthOfConcat(a[1..], b, NextDepth(d, a[0]));
      assert (a + b)[1..] == a[1..] + b;
    }
  }

  lemma {:induction false} UnbrokenConcat(a: Tokens, b: Tokens, d: nat)
    ensures Unbroken(a + b, d) <==> Unbroken(a, d) && Unbroken(b, DepthAfter(a, d))
    decreases |a|
  {
    if a == [] {
      assert a + b == b;
    } else {
      UnbrokenConcat(a[1..], b, NextDepth(d, a[0]));
      assert (a + b)[1..] == a[1..] + b;
    }
  }

  /** A stretch without separating commas goes into the current key as a whole. */
  lemma {:induction false} SplitSkips(a: Tokens, rest: Tokens, current: Tokens, d: nat)
    requires Unbroken(a, d)
    ensures SplitFrom(a + rest, current, d) == SplitFrom(rest, current + a, DepthAfter(a, d))
    decreases |a|
  {
    if a == [] {
      assert a + rest == rest && current + a == current;
    } else {
      SplitSkips(a[1..], rest, current + [a[0]], NextDepth(d, a[0]));
      assert (a + rest)[1..] == a[1..] + rest;
      assert current + [a[0]] + a[1..] == current + a;
    }
  }

  // ---- the normal form --------------------------------------------------------------------------

  lemma {:induction false} ConcatOf(a: seq<Tokens>, b: seq<Tokens>)
    ensures Concat(a + b) == Concat(a) + Concat(b)
  {
    if a == [] {
      assert a + b == b;
    } else {
      ConcatOf(a[1..], b);
      assert (a + b)[1..] == a[1..] + b;
    }
  }

  /** Together the keys are the input without its separating commas. */
  lemma {:induction false} SplitFromConcat(ts: Tokens, current: Tokens, d: nat)
    ensures Concat(SplitFrom(ts, current, d)) == current + WithoutSeparators(ts, d)
    decreases |ts|
  {
    if ts == [] {
    } else if Separates(d, ts[0]) {
      SplitFromConcat(ts[1..], [], 0);
      ConcatOf(Collected(current), SplitFrom(ts[1..], [], 0));
    } else {
      SplitFromConcat(ts[1..], current + [ts[0]], NextDepth(d, ts[0]));
    }
  }

  lemma {:induction false} SplitFromIsSeparable(ts: Tokens, current: Tokens, d: nat)
    requires Unbroken(current, 0) && d == DepthAfter(current, 0)
    ensures Separable(SplitFrom(ts, current, d))
    decreases |ts|
  {
    if ts == [] {
    } else if Separates(d, ts[0]) {
      SplitFromIsSeparable(ts[1..], [], 0);
      var rest := SplitFrom(ts[1..], [], 0);
      var all := Collected(current) + rest;
      if current != [] {
        assert all[1..] == rest && all[0] == current;
        forall i | 0 <= i < |all| - 1 ensures Closed(all[i]) {
          if i > 0 {
            assert all[i] == rest[i - 1];
          }
        }
      } else {
        assert all == rest;
      }
    } else {
      DepthOfConcat(current, [ts[0]], 0);
      UnbrokenConcat(current, [ts[0]], 0);
      SplitFromIsSeparable(ts[1..], current + [ts[0]], NextDepth(d, ts[0]));
    }
  }

  /**
   * The split is a normal form: keys are non-empty and without separating commas, together they
   * are the input without its separating commas, and only the last may leave an angle open.
   */
  lemma SplitIsSeparable(ts: Tokens)
    ensures Separable(Split(ts))
    ensures Concat(Split(ts)) == WithoutSeparators(ts, 0)
  {
    SplitFromIsSeparable(ts, [], 0);
    SplitFromConcat(ts, [], 0);
    assert [] + WithoutSeparators(ts, 0) == WithoutSeparators(ts, 0);
  }

  /** The last key is open exactly when the input is. */
  lemma {:induction false} SplitFromDepth(ts: Tokens, current: Tokens, d: nat)
    requires d == DepthAfter(current, 0)
    ensures var chunks := SplitFrom(ts, current, d);
            DepthAfter(ts, d) == if chunks == [] then 0 else DepthAfter(chunks[|chunks| - 1], 0)
    decreases |ts|
  {
    if ts == [] {
    } else if Separates(d, ts[0]) {
      SplitFromDepth(ts[1..], [], 0);
    } else {
      DepthOfConcat(current, [ts[0]], 0);
      SplitFromDepth(ts[1..], current + [ts[0]], NextDepth(d, ts[0]));
    }
  }

  /** Every key is closed exactly when the whole input is. */
  lemma ClosedTogether(ts: Tokens)
    ensures Closed(ts) <==> forall i :: 0 <= i < |Split(ts)| ==> Closed(Split(ts)[i])
  {
    SplitIsSeparable(ts);
    SplitFromDepth(ts, [], 0);
    var chunks := Split(ts);
    if Closed(ts) {
      forall i | 0 <= i < |chunks| ensures Closed(chunks[i]) {
      }
    } else if chunks != [] {
      assert !Closed(chunks[|chunks| - 1]);
    }
  }

  /** A closed key in front of a comma comes out by itself. */
  lemma SplitCloses(c: Tokens, rest: Tokens)
    requires IsChunk(c) && Closed(c)
    ensures Split(c + [COMMA] + rest) == [c] + Split(rest)
  {
    assert c + [COMMA] + rest == c + ([COMMA] + rest);
    SplitSkips(c, [COMMA] + rest, [], 0);
    assert [] + c == c;
    assert ([COMMA] + rest)[1..] == rest;
  }

  lemma SplitOne(c: Tokens)
    requires IsChunk(c)
    ensures Split(c) == [c]
  {
    SplitSkips(c, [], [], 0);
    assert c + [] == c && [] + c == c;
  }

  lemma {:induction false} SplitOfJoin(chunks: seq<Tokens>)
    requires Separable(chunks)
    ensures Split(Join(chunks)) == chunks
  {
    if |chunks| == 1 {
      SplitOne(chunks[0]);
    } else if |chunks| > 1 {
      assert forall i :: 0 <= i < |chunks[1..]| ==> chunks[1..][i] == chunks[i + 1];
      SplitOfJoin(chunks[1..]);
      SplitCloses(chunks[0], Join(chunks[1..]));
    }
  }

  /** Joining keys by commas can be undone exactly when they are keys and all but the last are closed. */
  lemma SplitUndoesJoin(chunks: seq<Tokens>)
    ensures Split(Join(chunks)) == chunks <==> Separable(chunks)
  {
    if Separable(chunks) {
      SplitOfJoin(chunks);
    }
    SplitIsSeparable(Join(chunks));
  }

  lemma SplitIsIdempotent(ts: Tokens)
    ensures Split(Join(Split(ts))) == Split(ts)
  {
    SplitIsSeparable(ts);
    SplitOfJoin(Split(ts));
  }

  // ---- keys put in front of others ----------------------------------------------------------------

  predicate ClosedChunk(c: Tokens) {
    IsChunk(c) && Closed(c)
  }

  lemma {:induction false} SplitOfJoinThen(chunks: seq<Tokens>, rest: Tokens)
    requires chunks != [] && forall i :: 0 <= i < |chunks| ==> ClosedChunk(chunks[i])
    ensures Split(Join(chunks) + [COMMA] + rest) == chunks + Split(rest)
  {
    hide IsChunk, Closed, Split;
    if |chunks| == 1 {
      SplitCloses(chunks[0], rest);
    } else {
      assert forall i :: 0 <= i < |chunks[1..]| ==> chunks[1..][i] == chunks[i + 1];
      SplitOfJoinThen(chunks[1..], rest);
      assert Join(chunks) + [COMMA] + rest == chunks[0] + [COMMA] + (Join(chunks[1..]) + [COMMA] + rest);
      SplitCloses(chunks[0], Join(chunks[1..]) + [COMMA] + rest);
      assert [chunks[0]] + (chunks[1..] + Split(rest)) == chunks + Split(rest);
    }
  }

  lemma {:induction false} JoinSnoc(chunks: seq<Tokens>, last: Tokens)
    requires chunks != []
    ensures Join(chunks + [last]) == Join(chunks) + [COMMA] + last
  {
    if |chunks| == 1 {
      assert (chunks + [last])[1..] == [last];
    } else {
      JoinSnoc(chunks[1..], last);
      assert (chunks + [last])[1..] == chunks[1..] + [last];
      assert chunks[0] + [COMMA] + (Join(chunks[1..]) + [COMMA] + last) == Join(chunks) + [COMMA] + last;
    }
  }

  /** Read deeper, no fewer tokens are kept. */
  lemma {:induction false} DeeperKeepsMore(ts: Tokens, d: nat, e: nat)
    requires d <= e
    ensures |WithoutSeparators(ts, d)| <= |WithoutSeparators(ts, e)|
  {
    if ts == [] {
    } else {
      DeeperKeepsMore(ts[1..], if Separates(d, ts[0]) then 0 else NextDepth(d, ts[0]), NextDepth(e, ts[0]));
    }
  }

  /** An open key swallows the comma behind it. */
  lemma OpenSwallows(c: Tokens, rest: Tokens)
    requires IsChunk(c) && !Closed(c)
    ensures Split(c + [COMMA] + rest) != [c] + Split(rest)
  {
    var d := DepthAfter(c, 0);
    var whole := c + [COMMA] + rest;
    assert whole == c + ([COMMA] + rest);
    SplitSkips(c, [COMMA] + rest, [], 0);
    assert [] + c == c && ([COMMA] + rest)[1..] == rest;
    UnbrokenConcat(c, [COMMA], 0);
    assert [COMMA][1..] == [];
    DepthOfConcat(c, [COMMA], 0);
    SplitFromConcat(rest, c + [COMMA], d);
    SplitIsSeparable(rest);
    DeeperKeepsMore(rest, 0, d);
    assert Concat([c] + Split(rest)) == c + Concat(Split(rest)) by {
      assert ([c] + Split(rest))[1..] == Split(rest);
    }
  }

  lemma SameFront(front: seq<Tokens>, a: seq<Tokens>, b: seq<Tokens>)
    ensures front + a == front + b ==> a == b
  {
    if front + a == front + b {
      assert a == (front + a)[|front|..] && b == (front + b)[|front|..];
    }
  }

  lemma JoinOne(chunks: seq<Tokens>)
    requires |chunks| == 1
    ensures Join(chunks) == chunks[0]
  {
  }

  lemma LastSwallows(front: seq<Tokens>, last: Tokens, rest: Tokens)
    requires forall i :: 0 <= i < |front| ==> ClosedChunk(front[i])
    requires IsChunk(last) && !Closed(last)
    ensures Split(Join(front + [last]) + [COMMA] + rest) != front + [last] + Split(rest)
  {
    hide IsChunk, Closed, Split, Join, ClosedChunk;
    OpenSwallows(last, rest);
    if front == [] {
      JoinOne(front + [last]);
    } else {
      JoinSnoc(front, last);
      Assoc(Join(front) + [COMMA], last, [COMMA] + rest);
      Assoc(Join(front) + [COMMA] + last, [COMMA], rest);
      Assoc(last, [COMMA], rest);
      SplitOfJoinThen(front, last + [COMMA] + rest);
      SameFront(front, Split(last + [COMMA] + rest), [last] + Split(rest));
      Assoc(front, [last], Split(rest));
    }
  }

  lemma FrontIsClosed(chunks: seq<Tokens>, more: seq<Tokens>)
    requires chunks != [] && Separable(chunks + more)
    ensures IsChunk(Last(chunks)) && forall i :: 0 <= i < |chunks| - 1 ==> ClosedChunk(chunks[i])
    ensures Closed(Last(chunks)) ==> forall i :: 0 <= i < |chunks| ==> ClosedChunk(chunks[i])
  {
    hide IsChunk, Closed;
    assert forall i :: 0 <= i < |chunks| ==> (chunks + more)[i] == chunks[i];
  }

  /** Keys put in front of others by commas come out as they went in exactly when each is a closed key. */
  lemma InFrontExactlyWhen(chunks: seq<Tokens>, rest: Tokens)
    requires chunks != []
    ensures Split(Join(chunks) + [COMMA] + rest) == chunks + Split(rest) <==>
            forall i :: 0 <= i < |chunks| ==> ClosedChunk(chunks[i])
  {
    hide Split, Join, ClosedChunk;
    if forall i :: 0 <= i < |chunks| ==> ClosedChunk(chunks[i]) {
      SplitOfJoinThen(chunks, rest);
    } else if Split(Join(chunks) + [COMMA] + rest) == chunks + Split(rest) {
      SplitIsSeparable(Join(chunks) + [COMMA] + rest);
      var n := |chunks| - 1;
      FrontIsClosed(chunks, Split(rest));
      assert chunks == chunks[..n] + [chunks[n]];
      LastSwallows(chunks[..n], chunks[n], rest);
    }
  }

  predicate EndsWith<T(==)>(s: seq<T>, end: seq<T>) {
    |end| <= |s| && s[|s| - |end|..] == end
  }

  /** Reading on from `a`: some keys are complete, and one may be begun. */
  lemma {:induction false} SplitPrefix(a: Tokens, rest: Tokens, current: Tokens, d: nat)
    returns (front: seq<Tokens>, begun: Tokens)
    ensures SplitFrom(a + rest, current, d) == front + SplitFrom(rest, begun, DepthAfter(a, d))
    decreases |a|
  {
    if a == [] {
      assert a + rest == rest;
      front, begun := [], current;
    } else {
      assert (a + rest)[1..] == a[1..] + rest;
      if Separates(d, a[0]) {
        front, begun := SplitPrefix(a[1..], rest, [], 0);
        front := Collected(current) + front;
      } else {
        front, begun := SplitPrefix(a[1..], rest, current + [a[0]], NextDepth(d, a[0]));
      }
    }
  }

  /** Read deeper, with a key begun, there are no more keys. */
  lemma {:induction false} DeeperSplitsLess(ts: Tokens, current: Tokens, e: nat, other: Tokens, d: nat)
    requires d <= e && current != [] && (other != [] || e > 0)
    ensures |SplitFrom(ts, current, e)| <= if SplitFrom(ts, other, d) == [] then 1 else |SplitFrom(ts, other, d)|
    decreases |ts|
  {
    if ts == [] {
    } else if Separates(e, ts[0]) {
    } else if Separates(d, ts[0]) {
      DeeperSplitsLess(ts[1..], current + [ts[0]], e, [], 0);
    } else {
      DeeperSplitsLess(ts[1..], current + [ts[0]], NextDepth(e, ts[0]), other + [ts[0]], NextDepth(d, ts[0]));
    }
  }

  lemma BehindOpen(front: seq<Tokens>, begun: Tokens, d: nat, b: Tokens)
    requires d > 0 && begun != [] && Split(b) != []
    ensures !EndsWith(front + SplitFrom(b, begun, d), Split(b))
  {
    var s, end := SplitFrom(b, begun, d), Split(b);
    var all := front + s;
    DeeperSplitsLess(b, begun, d, [], 0);
    if EndsWith(all, end) {
      var n := |all| - |end|;
      assert all[n..] == front[n..] + s;
      ConcatOf(front[n..], s);
      SplitFromConcat(b, begun, d);
      SplitIsSeparable(b);
      DeeperKeepsMore(b, 0, d);
    }
  }

  /** What stands behind a comma keeps its keys exactly when what stands in front is closed, or it has no key. */
  lemma BehindExactlyWhen(a: Tokens, b: Tokens)
    ensures EndsWith(Split(a + [COMMA] + b), Split(b)) <==> Closed(a) || Split(b) == []
  {
    assert a + [COMMA] + b == a + ([COMMA] + b);
    var front, begun := SplitPrefix(a, [COMMA] + b, [], 0);
    assert ([COMMA] + b)[1..] == b;
    if Closed(a) {
      assert Split(a + [COMMA] + b) == front + (Collected(begun) + Split(b));
    } else if Split(b) != [] {
      BehindOpen(front, begun + [COMMA], DepthAfter(a, 0), b);
      assert SplitFrom([COMMA] + b, begun, DepthAfter(a, 0)) == SplitFrom(b, begun + [COMMA], DepthAfter(a, 0));
    }
  }

  lemma SplitFromSteps(ts: Tokens, current: Tokens, d: nat)
    requires ts != []
    ensures SplitFrom(ts, current, d) ==
            if !Separates(d, ts[0]) then SplitFrom(ts[1..], current + [ts[0]], NextDepth(d, ts[0]))
            else if current == [] then SplitFrom(ts[1..], [], 0)
            else [current] + SplitFrom(ts[1..], [], 0)
  {
  }

  // ---- which commas separate ------------------------------------------------------------------------

  function Turn(t: TokenTree): int {
    if t == Punct('<') then 1 else if t == Punct('>') then -1 else 0
  }

  /** How many more `<` than `>` there are. */
  function Excess(ts: Tokens): int {
    if ts == [] then 0 else Turn(ts[0]) + Excess(ts[1..])
  }

  /** No stretch that ends here opens more angle brackets than it closes. */
  ghost predicate NothingOpen(ts: Tokens, i: nat)
    requires i <= |ts|
  {
    forall j :: 0 <= j <= i ==> Excess(ts[j..i]) <= 0
  }

  ghost predicate SeparatesAt(ts: Tokens, i: nat) {
    i < |ts| && ts[i] == Punct(',') && NothingOpen(ts, i)
  }

  lemma {:induction false} ExcessOfConcat(a: Tokens, b: Tokens)
    ensures Excess(a + b) == Excess(a) + Excess(b)
  {
    if a == [] {
      assert a + b == b;
    } else {
      ExcessOfConcat(a[1..], b);
      assert (a + b)[1..] == a[1..] + b;
    }
  }

  lemma ExcessSnoc(ts: Tokens, i: nat)
    requires i < |ts|
    ensures forall j :: 0 <= j <= i ==> Excess(ts[j..i + 1]) == Excess(ts[j..i]) + Turn(ts[i])
    ensures Excess(ts[i + 1..i + 1]) == 0
  {
    hide Turn;
    assert Excess([ts[i]]) == Turn(ts[i]) + Excess([]);
    forall j | 0 <= j <= i ensures Excess(ts[j..i + 1]) == Excess(ts[j..i]) + Turn(ts[i]) {
      assert ts[j..i + 1] == ts[j..i] + [ts[i]];
      ExcessOfConcat(ts[j..i], [ts[i]]);
    }
  }

  lemma DepthSnoc(ts: Tokens, i: nat)
    requires i < |ts|
    ensures DepthAfter(ts[..i + 1], 0) == NextDepth(DepthAfter(ts[..i], 0), ts[i])
  {
    assert ts[..i + 1] == ts[..i] + [ts[i]];
    DepthOfConcat(ts[..i], [ts[i]], 0);
    assert [ts[i]][1..] == [];
  }

  /** The depth at `i` is the excess of the stretch from `j` to there, and no stretch to there has more. */
  ghost predicate IsDeepest(ts: Tokens, i: nat, j: nat, depth: nat)
    requires i <= |ts|
  {
    j <= i && Excess(ts[j..i]) == depth && forall k :: 0 <= k <= i ==> Excess(ts[k..i]) <= depth
  }

  lemma NextDepthIs(depth: nat, t: TokenTree)
    ensures NextDepth(depth, t) == if depth + Turn(t) < 0 then 0 else depth + Turn(t)
  {
  }

  lemma DeepestNext(ts: Tokens, i: nat, j: nat, depth: nat) returns (next: nat)
    requires i < |ts| && IsDeepest(ts, i, j, depth)
    ensures IsDeepest(ts, i + 1, next, NextDepth(depth, ts[i]))
  {
    ExcessSnoc(ts, i);
    NextDepthIs(depth, ts[i]);
    hide Excess, Turn, NextDepth;
    var n := i + 1;
    next := if depth + Turn(ts[i]) < 0 then n else j;
    forall k | 0 <= k <= n ensures Excess(ts[k..n]) <= NextDepth(depth, ts[i]) {
      assert k <= i ==> Excess(ts[k..i]) <= depth;
    }
  }

  /** The clamped depth is the largest excess of a stretch that ends here. */
  lemma {:induction false} DepthIsExcess(ts: Tokens, i: nat) returns (j: nat)
    requires i <= |ts|
    ensures IsDeepest(ts, i, j, DepthAfter(ts[..i], 0))
  {
    if i == 0 {
      j := 0;
      assert ts[0..0] == [] && ts[..0] == [];
    } else {
      DepthSnoc(ts, i - 1);
      hide IsDeepest, DepthAfter, NextDepth;
      j := DepthIsExcess(ts, i - 1);
      j := DeepestNext(ts, i - 1, j, DepthAfter(ts[..i - 1], 0));
    }
  }

  /** Nothing is open exactly where no stretch that ends there opens more than it closes. */
  lemma ClosedExactlyWhen(ts: Tokens, i: nat)
    requires i <= |ts|
    ensures DepthAfter(ts[..i], 0) == 0 <==> NothingOpen(ts, i)
  {
    var j := DepthIsExcess(ts, i);
    assert ts[i..i] == [];
  }

  /** A piece of the input: from `0` or behind a separating comma to the end or the next one. */
  datatype Span = Span(from: nat, to: nat)

  ghost predicate IsPiece(ts: Tokens, start: nat, span: Span) {
    && start <= span.from < span.to <= |ts|
    && (span.from == start || SeparatesAt(ts, span.from - 1))
    && (span.to == |ts| || SeparatesAt(ts, span.to))
  }

  predicate InOrder(spans: seq<Span>) {
    forall k, l :: 0 <= k < l < |spans| ==> spans[k].to < spans[l].from
  }

  predicate InSpan(span: Span, i: nat) {
    span.from <= i < span.to
  }

  predicate Covered(spans: seq<Span>, i: nat) {
    exists k :: 0 <= k < |spans| && InSpan(spans[k], i)
  }

  /**
   * The spans are the pieces of `ts` from `start` on: non-empty, in order, between separating commas, and
   * what is in none of them is exactly the separating commas.
   */
  ghost predicate AreThePieces(ts: Tokens, start: nat, spans: seq<Span>) {
    && (forall k :: 0 <= k < |spans| ==> IsPiece(ts, start, spans[k]))
    && InOrder(spans)
    && forall i :: start <= i < |ts| ==> (SeparatesAt(ts, i) <==> !Covered(spans, i))
  }

  lemma CoveredCons(span: Span, rest: seq<Span>, i: nat)
    ensures Covered([span] + rest, i) <==> InSpan(span, i) || Covered(rest, i)
  {
    var spans := [span] + rest;
    if InSpan(span, i) {
      assert InSpan(spans[0], i);
    }
    if Covered(rest, i) {
      var k :| 0 <= k < |rest| && InSpan(rest[k], i);
      assert InSpan(spans[k + 1], i);
    }
  }

  ghost predicate Reads(ts: Tokens, spans: seq<Span>, chunks: seq<Tokens>) {
    && |chunks| == |spans|
    && forall k :: 0 <= k < |spans| ==> spans[k].from <= spans[k].to <= |ts| && chunks[k] == ts[spans[k].from..spans[k].to]
  }

  lemma SeparatesExactlyWhen(ts: Tokens, i: nat)
    requires i < |ts|
    ensures SeparatesAt(ts, i) <==> Separates(DepthAfter(ts[..i], 0), ts[i])
  {
    ClosedExactlyWhen(ts, i);
  }

  lemma LastPiece(ts: Tokens, start: nat) returns (spans: seq<Span>)
    requires start <= |ts| && forall m :: start <= m < |ts| ==> !SeparatesAt(ts, m)
    ensures AreThePieces(ts, start, spans) && Reads(ts, spans, Collected(ts[start..]))
  {
    hide SeparatesAt;
    spans := if start == |ts| then [] else [Span(start, |ts|)];
    forall m: nat | start <= m < |ts| ensures Covered(spans, m) {
      assert InSpan(spans[0], m);
    }
  }

  lemma NotCovered(ts: Tokens, start: nat, spans: seq<Span>, m: nat)
    requires m < start && forall k :: 0 <= k < |spans| ==> IsPiece(ts, start, spans[k])
    ensures !Covered(spans, m)
  {
  }

  lemma PieceInFront(ts: Tokens, start: nat, i: nat, rest: seq<Span>, chunks: seq<Tokens>) returns (spans: seq<Span>)
    requires start <= i < |ts| && SeparatesAt(ts, i) && forall m :: start <= m < i ==> !SeparatesAt(ts, m)
    requires AreThePieces(ts, i + 1, rest) && Reads(ts, rest, chunks)
    ensures AreThePieces(ts, start, spans) && Reads(ts, spans, Collected(ts[start..i]) + chunks)
  {
    hide SeparatesAt, Covered;
    forall m: nat | m <= i ensures !Covered(rest, m) {
      NotCovered(ts, i + 1, rest, m);
    }
    if start == i {
      spans := rest;
      assert Collected(ts[start..i]) + chunks == chunks;
    } else {
      spans := [Span(start, i)] + rest;
      forall m: nat | start <= m < |ts| ensures SeparatesAt(ts, m) <==> !Covered(spans, m) {
        CoveredCons(Span(start, i), rest, m);
      }
    }
  }

  /** The pieces from `start` on, of which the one that begins at `start` has been read up to `i`. */
  lemma {:induction false} PiecesFrom(ts: Tokens, start: nat, i: nat) returns (spans: seq<Span>)
    requires start <= i <= |ts| && forall m :: start <= m < i ==> !SeparatesAt(ts, m)
    ensures AreThePieces(ts, start, spans)
    ensures Reads(ts, spans, SplitFrom(ts[i..], ts[start..i], DepthAfter(ts[..i], 0)))
    decreases |ts| - i
  {
    if i == |ts| {
      spans := LastPiece(ts, start);
      assert ts[i..] == [] && ts[start..i] == ts[start..];
    } else {
      SeparatesExactlyWhen(ts, i);
      DepthSnoc(ts, i);
      assert ts[i..][1..] == ts[i + 1..];
      SplitFromSteps(ts[i..], ts[start..i], DepthAfter(ts[..i], 0));
      hide SeparatesAt, AreThePieces, Reads, DepthAfter, SplitFrom;
      if SeparatesAt(ts, i) {
        assert ts[i + 1..i + 1] == [];
        var rest := PiecesFrom(ts, i + 1, i + 1);
        assert Collected(ts[start..i]) == if ts[start..i] == [] then [] else [ts[start..i]];
        spans := PieceInFront(ts, start, i, rest, SplitFrom(ts[i + 1..], [], 0));
      } else {
        assert ts[start..i + 1] == ts[start..i] + [ts[i]];
        spans := PiecesFrom(ts, start, i + 1);
      }
    }
  }

  /**
   * The split is cut exactly at the commas that stand where nothing is open, counting brackets and not
   * following any depth.
   */
  lemma SplitIsThePieces(ts: Tokens) returns (spans: seq<Span>)
    ensures AreThePieces(ts, 0, spans) && Reads(ts, spans, Split(ts))
  {
    spans := PiecesFrom(ts, 0, 0);
    assert ts[0..] == ts && ts[0..0] == [] && ts[..0] == [];
  }

  // ---- nested angle brackets --------------------------------------------------------------------------

  /** Tokens with balanced angle brackets: a token that is no angle bracket, or a pair of them, and what follows. */
  datatype Balanced = End | Plain(t: TokenTree, rest: Balanced) | Angles(inside: Balanced, rest: Balanced)

  function Render(b: Balanced): Tokens {
    match b
    case End => []
    case Plain(t, rest) => [t] + Render(rest)
    case Angles(inside, rest) => [Punct('<')] + Render(inside) + [Punct('>')] + Render(rest)
  }

  /** The plain tokens are no angle brackets, and outside of all brackets no commas. */
  predicate WellFormed(b: Balanced, nested: bool) {
    match b
    case End => true
    case Plain(t, rest) =>
      t != Punct('<') && t != Punct('>') && (nested || t != Punct(',')) && WellFormed(rest, nested)
    case Angles(inside, rest) => WellFormed(inside, true) && WellFormed(rest, nested)
  }

  lemma AnglesReadOn(inside: Tokens, rest: Tokens, d: nat)
    requires DepthAfter(inside, d + 1) == d + 1 && Unbroken(inside, d + 1)
    requires DepthAfter(rest, d) == d && Unbroken(rest, d)
    ensures var ts := [Punct('<')] + inside + [Punct('>')] + rest; DepthAfter(ts, d) == d && Unbroken(ts, d)
  {
    var front, close: Tokens := [Punct('<')] + inside, [Punct('>')] + rest;
    assert [Punct('<')] + inside + [Punct('>')] + rest == front + close;
    assert front[1..] == inside && close[1..] == rest;
    DepthOfConcat(front, close, d);
    UnbrokenConcat(front, close, d);
  }

  lemma {:induction false} BalancedReadsOn(b: Balanced, d: nat)
    requires WellFormed(b, d > 0)
    ensures DepthAfter(Render(b), d) == d && Unbroken(Render(b), d)
  {
    match b
    case End =>
    case Plain(t, rest) =>
      BalancedReadsOn(rest, d);
      assert Render(b)[1..] == Render(rest);
    case Angles(inside, rest) =>
      BalancedReadsOn(inside, d + 1);
      BalancedReadsOn(rest, d);
      AnglesReadOn(Render(inside), Render(rest), d);
  }

  /** Whatever commas stand inside nested angle brackets, together they are one closed key. */
  lemma NestedIsOneKey(b: Balanced)
    requires b != End && WellFormed(b, false)
    ensures ClosedChunk(Render(b)) && Split(Render(b)) == [Render(b)]
  {
    BalancedReadsOn(b, 0);
    SplitOne(Render(b));
  }

  // ---- the loop -------------------------------------------------------------------------------------

  /** One `key = value` or `key(...)`; the name is empty unless the key starts with an identifier. */
  datatype AttrKey = AttrKey(name: string, tokens: Tokens)

  function BuildAttrKey(tokens: Tokens): AttrKey {
    AttrKey(if tokens != [] && tokens[0].Ident? then tokens[0].name else "", tokens)
  }

  function KeysOf(chunks: seq<Tokens>): (r: seq<AttrKey>)
    ensures |r| == |chunks|
    ensures forall i :: 0 <= i < |chunks| ==> r[i] == BuildAttrKey(chunks[i])
  {
    seq(|chunks|, i requires 0 <= i < |chunks| => BuildAttrKey(chunks[i]))
  }

  lemma KeysAre(attr: Tokens)
    ensures var keys := KeysOf(Split(attr));
            |keys| == |Split(attr)| && forall i :: 0 <= i < |keys| ==>
              && keys[i].tokens == Split(attr)[i] && keys[i].tokens != []
              && keys[i].name == match keys[i].tokens[0] { case Ident(name) => name case _ => "" }
  {
    SplitIsSeparable(attr);
  }

  /** The split so far, one token further. */
  lemma SplitStep(attr: Tokens, i: nat, done: seq<Tokens>, current: Tokens, d: nat)
    requires i < |attr|
    ensures done + SplitFrom(attr[i..], current, d) ==
            if !Separates(d, attr[i]) then done + SplitFrom(attr[i + 1..], current + [attr[i]], NextDepth(d, attr[i]))
            else if current == [] then done + SplitFrom(attr[i + 1..], [], 0)
            else done + [current] + SplitFrom(attr[i + 1..], [], 0)
  {
    assert attr[i..][1..] == attr[i + 1..];
    hide SplitFrom;
    SplitFromSteps(attr[i..], current, d);
    if Separates(d, attr[i]) && current != [] {
      Assoc(done, [current], SplitFrom(attr[i + 1..], [], 0));
    }
  }

  lemma SplitEnds(attr: Tokens, done: seq<Tokens>, current: Tokens, d: nat)
    ensures done + SplitFrom(attr[|attr|..], current, d) == if current == [] then done else done + [current]
  {
  }

  lemma KeysOfSnoc(done: seq<Tokens>, current: Tokens)
    ensures KeysOf([]) == [] && KeysOf(done + [current]) == KeysOf(done) + [BuildAttrKey(current)]
  {
  }

  method SplitTopLevelKeys(attr: Tokens) returns (keys: seq<AttrKey>)
    ensures keys == KeysOf(Split(attr))
    ensures |keys| == |Split(attr)| && forall i :: 0 <= i < |keys| ==>
              && keys[i].tokens == Split(attr)[i] && keys[i].tokens != []
              && keys[i].name == match keys[i].tokens[0] { case Ident(name) => name case _ => "" }
  {
    KeysOfSnoc([], []);
    assert attr[0..] == attr;
    keys := [];
    var current: Tokens := [];
    var angleDepth: nat := 0;
    ghost var done: seq<Tokens> := [];
    var i := 0;
    while i < |attr|
      invariant 0 <= i <= |attr|
      invariant done + SplitFrom(attr[i..], current, angleDepth) == Split(attr)
      invariant keys == KeysOf(done)
    {
      hide SplitFrom, KeysOf, BuildAttrKey, Split;
      SplitStep(attr, i, done, current, angleDepth);
      KeysOfSnoc(done, current);
      var tt := attr[i];
      i := i + 1;
      if tt.Punct? {
        if tt.ch == '<' {
          angleDepth := angleDepth + 1;
        } else if tt.ch == '>' && angleDepth > 0 {
          angleDepth := angleDepth - 1;
        } else if tt.ch == ',' && angleDepth == 0 {
          if current != [] {
            keys := keys + [BuildAttrKey(current)];
            done := done + [current];
            current := [];
          }
          continue;
        }
      }
      current := current + [tt];
    }
    SplitEnds(attr, done, current, angleDepth);
    KeysOfSnoc(done, current);
    KeysAre(attr);
    hide SplitFrom, KeysOf, BuildAttrKey, Split;
    if current != [] {
      keys := keys + [BuildAttrKey(current)];
      done := done + [current];
    }
  }
}
