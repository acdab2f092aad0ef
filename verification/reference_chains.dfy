/** What the resolution loop achieves: times only ever come from timed rows
    along reference links, the loop ends at a fixpoint of the pass, every
    reference chain that ends in a timed aligned annotation is timed after as
    many passes as it is deep, and a set of references that only lead to each
    other (a cycle) or to nothing (a dangling id) stays untimed. */
module ReferenceChains {
  import opened Wrappers
  import opened Errors
  import opened Resolution

  /** Some timed row with id `id` has exactly the times `start`/`end`. */
  ghost predicate SourceWithTimes(rows: seq<Row>, id: string, start: Option<int>, end: Option<int>) {
    exists j :: 0 <= j < |rows| && IsSource(rows[j]) && rows[j].annotationId == id
                && rows[j].start == start && rows[j].end == end
  }

  /** The invariant of resolution: a reference row has both times or
      neither, and when it has them they are the times of a timed row with
      the id it names. */
  ghost predicate Consistent(rows: seq<Row>) {
    forall i :: 0 <= i < |rows| && rows[i].annotationRef.Some? ==>
      && (rows[i].start.Some? <==> rows[i].end.Some?)
      && (rows[i].start.Some? ==> SourceWithTimes(rows, rows[i].annotationRef.value, rows[i].start, rows[i].end))
  }

  /** A pass never touches a row that already has a start. */
  lemma PassKeepsTimedRows(rows: seq<Row>, next: seq<Row>)
    requires Consistent(rows)
    requires Pass(rows) == Success(next)
    ensures forall i :: 0 <= i < |rows| && rows[i].start.Some? ==> next[i] == rows[i]
  {
    var snap := Snapshot(rows).value;
    forall i | 0 <= i < |rows| && rows[i].start.Some?
      ensures next[i] == rows[i]
    {
      if rows[i].annotationRef.Some? {
        var j :| 0 <= j < |rows| && IsSource(rows[j]) && rows[j].annotationId == rows[i].annotationRef.value
                 && rows[j].start == rows[i].start && rows[j].end == rows[i].end;
        assert snap[rows[j].annotationId] == TimesOf(rows[j]);
      }
    }
  }

  /** The invariant survives a pass. */
  lemma {:induction false} PassKeepsConsistent(rows: seq<Row>, next: seq<Row>)
    requires Consistent(rows)
    requires Pass(rows) == Success(next)
    ensures Consistent(next)
  {
    PassKeepsTimedRows(rows, next);
    var snap := Snapshot(rows).value;
    forall i | 0 <= i < |next| && next[i].annotationRef.Some?
      ensures next[i].start.Some? <==> next[i].end.Some?
      ensures next[i].start.Some? ==> SourceWithTimes(next, next[i].annotationRef.value, next[i].start, next[i].end)
    {
      assert next[i] == Receive(rows[i], snap);
      if next[i].start.Some? {
        var id := rows[i].annotationRef.value;
        var j: int;
        if rows[i].start.Some? {
          j :| 0 <= j < |rows| && IsSource(rows[j]) && rows[j].annotationId == id
               && rows[j].start == rows[i].start && rows[j].end == rows[i].end;
        } else {
          assert id in snap;
          j :| 0 <= j < |rows| && IsSource(rows[j]) && rows[j].annotationId == id;
        }
        assert next[j] == rows[j];
        assert next[i].start == next[j].start && next[i].end == next[j].end;
      }
    }
  }

  /** A pass that leaves the count of untimed rows unchanged changes nothing:
      the code's stopping test detects a true fixpoint. */
  lemma PassStallIsFixpoint(rows: seq<Row>, next: seq<Row>)
    requires Consistent(rows)
    requires Pass(rows) == Success(next)
    requires Unresolved(next) == Unresolved(rows)
    ensures next == rows
  {
    PassKeepsTimedRows(rows, next);
    UnresolvedMonotone(rows, next);
    var snap := Snapshot(rows).value;
    forall i | 0 <= i < |rows|
      ensures next[i] == rows[i]
    {
      assert next[i] == Receive(rows[i], snap);
    }
  }

  /** Unique ids leave the snapshot nothing to trip over. */
  lemma UniqueIdsPass(rows: seq<Row>)
    requires UniqueIds(rows)
    ensures Pass(rows).Success?
    ensures UniqueIds(Pass(rows).value)
  {
    var next := Pass(rows).value;
    forall i, j | 0 <= i < j < |next|
      ensures next[i].annotationId != next[j].annotationId
    {
      assert SameExceptTimes(rows[i], next[i]) && SameExceptTimes(rows[j], next[j]);
    }
  }

  /** Every run of the loop from a consistent table with unique ids ends at a
      fixpoint of the pass. `before` is 0 only before the first pass. */
  lemma {:induction false} RelaxReachesFixpoint(rows: seq<Row>, before: nat)
    requires Consistent(rows) && UniqueIds(rows)
    requires before == 0 || before == Unresolved(rows)
    ensures Relax(rows, before).Success?
    ensures var out := Relax(rows, before).value;
            Pass(out) == Success(out) && Consistent(out) && UniqueIds(out)
    decreases Unresolved(rows), if before == Unresolved(rows) then 0 else 1
  {
    UniqueIdsPass(rows);
    var next := Pass(rows).value;
    PassKeepsConsistent(rows, next);
    if Unresolved(next) == before {
      if before == Unresolved(rows) {
        PassStallIsFixpoint(rows, next);
      } else {
        UniqueIdsPass(next);
        PassStallIsFixpoint(next, Pass(next).value);
      }
    } else {
      RelaxReachesFixpoint(next, Unresolved(next));
    }
  }

  /** Resolution of a freshly merged table with unique ids never fails, and
      its result is a fixpoint of the pass. */
  lemma ResolveReachesFixpoint(rows: seq<Row>)
    requires Initial(rows) && UniqueIds(rows)
    ensures Resolve(rows).Success?
    ensures var out := Resolve(rows).value;
            Pass(out) == Success(out) && Consistent(out) && UniqueIds(out)
  {
    if Unresolved(rows) == 0 {
      UniqueIdsPass(rows);
      PassStallIsFixpoint(rows, Pass(rows).value);
    } else {
      RelaxReachesFixpoint(rows, 0);
    }
  }

  /** Times only come from timed rows: in any successful result, a timed
      reference row carries the times of a timed row with the id it names. */
  lemma {:induction false} RelaxKeepsConsistent(rows: seq<Row>, before: nat)
    requires Consistent(rows)
    requires Relax(rows, before).Success?
    ensures Consistent(Relax(rows, before).value)
    decreases Unresolved(rows), if before == Unresolved(rows) then 0 else 1
  {
    var next := Pass(rows).value;
    PassKeepsConsistent(rows, next);
    if Unresolved(next) != before {
      RelaxKeepsConsistent(next, Unresolved(next));
    }
  }

  lemma ResolveKeepsConsistent(rows: seq<Row>)
    requires Initial(rows)
    requires Resolve(rows).Success?
    ensures Consistent(Resolve(rows).value)
  {
    if Unresolved(rows) != 0 {
      RelaxKeepsConsistent(rows, 0);
    }
  }

  // ---------------------------------------------------------------------------
  // Reference chains

  /** `c` lists row indices of a chain: `c[0]` is a timed aligned annotation
      and each `c[m]` (m >= 1) is a reference naming the id of `c[m-1]`. */
  ghost predicate IsChain(rows: seq<Row>, c: seq<nat>) {
    && |c| >= 1
    && (forall m :: 0 <= m < |c| ==> c[m] < |rows|)
    && rows[c[0]].annotationRef.None?
    && IsSource(rows[c[0]])
    && (forall m :: 1 <= m < |c| ==> Linked(rows, c, m))
  }

  /** Row `c[m]` is a reference naming the id of row `c[m - 1]`. Kept as a
      predicate of its own so that instantiating the chain's links for one
      `m` does not produce the term for `m - 1`. */
  ghost predicate Linked(rows: seq<Row>, c: seq<nat>, m: nat) {
    && 1 <= m < |c|
    && c[m] < |rows| && c[m - 1] < |rows|
    && rows[c[m]].annotationRef == Some(rows[c[m - 1]].annotationId)
  }

  /** Every row that names a timed row already has that row's times. */
  ghost predicate Closed(rows: seq<Row>) {
    forall i, j :: 0 <= i < |rows| && 0 <= j < |rows| && IsSource(rows[j])
                   && rows[i].annotationRef == Some(rows[j].annotationId) ==>
      rows[i].start == rows[j].start && rows[i].end == rows[j].end
  }

  /** A fixpoint of the pass is closed. */
  lemma FixpointIsClosed(out: seq<Row>)
    requires Pass(out) == Success(out)
    ensures Closed(out)
  {
  }

  /** In a closed table every row of a chain has the times of the chain's
      aligned head. */
  lemma {:induction false} ClosedTimesChain(out: seq<Row>, c: seq<nat>, m: nat)
    requires Closed(out)
    requires IsChain(out, c)
    requires m < |c|
    ensures IsSource(out[c[m]])
    ensures out[c[m]].start == out[c[0]].start && out[c[m]].end == out[c[0]].end
  {
    if m > 0 {
      var k: nat := m - 1;
      ClosedTimesChain(out, c, k);
      assert Linked(out, c, m);
    }
  }

  /** A chain of any depth ending at a timed aligned annotation resolves to
      that annotation's times. */
  lemma ResolveTimesChains(rows: seq<Row>, c: seq<nat>)
    requires Initial(rows) && UniqueIds(rows)
    requires IsChain(rows, c)
    ensures Resolve(rows).Success?
    ensures forall m :: 0 <= m < |c| ==>
              Resolve(rows).value[c[m]].start == rows[c[0]].start && Resolve(rows).value[c[m]].end == rows[c[0]].end
  {
    ResolveReachesFixpoint(rows);
    var out := Resolve(rows).value;
    ChainSurvives(rows, out, c);
    FixpointIsClosed(out);
    forall m | 0 <= m < |c|
      ensures out[c[m]].start == rows[c[0]].start && out[c[m]].end == rows[c[0]].end
    {
      ClosedTimesChain(out, c, m);
    }
  }

  /** Passes keep ids, indices and the rows of aligned annotations. */
  lemma {:induction false} PassesKeepShape(rows: seq<Row>, n: nat)
    requires UniqueIds(rows)
    ensures Passes(rows, n).Success?
    ensures var out := Passes(rows, n).value;
            && |out| == |rows|
            && UniqueIds(out)
            && (forall i :: 0 <= i < |rows| ==> SameExceptTimes(rows[i], out[i]))
            && (forall i :: 0 <= i < |rows| && rows[i].annotationRef.None? ==> out[i] == rows[i])
  {
    if n > 0 {
      PassesKeepShape(rows, n - 1);
      UniqueIdsPass(Passes(rows, n - 1).value);
    }
  }

  /** One pass moves the timed prefix of a chain one step further: if
      exactly the rows of depth at most `n - 1` are timed before the pass,
      exactly those of depth at most `n` are timed after it. */
  lemma PassAdvancesChain(prev: seq<Row>, out: seq<Row>, c: seq<nat>, n: nat)
    requires UniqueIds(prev) && IsChain(prev, c)
    requires Pass(prev) == Success(out)
    requires n >= 1
    requires TimedUpTo(prev, prev[c[0]], c, n - 1)
    ensures TimedUpTo(out, prev[c[0]], c, n)
  {
    forall m | 0 <= m < |c|
      ensures IsSource(out[c[m]]) <==> m <= n
      ensures m <= n ==> out[c[m]].start == prev[c[0]].start && out[c[m]].end == prev[c[0]].end
    {
      if m > 0 {
        assert Linked(prev, c, m);
      }
    }
  }

  /** Exactly the rows of depth at most `n` of a chain are timed in `out`,
      all with the head's times. */
  ghost predicate TimedUpTo(out: seq<Row>, head: Row, c: seq<nat>, n: nat)
    requires IsSource(head)
  {
    && (forall m :: 0 <= m < |c| ==> c[m] < |out|)
    && (forall m :: 0 <= m < |c| ==> (IsSource(out[c[m]]) <==> m <= n))
    && (forall m :: 0 <= m < |c| && m <= n ==> out[c[m]].start == head.start && out[c[m]].end == head.end)
  }

  /** Before any pass only the head of a chain is timed. */
  lemma InitialChainUntimed(rows: seq<Row>, c: seq<nat>)
    requires Initial(rows)
    requires IsChain(rows, c)
    ensures TimedUpTo(rows, rows[c[0]], c, 0)
  {
    forall m | 1 <= m < |c|
      ensures !IsSource(rows[c[m]])
    {
      assert Linked(rows, c, m);
    }
  }

  /** `out` is `rows` after `n` passes as far as a chain `c` of `rows` is
      concerned: same shape, unique ids, and exactly the rows of depth at
      most `n` timed with the head's times. */
  ghost predicate ChainAfter(rows: seq<Row>, out: seq<Row>, c: seq<nat>, n: nat) {
    && IsChain(rows, c)
    && |out| == |rows|
    && UniqueIds(out)
    && (forall i :: 0 <= i < |rows| ==> SameExceptTimes(rows[i], out[i]))
    && (forall i :: 0 <= i < |rows| && rows[i].annotationRef.None? ==> out[i] == rows[i])
    && TimedUpTo(out, rows[c[0]], c, n)
  }

  /** The induction step: one more pass keeps the shape and times one more
      row of the chain. */
  lemma ChainAfterStep(rows: seq<Row>, prev: seq<Row>, c: seq<nat>, m: nat) returns (next: seq<Row>)
    requires ChainAfter(rows, prev, c, m)
    ensures Pass(prev) == Success(next)
    ensures ChainAfter(rows, next, c, m + 1)
  {
    UniqueIdsPass(prev);
    next := Pass(prev).value;
    ChainSurvives(rows, prev, c);
    PassAdvancesChain(prev, next, c, m + 1);
  }

  /** Pass `n = m + 1` runs on the table the first `m` passes left. */
  lemma PassesUnfold(rows: seq<Row>, n: nat, m: nat, prev: seq<Row>)
    requires n == m + 1
    requires Passes(rows, m) == Success(prev)
    ensures Passes(rows, n) == Pass(prev)
  {
  }

  lemma ChainAfterZero(rows: seq<Row>, c: seq<nat>)
    requires Initial(rows) && UniqueIds(rows)
    requires IsChain(rows, c)
    ensures Passes(rows, 0) == Success(rows)
    ensures ChainAfter(rows, rows, c, 0)
  {
    InitialChainUntimed(rows, c);
  }

  /** The row at depth `m` of a chain is timed after `n` passes exactly when
      `m <= n`, and then with the head's times: a chain of depth k needs k
      passes, because each pass copies from a snapshot taken before it. */
  lemma PassesTimeChainByDepth(rows: seq<Row>, c: seq<nat>, n: nat)
    requires Initial(rows) && UniqueIds(rows)
    requires IsChain(rows, c)
    ensures Passes(rows, n).Success?
    ensures ChainAfter(rows, Passes(rows, n).value, c, n)
  {
    var out := ChainAfterPasses(rows, c, n);
  }

  /** The induction behind `PassesTimeChainByDepth`, naming the table after
      `n` passes. */
  lemma {:induction false} ChainAfterPasses(rows: seq<Row>, c: seq<nat>, n: nat) returns (out: seq<Row>)
    requires Initial(rows) && UniqueIds(rows)
    requires IsChain(rows, c)
    ensures Passes(rows, n) == Success(out)
    ensures ChainAfter(rows, out, c, n)
  {
    if n == 0 {
      ChainAfterZero(rows, c);
      out := rows;
    } else {
      var m: nat := n - 1;
      var prev := ChainAfterPasses(rows, c, m);
      out := ChainAfterStep(rows, prev, c, m);
      PassesUnfold(rows, n, m, prev);
    }
  }

  /** A chain of `rows` is still a chain, with the same head, in any table
      that differs from `rows` only in the times of reference rows. */
  lemma ChainSurvives(rows: seq<Row>, later: seq<Row>, c: seq<nat>)
    requires IsChain(rows, c)
    requires |later| == |rows|
    requires forall i :: 0 <= i < |rows| ==> SameExceptTimes(rows[i], later[i])
    requires forall i :: 0 <= i < |rows| && rows[i].annotationRef.None? ==> later[i] == rows[i]
    ensures IsChain(later, c)
    ensures later[c[0]] == rows[c[0]]
  {
    forall m | 1 <= m < |c|
      ensures Linked(later, c, m)
    {
      assert Linked(rows, c, m);
    }
  }

  // ---------------------------------------------------------------------------
  // Rows that can never be timed

  /** `stuck` is a set of untimed reference rows in which every row that
      carries an id named by a member is itself a member: references into a
      cycle, or to an id no row has, with nothing timed to copy from. */
  ghost predicate StuckSet(rows: seq<Row>, stuck: set<nat>) {
    forall i :: i in stuck ==>
      && i < |rows|
      && rows[i].annotationRef.Some?
      && rows[i].start.None?
      && (forall j :: 0 <= j < |rows| && rows[j].annotationId == rows[i].annotationRef.value ==> j in stuck)
  }

  lemma PassKeepsStuck(rows: seq<Row>, next: seq<Row>, stuck: set<nat>)
    requires StuckSet(rows, stuck)
    requires Pass(rows) == Success(next)
    ensures StuckSet(next, stuck)
  {
    forall i | i in stuck
      ensures next[i].start.None?
    {
    }
  }

  lemma {:induction false} RelaxKeepsStuck(rows: seq<Row>, before: nat, stuck: set<nat>)
    requires StuckSet(rows, stuck)
    requires Relax(rows, before).Success?
    ensures StuckSet(Relax(rows, before).value, stuck)
    decreases Unresolved(rows), if before == Unresolved(rows) then 0 else 1
  {
    var next := Pass(rows).value;
    PassKeepsStuck(rows, next, stuck);
    if Unresolved(next) != before {
      RelaxKeepsStuck(next, Unresolved(next), stuck);
    }
  }

  /** No number of passes times a row of a stuck set. */
  lemma ResolveKeepsStuck(rows: seq<Row>, stuck: set<nat>)
    requires StuckSet(rows, stuck)
    requires Resolve(rows).Success?
    ensures forall i :: i in stuck ==> Resolve(rows).value[i].start.None?
  {
    if Unresolved(rows) != 0 {
      RelaxKeepsStuck(rows, 0, stuck);
    }
  }

  /** At a fixpoint, an untimed row is an aligned annotation that lacks a
      slot value, or a reference whose id names no timed row. */
  lemma FixpointLeavesOnlyBrokenRows(out: seq<Row>)
    requires Pass(out) == Success(out)
    ensures forall i :: 0 <= i < |out| && out[i].start.None? && out[i].annotationRef.Some? ==>
              forall j :: 0 <= j < |out| && out[j].annotationId == out[i].annotationRef.value ==> !IsSource(out[j])
  {
  }

  // ---------------------------------------------------------------------------
  // Ordered times

  /** Every timed row starts no later than it ends. */
  ghost predicate OrderedTimes(rows: seq<Row>) {
    forall i :: 0 <= i < |rows| && IsSource(rows[i]) ==> rows[i].start.value <= rows[i].end.value
  }

  lemma PassKeepsOrderedTimes(rows: seq<Row>, next: seq<Row>)
    requires OrderedTimes(rows)
    requires Pass(rows) == Success(next)
    ensures OrderedTimes(next)
  {
    var snap := Snapshot(rows).value;
    forall i | 0 <= i < |next| && IsSource(next[i])
      ensures next[i].start.value <= next[i].end.value
    {
      assert next[i] == Receive(rows[i], snap);
      if next[i] != rows[i] {
        var j :| 0 <= j < |rows| && IsSource(rows[j]) && rows[j].annotationId == rows[i].annotationRef.value;
        assert snap[rows[j].annotationId] == TimesOf(rows[j]);
      }
    }
  }

  lemma {:induction false} RelaxKeepsOrderedTimes(rows: seq<Row>, before: nat)
    requires OrderedTimes(rows)
    requires Relax(rows, before).Success?
    ensures OrderedTimes(Relax(rows, before).value)
    decreases Unresolved(rows), if before == Unresolved(rows) then 0 else 1
  {
    var next := Pass(rows).value;
    PassKeepsOrderedTimes(rows, next);
    if Unresolved(next) != before {
      RelaxKeepsOrderedTimes(next, Unresolved(next));
    }
  }

  /** When every timed row starts no later than it ends, so does every row
      resolution times. */
  lemma ResolveKeepsOrderedTimes(rows: seq<Row>)
    requires OrderedTimes(rows)
    requires Resolve(rows).Success?
    ensures OrderedTimes(Resolve(rows).value)
  {
    if Unresolved(rows) != 0 {
      RelaxKeepsOrderedTimes(rows, 0);
    }
  }
}
