/** The enumeration behind `Manager.update` (server/dialogue/manager.py): every
    informed attribute has a cursor into its list of (value, confidence)
    candidates, starting at the last one; each round queries the database with
    the values under the cursors, then moves the first cursor that is still
    above 0 down by one. The rounds stop when no cursor can move, or as soon
    as the collected records number more than `MAX_DATA`.

    The cursors therefore walk a single chain of `1 + Σ(len - 1)` positions
    ending at all zeros, not the full cross product of the candidates. */
module QueryExpansion {
  import opened Wrappers

  /** `MAX_DATA`: the number of records past which expansion stops. */
  const MaxData: nat := 2500

  /** No name is listed twice. */
  predicate Distinct(names: seq<string>) {
    forall a, b :: 0 <= a < b < |names| ==> names[a] != names[b]
  }

  predicate AllNonNegative(idx: seq<int>) {
    forall j :: 0 <= j < |idx| ==> idx[j] >= 0
  }

  function Sum(idx: seq<int>): (s: int)
    ensures AllNonNegative(idx) ==> s >= 0
  {
    if |idx| == 0 then 0 else idx[0] + Sum(idx[1..])
  }

  lemma {:induction false} SumUpdate(idx: seq<int>, i: nat, x: int)
    requires i < |idx|
    ensures Sum(idx[i := x]) == Sum(idx) - idx[i] + x
  {
    if i == 0 {
      assert idx[i := x][1..] == idx[1..];
    } else {
      assert idx[i := x][1..] == idx[1..][i - 1 := x];
      SumUpdate(idx[1..], i - 1, x);
    }
  }

  /** The first cursor above 0, if any. */
  function FirstPositive(idx: seq<int>): (r: Option<nat>)
    ensures r.Some? ==> r.value < |idx| && idx[r.value] > 0 && forall j :: 0 <= j < r.value ==> idx[j] <= 0
    ensures r.None? ==> forall j :: 0 <= j < |idx| ==> idx[j] <= 0
  {
    if |idx| == 0 then None
    else if idx[0] > 0 then Some(0)
    else match FirstPositive(idx[1..])
      case Some(i) => Some(i + 1)
      case None => None
  }

  /** Cursors `c` lie between 0 and the cursors `idx`, position by position. */
  predicate Below(c: seq<int>, idx: seq<int>) {
    |c| == |idx| && forall j :: 0 <= j < |idx| ==> 0 <= c[j] <= idx[j]
  }

  /** One round's move: the first cursor above 0 goes down by one. The total
      falls by one and no cursor leaves its range. */
  function Step(idx: seq<int>): (r: seq<int>)
    requires FirstPositive(idx).Some?
    ensures |r| == |idx| && Sum(r) == Sum(idx) - 1
    ensures AllNonNegative(idx) ==> Below(r, idx)
    ensures forall j :: 0 <= j < |idx| && j != FirstPositive(idx).value ==> r[j] == idx[j]
  {
    var i := FirstPositive(idx).value;
    SumUpdate(idx, i, idx[i] - 1);
    idx[i := idx[i] - 1]
  }

  /** When no cursor is above 0, all of them sit at 0. */
  lemma AllZeroAtEnd(idx: seq<int>)
    requires AllNonNegative(idx) && FirstPositive(idx).None?
    ensures Sum(idx) == 0 && forall j :: 0 <= j < |idx| ==> idx[j] == 0
  {
    assert forall j :: 0 <= j < |idx| ==> idx[j] == 0;
    AllZeroSum(idx);
  }

  lemma {:induction false} AllZeroSum(idx: seq<int>)
    requires forall j :: 0 <= j < |idx| ==> idx[j] == 0
    ensures Sum(idx) == 0
  {
    if |idx| > 0 {
      AllZeroSum(idx[1..]);
    }
  }

  /** The successive cursor positions of an enumeration that is never cut short. */
  function Chain(idx: seq<int>): (c: seq<seq<int>>)
    requires AllNonNegative(idx)
    ensures |c| == 1 + Sum(idx) && c[0] == idx
    decreases Sum(idx)
  {
    match FirstPositive(idx)
    case None => AllZeroAtEnd(idx); [idx]
    case Some(_) => [idx] + Chain(Step(idx))
  }

  /** The chain starts at the given cursors, moves by `Step`, has `1 + Sum(idx)`
      positions, stays within range and ends with every cursor at 0. */
  lemma {:induction false} ChainShape(idx: seq<int>)
    requires AllNonNegative(idx)
    ensures var c := Chain(idx);
            |c| == 1 + Sum(idx) && c[0] == idx
            && AllZero(c[|c| - 1])
            && (forall k :: 0 <= k < |c| - 1 ==> FirstPositive(c[k]).Some? && c[k + 1] == Step(c[k]))
            && (forall k :: 0 <= k < |c| ==> Below(c[k], idx))
    decreases Sum(idx)
  {
    var c := Chain(idx);
    match FirstPositive(idx)
    case None =>
      AllZeroAtEnd(idx);
    case Some(_) =>
      var s := Step(idx);
      ChainShape(s);
      assert c == [idx] + Chain(s);
      forall k | 0 <= k < |c| ensures Below(c[k], idx) {
        if k > 0 {
          assert c[k] == Chain(s)[k - 1];
        }
      }
      forall k | 0 <= k < |c| - 1 ensures FirstPositive(c[k]).Some? && c[k + 1] == Step(c[k]) {
        if k > 0 {
          assert c[k] == Chain(s)[k - 1] && c[k + 1] == Chain(s)[k];
        }
      }
  }

  /** The walk is not the cross product: with two candidates for each of two
      attributes, the combination (second of the first, first of the second)
      is never queried. */
  lemma ChainIsNotCrossProduct()
    ensures Chain([1, 1]) == [[1, 1], [0, 1], [0, 0]]
    ensures [1, 0] !in Chain([1, 1])
  {
    assert FirstPositive([1, 1]) == Some(0);
    assert Step([1, 1]) == [0, 1];
    assert FirstPositive([0, 1]) == Some(1);
    assert Step([0, 1]) == [0, 0];
    assert FirstPositive([0, 0]) == None;
    assert Chain([0, 0]) == [[0, 0]];
  }

  /** Every cursor points at one of its attribute's candidates. */
  predicate InRange<V>(keys: seq<string>, state: map<string, seq<(V, real)>>, idx: seq<int>) {
    |idx| == |keys| && forall j :: 0 <= j < |keys| ==> keys[j] in state && 0 <= idx[j] < |state[keys[j]]|
  }

  /** `[(attribute, len(values) - 1) for attribute, values in user_state.items()]`, cursors only. */
  function LastIndices<V>(keys: seq<string>, state: map<string, seq<(V, real)>>): (idx: seq<int>)
    requires forall j :: 0 <= j < |keys| ==> keys[j] in state
    ensures |idx| == |keys| && forall j :: 0 <= j < |keys| ==> idx[j] == |state[keys[j]]| - 1
    ensures AllNonNegative(idx) <==> forall j :: 0 <= j < |keys| ==> |state[keys[j]]| > 0
    ensures AllNonNegative(idx) ==> InRange(keys, state, idx)
  {
    seq(|keys|, j requires 0 <= j < |keys| => |state[keys[j]]| - 1)
  }

  /** The query of one round: each attribute mapped to the value under its
      cursor, entries made left to right. */
  function QueryAt<V>(keys: seq<string>, state: map<string, seq<(V, real)>>, idx: seq<int>): map<string, V>
    requires InRange(keys, state, idx)
  {
    if |keys| == 0 then map[]
    else
      var n := |keys| - 1;
      QueryAt(keys[..n], state, idx[..n])[keys[n] := state[keys[n]][idx[n]].0]
  }

  /** A query names exactly the informed attributes. */
  lemma {:induction false} QueryAtKeys<V>(keys: seq<string>, state: map<string, seq<(V, real)>>, idx: seq<int>)
    requires InRange(keys, state, idx)
    ensures QueryAt(keys, state, idx).Keys == set j | 0 <= j < |keys| :: keys[j]
  {
    if |keys| > 0 {
      var n := |keys| - 1;
      QueryAtKeys(keys[..n], state, idx[..n]);
      assert (set j | 0 <= j < |keys| :: keys[j]) == (set j | 0 <= j < n :: keys[..n][j]) + {keys[n]};
    }
  }

  /** As no attribute is listed twice, a query maps each attribute to the
      candidate under its cursor. */
  lemma {:induction false} QueryAtValues<V>(keys: seq<string>, state: map<string, seq<(V, real)>>, idx: seq<int>)
    requires InRange(keys, state, idx) && Distinct(keys)
    ensures forall j :: 0 <= j < |keys| ==> keys[j] in QueryAt(keys, state, idx)
                                             && QueryAt(keys, state, idx)[keys[j]] == state[keys[j]][idx[j]].0
  {
    if |keys| > 0 {
      var n := |keys| - 1;
      var q := QueryAt(keys[..n], state, idx[..n]);
      QueryAtValues(keys[..n], state, idx[..n]);
      forall j | 0 <= j < n
        ensures keys[j] in q && q[keys[j]] == state[keys[j]][idx[j]].0 && keys[j] != keys[n]
      {
        assert keys[..n][j] == keys[j] && idx[..n][j] == idx[j];
      }
    }
  }

  /** Every listed cursor position is in range. */
  predicate AllInRange<V>(keys: seq<string>, state: map<string, seq<(V, real)>>, cs: seq<seq<int>>) {
    forall k :: 0 <= k < |cs| ==> InRange(keys, state, cs[k])
  }

  /** The records the database returns for the queries at the given cursor
      positions, concatenated in order with nothing removed. */
  function Results<V, R>(db: map<string, V> -> seq<R>, keys: seq<string>, state: map<string, seq<(V, real)>>,
                         cs: seq<seq<int>>): seq<R>
    requires AllInRange(keys, state, cs)
  {
    if |cs| == 0 then []
    else Results(db, keys, state, cs[..|cs| - 1]) + db(QueryAt(keys, state, cs[|cs| - 1]))
  }

  /** The cursor positions queried so far and the records collected. */
  datatype Walk<R> = Walk(steps: seq<seq<int>>, records: seq<R>)

  /** The rounds of the enumeration from cursors `idx` on, continuing walk `w`. */
  function Collect<V, R>(db: map<string, V> -> seq<R>, keys: seq<string>, state: map<string, seq<(V, real)>>,
                         idx: seq<int>, w: Walk<R>): Walk<R>
    requires InRange(keys, state, idx)
    decreases Sum(idx)
  {
    var next := Walk(w.steps + [idx], w.records + db(QueryAt(keys, state, idx)));
    if |next.records| > MaxData then next
    else match FirstPositive(idx)
      case None => next
      case Some(_) => Collect(db, keys, state, Step(idx), next)
  }

  /** The whole of `update` after the sufficiency test: no rounds at all when
      some attribute has no candidates, else the rounds from the last cursors. */
  function Expand<V, R>(db: map<string, V> -> seq<R>, keys: seq<string>, state: map<string, seq<(V, real)>>): Walk<R>
    requires forall j :: 0 <= j < |keys| ==> keys[j] in state
  {
    var idx := LastIndices(keys, state);
    if AllNonNegative(idx) then Collect(db, keys, state, idx, Walk([], [])) else Walk([], [])
  }

  /** The rounds follow the chain: they query a non-empty prefix of it and
      stop before its end only once the records number more than `MaxData`. */
  lemma {:induction false} CollectFollowsChain<V, R>(db: map<string, V> -> seq<R>, keys: seq<string>,
                                                     state: map<string, seq<(V, real)>>, idx: seq<int>, w: Walk<R>)
    requires InRange(keys, state, idx)
    ensures var r := Collect(db, keys, state, idx, w);
            var c := Chain(idx);
            |w.steps| < |r.steps| <= |w.steps| + |c|
            && r.steps == w.steps + c[..|r.steps| - |w.steps|]
            && (|r.steps| < |w.steps| + |c| ==> |r.records| > MaxData)
    decreases Sum(idx)
  {
    var c := Chain(idx);
    var next := Walk(w.steps + [idx], w.records + db(QueryAt(keys, state, idx)));
    if |next.records| > MaxData || FirstPositive(idx).None? {
      assert Collect(db, keys, state, idx, w) == next;
      assert c[..1] == [idx];
    } else {
      var s := Step(idx);
      CollectUnfold(db, keys, state, idx, w);
      CollectFollowsChain(db, keys, state, s, next);
      var r := Collect(db, keys, state, s, next);
      PrefixOfCons(w.steps, idx, Chain(s), |r.steps| - |next.steps|);
    }
  }

  /** Appending `x` and then a prefix of `rest` appends a prefix of `[x] + rest`. */
  lemma PrefixOfCons<T>(front: seq<T>, x: T, rest: seq<T>, n: nat)
    requires n <= |rest|
    ensures front + [x] + rest[..n] == front + ([x] + rest)[..n + 1]
  {
    assert ([x] + rest)[..n + 1] == [x] + rest[..n];
  }

  /** One step of the walk when the cap is not reached and some cursor is still positive. */
  lemma CollectUnfold<V, R>(db: map<string, V> -> seq<R>, keys: seq<string>,
                            state: map<string, seq<(V, real)>>, idx: seq<int>, w: Walk<R>)
    requires InRange(keys, state, idx) && FirstPositive(idx).Some?
    requires |w.records + db(QueryAt(keys, state, idx))| <= MaxData
    ensures InRange(keys, state, Step(idx))
    ensures Collect(db, keys, state, idx, w)
            == Collect(db, keys, state, Step(idx), Walk(w.steps + [idx], w.records + db(QueryAt(keys, state, idx))))
    ensures Chain(idx) == [idx] + Chain(Step(idx))
  {
    assert InRange(keys, state, Step(idx));
  }

  /** The records are always the database's answers to the queries made so far,
      concatenated in order: nothing is dropped or merged. */
  lemma {:induction false} CollectRecords<V, R>(db: map<string, V> -> seq<R>, keys: seq<string>,
                                                state: map<string, seq<(V, real)>>, idx: seq<int>, w: Walk<R>)
    requires InRange(keys, state, idx) && AllInRange(keys, state, w.steps)
    requires w.records == Results(db, keys, state, w.steps)
    ensures var r := Collect(db, keys, state, idx, w);
            AllInRange(keys, state, r.steps) && r.records == Results(db, keys, state, r.steps)
    decreases Sum(idx)
  {
    var next := Walk(w.steps + [idx], w.records + db(QueryAt(keys, state, idx)));
    assert next.steps[..|next.steps| - 1] == w.steps;
    assert AllInRange(keys, state, next.steps);
    if |next.records| <= MaxData && FirstPositive(idx).Some? {
      CollectRecords(db, keys, state, Step(idx), next);
    }
  }

  /** The rounds stop right after the one whose answers take the records past
      `MaxData`: before the last query they were at most `MaxData`. */
  lemma {:induction false} CollectStopsAtCap<V, R>(db: map<string, V> -> seq<R>, keys: seq<string>,
                                                   state: map<string, seq<(V, real)>>, idx: seq<int>, w: Walk<R>)
    requires InRange(keys, state, idx) && AllInRange(keys, state, w.steps)
    requires w.records == Results(db, keys, state, w.steps) && |w.records| <= MaxData
    ensures var r := Collect(db, keys, state, idx, w);
            |r.steps| > 0 && AllInRange(keys, state, r.steps[..|r.steps| - 1])
            && |Results(db, keys, state, r.steps[..|r.steps| - 1])| <= MaxData
    decreases Sum(idx)
  {
    var next := Walk(w.steps + [idx], w.records + db(QueryAt(keys, state, idx)));
    assert next.steps[..|next.steps| - 1] == w.steps;
    assert AllInRange(keys, state, next.steps);
    if |next.records| <= MaxData && FirstPositive(idx).Some? {
      CollectStopsAtCap(db, keys, state, Step(idx), next);
    }
  }

  /** Every entry is 0. */
  predicate AllZero(idx: seq<int>) {
    forall j :: 0 <= j < |idx| ==> idx[j] == 0
  }

  /** When some attribute has no candidates, `update` makes no query at all. */
  lemma ExpandWithEmptyCandidates<V, R>(db: map<string, V> -> seq<R>, keys: seq<string>,
                                        state: map<string, seq<(V, real)>>, e: nat)
    requires forall j :: 0 <= j < |keys| ==> keys[j] in state
    requires e < |keys| && |state[keys[e]]| == 0
    ensures Expand(db, keys, state) == Walk([], [])
  {
    assert LastIndices(keys, state)[e] < 0;
  }

  /** With exactly one candidate per attribute, `update` makes a single query,
      at every attribute's only candidate. */
  lemma ExpandSingle<V, R>(db: map<string, V> -> seq<R>, keys: seq<string>, state: map<string, seq<(V, real)>>)
    requires forall j :: 0 <= j < |keys| ==> keys[j] in state && |state[keys[j]]| == 1
    ensures var idx := LastIndices(keys, state);
            AllZero(idx) && Expand(db, keys, state) == Walk([idx], db(QueryAt(keys, state, idx)))
  {
    var idx := LastIndices(keys, state);
    assert AllNonNegative(idx) && AllZero(idx);
    assert FirstPositive(idx) == None;
    assert [] + [idx] == [idx];
  }

  /** With candidates for every attribute, the queries of `update` follow the
      chain from every attribute's last candidate, and stop before its end only
      once the records number more than `MaxData`. */
  lemma ExpandFollowsChain<V, R>(db: map<string, V> -> seq<R>, keys: seq<string>, state: map<string, seq<(V, real)>>)
    requires forall j :: 0 <= j < |keys| ==> keys[j] in state && |state[keys[j]]| > 0
    ensures var r := Expand(db, keys, state);
            var idx := LastIndices(keys, state);
            1 <= |r.steps| <= 1 + Sum(idx) && r.steps[0] == idx
            && r.steps == Chain(idx)[..|r.steps|]
            && (|r.steps| < 1 + Sum(idx) ==> |r.records| > MaxData)
  {
    var idx := LastIndices(keys, state);
    CollectFollowsChain(db, keys, state, idx, Walk([], []));
  }

  /** The records of `update` are the database's answers to its queries,
      concatenated in order with no duplicate removed, and before the last query
      they numbered at most `MaxData`. */
  lemma ExpandRecords<V, R>(db: map<string, V> -> seq<R>, keys: seq<string>, state: map<string, seq<(V, real)>>)
    requires forall j :: 0 <= j < |keys| ==> keys[j] in state && |state[keys[j]]| > 0
    ensures var r := Expand(db, keys, state);
            |r.steps| > 0 && AllInRange(keys, state, r.steps)
            && r.records == Results(db, keys, state, r.steps)
            && |Results(db, keys, state, r.steps[..|r.steps| - 1])| <= MaxData
  {
    var idx := LastIndices(keys, state);
    CollectRecords(db, keys, state, idx, Walk([], []));
    CollectStopsAtCap(db, keys, state, idx, Walk([], []));
  }

  /** When the records never pass `MaxData`, `update` makes exactly
      `1 + Σ(len - 1)` queries, the last at every attribute's first
      candidate. */
  lemma ExpandUncapped<V, R>(db: map<string, V> -> seq<R>, keys: seq<string>, state: map<string, seq<(V, real)>>)
    requires forall j :: 0 <= j < |keys| ==> keys[j] in state && |state[keys[j]]| > 0
    requires |Expand(db, keys, state).records| <= MaxData
    ensures var r := Expand(db, keys, state);
            |r.steps| == 1 + Sum(LastIndices(keys, state)) && AllZero(r.steps[|r.steps| - 1])
  {
    var idx := LastIndices(keys, state);
    ExpandFollowsChain(db, keys, state);
    ChainShape(idx);
    var r := Expand(db, keys, state);
    assert r.steps == Chain(idx);
  }

  /** The query-building loop of one round. */
  method BuildQuery<V>(keys: seq<string>, state: map<string, seq<(V, real)>>, idx: seq<int>) returns (query: map<string, V>)
    requires InRange(keys, state, idx)
    ensures query == QueryAt(keys, state, idx)
  {
    query := map[];
    for j := 0 to |keys|
      invariant query == QueryAt(keys[..j], state, idx[..j])
    {
      assert keys[..j + 1][..j] == keys[..j] && idx[..j + 1][..j] == idx[..j];
      query := query[keys[j] := state[keys[j]][idx[j]].0];
    }
    assert keys[..|keys|] == keys && idx[..|idx|] == idx;
  }

  /** The cursor-moving loop of one round: reports whether some cursor was above
      0 and, if so, moves the first such cursor down by one. */
  method Advance(idx: seq<int>) returns (updated: bool, next: seq<int>)
    ensures updated <==> FirstPositive(idx).Some?
    ensures updated ==> next == Step(idx)
    ensures !updated ==> next == idx
  {
    next := idx;
    updated := false;
    for i := 0 to |idx|
      invariant forall j :: 0 <= j < i ==> idx[j] <= 0
    {
      if idx[i] > 0 {
        next := idx[i := idx[i] - 1];
        updated := true;
        break;
      }
    }
  }
}
