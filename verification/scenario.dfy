/** The configured dialogue of server/system.py driven through the exchange of
    server/test.py: four fields (Destination, Origin, DepartureDate, NonStop),
    the first three minimal; the user names the destination and the origin,
    gives an empty departure date, then gives the date. The fields (their
    names, entropy, category and pruning functions), the user's three values
    ("AMS", "LAX", "2016-12-09" in the test) and the flight database stay
    parameters; the names only have to be pairwise distinct. */
module DialogueScenario {
  import opened Wrappers
  import opened QueryExpansion
  import opened Dialogue

  /** The four configured fields, in configuration order. */
  datatype Trip<!V, !R> = Trip(destination: Field<V, R>, origin: Field<V, R>, departureDate: Field<V, R>, nonStop: Field<V, R>)
  {
    predicate DistinctNames() {
      var d, o, t, n := destination.name, origin.name, departureDate.name, nonStop.name;
      d != o && d != t && d != n && o != t && o != n && t != n
    }

    function Fields(): seq<Field<V, R>> {
      [destination, origin, departureDate, nonStop]
    }

    function FieldNames(): seq<string> {
      [destination.name, origin.name, departureDate.name, nonStop.name]
    }

    function MinimalNames(): seq<string> {
      [destination.name, origin.name, departureDate.name]
    }
  }

  /** The user's answers, each given as one value with confidence 1.0. */
  datatype Answers<V> = Answers(place: V, from: V, day: V)

  /** The query the exchange leads to once the three minimal fields are known. */
  function TripQuery<V, R>(t: Trip<V, R>, a: Answers<V>): map<string, V> {
    map[t.destination.name := a.place, t.origin.name := a.from, t.departureDate.name := a.day]
  }

  /** The user state once the three minimal fields are known. */
  function TripState<V, R>(t: Trip<V, R>, a: Answers<V>): map<string, seq<(V, real)>> {
    map[t.destination.name := [(a.place, 1.0)], t.origin.name := [(a.from, 1.0)], t.departureDate.name := [(a.day, 1.0)]]
  }

  /** The turns one question about `name` and its answer `values` log. */
  function Exchanged<V>(name: string, values: seq<(V, real)>): seq<DialogueTurn<V>> {
    [QuestionTurn(name), AnswerTurn(name, values)]
  }

  /** The turns logged while the destination and the origin are asked for and given. */
  function NameTurns<V, R>(t: Trip<V, R>, a: Answers<V>): seq<DialogueTurn<V>> {
    Exchanged(t.destination.name, [(a.place, 1.0)]) + Exchanged(t.origin.name, [(a.from, 1.0)])
  }

  /** The turns logged while the date is asked for, left empty, asked for again and given. */
  function DateTurns<V, R>(t: Trip<V, R>, a: Answers<V>): seq<DialogueTurn<V>> {
    Exchanged(t.departureDate.name, []) + Exchanged(t.departureDate.name, [(a.day, 1.0)])
  }

  /** Each minimal field is asked for in configured order (the departure date
      twice, since the first answer is empty and rejected); the answers report
      no count until the last one, which reports the records of exactly one
      query; the final question is never about the first configured field. */
  method TestDialogue<V, R>(t: Trip<V, R>, a: Answers<V>, database: map<string, V> -> seq<R>)
    returns (questions: seq<Question<V>>, answers: seq<InformResult>, log: seq<DialogueTurn<V>>)
    requires t.DistinctNames()
    ensures |questions| == 5
    ensures questions[..4] == [Ask(t.destination.name, None), Ask(t.origin.name, None),
                               Ask(t.departureDate.name, None), Ask(t.departureDate.name, None)]
    ensures questions[4] == NoQuestion || (questions[4].Ask? && questions[4].name in t.FieldNames()[1..])
    ensures answers == [Informed(None), Informed(None), Rejected("no attribute values provided"),
                        Informed(Some(|database(TripQuery(t, a))|))]
    ensures |log| == if questions[4] == NoQuestion then 8 else 9
    ensures log[..8] == NameTurns(t, a) + DateTurns(t, a)
  {
    var m := Configure(t, database);
    var asked, answered := Exchange(m, t, a);
    var q := AskNext(m);
    questions := asked + [q];
    assert questions[..4] == asked;
    answers := answered;
    log := m.interactionSequence;
  }

  /** Lines 57-64 of the test on a freshly configured manager: four questions
      and four answers, after which every minimal field is known. */
  method Exchange<V, R>(m: Manager<V, R>, t: Trip<V, R>, a: Answers<V>)
    returns (questions: seq<Question<V>>, answers: seq<InformResult>)
    requires t.DistinctNames()
    requires m.Valid() && m.fieldOrder == t.FieldNames() && m.minimalFields == t.MinimalNames()
    requires t.destination.name in m.fields && t.origin.name in m.fields && t.departureDate.name in m.fields
    requires m.stateOrder == [] && m.userState == map[] && m.interactionSequence == []
    modifies m
    ensures m.Valid() && m.Sufficient()
    ensures questions == [Ask(t.destination.name, None), Ask(t.origin.name, None),
                          Ask(t.departureDate.name, None), Ask(t.departureDate.name, None)]
    ensures answers == [Informed(None), Informed(None), Rejected("no attribute values provided"),
                        Informed(Some(|m.database(TripQuery(t, a))|))]
    ensures m.interactionSequence == NameTurns(t, a) + DateTurns(t, a) && |m.interactionSequence| == 8
  {
    var q1, a1, q2, a2 := NameTrip(m, t, a);
    var q3, a3, q4, a4 := GiveDate(m, t, a);
    questions := [q1, q2, q3, q4];
    answers := [a1, a2, a3, a4];
  }

  /** Lines 57-60 of the test: the destination and the origin are asked for
      and answered; with the date still missing no records are computed. */
  method NameTrip<V, R>(m: Manager<V, R>, t: Trip<V, R>, a: Answers<V>)
    returns (q1: Question<V>, a1: InformResult, q2: Question<V>, a2: InformResult)
    requires t.DistinctNames()
    requires m.Valid() && m.minimalFields == t.MinimalNames()
    requires m.stateOrder == [] && m.userState == map[] && m.interactionSequence == []
    requires t.destination.name in m.fields && t.origin.name in m.fields
    modifies m
    ensures m.Valid() && m.fields == old(m.fields)
    ensures q1 == Ask(t.destination.name, None) && a1 == Informed(None)
    ensures q2 == Ask(t.origin.name, None) && a2 == Informed(None)
    ensures m.stateOrder == [t.destination.name, t.origin.name]
    ensures m.userState == map[t.destination.name := [(a.place, 1.0)], t.origin.name := [(a.from, 1.0)]]
    ensures m.interactionSequence == NameTurns(t, a)
  {
    FirstMissingIs(m.minimalFields, m.userState, 0);
    q1, a1 := AnswerMissing(m, 0, a.place);
    q2, a2 := AnswerMissing(m, 1, a.from);
    AppendAssociates([], Exchanged(t.destination.name, [(a.place, 1.0)]), Exchanged(t.origin.name, [(a.from, 1.0)]));
  }

  /** Lines 61-62 of the test: the departure date is asked for and the empty
      answer is rejected, changing nothing but the log. */
  method GiveDate<V, R>(m: Manager<V, R>, t: Trip<V, R>, a: Answers<V>)
    returns (q3: Question<V>, a3: InformResult, q4: Question<V>, a4: InformResult)
    requires t.DistinctNames()
    requires m.Valid() && m.minimalFields == t.MinimalNames()
    requires m.stateOrder == [t.destination.name, t.origin.name]
    requires m.userState == map[t.destination.name := [(a.place, 1.0)], t.origin.name := [(a.from, 1.0)]]
    requires t.departureDate.name in m.fields
    modifies m
    ensures m.Valid() && m.Sufficient()
    ensures q3 == Ask(t.departureDate.name, None) && a3 == Rejected("no attribute values provided")
    ensures q4 == Ask(t.departureDate.name, None) && a4 == Informed(Some(|m.database(TripQuery(t, a))|))
    ensures m.interactionSequence == old(m.interactionSequence) + DateTurns(t, a)
  {
    FirstMissingIs(m.minimalFields, m.userState, 2);
    ghost var before := m.interactionSequence;
    q3, a3 := AskAndAnswer(m, 2, []);
    q4, a4 := AnswerDate(m, t, a);
    AppendAssociates(before, Exchanged(t.departureDate.name, []), Exchanged(t.departureDate.name, [(a.day, 1.0)]));
  }

  /** Lines 63-64 of the test: the departure date is asked for again and given;
      now every minimal field is known and the single trip query is made. */
  method AnswerDate<V, R>(m: Manager<V, R>, t: Trip<V, R>, a: Answers<V>) returns (q4: Question<V>, a4: InformResult)
    requires t.DistinctNames()
    requires m.Valid() && m.minimalFields == t.MinimalNames()
    requires m.stateOrder == [t.destination.name, t.origin.name]
    requires m.userState == map[t.destination.name := [(a.place, 1.0)], t.origin.name := [(a.from, 1.0)]]
    requires t.departureDate.name in m.fields
    modifies m
    ensures m.Valid() && m.Sufficient()
    ensures q4 == Ask(t.departureDate.name, None) && a4 == Informed(Some(|m.database(TripQuery(t, a))|))
    ensures m.interactionSequence == old(m.interactionSequence) + Exchanged(t.departureDate.name, [(a.day, 1.0)])
  {
    FirstMissingIs(m.minimalFields, m.userState, 2);
    q4, a4 := AskAndAnswer(m, 2, [(a.day, 1.0)]);
    assert m.userState == TripState(t, a);
    assert m.stateOrder == t.MinimalNames();
    assert m.Sufficient();
    assert a4 == Informed(Some(|m.possibleData|));
    TripExpansion(m.database, t, a);
  }

  lemma AppendAssociates<T>(a: seq<T>, b: seq<T>, c: seq<T>)
    ensures a + b + c == a + (b + c)
  {
  }

  /** The first missing name is the one all earlier names precede in the state. */
  lemma FirstMissingIs<T>(names: seq<string>, state: map<string, T>, i: nat)
    requires i < |names| && names[i] !in state
    requires forall j :: 0 <= j < i ==> names[j] in state
    ensures FirstMissing(names, state) == Some(i)
  {
  }

  /** `DialogueManager` of server/system.py. */
  method Configure<V, R>(t: Trip<V, R>, database: map<string, V> -> seq<R>) returns (m: Manager<V, R>)
    requires t.DistinctNames()
    ensures fresh(m) && m.Valid()
    ensures m.fieldOrder == t.FieldNames() && m.minimalFields == t.MinimalNames() && m.database == database
    ensures t.destination.name in m.fields && t.origin.name in m.fields && t.departureDate.name in m.fields
    ensures m.stateOrder == [] && m.userState == map[] && m.interactionSequence == []
  {
    var fs := t.Fields();
    FieldOrderOfDistinct(fs);
    assert Names(fs) == t.FieldNames();
    FieldConfig(fs);
    m := new Manager(fs, t.MinimalNames(), database);
  }

  /** One exchange of the test: the manager asks for the first missing minimal
      field, which is configured, and the user answers it with `values`. */
  method AskAndAnswer<V, R>(m: Manager<V, R>, i: nat, values: seq<(V, real)>) returns (q: Question<V>, a: InformResult)
    requires m.Valid() && FirstMissing(m.minimalFields, m.userState) == Some(i) && m.minimalFields[i] in m.fields
    requires |values| <= 1
    modifies m
    ensures m.Valid() && m.fields == old(m.fields)
    ensures q == Ask(m.minimalFields[i], None)
    ensures m.interactionSequence == old(m.interactionSequence) + Exchanged(m.minimalFields[i], values)
    ensures |values| == 0 ==> a == Rejected("no attribute values provided")
                              && m.userState == old(m.userState) && m.stateOrder == old(m.stateOrder)
    ensures |values| == 1 ==> m.userState == old(m.userState)[m.minimalFields[i] := values]
                              && m.stateOrder == old(m.stateOrder) + [m.minimalFields[i]]
                              && a == Informed(if m.Sufficient() then Some(|m.possibleData|) else None)
                              && (m.Sufficient() ==> m.possibleData == Expand(m.database, m.stateOrder, m.userState).records)
  {
    q := m.NextQuestion();
    a := m.Inform(m.minimalFields[i], values);
  }

  /** An exchange that leaves a later minimal field missing: the answer is
      stored and no records are computed. */
  method AnswerMissing<V, R>(m: Manager<V, R>, i: nat, value: V) returns (q: Question<V>, a: InformResult)
    requires m.Valid() && Distinct(m.minimalFields) && FirstMissing(m.minimalFields, m.userState) == Some(i)
    requires i + 1 < |m.minimalFields| && m.minimalFields[i + 1] !in m.userState && m.minimalFields[i] in m.fields
    modifies m
    ensures m.Valid() && m.fields == old(m.fields)
    ensures q == Ask(m.minimalFields[i], None) && a == Informed(None)
    ensures m.userState == old(m.userState)[m.minimalFields[i] := [(value, 1.0)]]
    ensures m.stateOrder == old(m.stateOrder) + [m.minimalFields[i]]
    ensures m.interactionSequence == old(m.interactionSequence) + Exchanged(m.minimalFields[i], [(value, 1.0)])
    ensures FirstMissing(m.minimalFields, m.userState) == Some(i + 1)
  {
    q, a := AskAndAnswer(m, i, [(value, 1.0)]);
    FirstMissingIs(m.minimalFields, m.userState, i + 1);
  }

  /** The question once every minimal field is known: none, or a configured
      field other than the first. */
  method AskNext<V, R>(m: Manager<V, R>) returns (q: Question<V>)
    requires m.Valid() && m.Sufficient()
    modifies m
    ensures m.Valid() && |old(m.interactionSequence)| <= |m.interactionSequence|
    ensures m.interactionSequence[..|old(m.interactionSequence)|] == old(m.interactionSequence)
    ensures q == NoQuestion ==> m.interactionSequence == old(m.interactionSequence)
    ensures q != NoQuestion ==> q.Ask? && |m.fieldOrder| > 0 && q.name in m.fieldOrder[1..]
                                && m.interactionSequence == old(m.interactionSequence) + [QuestionTurn(q.name)]
  {
    q := m.NextQuestion();
    assert m.interactionSequence[..|old(m.interactionSequence)|] == old(m.interactionSequence);
  }

  /** With one candidate per minimal field the expansion makes the single trip query. */
  lemma TripExpansion<V, R>(database: map<string, V> -> seq<R>, t: Trip<V, R>, a: Answers<V>)
    requires t.DistinctNames()
    ensures Expand(database, t.MinimalNames(), TripState(t, a)).records == database(TripQuery(t, a))
  {
    var state := TripState(t, a);
    var keys := t.MinimalNames();
    ExpandSingle(database, keys, state);
    var idx := LastIndices(keys, state);
    assert Distinct(keys);
    QueryAtKeys(keys, state, idx);
    QueryAtValues(keys, state, idx);
    var q := QueryAt(keys, state, idx);
    assert q.Keys == TripQuery(t, a).Keys by {
      assert (set j | 0 <= j < |keys| :: keys[j]) == {keys[0], keys[1], keys[2]};
    }
    assert q[keys[0]] == a.place && q[keys[1]] == a.from && q[keys[2]] == a.day;
    assert q == TripQuery(t, a);
  }
}
