/** The dialogue manager of server/dialogue/manager.py: a slot-filling state
    machine that keeps what the user said per attribute, asks for the missing
    minimal attributes and then for the most decisive remaining one, and
    rebuilds the candidate records from the database after every answer.

    The attribute objects and the database are collaborators whose code is not
    part of this model: a field contributes its name, its feedback score and
    three opaque functions (entropy over records, the category labels found in
    records, and pruning of ambiguous answers); the database is one opaque
    function from a query to the records it returns. */
module Dialogue {
  import opened Wrappers
  import opened QueryExpansion

  /** An attribute the manager can ask about. */
  datatype Field<!V, !R> = Field(
    name: string,
    score: real,
    entropy: seq<R> -> real,
    categoryKeys: seq<R> -> seq<V>,
    prune: seq<(V, real)> -> seq<(V, real)>)

  /** One entry of the interaction log: a question asked, an answer given, or feedback. */
  datatype DialogueTurn<V> =
    | QuestionTurn(field: string)
    | AnswerTurn(attribute: string, values: seq<(V, real)>)
    | FeedbackTurn(attribute: string, positive: bool)

  /** What `next_question` returns: a field with the values to expect (none while
      minimal fields are missing), `(None, None)`, or the KeyError of a minimal
      field that is not configured. */
  datatype Question<V> =
    | Ask(name: string, expected: Option<seq<V>>)
    | NoQuestion
    | UnknownField(name: string)

  /** What `inform` returns: `(False, message)`, `(True, update())`, or the
      KeyError of pruning an answer for an attribute that is not configured. */
  datatype InformResult =
    | Rejected(message: string)
    | Informed(count: Option<nat>)
    | UnknownAttribute(name: string)

  /** The entropy threshold `1e-10`. */
  const Epsilon: real := 0.0000000001

  /** `sys.maxsize`, the initial best entropy. */
  const MaxSize: real := 9223372036854775807.0

  // ---------------------------------------------------------------------
  // Field configuration
  // ---------------------------------------------------------------------

  /** The keys of `available_fields` in dictionary order: each name at the
      position of its first occurrence. */
  function FieldOrder<V, R>(fs: seq<Field<V, R>>): seq<string> {
    if |fs| == 0 then []
    else
      var order := FieldOrder(fs[..|fs| - 1]);
      if fs[|fs| - 1].name in order then order else order + [fs[|fs| - 1].name]
  }

  /** `available_fields`: each name mapped to the last field configured under it. */
  function FieldTable<V, R>(fs: seq<Field<V, R>>): map<string, Field<V, R>> {
    if |fs| == 0 then map[]
    else FieldTable(fs[..|fs| - 1])[fs[|fs| - 1].name := fs[|fs| - 1]]
  }

  /** The table and the order list the same names once each; every configured
      field is reachable by its name; the first configured name comes first. */
  lemma {:induction false} FieldConfig<V, R>(fs: seq<Field<V, R>>)
    ensures var order, table := FieldOrder(fs), FieldTable(fs);
            Distinct(order)
            && (forall n :: n in table <==> n in order)
            && (forall n :: n in table ==> table[n].name == n)
            && (forall i :: 0 <= i < |fs| ==> fs[i].name in table)
            && (|fs| > 0 ==> order[0] == fs[0].name)
  {
    if |fs| > 0 {
      var n := |fs| - 1;
      FieldConfig(fs[..n]);
      forall i | 0 <= i < n ensures fs[i].name in FieldTable(fs) {
        assert fs[..n][i] == fs[i];
      }
      if n > 0 {
        assert fs[..n][0] == fs[0];
      }
    }
  }

  /** A name configured twice keeps the last field given for it. */
  lemma {:induction false} FieldTableLastWins<V, R>(fs: seq<Field<V, R>>, i: nat)
    requires i < |fs| && forall j :: i < j < |fs| ==> fs[j].name != fs[i].name
    ensures fs[i].name in FieldTable(fs) && FieldTable(fs)[fs[i].name] == fs[i]
  {
    var n := |fs| - 1;
    if i < n {
      assert fs[..n][i] == fs[i];
      FieldTableLastWins(fs[..n], i);
    }
  }

  function Names<V, R>(fs: seq<Field<V, R>>): (names: seq<string>)
    ensures |names| == |fs| && forall i :: 0 <= i < |fs| ==> names[i] == fs[i].name
  {
    seq(|fs|, i requires 0 <= i < |fs| => fs[i].name)
  }

  /** With distinct names the dictionary order is the configured order. */
  lemma {:induction false} FieldOrderOfDistinct<V, R>(fs: seq<Field<V, R>>)
    requires Distinct(Names(fs))
    ensures FieldOrder(fs) == Names(fs)
  {
    if |fs| > 0 {
      var n := |fs| - 1;
      assert Names(fs[..n]) == Names(fs)[..n];
      FieldOrderOfDistinct(fs[..n]);
      assert fs[n].name !in Names(fs)[..n];
    }
  }

  // ---------------------------------------------------------------------
  // Question selection
  // ---------------------------------------------------------------------

  /** The first name of `names` that has no entry in `state`. */
  function FirstMissing<T>(names: seq<string>, state: map<string, T>): (r: Option<nat>)
    ensures r.Some? ==> r.value < |names| && names[r.value] !in state
                        && forall j :: 0 <= j < r.value ==> names[j] in state
    ensures r.None? <==> forall j :: 0 <= j < |names| ==> names[j] in state
  {
    if |names| == 0 then None
    else if names[0] !in state then Some(0)
    else match FirstMissing(names[1..], state)
      case Some(i) => Some(i + 1)
      case None => None
  }

  /** The entropies of the candidate fields over the current records. */
  function Entropies<V, R>(cs: seq<Field<V, R>>, data: seq<R>): (es: seq<real>)
    ensures |es| == |cs| && forall i :: 0 <= i < |cs| ==> es[i] == cs[i].entropy(data)
  {
    seq(|cs|, i requires 0 <= i < |cs| => cs[i].entropy(data))
  }

  /** An entropy the selection accepts: above `1e-10` and below `sys.maxsize`. */
  predicate Informative(e: real) {
    Epsilon < e < MaxSize
  }

  /** Among the first n entropies, entry k is an accepted one that is smallest
      of all accepted ones, and strictly smaller than every accepted one before
      it (ties go to the earliest). */
  predicate BestAmong(es: seq<real>, n: nat, k: nat) {
    n <= |es| && k < n && Informative(es[k])
    && (forall j :: 0 <= j < n && Informative(es[j]) ==> es[k] <= es[j])
    && (forall j :: 0 <= j < k && Informative(es[j]) ==> es[k] < es[j])
  }

  /** The selection is determined by the entropies: at most one entry is best. */
  lemma BestAmongUnique(es: seq<real>, n: nat, k1: nat, k2: nat)
    requires BestAmong(es, n, k1) && BestAmong(es, n, k2)
    ensures k1 == k2
  {
  }

  /** The entropy loop of `next_question`: the candidate with the smallest
      accepted entropy, the earliest on ties, or none when no entropy is accepted. */
  method ChooseField<V, R>(candidates: seq<Field<V, R>>, data: seq<R>) returns (pick: Option<nat>)
    ensures pick.None? <==> forall j :: 0 <= j < |candidates| ==> !Informative(candidates[j].entropy(data))
    ensures pick.Some? ==> BestAmong(Entropies(candidates, data), |candidates|, pick.value)
  {
    ghost var es := Entropies(candidates, data);
    pick := None;
    var best := MaxSize;
    for i := 0 to |candidates|
      invariant pick.None? ==> best == MaxSize && forall j :: 0 <= j < i ==> !Informative(es[j])
      invariant pick.Some? ==> BestAmong(es, i, pick.value) && best == es[pick.value]
    {
      var entropy := candidates[i].entropy(data);
      if Epsilon < entropy && entropy < best {
        best := entropy;
        pick := Some(i);
      }
    }
  }

  // ---------------------------------------------------------------------
  // The manager
  // ---------------------------------------------------------------------

  class Manager<V, R> {
    /** The keys of `available_fields`, in dictionary order. */
    const fieldOrder: seq<string>
    /** `available_fields`; only the scores change. */
    var fields: map<string, Field<V, R>>
    const minimalFields: seq<string>
    /** `Database.query`. */
    const database: map<string, V> -> seq<R>
    /** The keys of `user_state`, in insertion order. */
    var stateOrder: seq<string>
    /** `user_state`: attribute name to (value, confidence) candidates. */
    var userState: map<string, seq<(V, real)>>
    /** `possible_data`. */
    var possibleData: seq<R>
    /** `interaction_sequence`. */
    var interactionSequence: seq<DialogueTurn<V>>

    /** The two dictionaries agree with their key orders. */
    ghost predicate Valid()
      reads this
    {
      Distinct(fieldOrder)
      && (forall n :: n in fields <==> n in fieldOrder)
      && (forall n :: n in fields ==> fields[n].name == n)
      && Distinct(stateOrder)
      && (forall n :: n in userState <==> n in stateOrder)
    }

    /** `Manager(available_fields, minimal_fields, database)`. */
    constructor (availableFields: seq<Field<V, R>>, minimalFields: seq<string>, database: map<string, V> -> seq<R>)
      ensures Valid()
      ensures fieldOrder == FieldOrder(availableFields) && fields == FieldTable(availableFields)
      ensures this.minimalFields == minimalFields && this.database == database
      ensures stateOrder == [] && userState == map[] && possibleData == [] && interactionSequence == []
    {
      var order: seq<string> := [];
      var table: map<string, Field<V, R>> := map[];
      for i := 0 to |availableFields|
        invariant order == FieldOrder(availableFields[..i]) && table == FieldTable(availableFields[..i])
      {
        var field := availableFields[i];
        assert availableFields[..i + 1][..i] == availableFields[..i];
        FieldConfig(availableFields[..i]);
        if field.name !in table {
          order := order + [field.name];
        }
        table := table[field.name := field];
      }
      assert availableFields[..|availableFields|] == availableFields;
      FieldConfig(availableFields);
      fieldOrder := order;
      fields := table;
      this.minimalFields := minimalFields;
      this.database := database;
      stateOrder := [];
      userState := map[];
      possibleData := [];
      interactionSequence := [];
    }

    /** `sufficient()`: every minimal field has an entry; other entries do not matter. */
    function Sufficient(): (r: bool)
      reads this
      ensures r <==> forall j :: 0 <= j < |minimalFields| ==> minimalFields[j] in userState
    {
      FirstMissing(minimalFields, userState).None?
    }

    /** `list(available_fields.values())[1:]`: every field but the first configured one. */
    function Candidates(): (cs: seq<Field<V, R>>)
      requires Valid()
      reads this
      ensures |cs| == if |fieldOrder| == 0 then 0 else |fieldOrder| - 1
      ensures forall i :: 0 <= i < |cs| ==> cs[i] == fields[fieldOrder[i + 1]]
    {
      if |fieldOrder| == 0 then []
      else
        var order, table := fieldOrder, fields;
        seq(|order| - 1, i requires 0 <= i < |order| - 1 && order[i + 1] in table => table[order[i + 1]])
    }

    /** `next_question()`. While a minimal field is missing it asks for the
        first missing one (a KeyError if that name is not configured). Once all
        are present it asks for the candidate with the smallest accepted
        entropy, never the first configured field, with the categories found in
        the current records as expected values; with no accepted entropy it
        returns `(None, None)` and logs nothing. */
    method NextQuestion() returns (q: Question<V>)
      requires Valid()
      modifies this
      ensures Valid()
      ensures fields == old(fields) && stateOrder == old(stateOrder) && userState == old(userState)
      ensures possibleData == old(possibleData)
      ensures var missing := FirstMissing(minimalFields, userState);
              missing.Some? ==>
                var name := minimalFields[missing.value];
                interactionSequence == old(interactionSequence) + [QuestionTurn(name)]
                && q == if name in fields then Ask(name, None) else UnknownField(name)
      ensures var es := Entropies(Candidates(), possibleData);
              FirstMissing(minimalFields, userState).None? ==>
                (q == NoQuestion <==> forall j :: 0 <= j < |es| ==> !Informative(es[j]))
                && (q == NoQuestion ==> interactionSequence == old(interactionSequence))
                && (q != NoQuestion ==>
                      exists k :: BestAmong(es, |es|, k)
                                  && q == Ask(fieldOrder[k + 1], Some(fields[fieldOrder[k + 1]].categoryKeys(possibleData)))
                                  && interactionSequence == old(interactionSequence) + [QuestionTurn(fieldOrder[k + 1])])
      ensures q.Ask? && q.expected.Some? ==> q.name in fieldOrder[1..] && q.name != fieldOrder[0]
    {
      for i := 0 to |minimalFields|
        invariant forall j :: 0 <= j < i ==> minimalFields[j] in userState
      {
        var name := minimalFields[i];
        if name !in userState {
          interactionSequence := interactionSequence + [QuestionTurn(name)];
          if name in fields {
            return Ask(name, None);
          }
          return UnknownField(name);
        }
      }
      var candidates := Candidates();
      var pick := ChooseField(candidates, possibleData);
      if pick.None? {
        return NoQuestion;
      }
      var best := candidates[pick.value];
      assert best.name == fieldOrder[pick.value + 1];
      interactionSequence := interactionSequence + [QuestionTurn(best.name)];
      q := Ask(best.name, Some(best.categoryKeys(possibleData)));
    }

    /** `inform(attribute, values)`. The answer is logged first. An empty answer
        is rejected and changes nothing else. A single value is stored as given;
        several are pruned by the attribute's field first (a KeyError when the
        attribute is not configured). After storing, the records are rebuilt. */
    method Inform(attribute: string, values: seq<(V, real)>) returns (r: InformResult)
      requires Valid()
      modifies this
      ensures Valid()
      ensures interactionSequence == old(interactionSequence) + [AnswerTurn(attribute, values)]
      ensures fields == old(fields)
      ensures |values| == 0 || (|values| > 1 && attribute !in fields) ==>
                userState == old(userState) && stateOrder == old(stateOrder) && possibleData == old(possibleData)
                && r == if |values| == 0 then Rejected("no attribute values provided") else UnknownAttribute(attribute)
      ensures |values| == 1 || (|values| > 1 && attribute in fields) ==>
                userState == old(userState)[attribute := if |values| == 1 then values else fields[attribute].prune(values)]
                && stateOrder == (if attribute in old(userState) then old(stateOrder) else old(stateOrder) + [attribute])
                && r == Informed(if Sufficient() then Some(|possibleData|) else None)
                && (Sufficient() ==> possibleData == Expand(database, stateOrder, userState).records)
                && (!Sufficient() ==> possibleData == old(possibleData))
    {
      interactionSequence := interactionSequence + [AnswerTurn(attribute, values)];
      if |values| == 0 {
        return Rejected("no attribute values provided");
      }
      var stored := values;
      if |values| > 1 {
        if attribute !in fields {
          return UnknownAttribute(attribute);
        }
        stored := fields[attribute].prune(values);
      }
      if attribute !in userState {
        stateOrder := stateOrder + [attribute];
      }
      userState := userState[attribute := stored];
      var count := Update();
      r := Informed(count);
    }

    /** `feedback(attribute, positive)`: logs the turn, then scales that field's
        score by 1.1 or 0.9 (a KeyError, reported as `false`, when the attribute
        is not configured). No other field changes. */
    method Feedback(attribute: string, positive: bool) returns (known: bool)
      requires Valid()
      modifies this
      ensures Valid()
      ensures interactionSequence == old(interactionSequence) + [FeedbackTurn(attribute, positive)]
      ensures stateOrder == old(stateOrder) && userState == old(userState) && possibleData == old(possibleData)
      ensures known <==> attribute in old(fields)
      ensures fields.Keys == old(fields).Keys
      ensures forall n :: n in fields && n != attribute ==> fields[n] == old(fields)[n]
      ensures known ==> fields[attribute] == old(fields)[attribute].(score := old(fields)[attribute].score * (if positive then 1.1 else 0.9))
    {
      interactionSequence := interactionSequence + [FeedbackTurn(attribute, positive)];
      if attribute !in fields {
        return false;
      }
      var field := fields[attribute];
      fields := fields[attribute := field.(score := field.score * (if positive then 1.1 else 0.9))];
      assert forall n :: n in fields <==> n in old(fields);
      known := true;
    }

    /** `update()`: nothing happens and None is returned until every minimal
        field has an entry; then the records are rebuilt from scratch by the
        query expansion and their number is returned. */
    method Update() returns (count: Option<nat>)
      requires Valid()
      modifies this
      ensures Valid()
      ensures fields == old(fields) && stateOrder == old(stateOrder) && userState == old(userState)
      ensures interactionSequence == old(interactionSequence)
      ensures !Sufficient() ==> count == None && possibleData == old(possibleData)
      ensures Sufficient() ==> possibleData == Expand(database, stateOrder, userState).records
                               && count == Some(|possibleData|)
    {
      if !Sufficient() {
        return None;
      }
      possibleData := [];
      var idx := LastIndices(stateOrder, userState);
      ghost var steps: seq<seq<int>> := [];
      ghost var target := Expand(database, stateOrder, userState);
      while AllNonNegative(idx)
        invariant fields == old(fields) && stateOrder == old(stateOrder) && userState == old(userState)
        invariant interactionSequence == old(interactionSequence)
        invariant AllNonNegative(idx) ==>
                    InRange(stateOrder, userState, idx)
                    && Collect(database, stateOrder, userState, idx, Walk(steps, possibleData)) == target
        invariant !AllNonNegative(idx) ==> Walk(steps, possibleData) == target
        decreases Sum(idx)
      {
        var query := BuildQuery(stateOrder, userState, idx);
        possibleData := possibleData + database(query);
        steps := steps + [idx];
        if |possibleData| > MaxData {
          break;
        }
        var updated, next := Advance(idx);
        if !updated {
          break;
        }
        idx := next;
      }
      count := Some(|possibleData|);
    }
  }
}
