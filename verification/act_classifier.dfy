/** The keyword-based dialogue-act classifier of nlu/act_classifier.py
    (`simple_classify`). The Weka-backed `classify` is not part of this model. */
module ActClassifier {
  import opened Text

  /** The tags of the ARFF header: statement, question, yes, no, other. */
  datatype DialogAct = Statement | Question | Yes | No | Other

  /** Four-way priority test: "yes" anywhere (any case), then "no" anywhere
      (any case, also inside words), then a question mark, else a statement. */
  function SimpleClassify(utterance: string): (act: DialogAct)
    ensures act != Other
  {
    var lower := Lower(utterance);
    if Occurs("yes", lower) then Yes
    else if Occurs("no", lower) then No
    else if '?' in utterance then Question
    else Statement
  }

  /** Once an utterance mentions "yes", nothing said before or after it changes the tag. */
  lemma YesDominates(before: string, utterance: string, after: string)
    requires SimpleClassify(utterance) == Yes
    ensures SimpleClassify(before + utterance + after) == Yes
  {
    LowerAppend(before + utterance, after);
    LowerAppend(before, utterance);
    OccursInContext("yes", Lower(before), Lower(utterance), Lower(after));
  }

  /** Without "yes", any "no" decides the tag, whatever else (including '?') the utterance holds. */
  lemma NoBeatsQuestionMark(utterance: string)
    requires !Occurs("yes", Lower(utterance)) && Occurs("no", Lower(utterance))
    ensures SimpleClassify(utterance) == No
    ensures SimpleClassify(utterance + "?") == No
  {
    LowerAppend(utterance, "?");
    OccursInContext("no", "", Lower(utterance), Lower("?"));
    var lower := Lower(utterance);
    var asked := Lower(utterance + "?");
    assert Lower("?") == "?";
    assert "" + lower + "?" == asked;
    assert asked[|lower|] == '?';
    forall i | 0 <= i <= |asked| ensures !OccursAt("yes", asked, i) {
      if i + 3 <= |lower| {
        assert asked[i..i + 3] == lower[i..i + 3];
        assert !OccursAt("yes", lower, i);
      } else if i + 3 <= |asked| {
        assert asked[i..i + 3][2] == asked[|lower|];
      }
    }
  }

  /** Without "yes" or "no", a question mark anywhere makes a question and its absence a statement. */
  lemma NeitherYesNorNo(utterance: string)
    requires !Occurs("yes", Lower(utterance)) && !Occurs("no", Lower(utterance))
    ensures SimpleClassify(utterance) == Question <==> '?' in utterance
    ensures SimpleClassify(utterance) == Statement <==> '?' !in utterance
  {
  }

  /** "no" is matched as a substring: a question containing "know" is tagged as a negative answer. */
  lemma NoMatchesInsideWords()
    ensures SimpleClassify("Do you know?") == No
  {
    var lower := Lower("Do you know?");
    assert lower == "do you know?";
    assert OccursAt("no", lower, 8);
    forall i | 0 <= i <= |lower| ensures !OccursAt("yes", lower, i) {
      if i < |lower| - 2 {
        // the only 'y' is followed by 'o'
        assert lower[i] != 'y' || lower[i + 1] != 'e' by {
          assert i in {0, 1, 2, 3, 4, 5, 6, 7, 8, 9};
        }
        assert lower[i..i + 3][0] == lower[i] && lower[i..i + 3][1] == lower[i + 1];
      }
    }
  }

  lemma LowerIdempotent(s: string)
    ensures Lower(Lower(s)) == Lower(s)
  {
  }

  /** The tag ignores letter case: the "?" test is unaffected by lowering and the substring tests already lower. */
  lemma ClassifyIgnoresCase(utterance: string)
    ensures SimpleClassify(Lower(utterance)) == SimpleClassify(utterance)
  {
    LowerIdempotent(utterance);
    assert Lower(Lower(utterance)) == Lower(utterance);
    if '?' in utterance {
      var i :| 0 <= i < |utterance| && utterance[i] == '?';
      assert Lower(utterance)[i] == '?';
    }
    if '?' in Lower(utterance) {
      var i :| 0 <= i < |Lower(utterance)| && Lower(utterance)[i] == '?';
      assert utterance[i] == '?';
    }
  }
}
