/** The survey's navigation: a cursor over the shuffled (program, statement)
    pairs, the answers given so far, and the Back and Next buttons. */
module Navigation {
  import opened Tiers

  /** A (program, statement) pair as produced by `get_flattened_questions`. */
  type Question = (string, string)

  /** The nested dictionary `user_scores`: program, then statement, then the
      radio-button value (0 while nothing is selected, else 1 to 5). */
  type Scores = map<string, map<string, int>>

  predicate HasValue(scores: Scores, q: Question)
  {
    q.0 in scores && q.1 in scores[q.0]
  }

  function ValueOf(scores: Scores, q: Question): int
    requires HasValue(scores, q)
  {
    scores[q.0][q.1]
  }

  /** The statement carries one of the five Likert answers. */
  predicate Answered(scores: Scores, q: Question)
  {
    HasValue(scores, q) && 1 <= ValueOf(scores, q) <= 5
  }

  /** `user_scores.setdefault(program, {})[question] = v`: the value of `q`
      becomes `v`, and every other statement keeps whatever it had. */
  function Record(scores: Scores, q: Question, v: int): (r: Scores)
    ensures HasValue(r, q) && ValueOf(r, q) == v
    ensures forall q' :: q' != q ==> (HasValue(r, q') <==> HasValue(scores, q'))
    ensures forall q' :: q' != q && HasValue(scores, q') ==> ValueOf(r, q') == ValueOf(scores, q')
  {
    var inner := if q.0 in scores then scores[q.0] else map[];
    scores[q.0 := inner[q.1 := v]]
  }

  /** Every stored value is 0 or a Likert answer. */
  ghost predicate ValuesInRange(scores: Scores)
  {
    forall p, s :: p in scores && s in scores[p] ==> 0 <= scores[p][s] <= 5
  }

  /** Recording a value from 0 to 5 keeps every stored value in range. */
  lemma RecordInRange(scores: Scores, q: Question, v: int)
    requires ValuesInRange(scores) && 0 <= v <= 5
    ensures ValuesInRange(Record(scores, q, v))
  {
    var r := Record(scores, q, v);
    forall p, s | p in r && s in r[p]
      ensures 0 <= r[p][s] <= 5
    {
      if (p, s) != q {
        assert HasValue(r, (p, s));
        assert HasValue(scores, (p, s));
        assert ValueOf(r, (p, s)) == ValueOf(scores, (p, s));
      }
    }
  }

  /** The survey window: the pairs to ask in their shuffled order, the
      position of the one on screen, and the answers. */
  class Survey {
    const questions: seq<Question>
    var index: nat
    var userScores: Scores

    /** The statement on screen has an entry; every statement before it
        has been answered; stored values are 0 to 5. */
    ghost predicate Valid()
      reads this
    {
      |questions| > 0 && Distinct(questions)
      && index <= |questions|
      && (index < |questions| ==> HasValue(userScores, questions[index]))
      && (forall j :: 0 <= j < index ==> Answered(userScores, questions[j]))
      && ValuesInRange(userScores)
    }

    /** The survey has gone past its last statement. */
    predicate Completed()
      reads this
    {
      index == |questions|
    }

    /** `start_survey` followed by the first `show_question`: the first
        statement is shown with nothing selected. */
    constructor Start(questions: seq<Question>)
      requires |questions| > 0 && Distinct(questions)
      ensures Valid()
      ensures this.questions == questions && index == 0
      ensures userScores == Record(map[], questions[0], 0)
    {
      this.questions := questions;
      index := 0;
      userScores := Record(map[], questions[0], 0);
      new;
      RecordInRange(map[], questions[0], 0);
    }

    /** A radio button writes its score into the variable of the statement
        on screen. */
    method Select(score: int)
      requires Valid() && index < |questions| && 1 <= score <= 5
      modifies this
      ensures Valid()
      ensures index == old(index)
      ensures userScores == Record(old(userScores), questions[index], score)
      ensures Answered(userScores, questions[index])
    {
      RecordInRange(userScores, questions[index], score);
      userScores := Record(userScores, questions[index], score);
    }

    /** `prev_question`: steps back one statement unless at the first;
        showing it again binds a fresh variable holding 0. */
    method Back()
      requires Valid() && index < |questions|
      modifies this
      ensures Valid()
      ensures old(index) == 0 ==> index == 0 && userScores == old(userScores)
      ensures old(index) > 0 ==> index == old(index) - 1
                                 && userScores == Record(old(userScores), questions[index], 0)
    {
      if index > 0 {
        index := index - 1;
        ShowQuestion();
      }
    }

    /** `next_question`: stays put while the statement on screen is
        unanswered; otherwise moves on, and completes exactly when it moves
        past the last statement, by which time every statement is answered. */
    method Next() returns (done: bool)
      requires Valid() && index < |questions|
      modifies this
      ensures Valid()
      ensures ValueOf(old(userScores), questions[old(index)]) == 0 ==>
                index == old(index) && userScores == old(userScores) && !done
      ensures ValueOf(old(userScores), questions[old(index)]) != 0 ==>
                index == old(index) + 1 && (done <==> Completed())
      ensures ValueOf(old(userScores), questions[old(index)]) != 0 && !done ==>
                userScores == Record(old(userScores), questions[index], 0)
      ensures done ==> userScores == old(userScores)
      ensures done ==> forall j :: 0 <= j < |questions| ==> Answered(userScores, questions[j])
    {
      var question := questions[index];
      if ValueOf(userScores, question) == 0 {
        return false;
      }
      index := index + 1;
      if index >= |questions| {
        return true;
      }
      ShowQuestion();
      return false;
    }

    /** `show_question`: the statement at `index` gets a fresh variable
        holding 0, which only unanswers that statement. */
    method ShowQuestion()
      requires |questions| > 0 && Distinct(questions) && index < |questions|
      requires forall j :: 0 <= j < index ==> Answered(userScores, questions[j])
      requires ValuesInRange(userScores)
      modifies this
      ensures Valid()
      ensures index == old(index)
      ensures userScores == Record(old(userScores), questions[index], 0)
    {
      RecordInRange(userScores, questions[index], 0);
      userScores := Record(userScores, questions[index], 0);
      forall j | 0 <= j < index
        ensures Answered(userScores, questions[j])
      {
        assert questions[j] != questions[index];
      }
    }
  }
}
