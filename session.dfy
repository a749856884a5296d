/** The state of the Quiz component and its three event handlers: the mount
    effect that shuffles the bank, `handleAnswer` and `retake`. Each method
    applies the updates one click (or the mount) makes to the component's
    state. */
module QuizSession {
  import opened QuizData
  import opened Shuffle
  import opened Scores
  import opened TieBreak

  /** What the component renders. */
  datatype Screen =
    | Blank                            // the bank is not shuffled yet
    | ResultScreen(result: House)      // the resolved house
    | QuestionScreen(question: Question, index: nat)

  class Session {
    /** The module-level `questions` constant the effect maps over. */
    const bank: seq<Question>
    var current: nat
    var scores: Tally
    var selected: seq<House>
    var showResult: bool
    var house: Option<House>
    var shuffled: seq<Question>

    /** The invariant every handler keeps: the scores tally the history, a
        result is shown exactly when a house is set, the shuffled bank is
        empty or a per-question reordering of the bank, and the index and the
        history length follow the answered questions. */
    ghost predicate Valid()
      reads this
    {
      Tallies(scores, selected) &&
      (showResult <==> house.Some?) &&
      (shuffled == [] || SameQuestions(shuffled, bank)) &&
      if showResult then
        shuffled != [] && current + 1 == |shuffled| && |selected| == |shuffled|
      else
        current == |selected| &&
        (shuffled == [] ==> current == 0) &&
        (shuffled != [] ==> current < |shuffled|)
    }

    /** The state of a freshly mounted component, before its effect runs. */
    constructor ()
      ensures Valid() && bank == Questions
      ensures current == 0 && scores == Zero && selected == []
      ensures !showResult && house == None && shuffled == []
    {
      bank := Questions;
      current := 0;
      scores := Zero;
      selected := [];
      showResult := false;
      house := None;
      shuffled := [];
      ZeroTalliesEmpty();
    }

    /** The mount effect: store the bank with every question's answers
        shuffled by its own draws. */
    method Shuffle(draws: seq<seq<nat>>)
      requires Valid() && BankDraws(bank, draws)
      modifies this`shuffled
      ensures Valid()
      ensures shuffled == ShuffledBank(bank, draws)
    {
      shuffled := ShuffleQuestions(bank, draws);
    }

    /** `handleAnswer(ans)`. The stored record and history take the click
        into account, but the resolution on the last question reads the
        snapshot the handler's closure saw: the scores and history as they
        stood before this click. `pick` is the random index of the fallback
        tier. */
    method HandleAnswer(ans: Answer, pick: nat)
      requires Valid() && shuffled != [] && !showResult
      requires pick < |TopHouses(scores)|
      modifies this
      ensures Valid()
      ensures shuffled == old(shuffled)
      ensures scores == Bump(old(scores), ans.house)
      ensures selected == old(selected) + [ans.house]
      ensures old(current) + 1 < |shuffled| ==>
        current == old(current) + 1 && !showResult && house == None
      ensures old(current) + 1 >= |shuffled| ==>
        current == old(current) && showResult &&
        house == Some(Resolve(old(scores), old(selected), pick))
    {
      var snapshotScores, snapshotSelected := scores, selected;
      BumpKeepsTally(scores, selected, ans.house);
      scores := Bump(scores, ans.house);
      selected := selected + [ans.house];
      if current + 1 < |shuffled| {
        current := current + 1;
      } else {
        var finalHouse := Resolve(snapshotScores, snapshotSelected, pick);
        house := Some(finalHouse);
        showResult := true;
      }
    }

    /** `retake`: back to the first question with a clean record; the
        shuffled bank is kept. */
    method Retake()
      requires Valid()
      modifies this
      ensures Valid()
      ensures current == 0 && scores == Zero && selected == []
      ensures !showResult && house == None
      ensures shuffled == old(shuffled)
    {
      current := 0;
      scores := Zero;
      selected := [];
      showResult := false;
      house := None;
      ZeroTalliesEmpty();
    }

    /** What the component renders: nothing before the shuffle, the result
        once resolved, and otherwise `shuffled[current]`, which is in bounds. */
    function View(): (v: Screen)
      reads this
      requires Valid()
      ensures v == Blank <==> shuffled == []
      ensures v.ResultScreen? <==> shuffled != [] && showResult
      ensures v.ResultScreen? ==> house == Some(v.result)
      ensures v.QuestionScreen? ==>
        v.index == current == |selected| && current < |shuffled| &&
        v.question == shuffled[current] &&
        v.question.prompt == bank[current].prompt &&
        multiset(v.question.answers) == multiset(bank[current].answers)
    {
      if |shuffled| == 0 then Blank
      else if showResult && house.Some? then ResultScreen(house.value)
      else QuestionScreen(shuffled[current], current)
    }

    /** The scores always add up to the number of answers given. */
    lemma ScoresSumToAnswers()
      requires Valid()
      ensures Sum(scores) == |selected|
    {
      TallySum(scores, selected);
    }
  }

  /** The last click of a session whose first four answers were Gryffindor,
      Hufflepuff, Ravenclaw and Slytherin, answering Gryffindor: the stored
      record ends with Gryffindor alone on top, yet the result is Slytherin,
      the fourth answer, because the resolution sees the four-way tie and the
      history as they stood before the click. */
  method LastClickAfterFourWayTie(s: Session, a: Answer)
    requires s.Valid() && |s.shuffled| == 5 && !s.showResult
    requires s.selected == [Gryffindor, Hufflepuff, Ravenclaw, Slytherin]
    requires a.house == Gryffindor
    modifies s
    ensures s.showResult && s.house == Some(Slytherin)
    ensures s.scores == Tally(2, 1, 1, 1)
    ensures TopHouses(s.scores) == [Gryffindor]
  {
    StaleSnapshotExample();
    assert s.scores == Tally(1, 1, 1, 1) by {
      assert Score(s.scores, Gryffindor) == Count(s.selected, Gryffindor);
      assert Score(s.scores, Hufflepuff) == Count(s.selected, Hufflepuff);
      assert Score(s.scores, Ravenclaw) == Count(s.selected, Ravenclaw);
      assert Score(s.scores, Slytherin) == Count(s.selected, Slytherin);
    }
    s.HandleAnswer(a, 0);
  }
}
