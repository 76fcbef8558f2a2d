/**
 * Questions as the quiz holds them, the formatting applied to each generated
 * question, and the invariant of the one-question-at-a-time flow driven by
 * `QuestionDisplay` in src/App.tsx: which questions carry an answer, and how
 * the correct and wrong tallies relate to them.
 */
module QuestionFlow {
  import opened Wrappers
  import opened TextFormat

  /** One answer choice: its label (the source's `label`, a Dafny keyword here) and its text. */
  datatype AnswerOption = AnswerOption(tag: string, option: string)

  /** A question as the generation service returns it. */
  datatype RawQuestion = RawQuestion(
    question: string,
    options: seq<AnswerOption>,
    correctAnswers: seq<string>,
    explanation: string)

  /** A question as the quiz shows it, with the answer the user picked, if any. */
  datatype Question = Question(
    question: string,
    options: seq<AnswerOption>,
    correctAnswers: seq<string>,
    explanation: string,
    selectedAnswer: Option<string>)

  /** The formatting `map` applied to each question of a successful reply. */
  function FormatQuestion(raw: RawQuestion): (q: Question)
    ensures q.options == raw.options && q.correctAnswers == raw.correctAnswers
    ensures q.selectedAnswer == None
    ensures !HasDoubleStar(q.question) && !HasDoubleStar(q.explanation)
  {
    Question(FormatPrompt(raw.question), raw.options, raw.correctAnswers,
             FormatExplanation(raw.explanation), None)
  }

  /** Every question of a reply, formatted, in the same order. */
  function FormatQuestions(raws: seq<RawQuestion>): (qs: seq<Question>)
    ensures |qs| == |raws|
    ensures forall i :: 0 <= i < |qs| ==> qs[i] == FormatQuestion(raws[i])
    ensures forall i :: 0 <= i < |qs| ==> qs[i].selectedAnswer == None
  {
    seq(|raws|, i requires 0 <= i < |raws| => FormatQuestion(raws[i]))
  }

  /** The labels of a question's answer buttons. */
  function Labels(q: Question): (labels: seq<string>)
    ensures |labels| == |q.options|
    ensures forall i :: 0 <= i < |labels| ==> labels[i] == q.options[i].tag
  {
    seq(|q.options|, i requires 0 <= i < |q.options| => q.options[i].tag)
  }

  predicate IsAnswered(q: Question) {
    q.selectedAnswer.Some?
  }

  /** Answered with a label among the correct ones (`correctAnswers.includes(label)`). */
  predicate AnsweredCorrectly(q: Question) {
    q.selectedAnswer.Some? && q.selectedAnswer.value in q.correctAnswers
  }

  predicate AnsweredWrongly(q: Question) {
    q.selectedAnswer.Some? && q.selectedAnswer.value !in q.correctAnswers
  }

  /** Number of questions in `qs` that satisfy `p`. */
  function Count(qs: seq<Question>, p: Question -> bool): nat {
    if qs == [] then 0 else (if p(qs[0]) then 1 else 0) + Count(qs[1..], p)
  }

  /**
   * `handleAnswerSelect`'s update of the question list: the current question
   * gets the selected label, the others stay as they were.
   */
  function RecordAnswer(qs: seq<Question>, i: nat, answer: string): (r: seq<Question>)
    requires i < |qs|
    ensures |r| == |qs|
    ensures r[i].selectedAnswer == Some(answer)
    ensures r[i].question == qs[i].question && r[i].options == qs[i].options
    ensures r[i].correctAnswers == qs[i].correctAnswers && r[i].explanation == qs[i].explanation
    ensures forall j :: 0 <= j < |qs| && j != i ==> r[j] == qs[j]
  {
    qs[i := qs[i].(selectedAnswer := Some(answer))]
  }

  /**
   * The invariant of the question flow while questions are shown: `index` is
   * the current question, exactly the questions before it (and it too, once
   * the explanation shows) carry an answer, the highlighted answer is the
   * current question's, and the tallies count the answered questions.
   */
  ghost predicate FlowInvariant(
    qs: seq<Question>, index: nat, showExplanation: bool, selected: Option<string>,
    correct: nat, wrong: nat)
  {
    && index < |qs|
    && (forall i :: 0 <= i < |qs| ==>
          (IsAnswered(qs[i]) <==> i < index || (showExplanation && i == index)))
    && (showExplanation ==> selected == qs[index].selectedAnswer)
    && (!showExplanation ==> selected == None)
    && correct == Count(qs, AnsweredCorrectly)
    && wrong == Count(qs, AnsweredWrongly)
  }

  // ---------------------------------------------------------------------------
  // Counting

  /** Every answered question is either correct or wrong, never both. */
  lemma {:induction false} CountPartition(qs: seq<Question>)
    ensures Count(qs, AnsweredCorrectly) + Count(qs, AnsweredWrongly) == Count(qs, IsAnswered)
  {
    if qs != [] {
      CountPartition(qs[1..]);
    }
  }

  /** Replacing one question changes a count by that question's contribution only. */
  lemma {:induction false} CountUpdate(qs: seq<Question>, i: nat, q: Question, p: Question -> bool)
    requires i < |qs|
    ensures Count(qs[i := q], p) + (if p(qs[i]) then 1 else 0)
         == Count(qs, p) + (if p(q) then 1 else 0)
  {
    if i == 0 {
      assert qs[i := q][1..] == qs[1..];
    } else {
      assert qs[i := q][1..] == qs[1..][i - 1 := q];
      CountUpdate(qs[1..], i - 1, q, p);
    }
  }

  /** When exactly the first `n` questions are answered, `n` are answered. */
  lemma {:induction false} CountAnsweredPrefix(qs: seq<Question>, n: nat)
    requires n <= |qs|
    requires forall i :: 0 <= i < |qs| ==> (IsAnswered(qs[i]) <==> i < n)
    ensures Count(qs, IsAnswered) == n
  {
    if qs != [] {
      assert IsAnswered(qs[0]) <==> 0 < n;
      CountAnsweredPrefix(qs[1..], if n == 0 then 0 else n - 1);
    }
  }

  /** No question of a list without answers counts as correct or wrong. */
  lemma {:induction false} CountUnanswered(qs: seq<Question>)
    requires forall i :: 0 <= i < |qs| ==> qs[i].selectedAnswer == None
    ensures Count(qs, AnsweredCorrectly) == 0 && Count(qs, AnsweredWrongly) == 0
  {
    if qs != [] {
      CountUnanswered(qs[1..]);
    }
  }

  // ---------------------------------------------------------------------------
  // The flow

  /**
   * While questions are shown, `correctCount + wrongCount` is the number of
   * questions answered, which is `currentQuestionIndex` plus one while the
   * explanation shows, and never more than the number of questions.
   */
  lemma FlowTallies(
    qs: seq<Question>, index: nat, showExplanation: bool, selected: Option<string>,
    correct: nat, wrong: nat)
    requires FlowInvariant(qs, index, showExplanation, selected, correct, wrong)
    ensures correct + wrong == Count(qs, IsAnswered)
    ensures correct + wrong == index + (if showExplanation then 1 else 0) <= |qs|
  {
    CountPartition(qs);
    CountAnsweredPrefix(qs, index + (if showExplanation then 1 else 0));
  }

  /** A freshly generated list starts the flow at its first question with zero tallies. */
  lemma FlowStarts(qs: seq<Question>)
    requires |qs| > 0
    requires forall i :: 0 <= i < |qs| ==> qs[i].selectedAnswer == None
    ensures FlowInvariant(qs, 0, false, None, 0, 0)
  {
    CountUnanswered(qs);
  }

  /**
   * Answering the current question (only possible while the explanation is
   * hidden) records the answer on it and adds one to exactly one tally: the
   * correct one when the answer is among the question's correct answers.
   */
  lemma FlowAnswer(
    qs: seq<Question>, index: nat, selected: Option<string>, correct: nat, wrong: nat,
    answer: string)
    requires FlowInvariant(qs, index, false, selected, correct, wrong)
    ensures var ok := answer in qs[index].correctAnswers;
      FlowInvariant(RecordAnswer(qs, index, answer), index, true, Some(answer),
                    if ok then correct + 1 else correct,
                    if ok then wrong else wrong + 1)
  {
    var q := qs[index].(selectedAnswer := Some(answer));
    assert !IsAnswered(qs[index]);
    CountUpdate(qs, index, q, AnsweredCorrectly);
    CountUpdate(qs, index, q, AnsweredWrongly);
  }

  /** Moving on from a question that is not the last shows the next one, unanswered. */
  lemma FlowNext(
    qs: seq<Question>, index: nat, selected: Option<string>, correct: nat, wrong: nat)
    requires FlowInvariant(qs, index, true, selected, correct, wrong)
    requires index < |qs| - 1
    ensures FlowInvariant(qs, index + 1, false, None, correct, wrong)
  {
  }

  /** Finishing from the last question happens with every question answered. */
  lemma FlowFinish(
    qs: seq<Question>, index: nat, selected: Option<string>, correct: nat, wrong: nat)
    requires FlowInvariant(qs, index, true, selected, correct, wrong)
    requires index == |qs| - 1
    ensures correct + wrong == |qs| > 0
    ensures forall i :: 0 <= i < |qs| ==> IsAnswered(qs[i])
  {
    FlowTallies(qs, index, true, selected, correct, wrong);
  }
}
