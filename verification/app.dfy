/**
 * The quiz session of src/App.tsx: the state of `Component` together with the
 * state of the `QuestionDisplay` child it mounts while questions are shown,
 * the event handlers as atomic transitions, and the conditions under which
 * each screen is rendered. The network replies and the clock are parameters.
 */
module App {
  import opened Wrappers
  import opened QuestionFlow

  /** The subjects offered on the first screen. */
  const Subjects: seq<string> := ["Math", "Physics", "Chemistry"]

  /** Length of the countdown shown during a quiz: ten minutes, in milliseconds. */
  const CountdownMs: int := 10 * 60 * 1000

  /** JavaScript truthiness of a `string | null` field: present and not empty. */
  predicate IsSet(o: Option<string>) {
    o.Some? && o.value != ""
  }

  /** JavaScript truthiness of the `number | null` timer start. */
  predicate IsStarted(t: Option<int>) {
    t.Some? && t.value != 0
  }

  /** The outcome of `GET /subjects/{subject}/chapters`. */
  datatype ChaptersReply = ChaptersFetched(chapters: seq<string>) | ChaptersFailed

  /**
   * The outcome of `POST /questions/generate`: the reply's `questions` field
   * (absent as `None`), or a failed request.
   */
  datatype QuestionsReply = QuestionsFetched(questions: Option<seq<RawQuestion>>) | QuestionsFailed

  /**
   * The questions a reply delivers: none for a failed request or an absent
   * `questions` field (`!questionsArray`), else the list.
   */
  function Fetched(reply: QuestionsReply): (raws: seq<RawQuestion>)
    ensures raws != [] <==> reply.QuestionsFetched? && reply.questions.Some? && reply.questions.value != []
  {
    match reply
    case QuestionsFetched(Some(list)) => list
    case _ => []
  }

  const DefaultChapterColor: string := "bg-gray-100 text-gray-800 hover:bg-gray-200"

  /** `getChapterColor`: the style classes of the chapter buttons of a subject. */
  function ChapterColor(subject: string): (classes: string)
    ensures classes == DefaultChapterColor <==> subject !in Subjects
  {
    match subject
    case "Math" => "bg-green-100 text-green-800 hover:bg-green-200"
    case "Physics" => "bg-pink-100 text-pink-800 hover:bg-pink-200"
    case "Chemistry" => "bg-[#FAD5A5] text-yellow-800 hover:bg-[#F8C471]"
    case _ => DefaultChapterColor
  }

  /** Each subject's chapters get a colour of their own. */
  lemma ChapterColorsDistinct(s: string, t: string)
    requires s in Subjects && t in Subjects && s != t
    ensures ChapterColor(s) != ChapterColor(t)
  {
  }

  class Session {
    // `Component`'s state
    var subject: Option<string>
    var chapter: Option<string>
    var chapters: seq<string>
    var questions: seq<Question>
    var showTimer: bool
    var timerKey: nat
    var correctCount: nat
    var wrongCount: nat
    var timerStart: Option<int>
    // `QuestionDisplay`'s state, meaningful while it is mounted (questions shown)
    var currentIndex: nat
    var showExplanation: bool
    var selectedAnswer: Option<string>

    /**
     * The invariant of every reachable state: questions are only shown for a
     * chosen subject and chapter, the question flow keeps its invariant while
     * they are shown, the timer only shows with them, and a started timer
     * means a quiz is running or has been answered.
     */
    ghost predicate Valid()
      reads this
    {
      && (|questions| > 0 ==> IsSet(subject) && IsSet(chapter))
      && (|questions| > 0 ==>
            FlowInvariant(questions, currentIndex, showExplanation, selectedAnswer,
                          correctCount, wrongCount))
      && (showTimer ==> |questions| > 0)
      && (IsStarted(timerStart) ==> |questions| > 0 || correctCount + wrongCount > 0)
    }

    // -------------------------------------------------------------------------
    // What is rendered

    /** The back button in the header. */
    predicate ShowsBackButton() reads this {
      IsSet(subject) || IsSet(chapter) || |questions| > 0
    }

    /** The countdown above the quiz. */
    predicate ShowsTimer() reads this {
      showTimer && IsStarted(timerStart) && |questions| > 0
    }

    /** The list of subjects. */
    predicate ShowsSubjects() reads this {
      !IsSet(subject)
    }

    /** The list of chapters of the chosen subject. */
    predicate ShowsChapters() reads this {
      IsSet(subject) && !IsSet(chapter) && |chapters| > 0
    }

    /** The "Generate Questions" button. */
    predicate ShowsGenerate() reads this {
      IsSet(subject) && IsSet(chapter) && |questions| == 0 && correctCount + wrongCount == 0
    }

    /** The question flow (`QuestionDisplay` is mounted). */
    predicate ShowsQuestions() reads this {
      |questions| > 0
    }

    /** The final report. */
    predicate ShowsReport() reads this {
      correctCount + wrongCount > 0 && |questions| == 0
    }

    /** The deadline the countdown runs to, when it shows. */
    function Deadline(): (deadline: int)
      reads this
      requires ShowsTimer()
      ensures deadline - timerStart.value == 600000
    {
      timerStart.value + CountdownMs
    }

    // -------------------------------------------------------------------------
    // Events

    /** The state before any interaction. */
    constructor ()
      ensures Valid()
      ensures subject == None && chapter == None && chapters == [] && questions == []
      ensures !showTimer && timerKey == 0 && correctCount == 0 && wrongCount == 0
      ensures timerStart == None
      ensures currentIndex == 0 && !showExplanation && selectedAnswer == None
    {
      subject, chapter, chapters, questions := None, None, [], [];
      showTimer, timerKey, correctCount, wrongCount, timerStart := false, 0, 0, 0, None;
      currentIndex, showExplanation, selectedAnswer := 0, false, None;
    }

    /** `handleSubjectSelect`: choosing a subject from the list starts afresh. */
    method SelectSubject(s: string)
      requires Valid() && ShowsSubjects() && s in Subjects
      modifies this
      ensures Valid()
      ensures subject == Some(s) && chapter == None && chapters == [] && questions == []
      ensures !showTimer && correctCount == 0 && wrongCount == 0 && timerStart == None
      ensures timerKey == old(timerKey)
      ensures currentIndex == old(currentIndex) && showExplanation == old(showExplanation)
      ensures selectedAnswer == old(selectedAnswer)
    {
      subject := Some(s);
      chapter := None;
      chapters := [];
      questions := [];
      showTimer := false;
      correctCount := 0;
      wrongCount := 0;
      timerStart := None;
    }

    /**
     * The chapter fetch the subject change triggers, once its reply is in:
     * the list is taken on success; on failure the user is alerted and the
     * (empty) list stays.
     */
    method ChaptersLoaded(reply: ChaptersReply)
      requires Valid()
      modifies this
      ensures Valid()
      ensures chapters == (if IsSet(subject) && reply.ChaptersFetched? then reply.chapters
                           else old(chapters))
      ensures subject == old(subject) && chapter == old(chapter) && questions == old(questions)
      ensures showTimer == old(showTimer) && timerKey == old(timerKey)
      ensures correctCount == old(correctCount) && wrongCount == old(wrongCount)
      ensures timerStart == old(timerStart)
      ensures currentIndex == old(currentIndex) && showExplanation == old(showExplanation)
      ensures selectedAnswer == old(selectedAnswer)
    {
      if IsSet(subject) {
        match reply
        case ChaptersFetched(list) =>
          chapters := list;
        case ChaptersFailed =>
      }
    }

    /** `handleChapterSelect`: choosing one of the listed chapters. */
    method SelectChapter(c: string)
      requires Valid() && ShowsChapters() && c in chapters
      modifies this
      ensures Valid()
      ensures chapter == Some(c) && subject == old(subject) && chapters == old(chapters)
      ensures questions == [] && !showTimer && correctCount == 0 && wrongCount == 0
      ensures timerStart == None && timerKey == old(timerKey)
      ensures currentIndex == old(currentIndex) && showExplanation == old(showExplanation)
      ensures selectedAnswer == old(selectedAnswer)
    {
      chapter := Some(c);
      questions := [];
      showTimer := false;
      correctCount := 0;
      wrongCount := 0;
      timerStart := None;
    }

    /**
     * The success path of `handleGenerateQuestions`: the formatted questions
     * are shown from the first one (`QuestionDisplay` mounts with its initial
     * state), and the timer starts unless it already runs.
     */
    method StartQuiz(qs: seq<Question>, now: int)
      requires Valid() && IsSet(subject) && IsSet(chapter)
      requires correctCount == 0 && wrongCount == 0
      requires |qs| > 0 && forall i :: 0 <= i < |qs| ==> qs[i].selectedAnswer == None
      modifies this
      ensures Valid()
      ensures questions == qs && showTimer
      ensures timerStart == (if IsStarted(old(timerStart)) then old(timerStart) else Some(now))
      ensures timerKey == (if IsStarted(old(timerStart)) then old(timerKey) else old(timerKey) + 1)
      ensures currentIndex == 0 && !showExplanation && selectedAnswer == None
      ensures subject == old(subject) && chapter == old(chapter) && chapters == old(chapters)
      ensures correctCount == 0 && wrongCount == 0
    {
      FlowStarts(qs);
      questions := qs;
      showTimer := true;
      if !IsStarted(timerStart) {
        timerStart := Some(now);
        timerKey := timerKey + 1;
      }
      currentIndex, showExplanation, selectedAnswer := 0, false, None;
    }

    /**
     * `handleGenerateQuestions` with the service's reply and the time of the
     * reply (`Date.now()`). Without both a subject and a chapter it does
     * nothing. A failed request, an absent or an empty question list leave no
     * questions and hide the timer. Otherwise the formatted questions are
     * shown from the first one, and the timer starts unless it already runs;
     * it never does at this point, so it always starts at `now`.
     */
    method Generate(now: int, reply: QuestionsReply)
      requires Valid() && |questions| == 0 && correctCount + wrongCount == 0
      modifies this
      ensures Valid()
      ensures subject == old(subject) && chapter == old(chapter) && chapters == old(chapters)
      ensures correctCount == 0 && wrongCount == 0
      ensures !(IsSet(subject) && IsSet(chapter)) ==>
        && questions == old(questions) && showTimer == old(showTimer)
        && timerStart == old(timerStart) && timerKey == old(timerKey)
        && currentIndex == old(currentIndex) && showExplanation == old(showExplanation)
        && selectedAnswer == old(selectedAnswer)
      ensures IsSet(subject) && IsSet(chapter) && Fetched(reply) == [] ==>
        && questions == [] && !showTimer && timerStart == old(timerStart)
        && timerKey == old(timerKey)
        && currentIndex == old(currentIndex) && showExplanation == old(showExplanation)
        && selectedAnswer == old(selectedAnswer)
      ensures IsSet(subject) && IsSet(chapter) && Fetched(reply) != [] ==>
        && questions == FormatQuestions(Fetched(reply))
        && showTimer
        && timerStart == Some(now) && timerKey == old(timerKey) + 1
        && currentIndex == 0 && !showExplanation && selectedAnswer == None
      ensures IsSet(subject) && IsSet(chapter) && Fetched(reply) != [] && now != 0 ==>
        ShowsTimer() && Deadline() == now + CountdownMs
    {
      assert correctCount == 0 && wrongCount == 0 && !IsStarted(timerStart);
      if IsSet(subject) && IsSet(chapter) {
        questions := [];
        match reply
        case QuestionsFailed =>
          showTimer := false;
        case QuestionsFetched(raws) =>
          if raws == None || |raws.value| == 0 {
            showTimer := false;
          } else {
            StartQuiz(FormatQuestions(raws.value), now);
          }
      }
    }

    /**
     * `handleBack`: unwinds one level (the questions, else the chapter, else
     * the subject) and stops the timer; the tallies and the chapter list stay.
     */
    method Back()
      requires Valid() && ShowsBackButton()
      modifies this
      ensures Valid()
      ensures old(|questions|) > 0 ==>
        questions == [] && chapter == old(chapter) && subject == old(subject)
      ensures old(|questions|) == 0 && IsSet(old(chapter)) ==>
        questions == [] && chapter == None && subject == old(subject)
      ensures old(|questions|) == 0 && !IsSet(old(chapter)) ==>
        questions == [] && chapter == old(chapter) && subject == None
      ensures old(|questions|) > 0 && old(correctCount + wrongCount) > 0 ==>
        ShowsReport() && !ShowsGenerate() && !ShowsChapters() && !ShowsQuestions()
      ensures old(|questions|) > 0 && old(correctCount + wrongCount) == 0 ==>
        ShowsGenerate() && !ShowsReport()
      ensures !showTimer && timerStart == None
      ensures correctCount == old(correctCount) && wrongCount == old(wrongCount)
      ensures chapters == old(chapters) && timerKey == old(timerKey)
      ensures currentIndex == old(currentIndex) && showExplanation == old(showExplanation)
      ensures selectedAnswer == old(selectedAnswer)
    {
      if |questions| > 0 {
        questions := [];
      } else if IsSet(chapter) {
        chapter := None;
      } else if IsSet(subject) {
        subject := None;
      }
      showTimer := false;
      timerStart := None;
    }

    /**
     * `handleAnswerSelect`: clicking one of the current question's answer
     * buttons, which are enabled only while the explanation is hidden.
     */
    method Answer(answer: string)
      requires Valid() && ShowsQuestions() && !showExplanation
      requires answer in Labels(questions[currentIndex])
      modifies this
      ensures Valid()
      ensures questions == RecordAnswer(old(questions), old(currentIndex), answer)
      ensures showExplanation && selectedAnswer == Some(answer)
      ensures var ok := answer in old(questions)[old(currentIndex)].correctAnswers;
        && correctCount == (if ok then old(correctCount) + 1 else old(correctCount))
        && wrongCount == (if ok then old(wrongCount) else old(wrongCount) + 1)
      ensures currentIndex == old(currentIndex)
      ensures subject == old(subject) && chapter == old(chapter) && chapters == old(chapters)
      ensures showTimer == old(showTimer) && timerStart == old(timerStart)
      ensures timerKey == old(timerKey)
      ensures old(ShowsTimer()) ==> ShowsTimer() && Deadline() == old(Deadline())
    {
      FlowAnswer(questions, currentIndex, selectedAnswer, correctCount, wrongCount, answer);
      selectedAnswer := Some(answer);
      showExplanation := true;
      var ok := answer in questions[currentIndex].correctAnswers;
      questions := RecordAnswer(questions, currentIndex, answer);
      if ok {
        correctCount := correctCount + 1;
      } else {
        wrongCount := wrongCount + 1;
      }
    }

    /**
     * `handleNextQuestion`: the button shown with the explanation. It moves
     * to the next question, or after the last one clears the questions and
     * hides the timer, which brings up the final report.
     */
    method Next()
      requires Valid() && ShowsQuestions() && showExplanation
      modifies this
      ensures Valid()
      ensures currentIndex == old(currentIndex) + 1 && !showExplanation
      ensures old(currentIndex) < old(|questions|) - 1 ==>
        && questions == old(questions) && selectedAnswer == None
        && showTimer == old(showTimer)
      ensures old(currentIndex) == old(|questions|) - 1 ==>
        && questions == [] && !showTimer && selectedAnswer == old(selectedAnswer)
        && correctCount + wrongCount == old(|questions|)
        && ShowsReport() && !ShowsGenerate() && !ShowsQuestions()
      ensures correctCount == old(correctCount) && wrongCount == old(wrongCount)
      ensures subject == old(subject) && chapter == old(chapter) && chapters == old(chapters)
      ensures timerStart == old(timerStart) && timerKey == old(timerKey)
      ensures old(currentIndex) < old(|questions|) - 1 && old(ShowsTimer()) ==>
        ShowsTimer() && Deadline() == old(Deadline())
    {
      if currentIndex < |questions| - 1 {
        FlowNext(questions, currentIndex, selectedAnswer, correctCount, wrongCount);
        currentIndex := currentIndex + 1;
        showExplanation := false;
        selectedAnswer := None;
      } else {
        FlowFinish(questions, currentIndex, selectedAnswer, correctCount, wrongCount);
        showExplanation := false;
        currentIndex := currentIndex + 1;
        questions := [];
        showTimer := false;
      }
    }
  }

  /**
   * Under the invariant, the question flow is shown alone: not with the
   * subject list, the chapter list, the generate button or the final report;
   * and the generate button never shows with the final report.
   */
  lemma ScreensExclusive(s: Session)
    requires s.Valid()
    ensures s.ShowsQuestions() ==>
      !s.ShowsSubjects() && !s.ShowsChapters() && !s.ShowsGenerate() && !s.ShowsReport()
    ensures !(s.ShowsGenerate() && s.ShowsReport())
    ensures s.ShowsTimer() ==> s.ShowsQuestions()
  {
  }

  /**
   * Picking a subject and one of its chapters, then generating two questions,
   * shows the first question with the ten-minute countdown started at the
   * time of the reply.
   */
  method StartTwoQuestionQuiz(q1: RawQuestion, q2: RawQuestion) returns (s: Session)
    ensures s.Valid() && s.ShowsQuestions() && s.ShowsTimer()
    ensures s.questions == FormatQuestions([q1, q2])
    ensures s.currentIndex == 0 && !s.showExplanation
    ensures s.correctCount == 0 && s.wrongCount == 0
  {
    s := new Session();
    s.SelectSubject("Math");
    s.ChaptersLoaded(ChaptersFetched(["Algebra", "Geometry"]));
    assert "Algebra" in s.chapters;
    s.SelectChapter("Algebra");
    assert s.ShowsGenerate();
    s.Generate(1700000000000, QuestionsFetched(Some([q1, q2])));
    assert s.Deadline() == 1700000600000;
  }

  /**
   * Two questions, the first answered with one of its two correct labels and
   * the second wrongly, end on the final report with one correct and one
   * wrong answer.
   */
  method FinishTwoQuestionQuiz(s: Session)
    requires s.Valid() && s.ShowsQuestions() && |s.questions| == 2
    requires s.currentIndex == 0 && !s.showExplanation
    requires s.correctCount == 0 && s.wrongCount == 0
    requires forall i :: 0 <= i < 2 ==> Labels(s.questions[i]) == ["a", "b", "c"]
    requires s.questions[0].correctAnswers == ["a", "c"] && s.questions[1].correctAnswers == ["b"]
    modifies s
    ensures s.ShowsReport() && !s.ShowsTimer()
    ensures s.correctCount == 1 && s.wrongCount == 1
  {
    ghost var second := s.questions[1];
    s.Answer("c");
    assert s.correctCount == 1 && s.wrongCount == 0;
    assert s.questions[1] == second;
    s.Next();
    s.Answer("a");
    s.Next();
  }
}
