/**
 * The turn-management logic of main.py (lines 47-149), as functions of the
 * collaborators' outputs.  The speech recogniser, the operator at the
 * keyboard and the clock are not called: what they will say is given up
 * front, as queues a session consumes.  `MainLoop` runs the same logic
 * step by step, as the source does, and is proved equal to these functions.
 */
module Interview {
  import opened Wrappers
  import opened ResponseSafety
  import opened AgentLogic

  /** `5 * 60`: the session's time budget, in seconds since it started. */
  const TimeBudget: real := 5.0 * 60.0

  /** `max_follow_ups` */
  const MaxFollowUps: nat := 1

  /** `summarize_answer(question, answer)`, the summarising model call. */
  type Summarizer = (string, string) -> string

  /** One element of `results`. */
  datatype QuestionResult = QuestionResult(
    question: string, answer: string, score: int, comment: string, followUp: string, summary: string)

  /** What the collaborators will still say.  Each `transcribe_speech()`
      takes the next transcript and each retry prompt the next operator
      line; an exhausted queue reads as silence (""), as a listening
      timeout does. */
  datatype Feed = Feed(transcripts: seq<string>, retryAnswers: seq<string>) {

    function Heard(): string {
      if transcripts == [] then "" else transcripts[0]
    }

    function Listened(): Feed {
      if transcripts == [] then this else this.(transcripts := transcripts[1..])
    }

    function Typed(): string {
      if retryAnswers == [] then "" else retryAnswers[0]
    }

    function Prompted(): Feed {
      if retryAnswers == [] then this else this.(retryAnswers := retryAnswers[1..])
    }
  }

  // ---------------------------------------------------------------------------
  // One turn
  // ---------------------------------------------------------------------------

  /** Which clarification, if any, a non-empty answer draws (main.py:78-99). */
  datatype Clarification = Unsure | Brief | Clear

  function ClarificationFor(response: string): Clarification {
    if IsUncertain(response) then Unsure
    else if IsTooShort(response, DefaultMinWords) then Brief
    else Clear
  }

  /** How a turn opens: the question is skipped, or an answer goes on to be scored. */
  datatype Opening = Skipped(rest: Feed) | Answered(response: string, rest: Feed)

  /** main.py:60-99: the first transcript, one operator-approved retry on
      silence, and at most one clarification, whose transcript replaces the
      answer without being checked for emptiness. */
  function Open(f: Feed): Opening {
    var first := f.Heard();
    var f1 := f.Listened();
    if IsEmpty(first) then
      var f2 := f1.Prompted();
      if Lower(f1.Typed()) == "y" then
        var second := f2.Heard();
        var f3 := f2.Listened();
        if IsEmpty(second) then Skipped(f3) else Clarify(second, f3)
      else Skipped(f2)
    else Clarify(first, f1)
  }

  function Clarify(response: string, f: Feed): Opening {
    if ClarificationFor(response) == Clear then Answered(response, f)
    else Answered(f.Heard(), f.Listened())
  }

  /** How the follow-up loop ends: the final answer, what is left of the
      feed, and the answers `process_response` was called with, in order. */
  datatype LoopEnd = LoopEnd(fullAnswer: string, rest: Feed, evaluated: seq<string>)

  /** The `while True` loop of main.py:108-129, run from the state where the
      answer so far is `fullAnswer` and `followUpCount` follow-ups were taken. */
  function FollowUps(oracle: Oracle, question: string, fullAnswer: string, followUpCount: nat, f: Feed): LoopEnd
    requires followUpCount <= MaxFollowUps
    decreases MaxFollowUps - followUpCount
  {
    var v := ProcessResponse(oracle, question, fullAnswer);
    if v.isFollowUp && followUpCount + 1 <= MaxFollowUps then
      var next := FollowUps(oracle, question, fullAnswer + " " + f.Heard(), followUpCount + 1, f.Listened());
      next.(evaluated := [fullAnswer] + next.evaluated)
    else
      LoopEnd(fullAnswer, f, [fullAnswer])
  }

  /** The outcome of one question: its record, if any, what is left of the
      feed, and the answers that were evaluated. */
  datatype TurnEnd = TurnEnd(result: Option<QuestionResult>, rest: Feed, evaluated: seq<string>)

  /** main.py:60-146 for one question: the record holds the first
      evaluation's score and reply and the answer grown by the follow-ups. */
  function Turn(oracle: Oracle, summarize: Summarizer, question: string, f: Feed): TurnEnd {
    match Open(f)
    case Skipped(rest) => TurnEnd(None, rest, [])
    case Answered(response, rest) =>
      var first := ProcessResponse(oracle, question, response);
      var loop := FollowUps(oracle, question, response, 0, rest);
      var r := QuestionResult(question, loop.fullAnswer, first.score, first.reply, "",
                              summarize(question, loop.fullAnswer));
      TurnEnd(Some(r), loop.rest, loop.evaluated)
  }

  // ---------------------------------------------------------------------------
  // The session
  // ---------------------------------------------------------------------------

  /** A turn as the session sees it: from the question and the feed to the
      record, the rest of the feed and the evaluated answers. */
  type TurnFn = (string, Feed) -> TurnEnd

  /** `Turn` with the session's evaluator and summariser fixed. */
  function TurnStep(oracle: Oracle, summarize: Summarizer): TurnFn {
    (q, f) => Turn(oracle, summarize, q, f)
  }

  /** The results of asking `questions[i..]`, one `turn` each, where
      `elapsed[j]` is the clock's reading at the budget check before
      question `j`.  The session runs `Session(TurnStep(oracle, summarize), ...)`. */
  function Session(turn: TurnFn, questions: seq<string>, elapsed: seq<real>, i: nat, f: Feed): seq<QuestionResult>
    requires i <= |questions| <= |elapsed|
    decreases |questions| - i
  {
    if i == |questions| || elapsed[i] > TimeBudget then []
    else
      var t := turn(questions[i], f);
      (if t.result.Some? then [t.result.value] else []) + Session(turn, questions, elapsed, i + 1, t.rest)
  }

  /** A turn that records only the question it was asked. */
  ghost predicate RecordsOwnQuestion(turn: TurnFn) {
    forall q, f :: turn(q, f).result.Some? ==> turn(q, f).result.value.question == q
  }

  /** A turn whose records have an empty `follow_up` field and the summary of their own answer. */
  ghost predicate RecordsSummary(turn: TurnFn, summarize: Summarizer) {
    forall q, f :: turn(q, f).result.Some? ==>
      turn(q, f).result.value.followUp == "" &&
      turn(q, f).result.value.summary == summarize(turn(q, f).result.value.question, turn(q, f).result.value.answer)
  }

  /** The index of the first question from `i` on that the budget check
      stops, or `|questions|` when none is stopped. */
  function Cutoff(questions: seq<string>, elapsed: seq<real>, i: nat): (c: nat)
    requires i <= |questions| <= |elapsed|
    ensures i <= c <= |questions|
    ensures forall j :: i <= j < c ==> elapsed[j] <= TimeBudget
    ensures c < |questions| ==> elapsed[c] > TimeBudget
    decreases |questions| - i
  {
    if i == |questions| || elapsed[i] > TimeBudget then i else Cutoff(questions, elapsed, i + 1)
  }

  function Questions(results: seq<QuestionResult>): seq<string>
    decreases |results|
  {
    if results == [] then [] else [results[0].question] + Questions(results[1..])
  }

  /** `xs` is `ys` with some elements left out, the rest kept in order. */
  predicate IsSubsequence(xs: seq<string>, ys: seq<string>)
    decreases |ys|
  {
    xs == [] ||
    (ys != [] && ((xs[0] == ys[0] && IsSubsequence(xs[1..], ys[1..])) || IsSubsequence(xs, ys[1..])))
  }

  function ScoreSum(results: seq<QuestionResult>): int
    decreases |results|
  {
    if results == [] then 0 else results[0].score + ScoreSum(results[1..])
  }

  /** `sum(r["score"] for r in results) / len(results)`; `None` stands for
      the ZeroDivisionError raised when there are no results. */
  function Average(results: seq<QuestionResult>): (avg: Option<real>)
    ensures avg.None? <==> results == []
  {
    if results == [] then None else Some(ScoreSum(results) as real / |results| as real)
  }

  // ---------------------------------------------------------------------------
  // Lemmas: opening a turn
  // ---------------------------------------------------------------------------

  /** Skip rules.  After a silent first answer the question is skipped unless
      the operator answers "y" (in any case) and the single retry is not
      silent; a retry that is accepted is clarified like a first answer. */
  lemma SilenceRules(e: string, retry: string, typed: string, more: seq<string>, ops: seq<string>)
    requires IsEmpty(e)
    ensures Lower(typed) != "y" ==> Open(Feed([e, retry] + more, [typed] + ops)) == Skipped(Feed([retry] + more, ops))
    ensures Lower(typed) == "y" && IsEmpty(retry) ==> Open(Feed([e, retry] + more, [typed] + ops)) == Skipped(Feed(more, ops))
    ensures Lower(typed) == "y" && !IsEmpty(retry) ==> Open(Feed([e, retry] + more, [typed] + ops)) == Clarify(retry, Feed(more, ops))
  {
    var f := Feed([e, retry] + more, [typed] + ops);
    assert f.Listened() == Feed([retry] + more, [typed] + ops);
    assert f.Listened().Prompted().Listened() == Feed(more, ops);
  }

  /** A turn produces a record exactly when its opening does not skip it,
      that is when the first transcript is not blank, or the operator
      accepted a retry whose transcript is not blank. */
  lemma RecordIffHeard(oracle: Oracle, summarize: Summarizer, question: string, f: Feed)
    ensures Turn(oracle, summarize, question, f).result.Some? <==>
            !IsEmpty(f.Heard()) ||
            (Lower(f.Listened().Typed()) == "y" && !IsEmpty(f.Listened().Prompted().Heard()))
  {
  }

  /** Clarification.  An uncertain answer takes precedence over a short one;
      either takes exactly one more transcript, which becomes the answer. */
  lemma ClarificationRules(r: string, c: string, more: seq<string>, ops: seq<string>)
    requires !IsEmpty(r)
    ensures IsUncertain(r) ==> ClarificationFor(r) == Unsure
    ensures IsUncertain(r) || IsTooShort(r, DefaultMinWords) ==> Open(Feed([r, c] + more, ops)) == Answered(c, Feed(more, ops))
    ensures !IsUncertain(r) && !IsTooShort(r, DefaultMinWords) ==> Open(Feed([r, c] + more, ops)) == Answered(r, Feed([c] + more, ops))
  {
    var f := Feed([r, c] + more, ops);
    var g := Feed([c] + more, ops);
    assert f.Heard() == r;
    assert f.Listened() == g;
    assert g.Heard() == c;
    assert g.Listened() == Feed(more, ops);
    assert Open(f) == Clarify(r, g);
  }

  lemma NoIdeaFacts()
    ensures IsUncertain("no idea") && !IsEmpty("no idea")
  {
    assert Lower("no idea") == "no idea";
    assert OccursAt("no idea", Markers[2], 0);
    UncertainIffMarker("no idea");
    EmptyIffAllSpace("no idea");
    assert !IsSpace("no idea"[0]);
  }

  /** The clarification transcript is not re-checked: an uncertain answer
      followed by silence is scored as the empty answer. */
  lemma SilentClarificationIsScored(oracle: Oracle, summarize: Summarizer, question: string)
    ensures Open(Feed(["no idea", ""], [])) == Answered("", Feed([], []))
    ensures Turn(oracle, summarize, question, Feed(["no idea", ""], [])).result.Some?
  {
    NoIdeaFacts();
    ClarificationRules("no idea", "", [], []);
    assert ["no idea", ""] + [] == ["no idea", ""];
  }

  // ---------------------------------------------------------------------------
  // Lemmas: the follow-up loop
  // ---------------------------------------------------------------------------

  /** From any state of the loop: the current answer is evaluated first and
      is a prefix of the final one; the loop evaluates at most once more per
      follow-up still allowed; it takes a follow-up exactly when the
      evaluation asks for one and the cap allows it; the operator is never
      consulted. */
  lemma {:induction false} LoopShape(oracle: Oracle, question: string, a: string, c: nat, f: Feed)
    requires c <= MaxFollowUps
    ensures var e := FollowUps(oracle, question, a, c, f);
      1 <= |e.evaluated| <= MaxFollowUps - c + 1 &&
      e.evaluated[0] == a &&
      a <= e.fullAnswer &&
      e.rest.retryAnswers == f.retryAnswers &&
      (|e.evaluated| > 1 <==> c < MaxFollowUps && ProcessResponse(oracle, question, a).isFollowUp)
    decreases MaxFollowUps - c
  {
    var v := ProcessResponse(oracle, question, a);
    if v.isFollowUp && c + 1 <= MaxFollowUps {
      var a' := a + " " + f.Heard();
      LoopShape(oracle, question, a', c + 1, f.Listened());
      var e' := FollowUps(oracle, question, a', c + 1, f.Listened());
      assert a <= a';
      assert a' <= e'.fullAnswer;
    }
  }

  /** The whole loop as it runs in a turn: one evaluation, or, when that
      evaluation asks a follow-up, exactly one follow-up transcript appended
      after a space and exactly one more evaluation, whatever it says. */
  lemma LoopFromStart(oracle: Oracle, question: string, a: string, f: Feed)
    ensures var e := FollowUps(oracle, question, a, 0, f);
      if ProcessResponse(oracle, question, a).isFollowUp then
        e == LoopEnd(a + " " + f.Heard(), f.Listened(), [a, a + " " + f.Heard()])
      else
        e == LoopEnd(a, f, [a])
  {
    var a' := a + " " + f.Heard();
    assert FollowUps(oracle, question, a', 1, f.Listened()) == LoopEnd(a', f.Listened(), [a']);
  }

  /** An evaluator that always asks for a follow-up is called exactly twice. */
  lemma AlwaysFollowUpTwice(oracle: Oracle, question: string, a: string, f: Feed)
    requires forall x :: ProcessResponse(oracle, question, x).isFollowUp
    ensures |FollowUps(oracle, question, a, 0, f).evaluated| == 2
  {
    LoopFromStart(oracle, question, a, f);
  }

  /** An unreadable evaluation ends the loop at once. */
  lemma FailureEndsLoop(oracle: Oracle, question: string, a: string, c: nat, f: Feed)
    requires c <= MaxFollowUps
    requires !oracle(question, a).Parsed?
    ensures FollowUps(oracle, question, a, c, f) == LoopEnd(a, f, [a])
  {
  }

  // ---------------------------------------------------------------------------
  // Lemmas: a turn's record
  // ---------------------------------------------------------------------------

  /** The record of a turn: its question, the first evaluation's score and
      reply (the follow-up question itself when that evaluation asked one),
      an answer that extends the scored opening answer, an empty `follow_up`
      field and the summary of the final answer; at most two evaluations. */
  lemma TurnRecord(oracle: Oracle, summarize: Summarizer, question: string, f: Feed)
    requires Open(f).Answered?
    ensures var t := Turn(oracle, summarize, question, f);
      var response := Open(f).response;
      var first := ProcessResponse(oracle, question, response);
      t.result.Some? &&
      t.result.value.question == question &&
      t.result.value.score == first.score &&
      t.result.value.comment == first.reply &&
      (first.isFollowUp ==> t.result.value.comment == oracle(question, response).followUp.value) &&
      response <= t.result.value.answer &&
      t.result.value.followUp == "" &&
      t.result.value.summary == summarize(question, t.result.value.answer) &&
      1 <= |t.evaluated| <= 2 && t.evaluated[0] == response
  {
    LoopShape(oracle, question, Open(f).response, 0, Open(f).rest);
  }

  // ---------------------------------------------------------------------------
  // Lemmas: the session
  // ---------------------------------------------------------------------------

  lemma {:induction false} SubsequenceLength(xs: seq<string>, ys: seq<string>)
    requires IsSubsequence(xs, ys)
    ensures |xs| <= |ys|
    decreases |ys|
  {
    if xs != [] {
      if xs[0] == ys[0] && IsSubsequence(xs[1..], ys[1..]) {
        SubsequenceLength(xs[1..], ys[1..]);
      } else {
        SubsequenceLength(xs, ys[1..]);
      }
    }
  }

  /** The session's turns have both record properties. */
  lemma TurnStepRecords(oracle: Oracle, summarize: Summarizer)
    ensures RecordsOwnQuestion(TurnStep(oracle, summarize))
    ensures RecordsSummary(TurnStep(oracle, summarize), summarize)
  {
    var turn := TurnStep(oracle, summarize);
    forall q, f | turn(q, f).result.Some?
      ensures turn(q, f).result.value.question == q
      ensures turn(q, f).result.value.followUp == ""
      ensures turn(q, f).result.value.summary == summarize(q, turn(q, f).result.value.answer)
    {
      assert turn(q, f) == Turn(oracle, summarize, q, f);
      TurnRecord(oracle, summarize, q, f);
    }
  }

  /** Questions are recorded in order, at most once each, and only questions
      before the budget cutoff: the recorded questions are a subsequence of
      `questions[i..Cutoff]`. */
  lemma {:induction false} SessionOrder(turn: TurnFn, questions: seq<string>, elapsed: seq<real>, i: nat, f: Feed)
    requires i <= |questions| <= |elapsed|
    requires RecordsOwnQuestion(turn)
    ensures IsSubsequence(Questions(Session(turn, questions, elapsed, i, f)), questions[i..Cutoff(questions, elapsed, i)])
    decreases |questions| - i
  {
    if i < |questions| && elapsed[i] <= TimeBudget {
      var t := turn(questions[i], f);
      var rest := Session(turn, questions, elapsed, i + 1, t.rest);
      var c := Cutoff(questions, elapsed, i);
      var ys := questions[i..c];
      SessionOrder(turn, questions, elapsed, i + 1, t.rest);
      assert ys != [] && ys[0] == questions[i];
      assert ys[1..] == questions[i + 1..c];
      if t.result.Some? {
        var xs := [t.result.value] + rest;
        assert Session(turn, questions, elapsed, i, f) == xs;
        assert xs[1..] == rest;
        assert Questions(xs) == [questions[i]] + Questions(rest);
      } else {
        assert Session(turn, questions, elapsed, i, f) == rest;
      }
    }
  }

  /** There are never more results than questions before the cutoff. */
  lemma SessionBounded(turn: TurnFn, questions: seq<string>, elapsed: seq<real>, i: nat, f: Feed)
    requires i <= |questions| <= |elapsed|
    requires RecordsOwnQuestion(turn)
    ensures |Session(turn, questions, elapsed, i, f)| <= Cutoff(questions, elapsed, i) - i <= |questions| - i
  {
    SessionOrder(turn, questions, elapsed, i, f);
    var rs := Session(turn, questions, elapsed, i, f);
    SubsequenceLength(Questions(rs), questions[i..Cutoff(questions, elapsed, i)]);
    QuestionsLength(rs);
  }

  lemma {:induction false} QuestionsLength(rs: seq<QuestionResult>)
    ensures |Questions(rs)| == |rs|
    decreases |rs|
  {
    if rs != [] {
      QuestionsLength(rs[1..]);
    }
  }

  /** Every record has an empty `follow_up` field and the summary of its own
      final answer. */
  lemma {:induction false} SessionRecords(turn: TurnFn, summarize: Summarizer, questions: seq<string>,
                                          elapsed: seq<real>, i: nat, f: Feed)
    requires i <= |questions| <= |elapsed|
    requires RecordsSummary(turn, summarize)
    ensures forall r :: r in Session(turn, questions, elapsed, i, f) ==>
      r.followUp == "" && r.summary == summarize(r.question, r.answer)
    decreases |questions| - i
  {
    if i < |questions| && elapsed[i] <= TimeBudget {
      var t := turn(questions[i], f);
      SessionRecords(turn, summarize, questions, elapsed, i + 1, t.rest);
    }
  }

  /** The whole session's results: fewer than the questions before the
      cutoff, recording those questions in order, complete records. */
  lemma SessionShape(oracle: Oracle, summarize: Summarizer, questions: seq<string>, elapsed: seq<real>, f: Feed)
    requires |questions| <= |elapsed|
    ensures var rs := Session(TurnStep(oracle, summarize), questions, elapsed, 0, f);
      var c := Cutoff(questions, elapsed, 0);
      |rs| <= c <= |questions| &&
      IsSubsequence(Questions(rs), questions[..c]) &&
      forall r :: r in rs ==> r.followUp == "" && r.summary == summarize(r.question, r.answer)
  {
    var turn := TurnStep(oracle, summarize);
    TurnStepRecords(oracle, summarize);
    SessionBounded(turn, questions, elapsed, 0, f);
    SessionOrder(turn, questions, elapsed, 0, f);
    SessionRecords(turn, summarize, questions, elapsed, 0, f);
    assert questions[0..Cutoff(questions, elapsed, 0)] == questions[..Cutoff(questions, elapsed, 0)];
  }

  /** Once the budget check stops the session, later questions are never
      asked: the results are those of the questions before the cutoff alone. */
  lemma {:induction false} BudgetStops(turn: TurnFn, questions: seq<string>, elapsed: seq<real>, i: nat, f: Feed)
    requires i <= |questions| <= |elapsed|
    ensures var c := Cutoff(questions, elapsed, i);
      Session(turn, questions, elapsed, i, f) == Session(turn, questions[..c], elapsed, i, f)
    decreases |questions| - i
  {
    var c := Cutoff(questions, elapsed, i);
    var qs := questions[..c];
    if i < |questions| && elapsed[i] <= TimeBudget {
      var t := turn(questions[i], f);
      assert Cutoff(questions, elapsed, i + 1) == c;
      assert qs[i] == questions[i];
      BudgetStops(turn, questions, elapsed, i + 1, t.rest);
    }
  }

  // ---------------------------------------------------------------------------
  // Lemmas: the average
  // ---------------------------------------------------------------------------

  lemma {:induction false} ScoreSumBounds(results: seq<QuestionResult>, lo: int, hi: int)
    requires forall r :: r in results ==> lo <= r.score <= hi
    ensures |results| * lo <= ScoreSum(results) <= |results| * hi
    decreases |results|
  {
    if results != [] {
      var n := |results|;
      assert results[0] in results;
      ScoreSumBounds(results[1..], lo, hi);
      assert n * lo == (n - 1) * lo + lo;
      assert n * hi == (n - 1) * hi + hi;
    }
  }

  /** The average lies between the lowest and the highest recorded score;
      with the model's 0..10 scale it stays on that scale. */
  lemma AverageBounds(results: seq<QuestionResult>, lo: int, hi: int)
    requires results != []
    requires forall r :: r in results ==> lo <= r.score <= hi
    ensures lo as real <= Average(results).value <= hi as real
  {
    ScoreSumBounds(results, lo, hi);
    var n := |results| as real;
    var s := ScoreSum(results) as real;
    assert n * lo as real <= s <= n * hi as real;
    assert s / n >= lo as real by {
      assert s >= n * lo as real;
    }
    assert s / n <= hi as real by {
      assert s <= n * hi as real;
    }
  }

  /** Scores 8, 6 and 4 average to 6. */
  lemma AverageExample(q: string, a: string, c: string, s: string)
    ensures Average([QuestionResult(q, a, 8, c, "", s), QuestionResult(q, a, 6, c, "", s),
                     QuestionResult(q, a, 4, c, "", s)]) == Some(6.0)
  {
    var rs := [QuestionResult(q, a, 8, c, "", s), QuestionResult(q, a, 6, c, "", s), QuestionResult(q, a, 4, c, "", s)];
    assert rs[1..][1..][1..] == [];
    assert ScoreSum(rs[1..][1..]) == 4;
    assert ScoreSum(rs[1..]) == 10;
    assert ScoreSum(rs) == 18;
  }
}
