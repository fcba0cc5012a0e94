/**
 * main.py's interview loop as the source runs it: a `for` over the
 * questions with the budget check, the skip paths (`continue`) and the early
 * stop (`break`), and a `while` loop for the follow-ups that updates
 * `first_score`, `first_comment`, `full_answer` and `follow_up_count`.
 * Each method is proved to compute what the functions of `Interview` say.
 */
module MainLoop {
  import opened Wrappers
  import opened ResponseSafety
  import opened AgentLogic
  import opened Interview

  /** main.py:102-129.  Besides the loop's own results, `evaluated` lists
      the answers `process_response` was called with. */
  method FollowUpLoop(oracle: Oracle, question: string, response: string, feed: Feed)
    returns (fullAnswer: string, firstScore: int, firstComment: string, rest: Feed, evaluated: seq<string>)
    ensures LoopEnd(fullAnswer, rest, evaluated) == FollowUps(oracle, question, response, 0, feed)
    ensures firstScore == ProcessResponse(oracle, question, response).score
    ensures firstComment == ProcessResponse(oracle, question, response).reply
    ensures |evaluated| <= MaxFollowUps + 1
  {
    var scoreSoFar: Option<int> := None;
    var commentSoFar: Option<string> := None;
    fullAnswer := response;
    rest := feed;
    evaluated := [];
    var followUpCount: nat := 0;
    ghost var spec := FollowUps(oracle, question, response, 0, feed);
    while true
      invariant followUpCount <= MaxFollowUps
      invariant evaluated == [] ==> fullAnswer == response && followUpCount == 0 && rest == feed
      invariant evaluated == [] <==> scoreSoFar.None?
      invariant scoreSoFar.None? <==> commentSoFar.None?
      invariant evaluated != [] ==> evaluated[0] == response
      invariant scoreSoFar.Some? ==> scoreSoFar.value == ProcessResponse(oracle, question, response).score
      invariant commentSoFar.Some? ==> commentSoFar.value == ProcessResponse(oracle, question, response).reply
      invariant |evaluated| == followUpCount
      invariant var now := FollowUps(oracle, question, fullAnswer, followUpCount, rest);
        spec == now.(evaluated := evaluated + now.evaluated)
      decreases MaxFollowUps - followUpCount
    {
      var v := ProcessResponse(oracle, question, fullAnswer);
      ghost var now := FollowUps(oracle, question, fullAnswer, followUpCount, rest);
      evaluated := evaluated + [fullAnswer];
      if scoreSoFar.None? {
        scoreSoFar := Some(v.score);
        commentSoFar := Some(v.reply);
      }
      if v.isFollowUp {
        followUpCount := followUpCount + 1;
        if followUpCount > MaxFollowUps {
          assert now == LoopEnd(fullAnswer, rest, [fullAnswer]);
          break;
        }
        var heard := rest.Heard();
        rest := rest.Listened();
        fullAnswer := fullAnswer + " " + heard;
      } else {
        assert now == LoopEnd(fullAnswer, rest, [fullAnswer]);
        break;
      }
    }
    firstScore := scoreSoFar.value;
    firstComment := commentSoFar.value;
  }

  /** main.py:60-99: listen, offer one retry on silence, ask once for
      clarification.  `answered` is false when the question is skipped. */
  method OpenTurn(feed: Feed) returns (answered: bool, response: string, rest: Feed)
    ensures Open(feed) == if answered then Answered(response, rest) else Skipped(rest)
  {
    response := feed.Heard();
    rest := feed.Listened();
    if IsEmpty(response) {
      var retry := rest.Typed();
      rest := rest.Prompted();
      if Lower(retry) == "y" {
        response := rest.Heard();
        rest := rest.Listened();
        if IsEmpty(response) {
          return false, response, rest;
        }
      } else {
        return false, response, rest;
      }
    }
    if IsUncertain(response) {
      response := rest.Heard();
      rest := rest.Listened();
    } else if IsTooShort(response, DefaultMinWords) {
      response := rest.Heard();
      rest := rest.Listened();
    }
    answered := true;
  }

  /** One pass of the `for` body, main.py:57-146: the record of the
      question, or `None` where the source `continue`s past it. */
  method AskQuestion(oracle: Oracle, summarize: Summarizer, question: string, feed: Feed)
    returns (record: Option<QuestionResult>, rest: Feed, evaluated: seq<string>)
    ensures TurnEnd(record, rest, evaluated) == Turn(oracle, summarize, question, feed)
  {
    var answered, response;
    answered, response, rest := OpenTurn(feed);
    if !answered {
      return None, rest, [];
    }
    var fullAnswer, firstScore, firstComment;
    fullAnswer, firstScore, firstComment, rest, evaluated := FollowUpLoop(oracle, question, response, rest);
    var summary := summarize(question, fullAnswer);
    record := Some(QuestionResult(question, fullAnswer, firstScore, firstComment, "", summary));
  }

  /** main.py:47-149: ask the questions in order until the budget check
      stops the session, and average the recorded scores.  `elapsed[j]` is
      `time.time() - start_time`, in seconds, at the check before question `j`. */
  method RunInterview(oracle: Oracle, summarize: Summarizer, questions: seq<string>,
                      transcripts: seq<string>, retryAnswers: seq<string>, elapsed: seq<real>)
    returns (results: seq<QuestionResult>, average: Option<real>)
    requires |elapsed| >= |questions|
    ensures results == Session(TurnStep(oracle, summarize), questions, elapsed, 0, Feed(transcripts, retryAnswers))
    ensures average == Average(results)
    ensures |results| <= Cutoff(questions, elapsed, 0) <= |questions|
    ensures IsSubsequence(Questions(results), questions[..Cutoff(questions, elapsed, 0)])
    ensures forall r :: r in results ==> r.followUp == "" && r.summary == summarize(r.question, r.answer)
  {
    results := AskAll(oracle, summarize, questions, elapsed, Feed(transcripts, retryAnswers));
    average := Average(results);
    SessionShape(oracle, summarize, questions, elapsed, Feed(transcripts, retryAnswers));
  }

  /** main.py:102-146 repeated over the questions (the `for` loop of
      main.py:47-146): the results of the whole session. */
  method AskAll(oracle: Oracle, summarize: Summarizer, questions: seq<string>, elapsed: seq<real>, start: Feed)
    returns (results: seq<QuestionResult>)
    requires |elapsed| >= |questions|
    ensures results == Session(TurnStep(oracle, summarize), questions, elapsed, 0, start)
  {
    results := [];
    var feed := start;
    for i := 0 to |questions|
      invariant Session(TurnStep(oracle, summarize), questions, elapsed, 0, start)
        == results + Session(TurnStep(oracle, summarize), questions, elapsed, i, feed)
    {
      if elapsed[i] > TimeBudget {
        break;
      }
      ghost var before := feed;
      var record, evaluated;
      record, feed, evaluated := AskQuestion(oracle, summarize, questions[i], feed);
      SessionStep(oracle, summarize, questions, elapsed, i, before, record, feed, evaluated);
      var recorded := if record.Some? then [record.value] else [];
      AppendAssoc(results, recorded, Session(TurnStep(oracle, summarize), questions, elapsed, i + 1, feed));
      results := results + recorded;
    }
  }

  lemma AppendAssoc(a: seq<QuestionResult>, b: seq<QuestionResult>, c: seq<QuestionResult>)
    ensures a + (b + c) == (a + b) + c
  {
  }

  /** One step of `Session`, restated over the outputs of a turn. */
  lemma SessionStep(oracle: Oracle, summarize: Summarizer, questions: seq<string>, elapsed: seq<real>, i: nat,
                    f: Feed, record: Option<QuestionResult>, rest: Feed, evaluated: seq<string>)
    requires i < |questions| <= |elapsed| && elapsed[i] <= TimeBudget
    requires TurnEnd(record, rest, evaluated) == Turn(oracle, summarize, questions[i], f)
    ensures Session(TurnStep(oracle, summarize), questions, elapsed, i, f)
      == (if record.Some? then [record.value] else []) + Session(TurnStep(oracle, summarize), questions, elapsed, i + 1, rest)
  {
    assert TurnStep(oracle, summarize)(questions[i], f) == TurnEnd(record, rest, evaluated);
  }
}
