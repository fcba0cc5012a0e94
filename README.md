# Recruiter bot: turn management, modelled in Dafny

This project models the part of the recruiter bot that runs a voice interview.
It has three pieces:

- **Transcript classifiers** (`response_safety.py`): `is_empty`, `is_too_short` and
  `is_uncertain_response`. They are written over Python's `strip()`, argument-less
  `split()`, `lower()` and substring `in`, with whitespace being exactly the
  characters for which Python's `str.isspace` holds.
- **Verdict normaliser** (`agent_logic.py`, the part of `process_response` after the
  model has answered). It reads `score`, `comment` and `follow_up` from the parsed
  reply, with defaults. It returns `(agent_reply, is_follow_up, score)`, or the fixed
  fallback triple when the reply could not be read.
- **Interview loop** (`main.py:47-149`):
  - a time-budget check before each question;
  - an empty answer gets one operator-approved retry, and otherwise the question is skipped;
  - one clarification prompt for an uncertain or too-short answer;
  - a follow-up loop capped at one follow-up;
  - one result record per question that is not skipped;
  - the average score.

The collaborators are inputs:

- **Transcripts**: each `transcribe_speech()` takes the next element of a queue of
  transcripts. An exhausted queue reads as `""`, like a listening timeout.
- **Operator answers**: each retry prompt takes the next element of a queue.
- **Clock**: `elapsed[j]` is the value of `time.time() - start_time` at the budget
  check before question `j`.
- **Language-model calls**: the model call plus `json.loads` is a function
  `Oracle = (question, answer) -> ParseOutcome`, and `summarize_answer` is a function
  `(question, answer) -> summary`. Being functions, both are deterministic: two calls
  with the same question and answer give the same result, which the real language
  model need not.

The modules:

- `ResponseSafety`, `AgentLogic` and `Interview` are functional:
  - `Interview.Open` is one turn's opening;
  - `Interview.FollowUps` is the follow-up loop;
  - `Interview.Turn` is one question;
  - `Interview.Session` is the run over the questions.
- `MainLoop` is imperative, as `main.py` is. `AskAll` is the `for` loop over the
  questions, with the budget `break`. Each `continue` of main.py:72 and main.py:75 is
  an early `return false` of `OpenTurn`, after which `AskQuestion` returns no record
  and `AskAll` appends nothing. `FollowUpLoop` is the `while True` loop that updates
  `first_score`, `first_comment`, `full_answer` and `follow_up_count`. Each method is proved to
  compute what the functions of `Interview` say, and the properties are proved
  about those functions.
- `Session` takes the turn as a function parameter. The interview runs it with
  `TurnStep(oracle, summarize)`, that is with `Turn` and the session's evaluator
  and summariser.

Quirks of the code that the model keeps:

- The stored `comment` is the first evaluation's *reply*. When that evaluation asked
  a follow-up, the reply is the follow-up question (`TurnRecord`).
- The clarification transcript is not re-checked for emptiness. An uncertain answer
  followed by silence is scored as the empty answer (`SilentClarificationIsScored`).
- The clarification branches build a `feedback` dict and set `summary`
  (main.py:80-97). Only `feedback["follow_up"]` is used, as the prompt passed to
  `speak_text` (main.py:86, 98), and speech is not modelled. The canned score (2 or 3),
  the canned comment and the canned `summary` are never read: `summary` is
  overwritten at main.py:132, and the record takes the first evaluation's score and
  reply. The model therefore leaves these assignments out.
- The score is passed through unclamped (`ScoreNotClamped`).
- With no results, `sum(...) / len(results)` raises `ZeroDivisionError`.
  `Average` returns `None` in exactly that case.

A session does not always record one result per question asked: skipped questions
record nothing. So the number of results is *at most* the number of questions
before the budget cutoff (`SessionBounded`), not equal to it.

## Model

| member | source | states |
|---|---|---|
| ResponseSafety.LeadingSpaces | response_safety.py:16-21 | the length of the leading whitespace run of `s`: every character before it is whitespace and the one at it is not |
| ResponseSafety.TrailingSpaces | response_safety.py:16-21 | the length of the trailing whitespace run of `s`, with the same bounds as the leading run |
| ResponseSafety.Split | response_safety.py:16 | every word `split()` yields is non-empty and free of whitespace |
| ResponseSafety.StripSlice | response_safety.py:16-21 | `strip()` is a slice `s[a..b]` with only whitespace outside it and non-whitespace at both of its ends |
| ResponseSafety.IsEmpty | response_safety.py:19-21 | `is_empty`: the stripped text is `""`; characterised by `EmptyIffAllSpace` and `EmptyIffTooShortForOne` |
| ResponseSafety.IsTooShort | response_safety.py:14-16 | `is_too_short`: `len(text.strip().split()) < min_words`, with `DefaultMinWords` = 5 for the callers' default; characterised by `TooShortIffFewRuns` |
| ResponseSafety.IsUncertain | response_safety.py:2-11 | `is_uncertain_response`: one of the five markers occurs in `text.lower().strip()`; characterised by `UncertainIffMarker`, `ThreeMarkersSuffice`, `UncertainIgnoresCase` and `UncertainInContext` |
| ResponseSafety.EmptyIffAllSpace | response_safety.py:19-21 | `is_empty(t)` holds exactly when every character of `t` is whitespace, so exactly when `t.strip()` is `""` |
| ResponseSafety.SplitCountsRuns | response_safety.py:16 | `split()` yields one word per maximal non-whitespace run (runs counted by an independent definition) |
| ResponseSafety.StripKeepsRuns | response_safety.py:16 | stripping does not change the number of runs |
| ResponseSafety.RunsIgnoreOuterSpaces | response_safety.py:16 | whitespace before and after a slice starts no run |
| ResponseSafety.TooShortIffFewRuns | response_safety.py:14-16 | `is_too_short(t, m)` holds exactly when `t` has fewer than `m` maximal non-whitespace runs |
| ResponseSafety.EmptyIffTooShortForOne | response_safety.py:14-21 | `is_empty(t)` holds exactly when `is_too_short(t, 1)` does, and it implies `is_too_short(t, m)` for every `m >= 1` |
| ResponseSafety.SplitKeepsText | response_safety.py:16 | the words of `split()`, joined, are exactly the non-whitespace characters of the text, in order |
| ResponseSafety.StripKeepsPhrases | response_safety.py:3-5 | a non-empty phrase that starts and ends with non-whitespace, as every marker does, occurs in `t.strip()` exactly when it occurs in `t` |
| ResponseSafety.UncertainIffMarker | response_safety.py:2-11 | `is_uncertain_response(t)` holds exactly when one of the five markers occurs in the lower-cased `t` |
| ResponseSafety.MarkerInclusions | response_safety.py:5-11 | "i have no idea" contains "no idea" and "i'm not sure" contains "not sure" |
| ResponseSafety.ThreeMarkersSuffice | response_safety.py:5-11 | the five markers classify exactly as the three markers "i don't know", "not sure" and "no idea" do |
| ResponseSafety.UncertainInContext | response_safety.py:3-5 | an uncertain answer stays uncertain with any text before and after it |
| ResponseSafety.UncertainIgnoresCase | response_safety.py:3 | answers that agree up to ASCII letter case are classified alike |
| ResponseSafety.UncertainIgnoresUpper | response_safety.py:3 | upper-casing an answer does not change whether it is uncertain |
| ResponseSafety.UncertainExample | response_safety.py:2-11 | "I'm not sure about that" is uncertain |
| ResponseSafety.NoCoreMarkerNotUncertain | response_safety.py:2-11 | an answer whose lower-cased text has none of the three core markers is not uncertain |
| ResponseSafety.ConfidentExample | response_safety.py:2-11 | "I am confident this works" is not uncertain |
| AgentLogic.ProcessResponse | agent_logic.py:50-68 | `process_response(question, answer)`: the normaliser applied to the parse outcome of the model's reply; its properties are those of `Normalise` |
| AgentLogic.Normalise | agent_logic.py:50-68 | the triple asks a follow-up exactly when the reply parsed and has a non-empty `follow_up`; a follow-up reply is never empty; a parsed score is passed through, defaulting to 0 |
| AgentLogic.FollowUpIsReply | agent_logic.py:60-61 | a non-empty `follow_up` gives `(follow_up, True, score)` |
| AgentLogic.CommentIsReply | agent_logic.py:62-63 | a missing or empty `follow_up` gives `(comment, False, score)` |
| AgentLogic.MissingFieldsDefault | agent_logic.py:55-57 | missing fields default to score 0, comment "" and no follow-up |
| AgentLogic.UnreadableIsFallback | agent_logic.py:65-68 | a reply that is not JSON, or not an object, gives exactly `("Sorry, I had trouble evaluating that answer.", False, 0)` |
| AgentLogic.ScoreNotClamped | agent_logic.py:55-63 | every integer score of a parsed reply, inside 0..10 or not, is the verdict's score, with or without a follow-up |
| Interview.ClarificationFor | main.py:78-99 | which branch a non-empty answer takes: uncertain first, then too short (default 5 words), else none; stated by `ClarificationRules` |
| Interview.Clarify | main.py:77-99 | an answer that needs clarification is replaced by the next transcript, unchecked; a clear one is kept; stated by `ClarificationRules` and `SilentClarificationIsScored` |
| Interview.Open | main.py:60-99 | a turn's opening: first transcript, one operator-approved retry on a blank answer, skip, or clarification; stated by `SilenceRules`, `RecordIffHeard` and `ClarificationRules`, and computed by `MainLoop.OpenTurn` |
| Interview.SilenceRules | main.py:60-75 | after a blank first answer the question is skipped unless the operator types "y" (in any letter case) and the single retry is not blank; exactly the transcripts and operator lines used are consumed |
| Interview.RecordIffHeard | main.py:60-75 | a question gets a record exactly when its first transcript is not blank, or the operator accepted a retry whose transcript is not blank |
| Interview.ClarificationRules | main.py:78-99 | the uncertain check comes before the too-short check; either one consumes exactly one more transcript, which becomes the answer, and a clear answer consumes nothing more |
| Interview.SilentClarificationIsScored | main.py:78-99 | the clarification transcript is not checked for emptiness: "no idea" followed by silence is scored with the answer "" |
| Interview.FollowUps | main.py:102-129 | the follow-up loop from a given answer and follow-up count; stated by `LoopShape`, `LoopFromStart`, `AlwaysFollowUpTwice` and `FailureEndsLoop`, and computed by `MainLoop.FollowUpLoop` |
| Interview.LoopShape | main.py:102-129 | from any loop state: the current answer is evaluated first and is a prefix of the final answer; at most one more evaluation per follow-up still allowed; a follow-up is taken exactly when the evaluation asks for one and the cap allows it; no operator line is consumed |
| Interview.LoopFromStart | main.py:104-129 | a turn's loop evaluates once, or, when that evaluation asks a follow-up, appends `" " + transcript` once and evaluates once more |
| Interview.AlwaysFollowUpTwice | main.py:105-120 | an evaluator that always asks a follow-up is called exactly twice |
| Interview.FailureEndsLoop | main.py:126-129 | an unreadable evaluation ends the loop at once |
| Interview.Turn | main.py:57-146 | one question: no record when the opening skips, otherwise the record built from the first evaluation and the loop's final answer; stated by `RecordIffHeard` and `TurnRecord`, and computed by `MainLoop.AskQuestion` |
| Interview.TurnRecord | main.py:102-146 | a recorded turn keeps its question, the first evaluation's score and reply (the follow-up question when one was asked), an answer that extends the opening answer, `follow_up == ""`, the summary of the final answer, and at most two evaluations |
| Interview.Session | main.py:47-146 | the questions from `i` on, asked in order until a budget check fails; stated by `SessionOrder`, `SessionBounded`, `SessionRecords` and `BudgetStops`, and computed by `MainLoop.AskAll` |
| Interview.Cutoff | main.py:50-55 | the index of the first question whose budget check fails (or the number of questions), with every earlier check passing |
| Interview.TurnStepRecords | main.py:139-146 | the session's turns record the question asked, an empty `follow_up` and the summary of the final answer |
| Interview.SessionOrder | main.py:50-146 | the recorded questions are a subsequence of the questions before the cutoff: in order, each at most once |
| Interview.SessionBounded | main.py:50-146 | there are never more results than questions before the cutoff |
| Interview.SessionRecords | main.py:132-146 | every record has `follow_up == ""` and the summary of its own question and final answer |
| Interview.SessionShape | main.py:47-146 | the whole session's results satisfy all three properties above |
| Interview.BudgetStops | main.py:50-55 | questions after the cutoff are never asked: the results are those of the questions before it alone |
| Interview.Average | main.py:149 | the average is undefined exactly when there are no results |
| Interview.ScoreSumBounds | main.py:149 | the score sum lies between `n * lo` and `n * hi` when every score lies in `lo..hi` |
| Interview.AverageBounds | main.py:149 | the average lies between the lowest and the highest possible score |
| Interview.AverageExample | main.py:149 | scores 8, 6 and 4 average to 6 |
| MainLoop.FollowUpLoop | main.py:102-129 | the `while True` loop computes the final answer, feed and evaluated answers of `FollowUps`; `first_score` and `first_comment` are the first evaluation's score and reply; at most `max_follow_ups + 1` evaluations |
| MainLoop.OpenTurn | main.py:60-99 | the listen / retry / clarify code computes `Open`, with skipped meaning `continue` |
| MainLoop.AskQuestion | main.py:57-146 | one pass of the `for` body computes `Turn` |
| MainLoop.AskAll | main.py:47-146 | the `for` loop with its `break` computes `Session(TurnStep(oracle, summarize), ...)` |
| MainLoop.RunInterview | main.py:47-149 | the results are the session's; the average is `Average(results)`; at most as many results as questions before the cutoff, in question order, with complete records |

## Left out

- Speech output (`speak_text`), microphone capture and transcription (`voice_interface.py`): only the transcripts they produce are modelled, as a queue. An exhausted queue reads as `""`, like the listening timeout (voice_interface.py:57-59).
- The end of the operator's input: an exhausted operator queue reads as `""`, that is as an operator who declines the retry, and the question is skipped. In the source, `input()` at main.py:66 raises `EOFError` at end of input, which ends the program. That error path is not modelled.
- The greeting before the questions (main.py:22-28): it consumes one transcript before main.py:47. The queue given to the model is what is left after it.
- The `client.chat` calls and prompts in `agent_logic.py` and `summary_logic.py`, and their network errors: the evaluator is a function parameter, and so is `summarize_answer`.
- `json.loads`: only its outcome is modelled, with an integer `score` and string `comment` and `follow_up` when present. Replies with other JSON types are not modelled, and neither are their effects in the source:
  - `"score": null` leaves `first_score` at `None` (main.py:111), so the next evaluation in the loop overwrites both `first_score` and `first_comment`;
  - a `None` or non-numeric score in a record makes the `sum` at main.py:149 raise `TypeError`;
  - a truthy `follow_up` that is not a string is returned as the reply (agent_logic.py:60-61).
- `str.lower()`: only ASCII letters are lower-cased (`LowerChar`). Python also lower-cases other alphabets, which can matter for the operator's "y" and for the markers.
- The float arithmetic of `time.time()` and of the average: both are exact `real`s. The clock gives one reading per budget check and must have at least one per question.
- Printing, the `{:.2f}` formatting, the PDF report (`report_utils.py`), the candidate-name prompt, the Zoom calls and the job-description and resume parsing.
- The clarification branches' `feedback` dicts and `summary` assignments (main.py:80-85, 92-97): the score, comment and summary in them are never read, and the `follow_up` prompt is only spoken (main.py:86, 98).
