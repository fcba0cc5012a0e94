/**
 * The part of `process_response` (agent_logic.py) that runs after the model
 * has replied: it reads `score`, `comment` and `follow_up` from the parsed
 * JSON with defaults and turns them into the triple
 * (agent_reply, is_follow_up, score), or into a fixed fallback when the reply
 * could not be read.  The chat call and the JSON parser are foreign; only
 * their outcome is modelled.
 */
module AgentLogic {
  import opened Wrappers

  /** What `json.loads` made of the model's reply.  `None` in a field means
      the key was absent. */
  datatype ParseOutcome =
    | ParseFailed   // the content was not JSON (or could not be reached)
    | NotAnObject   // valid JSON with no `.get`: a list, a number, a string
    | Parsed(score: Option<int>, comment: Option<string>, followUp: Option<string>)

  /** The triple `(agent_reply, is_follow_up, score)`. */
  datatype Verdict = Verdict(reply: string, isFollowUp: bool, score: int)

  const FallbackReply: string := "Sorry, I had trouble evaluating that answer."

  /** What the question's evaluation becomes when the reply cannot be read. */
  const Fallback: Verdict := Verdict(FallbackReply, false, 0)

  /** The language model together with `json.loads`, for one (question, answer). */
  type Oracle = (string, string) -> ParseOutcome

  /** agent_logic.py:52-68 */
  function Normalise(o: ParseOutcome): (v: Verdict)
    ensures v.isFollowUp <==> o.Parsed? && o.followUp.GetOr("") != ""
    ensures v.isFollowUp ==> v.reply != ""
    ensures o.Parsed? ==> v.score == o.score.GetOr(0)
  {
    match o
    case Parsed(score, comment, followUp) =>
      var s := score.GetOr(0);
      var c := comment.GetOr("");
      var f := followUp.GetOr("");
      if f != "" then Verdict(f, true, s) else Verdict(c, false, s)
    case _ => Fallback
  }

  /** `process_response(question, answer)` */
  function ProcessResponse(oracle: Oracle, question: string, answer: string): Verdict {
    Normalise(oracle(question, answer))
  }

  /** A non-empty `follow_up` is returned as the reply, flagged as a follow-up. */
  lemma FollowUpIsReply(score: Option<int>, comment: Option<string>, f: string)
    requires f != ""
    ensures Normalise(Parsed(score, comment, Some(f))) == Verdict(f, true, score.GetOr(0))
  {
  }

  /** A missing or empty `follow_up` makes the comment the reply. */
  lemma CommentIsReply(score: Option<int>, comment: Option<string>, followUp: Option<string>)
    requires followUp.GetOr("") == ""
    ensures Normalise(Parsed(score, comment, followUp)) == Verdict(comment.GetOr(""), false, score.GetOr(0))
  {
  }

  /** Missing fields default to score 0, comment "" and no follow-up. */
  lemma MissingFieldsDefault()
    ensures Normalise(Parsed(None, None, None)) == Verdict("", false, 0)
  {
  }

  /** A reply that cannot be read gives exactly the fallback triple. */
  lemma UnreadableIsFallback(o: ParseOutcome)
    requires !o.Parsed?
    ensures Normalise(o) == Verdict("Sorry, I had trouble evaluating that answer.", false, 0)
  {
  }

  /** The score is not clamped to 0..10: whatever integer the reply holds
      is the score, whether a follow-up is asked or not. */
  lemma ScoreNotClamped(score: int, comment: Option<string>, followUp: Option<string>)
    ensures Normalise(Parsed(Some(score), comment, followUp)).score == score
  {
  }
}
