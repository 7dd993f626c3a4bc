/** Fetching and normalising a batch of questions (`fetchQuestions` in
    assets/js/script.js). The HTTP call and JSON parsing are foreign: the
    model receives their outcome as a `Reply`. `decodeHtml` relies on the
    browser's entity decoding and is the parameter `decode`. `Math.random`
    is the random source `rand`, where `rand(k)` gives the draws used while
    shuffling the answers of the `k`-th question. */
module Questions {
  import opened Wrappers
  import Shuffle

  /** One item of the API's `results`, as received (HTML-escaped). */
  datatype RawQuestion = RawQuestion(question: string, correctAnswer: string, incorrectAnswers: seq<string>)

  /** The parsed JSON body: `{ response_code, results }`. */
  datatype Payload = Payload(responseCode: int, results: seq<RawQuestion>)

  /** What `fetch(url)` and `response.json()` produce: either the request itself
      rejects, or a response arrives whose body may fail to parse (`None`). */
  datatype Reply = TransportError | Response(ok: bool, body: Option<Payload>)

  /** A question as the quiz holds it: decoded texts and the shuffled choices. */
  datatype Question = Question(question: string, correctAnswer: string, incorrectAnswers: seq<string>, allAnswers: seq<string>)

  /** The error raised inside the `try` block of `fetchQuestions`, before the
      `catch` replaces it. */
  datatype LoadFault =
    | RequestRejected        // `fetch` itself rejected
    | BadStatus              // !response.ok: 'Failed to grab questions!'
    | BodyUnreadable         // `response.json()` rejected
    | NoQuestions(code: int) // response_code !== 0: 'No questions available right now :('

  /** The one message every failure of `fetchQuestions` is rewritten to. */
  const LoadErrorMessage := "Unable to load questions. Go kick the router."

  function DecodeAll(decode: string -> string, texts: seq<string>): (r: seq<string>)
    ensures |r| == |texts|
    ensures forall k :: 0 <= k < |texts| ==> r[k] == decode(texts[k])
  {
    seq(|texts|, k requires 0 <= k < |texts| => decode(texts[k]))
  }

  /** The answers offered for a question before shuffling: the correct one first,
      then the incorrect ones, all decoded. */
  function AnswerPool(raw: RawQuestion, decode: string -> string): seq<string>
  {
    [decode(raw.correctAnswer)] + DecodeAll(decode, raw.incorrectAnswers)
  }

  /** The choices are a rearrangement of the correct answer and the incorrect ones. */
  ghost predicate WellFormed(q: Question)
  {
    multiset(q.allAnswers) == multiset([q.correctAnswer] + q.incorrectAnswers)
  }

  /** The per-question mapping inside `data.results.map(...)`. */
  function Normalise(raw: RawQuestion, decode: string -> string, rand: nat -> nat): (q: Question)
    ensures q.question == decode(raw.question)
    ensures q.correctAnswer == decode(raw.correctAnswer)
    ensures q.incorrectAnswers == DecodeAll(decode, raw.incorrectAnswers)
    ensures multiset(q.allAnswers) == multiset(AnswerPool(raw, decode))
    ensures WellFormed(q)
    ensures |q.allAnswers| == 1 + |raw.incorrectAnswers|
    ensures q.correctAnswer in q.allAnswers
  {
    var pool := AnswerPool(raw, decode);
    Shuffle.ShuffledIsPermutation(pool, rand);
    assert pool[0] in multiset(pool);
    Question(decode(raw.question), decode(raw.correctAnswer), DecodeAll(decode, raw.incorrectAnswers),
             Shuffle.Shuffled(pool, rand))
  }

  /** The whole batch: question `k` is shuffled with the draws `rand(k)`. */
  function NormaliseAll(results: seq<RawQuestion>, decode: string -> string, rand: nat -> nat -> nat): (qs: seq<Question>)
    ensures |qs| == |results|
    ensures forall k :: 0 <= k < |results| ==> qs[k] == Normalise(results[k], decode, rand(k))
  {
    seq(|results|, k requires 0 <= k < |results| => Normalise(results[k], decode, rand(k)))
  }

  /** A reply `fetchQuestions` accepts: the response is `ok`, its body parses and
      its `response_code` is 0. */
  predicate Accepted(reply: Reply)
  {
    reply.Response? && reply.ok && reply.body.Some? && reply.body.value.responseCode == 0
  }

  /** The `try` block of `fetchQuestions`: which error is thrown, or the questions assigned.
      The HTTP status is checked before the body, and the body before its code. */
  function TryLoad(reply: Reply, decode: string -> string, rand: nat -> nat -> nat): (r: Result<seq<Question>, LoadFault>)
    ensures r.Success? <==> Accepted(reply)
    ensures r.Success? ==> r.value == NormaliseAll(reply.body.value.results, decode, rand)
    ensures r == Failure(BadStatus) <==> reply.Response? && !reply.ok
    ensures r.Failure? && r.error.NoQuestions? ==> r.error.code != 0 && reply.Response? && reply.body.Some? && r.error.code == reply.body.value.responseCode
  {
    match reply
    case TransportError => Failure(RequestRejected)
    case Response(ok, body) =>
      if !ok then Failure(BadStatus)
      else match body
        case None => Failure(BodyUnreadable)
        case Some(payload) =>
          if payload.responseCode != 0 then Failure(NoQuestions(payload.responseCode))
          else Success(NormaliseAll(payload.results, decode, rand))
  }

  /** `fetchQuestions` as a whole: on success the questions it assigns to
      `this.questions`, otherwise the message its `catch` rethrows. */
  function LoadQuestions(reply: Reply, decode: string -> string, rand: nat -> nat -> nat): (r: Result<seq<Question>, string>)
    ensures r.Success? <==> Accepted(reply)
    ensures r.Failure? ==> r.error == LoadErrorMessage
    ensures r.Success? ==> r.value == NormaliseAll(reply.body.value.results, decode, rand)
  {
    match TryLoad(reply, decode, rand)
    case Success(questions) => Success(questions)
    case Failure(_) => Failure(LoadErrorMessage)
  }

  /** Every question of an accepted batch offers exactly its correct and incorrect
      answers, so the correct answer is always among the choices. */
  lemma LoadedQuestionsWellFormed(reply: Reply, decode: string -> string, rand: nat -> nat -> nat)
    requires Accepted(reply)
    ensures var r := LoadQuestions(reply, decode, rand);
      r.Success? && |r.value| == |reply.body.value.results| &&
      forall k :: 0 <= k < |r.value| ==>
        WellFormed(r.value[k]) && r.value[k].correctAnswer in r.value[k].allAnswers &&
        |r.value[k].allAnswers| == 1 + |reply.body.value.results[k].incorrectAnswers|
  {
  }

  /** When the decoded correct answer differs from every decoded incorrect one,
      it appears among the choices exactly once. */
  lemma CorrectAnswerOfferedOnce(raw: RawQuestion, decode: string -> string, rand: nat -> nat)
    requires decode(raw.correctAnswer) !in DecodeAll(decode, raw.incorrectAnswers)
    ensures var q := Normalise(raw, decode, rand); multiset(q.allAnswers)[q.correctAnswer] == 1
  {
    var c := decode(raw.correctAnswer);
    var rest := DecodeAll(decode, raw.incorrectAnswers);
    assert multiset(AnswerPool(raw, decode)) == multiset{c} + multiset(rest);
    assert multiset(rest)[c] == 0;
  }

  /** The correct answer can be shown at any of the question's positions. */
  lemma CorrectAnswerCanTakeAnyPosition(raw: RawQuestion, decode: string -> string, p: nat)
    requires p <= |raw.incorrectAnswers|
    ensures exists rand: nat -> nat :: Normalise(raw, decode, rand).allAnswers[p] == decode(raw.correctAnswer)
  {
    var pool := AnswerPool(raw, decode);
    Shuffle.EveryPlacementReachable(pool, 0, p);
    var rand: nat -> nat :| Shuffle.Shuffled(pool, rand)[p] == pool[0];
    assert Normalise(raw, decode, rand).allAnswers[p] == decode(raw.correctAnswer);
  }
}
