/** The storyboard handler of App.tsx wired to the scene request of services/geminiService.ts:
    every batch the loop asks for is one `generateScenePrompts` call, whose rejection ends the run
    with the rewrapped message shown as the error. */
module Storyboard {
  import opened Wrappers
  import opened Model
  import Text
  import ServiceErrors
  import GeminiService
  import Accumulator

  /** The model's answer to the `n`-th request of a run, given what the request tells it. */
  type SceneModel = (nat, GeminiService.Continuation) -> GeminiService.Reply

  /** How the `await` inside the loop settles: a rejection carries its message (`err.message`),
      a fulfilled call its batch. */
  function ToBatch(r: Result<seq<Scene>>): (b: Accumulator.BatchResult)
    ensures r.Failure? <==> b.Threw?
    ensures r.Failure? ==> b.message == r.error
    ensures r.Success? ==> b.scenes == r.value
  {
    match r
    case Failure(m) => Accumulator.Threw(m)
    case Success(s) => Accumulator.Batch(s)
  }

  /** The service the loop sees: each request carries the scenes accumulated so far. */
  function ScenesOracle(model: SceneModel, parse: GeminiService.Parser, nullRead: string): Accumulator.BatchOracle {
    (n: nat, current: seq<Scene>) =>
      ToBatch(GeminiService.GenerateScenePrompts(current, (c: GeminiService.Continuation) => model(n, c), parse, nullRead))
  }

  /** A parsed answer whose `scenes` array is missing or empty. */
  predicate NoScenes(d: GeminiService.Decoded) {
    d.Parsed? && d.json.JsonValue? && d.json.scenes.GetOr([]) == []
  }

  /** Every answer of the model is parsed JSON without scenes. */
  ghost predicate AnswersWithoutScenes(model: SceneModel, parse: GeminiService.Parser) {
    forall n, c :: model(n, c).ReplyText? && NoScenes(GeminiService.Decode(model(n, c).text, parse))
  }

  /** Answers without scenes are empty batches to the loop. */
  lemma NoScenesIsEmptyBatch(model: SceneModel, parse: GeminiService.Parser, nullRead: string)
    requires AnswersWithoutScenes(model, parse)
    ensures Accumulator.AlwaysEmpty(ScenesOracle(model, parse, nullRead))
  {
    forall n, current ensures ScenesOracle(model, parse, nullRead)(n, current) == Accumulator.Batch([]) {
      var c := GeminiService.ContinuationOf(current);
      assert model(n, c).ReplyText? && NoScenes(GeminiService.Decode(model(n, c).text, parse));
    }
  }

  /** A model that keeps answering without scenes makes the handler give up after five requests
      with the scenes it had, as an incomplete run; resuming asks five more times and ends the same. */
  lemma SceneLessAnswersEndIncomplete(scenes: seq<Scene>, script: string, duration: int,
                                      model: SceneModel, parse: GeminiService.Parser, nullRead: string)
    requires AnswersWithoutScenes(model, parse)
    requires Text.Trim(script) != [] && |scenes| < Accumulator.TargetScenes(duration)
    ensures var oracle := ScenesOracle(model, parse, nullRead);
      var first := Accumulator.Generate(scenes, script, duration, oracle);
      && first.outcome == Accumulator.Incomplete(|scenes|, Accumulator.TargetScenes(duration))
      && first.state.calls == Accumulator.MaxAttempts
      && first.state.observed.scenes == scenes
      && Accumulator.Resume(first, script, duration, oracle).outcome == first.outcome
  {
    NoScenesIsEmptyBatch(model, parse, nullRead);
    Accumulator.EmptyServiceThenResume(scenes, script, duration, ScenesOracle(model, parse, nullRead));
  }

  /** When the first answer of a run below target has no JSON that can be read, the run fails at
      once with the scenes unchanged and an error announced as a bad response. */
  lemma UnreadableFirstAnswerFails(scenes: seq<Scene>, script: string, duration: int, text: string,
                                   model: SceneModel, parse: GeminiService.Parser, nullRead: string)
    requires Text.Trim(script) != [] && |scenes| < Accumulator.TargetScenes(duration)
    requires model(0, GeminiService.ContinuationOf(scenes)) == GeminiService.ReplyText(text)
    requires !GeminiService.Decode(text, parse).Parsed?
    ensures var r := Accumulator.Generate(scenes, script, duration, ScenesOracle(model, parse, nullRead));
      && r.outcome.Failed?
      && ServiceErrors.KindOf(r.outcome.message) == ServiceErrors.ResponseError
      && r.state.current == scenes && r.state.calls == 1
  {
    GeminiService.SceneDecodeFailureIsResponseError(text, parse, nullRead);
    var m := GeminiService.ScenePrompts(GeminiService.ReplyText(text), parse, nullRead).error;
    OracleRelaysRejection(scenes, model, parse, nullRead, text);
    FirstRejectionEndsRun(scenes, script, duration, ScenesOracle(model, parse, nullRead), m);
  }

  lemma OracleRelaysRejection(scenes: seq<Scene>, model: SceneModel, parse: GeminiService.Parser, nullRead: string,
                              text: string)
    requires model(0, GeminiService.ContinuationOf(scenes)) == GeminiService.ReplyText(text)
    requires GeminiService.ScenePrompts(GeminiService.ReplyText(text), parse, nullRead).Failure?
    ensures ScenesOracle(model, parse, nullRead)(0, scenes)
         == Accumulator.Threw(GeminiService.ScenePrompts(GeminiService.ReplyText(text), parse, nullRead).error)
  {
  }

  /** A rejection of the first request of a run below target ends it with that message. */
  lemma FirstRejectionEndsRun(scenes: seq<Scene>, script: string, duration: int, oracle: Accumulator.BatchOracle,
                              m: string)
    requires Text.Trim(script) != [] && |scenes| < Accumulator.TargetScenes(duration)
    requires oracle(0, scenes) == Accumulator.Threw(m)
    ensures var r := Accumulator.Generate(scenes, script, duration, oracle);
      r.outcome == Accumulator.Failed(m) && r.state.current == scenes && r.state.calls == 1
  {
  }
}
