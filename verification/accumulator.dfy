/** The batched scene-generation loop of `handleGenerateStoryboard` and its re-entry through
    `handleResumeGeneration` (App.tsx). The generative service is a parameter: an oracle that
    answers the n-th request of a run, given the scenes accumulated so far. */
module Accumulator {
  import opened Wrappers
  import opened Model
  import opened SceneMerge
  import Text

  /** Consecutive unproductive requests after which the loop gives up (`maxAttempts`). */
  const MaxAttempts: nat := 5

  /** The settled value of one `generateScenePrompts` call: a rejection carrying its message, or
      a (possibly empty) list of scenes. */
  datatype BatchResult = Threw(message: string) | Batch(scenes: seq<Scene>)

  /** The generative service as seen by the loop. */
  type BatchOracle = (nat, seq<Scene>) -> BatchResult

  /** How a run of the handler ends. */
  datatype Outcome =
    | NotStarted                              // blank script: the handler returns at once, before it
                                              // touches `generationProgress`, so the progress in a
                                              // NotStarted report carries no meaning; its scenes and
                                              // call count do
    | Complete                                // `isGenerationComplete` is set
    | Incomplete(achieved: int, target: int)  // incomplete-generation error and the resume offer
    | Failed(message: string)                 // a request rejected; its message becomes `error`

  /** The loop's local variables and the state the user observes.
      `current` is `currentScenes`, `stagnation` is `safetyBreak`, `calls` counts requests. */
  datatype LoopState = LoopState(current: seq<Scene>, observed: Observed, stagnation: nat, calls: nat)

  datatype Report = Report(outcome: Outcome, state: LoopState)

  /** `Math.round(duration / 8)`: the nearest integer, halves rounded up. */
  function TargetScenes(duration: int): (n: int)
    ensures 8 * n - 4 <= duration < 8 * n + 4
  {
    (duration + 4) / 8
  }

  /** Some entry of the batch carries an id the accumulated scenes do not have yet. */
  predicate Productive(current: seq<Scene>, batch: seq<Scene>) {
    exists x :: x in batch && x.sceneId !in IdSet(current)
  }

  /** `uniqueNewScenes`: the batch entries whose id is not among the accumulated scenes, in batch
      order and with their multiplicity. Ids repeated inside the batch are not filtered. */
  function UniqueNew(current: seq<Scene>, batch: seq<Scene>): (r: seq<Scene>)
    ensures IsSubsequence(r, batch)
    ensures forall x :: multiset(r)[x] == if x.sceneId in IdSet(current) then 0 else multiset(batch)[x]
    ensures IdSet(r) <= IdSet(batch) && IdSet(r) !! IdSet(current)
    ensures r != [] <==> Productive(current, batch)
    decreases |batch|
  {
    if batch == [] then []
    else
      var rest := UniqueNew(current, batch[1..]);
      assert batch == [batch[0]] + batch[1..];
      IdSetConcat([batch[0]], batch[1..]);
      assert IdSet([batch[0]]) == {batch[0].sceneId};
      if batch[0].sceneId !in IdSet(current) then
        assert ([batch[0]] + rest)[1..] == rest;
        [batch[0]] + rest
      else
        rest
  }

  /** Nothing is filtered out of the first batch of an empty storyboard. */
  lemma {:induction false} UniqueNewOfNothing(batch: seq<Scene>)
    ensures UniqueNew([], batch) == batch
    decreases |batch|
  {
    if batch != [] {
      UniqueNewOfNothing(batch[1..]);
      assert batch == [batch[0]] + batch[1..];
    }
  }

  /** A batch without repeated ids leaves a filtered batch without repeated ids. */
  lemma {:induction false} UniqueNewKeepsUnique(current: seq<Scene>, batch: seq<Scene>)
    requires IdsUnique(batch)
    ensures IdsUnique(UniqueNew(current, batch))
    decreases |batch|
  {
    if batch != [] {
      var rest := UniqueNew(current, batch[1..]);
      assert IdsUnique(batch[1..]);
      UniqueNewKeepsUnique(current, batch[1..]);
      if batch[0].sceneId !in IdSet(current) {
        assert batch == [batch[0]] + batch[1..];
        IdSetConcat([batch[0]], batch[1..]);
        assert batch[0].sceneId !in IdSet(batch[1..]);
        assert IdSet([batch[0]]) == {batch[0].sceneId};
        IdsUniqueConcat([batch[0]], rest);
      }
    }
  }

  /** One iteration of the loop body once the request settled with `batch`. */
  function Step(st: LoopState, batch: seq<Scene>, total: int): (r: LoopState)
    ensures r.calls == st.calls + 1
    ensures r.current == st.current + UniqueNew(st.current, batch)
    ensures st.current <= r.current
    ensures Productive(st.current, batch) ==> r.stagnation == 0 && |r.current| > |st.current|
    ensures !Productive(st.current, batch) ==> r == st.(stagnation := st.stagnation + 1, calls := st.calls + 1)
  {
    if |batch| == 0 then
      st.(stagnation := st.stagnation + 1, calls := st.calls + 1)
    else
      var novel := UniqueNew(st.current, batch);
      if |novel| == 0 then
        st.(stagnation := st.stagnation + 1, calls := st.calls + 1)
      else
        LoopState(st.current + novel, MergeAll(st.observed, novel, total), 0, st.calls + 1)
  }

  /** What the loop keeps true between iterations: the observed scenes are coherent, show exactly
      the accumulated ids, and for every id show the first scene accumulated with it. */
  ghost predicate Invariant(st: LoopState, total: int) {
    && Coherent(st.observed, total)
    && IdSet(st.observed.scenes) == IdSet(st.current)
    && (forall id :: FirstById(st.observed.scenes, id) == FirstById(st.current, id))
  }

  lemma StepKeepsInvariant(st: LoopState, batch: seq<Scene>, total: int)
    ensures Invariant(st, total) ==> Invariant(Step(st, batch, total), total)
  {
    var novel := UniqueNew(st.current, batch);
    if Invariant(st, total) && novel != [] {
      var r := Step(st, batch, total);
      IdSetConcat(st.current, novel);
      forall id ensures FirstById(r.observed.scenes, id) == FirstById(r.current, id) {
        MergeAllFirstSeenWins(st.observed, novel, total, id);
        FirstByIdConcat(st.observed.scenes, novel, id);
        FirstByIdConcat(st.current, novel, id);
      }
    }
  }

  /** The `while` loop and the verdict after it, as a recursive reference definition. */
  function Run(st: LoopState, oracle: BatchOracle, total: int): (r: Report)
    requires st.stagnation <= MaxAttempts
    ensures r.outcome.Complete? ==> |r.state.current| >= total
    ensures r.outcome.Incomplete? ==>
      && r.outcome == Incomplete(|r.state.current|, total)
      && |r.state.current| < total
      && r.state.stagnation == MaxAttempts
    ensures !r.outcome.NotStarted?
    ensures |st.current| >= total ==> r == Report(Complete, st)
    ensures st.current <= r.state.current
    ensures r.state.calls >= st.calls
    ensures Invariant(st, total) ==> Invariant(r.state, total)
    decreases total - |st.current|, MaxAttempts - st.stagnation
  {
    if |st.current| >= total then Report(Complete, st)
    else if st.stagnation >= MaxAttempts then Report(Incomplete(|st.current|, total), st)
    else match oracle(st.calls, st.current)
      case Threw(message) => Report(Failed(message), st.(calls := st.calls + 1))
      case Batch(batch) =>
        var next := Step(st, batch, total);
        StepKeepsInvariant(st, batch, total);
        Run(next, oracle, total)
  }

  /** A service whose requests are never rejected. */
  ghost predicate NeverThrows(oracle: BatchOracle) {
    forall n, current :: oracle(n, current).Batch?
  }

  /** A failed report names the service's last answer: the request it made last, with the scenes
      it held, was rejected with the report's message. */
  ghost predicate FailureTraced(r: Report, oracle: BatchOracle) {
    r.outcome.Failed? ==>
      r.state.calls >= 1 && oracle(r.state.calls - 1, r.state.current) == Threw(r.outcome.message)
  }

  /** A run fails only on a rejected request, and with that request's message. */
  lemma {:induction false} FailureIsRejection(st: LoopState, oracle: BatchOracle, total: int)
    requires st.stagnation <= MaxAttempts
    ensures FailureTraced(Run(st, oracle, total), oracle)
    decreases total - |st.current|, MaxAttempts - st.stagnation
  {
    if |st.current| >= total || st.stagnation >= MaxAttempts {
      assert !Run(st, oracle, total).outcome.Failed?;
    } else {
      match oracle(st.calls, st.current)
      case Threw(message) =>
        RunRejected(st, oracle, total, message);
      case Batch(batch) =>
        RunTakesBatch(st, oracle, total, batch);
        FailureIsRejection(Step(st, batch, total), oracle, total);
    }
  }

  /** A rejected request below target ends the run with its message. */
  lemma RunRejected(st: LoopState, oracle: BatchOracle, total: int, message: string)
    requires st.stagnation < MaxAttempts && |st.current| < total
    requires oracle(st.calls, st.current) == Threw(message)
    ensures Run(st, oracle, total) == Report(Failed(message), st.(calls := st.calls + 1))
  {
  }

  /** Without rejections the loop never fails: it ends complete exactly when it holds at least the
      target number of scenes, and incomplete exactly when it holds fewer. */
  lemma RunWithoutRejection(st: LoopState, oracle: BatchOracle, total: int)
    requires NeverThrows(oracle) && st.stagnation <= MaxAttempts
    ensures var r := Run(st, oracle, total);
      && !r.outcome.Failed?
      && (r.outcome.Complete? <==> |r.state.current| >= total)
      && (r.outcome.Incomplete? <==> |r.state.current| < total)
  {
    FailureIsRejection(st, oracle, total);
    var r := Run(st, oracle, total);
    assert FailureTraced(r, oracle);
  }

  /** The state a run starts from: the scenes already shown and a progress counter reset to them. */
  function Start(scenes: seq<Scene>, total: int): (st: LoopState)
    ensures SortedById(scenes) && IdsUnique(scenes) ==> Invariant(st, total)
  {
    LoopState(scenes, Observed(scenes, Progress(|scenes|, total)), 0, 0)
  }

  /** `handleGenerateStoryboard` as a function of the scenes on screen, the script, the configured
      duration and the service. */
  function Generate(scenes: seq<Scene>, script: string, duration: int, oracle: BatchOracle): (r: Report)
    ensures r.outcome.NotStarted? <==> Text.Trim(script) == []
    ensures r.outcome.NotStarted? ==> r.state.calls == 0 && r.state.current == scenes
  {
    var total := TargetScenes(duration);
    // The report needs a state; only its scenes and its call count stand for the source here.
    if Text.Trim(script) == [] then Report(NotStarted, Start(scenes, total))
    else Run(Start(scenes, total), oracle, total)
  }

  /** `handleResumeGeneration`: the handler entered again, seeded with the scenes the user sees. */
  function Resume(previous: Report, script: string, duration: int, oracle: BatchOracle): (r: Report)
    ensures previous.state.observed.scenes <= r.state.current
  {
    Generate(previous.state.observed.scenes, script, duration, oracle)
  }

  /** The handler with its `while` loop. */
  method GenerateStoryboard(scenes: seq<Scene>, script: string, duration: int, oracle: BatchOracle)
    returns (r: Report)
    ensures r == Generate(scenes, script, duration, oracle)
    ensures r.outcome.Complete? ==> |r.state.current| >= TargetScenes(duration)
    ensures r.outcome.Incomplete? ==>
      r.outcome == Incomplete(|r.state.current|, TargetScenes(duration)) && |r.state.current| < TargetScenes(duration)
    ensures scenes <= r.state.current
    ensures SortedById(scenes) && IdsUnique(scenes) ==> Invariant(r.state, TargetScenes(duration))
  {
    var total := TargetScenes(duration);
    var st := Start(scenes, total);
    if Text.Trim(script) == [] {
      return Report(NotStarted, st);
    }
    while |st.current| < total && st.stagnation < MaxAttempts
      invariant st.stagnation <= MaxAttempts
      invariant Run(st, oracle, total) == Run(Start(scenes, total), oracle, total)
      decreases total - |st.current|, MaxAttempts - st.stagnation
    {
      match oracle(st.calls, st.current)
      case Threw(message) =>
        return Report(Failed(message), st.(calls := st.calls + 1));
      case Batch(batch) =>
        st := Step(st, batch, total);
    }
    if |st.current| < total {
      r := Report(Incomplete(|st.current|, total), st);
    } else {
      r := Report(Complete, st);
    }
  }

  /** A service that always answers with nothing. */
  ghost predicate AlwaysEmpty(oracle: BatchOracle) {
    forall n, current :: oracle(n, current) == Batch([])
  }

  /** Against a service that never yields a new scene, the loop stops after as many requests as
      it has attempts left, with the scenes it started from. */
  lemma {:induction false} EmptyServiceStagnates(st: LoopState, oracle: BatchOracle, total: int)
    requires AlwaysEmpty(oracle)
    requires st.stagnation <= MaxAttempts && |st.current| < total
    ensures Run(st, oracle, total) ==
      Report(Incomplete(|st.current|, total),
             st.(stagnation := MaxAttempts, calls := st.calls + (MaxAttempts - st.stagnation)))
    decreases MaxAttempts - st.stagnation
  {
    if st.stagnation < MaxAttempts {
      assert oracle(st.calls, st.current) == Batch([]);
      assert !Productive(st.current, []);
      EmptyServiceStagnates(Step(st, [], total), oracle, total);
    }
  }

  /** Below target, an empty service makes the handler give up after exactly five requests with
      the scenes unchanged, and resuming does the same again. */
  lemma EmptyServiceThenResume(scenes: seq<Scene>, script: string, duration: int, oracle: BatchOracle)
    requires AlwaysEmpty(oracle)
    requires Text.Trim(script) != [] && |scenes| < TargetScenes(duration)
    ensures var first := Generate(scenes, script, duration, oracle);
      && first.outcome == Incomplete(|scenes|, TargetScenes(duration))
      && first.state.calls == MaxAttempts
      && first.state.observed.scenes == scenes
      && var second := Resume(first, script, duration, oracle);
      && second.outcome == first.outcome
      && second.state.calls == MaxAttempts
  {
    var total := TargetScenes(duration);
    EmptyServiceStagnates(Start(scenes, total), oracle, total);
  }

  /** A service whose every answer brings at least one new id. */
  ghost predicate AlwaysProductive(oracle: BatchOracle) {
    forall n, current :: oracle(n, current).Batch? && Productive(current, oracle(n, current).scenes)
  }

  /** Against a service that always brings something new, the loop reaches its target. */
  lemma {:induction false} ProductiveServiceCompletes(st: LoopState, oracle: BatchOracle, total: int)
    requires AlwaysProductive(oracle)
    requires st.stagnation == 0
    ensures Run(st, oracle, total).outcome == Complete
    decreases total - |st.current|
  {
    if |st.current| < total {
      assert oracle(st.calls, st.current).Batch?;
      var batch := oracle(st.calls, st.current).scenes;
      assert Productive(st.current, batch);
      ProductiveServiceCompletes(Step(st, batch, total), oracle, total);
    }
  }

  /** When no batch repeats an id, the accumulated scenes have unique ids, so the number the
      verdict reports equals the number of scenes the user sees. */
  ghost predicate BatchesUnique(oracle: BatchOracle) {
    forall n, current :: oracle(n, current).Batch? ==> IdsUnique(oracle(n, current).scenes)
  }

  lemma {:induction false} UniqueBatchesCountShownScenes(st: LoopState, oracle: BatchOracle, total: int)
    requires BatchesUnique(oracle)
    requires st.stagnation <= MaxAttempts
    requires Invariant(st, total) && IdsUnique(st.current)
    ensures IdsUnique(Run(st, oracle, total).state.current)
    ensures |Run(st, oracle, total).state.current| == |Run(st, oracle, total).state.observed.scenes|
    decreases total - |st.current|, MaxAttempts - st.stagnation
  {
    if |st.current| < total && st.stagnation < MaxAttempts && oracle(st.calls, st.current).Batch? {
      var batch := oracle(st.calls, st.current).scenes;
      var next := Step(st, batch, total);
      assert Run(st, oracle, total) == Run(next, oracle, total);
      UniqueNewKeepsUnique(st.current, batch);
      IdsUniqueConcat(st.current, UniqueNew(st.current, batch));
      StepKeepsInvariant(st, batch, total);
      UniqueBatchesCountShownScenes(next, oracle, total);
    } else {
      var r := Run(st, oracle, total);
      assert r.state.current == st.current && r.state.observed == st.observed;
      IdsUniqueCount(st.current);
      IdsUniqueCount(st.observed.scenes);
    }
  }


  /** A scene as the service drafts it: no image yet. */
  function Draft(id: int, prompt: string): Scene {
    Scene(id, "", prompt, None, false)
  }

  /** A service whose second batch overlaps the first: it repeats id 2 with another prompt. */
  function OverlappingService(n: nat, current: seq<Scene>): BatchResult {
    if n == 0 then Batch([Draft(1, "a"), Draft(2, "b")]) else Batch([Draft(2, "x"), Draft(3, "c")])
  }

  /** A 24-second video asks for three scenes; the overlapping id is dropped, the first prompt
      for id 2 is kept, and the run completes after two requests. */
  lemma OverlappingBatchesScenario()
    ensures var r := Generate([], "story", 24, OverlappingService);
      && r.outcome == Complete
      && r.state.calls == 2
      && r.state.current == [Draft(1, "a"), Draft(2, "b"), Draft(3, "c")]
      && r.state.observed.scenes == r.state.current
      && r.state.observed.progress == Progress(3, 3)
  {
    StoryIsNotBlank();
    assert TargetScenes(24) == 3;
    OverlapFirstRound();
    OverlapSecondRound();
  }

  /** A run that has not stopped asks the service and goes on from the next state. */
  lemma RunTakesBatch(st: LoopState, oracle: BatchOracle, total: int, batch: seq<Scene>)
    requires st.stagnation < MaxAttempts && |st.current| < total
    requires oracle(st.calls, st.current) == Batch(batch)
    ensures Run(st, oracle, total) == Run(Step(st, batch, total), oracle, total)
  {
  }

  lemma OverlapFirstRound()
    ensures var b0 := [Draft(1, "a"), Draft(2, "b")];
      Run(Start([], 3), OverlappingService, 3)
        == Run(LoopState(b0, Observed(b0, Progress(2, 3)), 0, 1), OverlappingService, 3)
  {
    var b0 := [Draft(1, "a"), Draft(2, "b")];
    assert OverlappingService(0, []) == Batch(b0);
    RunTakesBatch(Start([], 3), OverlappingService, 3, b0);
    OverlapFirstStep();
  }

  lemma OverlapSecondRound()
    ensures var b0 := [Draft(1, "a"), Draft(2, "b")];
      var all := [Draft(1, "a"), Draft(2, "b"), Draft(3, "c")];
      Run(LoopState(b0, Observed(b0, Progress(2, 3)), 0, 1), OverlappingService, 3)
        == Report(Complete, LoopState(all, Observed(all, Progress(3, 3)), 0, 2))
  {
    var b0 := [Draft(1, "a"), Draft(2, "b")];
    var all := [Draft(1, "a"), Draft(2, "b"), Draft(3, "c")];
    var st := LoopState(b0, Observed(b0, Progress(2, 3)), 0, 1);
    assert OverlappingService(1, b0) == Batch([Draft(2, "x"), Draft(3, "c")]);
    RunTakesBatch(st, OverlappingService, 3, [Draft(2, "x"), Draft(3, "c")]);
    OverlapSecondStep();
    assert |all| == 3;
  }

  lemma StoryIsNotBlank()
    ensures Text.Trim("story") != []
  {
    assert !Text.IsSpace('s');
  }

  lemma OverlapFirstStep()
    ensures var b0 := [Draft(1, "a"), Draft(2, "b")];
      Step(Start([], 3), b0, 3) == LoopState(b0, Observed(b0, Progress(2, 3)), 0, 1)
  {
    var b0 := [Draft(1, "a"), Draft(2, "b")];
    var o0 := Start([], 3).observed;
    var o1 := Observed([Draft(1, "a")], Progress(1, 3));
    UniqueNewOfNothing(b0);
    assert MergeAll(o0, b0, 3) == MergeAll(o1, [Draft(2, "b")], 3) by {
      MergeAppendsLargest(o0, Draft(1, "a"), 3);
      assert b0[1..] == [Draft(2, "b")];
    }
    assert MergeAll(o1, [Draft(2, "b")], 3) == Observed(b0, Progress(2, 3)) by {
      MergeAppendsLargest(o1, Draft(2, "b"), 3);
      assert [Draft(2, "b")][1..] == [];
    }
  }

  lemma OverlapSecondStep()
    ensures var b0 := [Draft(1, "a"), Draft(2, "b")];
      var all := [Draft(1, "a"), Draft(2, "b"), Draft(3, "c")];
      Step(LoopState(b0, Observed(b0, Progress(2, 3)), 0, 1), [Draft(2, "x"), Draft(3, "c")], 3)
        == LoopState(all, Observed(all, Progress(3, 3)), 0, 2)
  {
    var b0 := [Draft(1, "a"), Draft(2, "b")];
    var all := [Draft(1, "a"), Draft(2, "b"), Draft(3, "c")];
    OverlapSecondNovel();
    assert b0 + [Draft(3, "c")] == all;
    MergeAppendsLargest(Observed(b0, Progress(2, 3)), Draft(3, "c"), 3);
    assert [Draft(3, "c")][1..] == [];
  }

  lemma OverlapSecondNovel()
    ensures UniqueNew([Draft(1, "a"), Draft(2, "b")], [Draft(2, "x"), Draft(3, "c")]) == [Draft(3, "c")]
  {
  }

  /** A service that repeats one id inside every batch. */
  function RepeatingService(n: nat, current: seq<Scene>): BatchResult {
    Batch([Draft(1, "a"), Draft(1, "b")])
  }

  /** Ids repeated inside one batch are counted twice by the loop but shown once: a 16-second
      video is reported complete after one request while a single scene is on screen. */
  lemma RepeatedIdInBatchOvercounts()
    ensures var r := Generate([], "story", 16, RepeatingService);
      && r.outcome == Complete
      && r.state.calls == 1
      && |r.state.current| == 2
      && r.state.observed.scenes == [Draft(1, "a")]
      && r.state.observed.progress == Progress(1, 2)
  {
    StoryIsNotBlank();
    assert TargetScenes(16) == 2;
    RepeatingOnlyRound();
  }

  lemma RepeatingOnlyRound()
    ensures var batch := [Draft(1, "a"), Draft(1, "b")];
      Run(Start([], 2), RepeatingService, 2)
        == Report(Complete, LoopState(batch, Observed([Draft(1, "a")], Progress(1, 2)), 0, 1))
  {
    var batch := [Draft(1, "a"), Draft(1, "b")];
    assert RepeatingService(0, []) == Batch(batch);
    RunTakesBatch(Start([], 2), RepeatingService, 2, batch);
    RepeatingFirstStep();
    assert |batch| == 2;
  }

  lemma RepeatingFirstStep()
    ensures var batch := [Draft(1, "a"), Draft(1, "b")];
      Step(Start([], 2), batch, 2) == LoopState(batch, Observed([Draft(1, "a")], Progress(1, 2)), 0, 1)
  {
    var batch := [Draft(1, "a"), Draft(1, "b")];
    UniqueNewOfNothing(batch);
    var o0 := Start([], 2).observed;
    var o1 := Observed([Draft(1, "a")], Progress(1, 2));
    MergeAppendsLargest(o0, Draft(1, "a"), 2);
    assert [Draft(1, "b")][1..] == [];
    assert MergeAll(o0, batch, 2) == MergeAll(o1, [Draft(1, "b")], 2);
  }
}
