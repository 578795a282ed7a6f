# Storyboard generator: a Dafny model of its core

The application turns a story idea into a video storyboard. The user writes an idea, describes
characters, and sets a duration in minutes. A generative model then writes a script and cuts it
into numbered scenes of 8 seconds, each with an image prompt. It can also draw the characters
and, using one character's portrait as a reference, an image for every scene. The prompts can be
edited, tagged and exported as text.

This project models the sequential logic behind that workflow as pure Dafny functions over
immutable records and proves what the code promises:

- **The storyboard loop** of `handleGenerateStoryboard`. It asks the service for batches of
  scenes, keeps only identifiers not yet collected, and gives up after five unproductive
  requests in a row. It ends complete, incomplete (with a resume offer) or failed. It is
  modelled as a recursive reference definition (`Accumulator.Run`) and as the `while` loop
  itself (`Accumulator.GenerateStoryboard`). The service is an oracle parameter.
- **The merge** of each new scene into the scenes on screen (`addScenesWithDelay`). The first
  scene seen for an identifier wins, and the list is re-sorted by identifier.
- **The service's post-processing**:
  - error classification by keyword;
  - tolerant extraction of JSON from the model's answer, computed by string search instead of a
    regular-expression engine, with `JSON.parse` as an abstract partial function;
  - the missing-array rules;
  - the continuation context;
  - the `data:` URLs of images.
- **The pure helpers of the application component**: the project name, the prompt export,
  updates of one scene by identifier, and the batch-image rule.
- **The input panel**: duration arithmetic, enabled buttons and character-list edits.
- **The scene card**: the tag splice, the save on blur and the default reference character.
- **The timeline**: display order, the characters with images, and the choice of the primary
  character.

Integers are unbounded. JavaScript's rounding, remainder, `substring` clamping, `trim` white
space and the heading pattern with its en dash (U+2013) are all written out.

One behaviour of the source is stated as a proved scenario, not corrected. The loop filters a
batch only against the scenes it already holds, not against the batch itself. So a batch that
repeats an identifier is counted twice, while the screen shows that identifier once.
`Accumulator.RepeatedIdInBatchOvercounts` exhibits a run reported complete with fewer scenes
shown than asked for. `Accumulator.UniqueBatchesCountShownScenes` proves that the two counts
agree when no batch repeats an identifier.

Modules, one per file:

| module | file | models |
|---|---|---|
| `Wrappers` | wrappers.dfy | `Option` and `Result` |
| `Text` | text.dfy | JavaScript string operations |
| `Search` | search.dfy | substring facts behind the error classification |
| `Model` | model.dfy | the records of types.ts, stable sort by id, look-up by id |
| `ServiceErrors` | service_errors.dfy | `getErrorMessage` and the locally thrown messages |
| `JsonExtract` | json_extract.dfy | the JSON extraction |
| `DataUri` | data_uri.dfy | building and splitting image `data:` URLs |
| `GeminiService` | gemini_service.dfy | the service functions after the network call |
| `SceneMerge` | merge.dfy | `addScenesWithDelay` |
| `Accumulator` | accumulator.dfy | the storyboard loop and its resume |
| `Storyboard` | storyboard.dfy | the loop wired to the scene request |
| `AppActions` | app_actions.dfy | the other pure logic of App.tsx |
| `InputPanel` | input_panel.dfy | components/InputPanel.tsx |
| `SceneCard` | scene_card.dfy | components/SceneCard.tsx |
| `SceneTimeline` | scene_timeline.dfy | components/SceneTimeline.tsx |

## Model

| member | source | states |
|---|---|---|
| Text.Trim | App.tsx:44 | the trimmed text is no longer than the input, has no white space at either end, and is empty exactly when the input is all white space (ECMA-262 WhiteSpace and LineTerminator) |
| Text.TrimSplits | App.tsx:44 | every string is its trimmed self between two runs of white space |
| Text.TrimIgnoresPadding | components/SceneCard.tsx:39 | adding white space at either end does not change the trimmed text |
| Text.TrimIdempotent | components/SceneCard.tsx:39 | trimming twice is trimming once |
| Text.FirstLine | App.tsx:44 | `split('\n')[0]` is a prefix without a line feed, followed by a line feed when shorter than the text |
| Text.NatToStringRoundTrip | components/InputPanel.tsx:53 | the decimal digits written for a number read back as that number |
| Model.SortById | components/SceneTimeline.tsx:41 | the sort by `scene_id` gives an ordered permutation of the scenes |
| Model.SortIsStable | components/SceneTimeline.tsx:41 | the sort is stable: for every id, the scenes carrying it come out in the order they went in |
| Model.SortOfSorted | App.tsx:147 | sorting an ordered list leaves it unchanged |
| Model.SortIgnoresOrder | App.tsx:331 | with unique ids, the sorted list does not depend on the starting order |
| Model.SortKeepsUnique | App.tsx:147 | sorting keeps identifiers unique |
| Model.InsertById | App.tsx:147 | inserting one scene adds exactly that scene and keeps an ordered list ordered |
| Model.FirstById | App.tsx:247 | `find` by id returns a scene exactly when the id is present, and then the first scene in the list with that id |
| Model.IdsUniqueCount | App.tsx:148 | a list with unique ids has as many ids as scenes |
| ServiceErrors.FirstRule | services/geminiService.ts:19-32 | the kind of the first keyword the lower-cased message contains, in table order; generic when none matches |
| ServiceErrors.RulesInOrder | services/geminiService.ts:19-30 | the keyword table tried in order is the chain "api key", "quota", "permission denied", "json" |
| ServiceErrors.ErrorMessage | services/geminiService.ts:14-35 | every message names the context it was raised in |
| ServiceErrors.ErrorMessageAnnouncesKind | services/geminiService.ts:14-35 | the opening words of the message announce the kind the first matching keyword selects; a value that is not an `Error` announces an unknown error |
| ServiceErrors.GenericKeepsMessage | services/geminiService.ts:32 | a message without keywords is passed on in full after the context |
| ServiceErrors.UnknownAnnounced | services/geminiService.ts:34 | a thrown non-`Error` gives the unknown-error message |
| ServiceErrors.SceneJsonMissingIsResponseError | services/geminiService.ts:174 | the missing-JSON failure of the scene request is classified as a response error |
| ServiceErrors.SceneJsonInvalidIsResponseError | services/geminiService.ts:184 | the unparsable-JSON failure of the scene request is classified as a response error |
| ServiceErrors.CharacterJsonMissingIsResponseError | services/geminiService.ts:246 | the missing-JSON failure of the character request is classified as a response error |
| ServiceErrors.CharacterJsonInvalidIsResponseError | services/geminiService.ts:256 | the unparsable-JSON failure of the character request is classified as a response error |
| ServiceErrors.CharacterListMissingIsResponseError | services/geminiService.ts:265 | the missing-`characters` failure is classified as a response error |
| ServiceErrors.LocalFailureAnnouncedAsResponse | services/geminiService.ts:268-269 | any local parse or structure failure, rewrapped in any context, announces a response error |
| ServiceErrors.NoImageDataIsGeneric | services/geminiService.ts:292-295 | the missing-image failure has no keyword and is rewrapped with its text kept |
| ServiceErrors.JsonSentenceIsResponseError | services/geminiService.ts:28-29 | a sentence containing the word JSON and none of the earlier keywords is a response error |
| JsonExtract.IndexFrom | services/geminiService.ts:170 | the first occurrence at or after a position, or proof that none exists |
| JsonExtract.FenceCapture | services/geminiService.ts:170 | the fenced alternative matches exactly when an opening fence has a closing fence after it, and captures the trimmed text up to the nearest closing fence |
| JsonExtract.BraceCapture | services/geminiService.ts:170 | the brace alternative matches exactly when an opening brace has a closing brace after it, and captures the span up to the last closing brace |
| JsonExtract.AlternativesExclusive | services/geminiService.ts:170 | the two alternatives never match at the same position, so their order never matters |
| JsonExtract.ExtractJson | services/geminiService.ts:170-177 | a capture exists exactly when some position matches, and it is a part of the text |
| JsonExtract.ExtractLeftmost | services/geminiService.ts:171 | the capture is the one of the leftmost matching position |
| JsonExtract.BareObjectExtractsWhole | services/geminiService.ts:170-177 | an answer that is one object is handed over whole |
| JsonExtract.FencedBlockExtractsBody | services/geminiService.ts:170-177 | an answer that is one fenced block whose body has no backtick hands over that body without surrounding white space |
| DataUri.PngDataUri | services/geminiService.ts:289 | the URL is the PNG prefix followed by the payload |
| DataUri.ParseDataUri | services/geminiService.ts:302-307 | the split succeeds exactly for an `image/` URL without line terminators that has a marker leaving a non-empty media subtype and payload; it splits at the last such marker and reassembles the input |
| DataUri.PngRoundTrip | services/geminiService.ts:302-307 | a PNG URL built from a non-empty base64 payload splits back into `image/png` and that payload |
| DataUri.EmptyPayloadRefused | services/geminiService.ts:302-305 | a URL with an empty payload is refused |
| GeminiService.MaxId | services/geminiService.ts:131 | the largest id is one of the ids and bounds all of them |
| GeminiService.RecentScenes | services/geminiService.ts:138 | `slice(-3)` is the suffix of the last three scenes, or all of them |
| GeminiService.ContinuationOf | services/geminiService.ts:126-140 | a continuation exactly when scenes exist; it names the largest id, asks to start after it, and shows the last three scenes |
| GeminiService.ContinuationStartsFresh | services/geminiService.ts:135 | the number the model is asked to start from is larger than every existing id |
| GeminiService.SortedContinuesAfterLast | services/geminiService.ts:131 | on an ordered list the last scene number is the id of the last scene |
| GeminiService.Decode | services/geminiService.ts:168-185 | an answer decodes exactly when JSON is found, the capture is not empty and the parser accepts it |
| GeminiService.ScenePrompts | services/geminiService.ts:168-195 | every failure of the scene request is a `getErrorMessage` rewrap in its context |
| GeminiService.ScenePromptsSucceed | services/geminiService.ts:168-192 | the scene request succeeds exactly when the model answers with text whose JSON is found and parses to a value other than `null` |
| GeminiService.ParsedScenesAreTheBatch | services/geminiService.ts:187-192 | a parsed `scenes` array is returned as it is, and a missing one as an empty list |
| GeminiService.SceneDecodeFailureIsResponseError | services/geminiService.ts:173-194 | an answer without readable JSON fails the scene request with a response error |
| GeminiService.Identify | services/geminiService.ts:260-263 | as many characters as drafts, in order, with name and description kept, the i-th fresh id, and no image |
| GeminiService.IdentifyForgets | services/geminiService.ts:260-263 | dropping the ids gives back the drafts |
| GeminiService.IdentifyDistinct | services/geminiService.ts:262 | distinct fresh ids give characters with distinct ids |
| GeminiService.CharacterDna | services/geminiService.ts:241-270 | every failure of the character request is a `getErrorMessage` rewrap in its context |
| GeminiService.CharacterDecodeFailureIsResponseError | services/geminiService.ts:245-269 | unreadable JSON or a missing `characters` array fails the character request with a response error |
| GeminiService.MissingArraySoftForScenesHardForCharacters | services/geminiService.ts:187-192 | a parsed answer without arrays gives no scenes but fails the character request |
| GeminiService.CharactersKeepDrafts | services/geminiService.ts:259-263 | a parsed `characters` array gives as many characters, in order, keeping name and description |
| GeminiService.FirstInline | services/geminiService.ts:286-291 | the payload of the first inline-data part, or none exactly when no part has inline data |
| GeminiService.ImageAnswer | services/geminiService.ts:286-296 | a success is a PNG `data:` URL; every failure is a `getErrorMessage` rewrap |
| GeminiService.NoImagePartKeepsMessage | services/geminiService.ts:292-295 | an answer without an image part fails with the missing-image text kept in the message |
| GeminiService.GenerateCharacterImage | services/geminiService.ts:273-297 | the portrait request succeeds exactly when the answer has a part with inline data, and then gives a PNG `data:` URL; every failure is a `getErrorMessage` rewrap |
| GeminiService.GenerateSceneImage | services/geminiService.ts:302-305 | a malformed reference fails with the unwrapped invalid-format message |
| GeminiService.RefusedBeforeRequest | services/geminiService.ts:302-305 | a malformed reference is refused whatever the model would answer |
| GeminiService.PortraitServesAsReference | services/geminiService.ts:286-307 | a portrait the service produced is accepted as a scene image reference and sent on as `image/png` with its payload |
| SceneMerge.MergeScene | App.tsx:143-150 | a known id leaves the state unchanged; a new id adds exactly that scene, keeps the list ordered and sets the progress to the new size |
| SceneMerge.MergeIdempotent | App.tsx:143-146 | merging the same scene twice is merging it once |
| SceneMerge.MergeInsertsInPlace | App.tsx:147 | on an ordered list a new scene is inserted at its place by id |
| SceneMerge.MergeAppendsLargest | App.tsx:147-148 | a scene with a larger id than all shown goes last and the progress counts it |
| SceneMerge.MergeKeepsCoherent | App.tsx:143-149 | merging keeps the shown list ordered, id-unique and counted by the progress |
| SceneMerge.MergeAll | App.tsx:141-153 | merging a batch adds exactly the batch's ids and keeps the state coherent |
| SceneMerge.MergeAllFirstSeenWins | App.tsx:142-146 | after a batch, the scene shown for each id is the first one with that id in the old list followed by the batch |
| Accumulator.TargetScenes | App.tsx:129 | `Math.round(duration / 8)` is the integer within half a scene of the duration |
| Accumulator.UniqueNew | App.tsx:171-173 | the batch entries whose id is not yet collected, in batch order, with their multiplicity; empty exactly when the batch brings nothing new |
| Accumulator.UniqueNewOfNothing | App.tsx:171-173 | against no scenes, nothing is filtered |
| Accumulator.UniqueNewKeepsUnique | App.tsx:171-173 | a batch without repeated ids leaves a filtered batch without repeated ids |
| Accumulator.Step | App.tsx:166-181 | one iteration appends the new scenes; a productive batch resets the stagnation counter and grows the list, any other batch only counts one more unproductive request |
| Accumulator.StepKeepsInvariant | App.tsx:171-180 | one iteration keeps the shown scenes coherent, with the same ids as the collected ones and the first-seen scene for each id |
| Accumulator.Run | App.tsx:155-189 | the loop ends complete only at or above the target and incomplete only below it after five unproductive requests; the collection only grows by appending |
| Accumulator.Generate | App.tsx:122-197 | the handler does nothing exactly when the script is blank |
| Accumulator.Resume | App.tsx:199-203 | resuming starts from the scenes on screen and keeps them |
| Accumulator.GenerateStoryboard | App.tsx:122-197 | the `while` loop computes the reference definition and keeps its guarantees |
| Accumulator.EmptyServiceStagnates | App.tsx:155-169 | against an empty service the loop stops after the attempts it has left, with the scenes unchanged |
| Accumulator.EmptyServiceThenResume | App.tsx:155-203 | below target, an empty service makes the run stop incomplete after five requests, and a resume does the same again |
| Accumulator.ProductiveServiceCompletes | App.tsx:155-189 | a service that always brings something new makes the run complete |
| Accumulator.UniqueBatchesCountShownScenes | App.tsx:171-179 | when no batch repeats an id, the collected scenes are id-unique and as many as those shown |
| Accumulator.FailureIsRejection | App.tsx:155-192 | a run ends failed only when its last request was rejected, with the scenes it held, and with that rejection's message |
| Accumulator.RunRejected | App.tsx:191-192 | a rejected request below target ends the run with the rejection's message and the scenes unchanged |
| Accumulator.RunWithoutRejection | App.tsx:184-189 | with a service that never rejects, the run never fails: it ends complete exactly when it holds at least the target number of scenes, and incomplete exactly when it holds fewer |
| Accumulator.RunTakesBatch | App.tsx:155-181 | a run below target with attempts left asks the service and continues from the next state |
| Accumulator.OverlappingBatchesScenario | App.tsx:155-189 | for 24 seconds, batches {1,2} then {2,3} give scenes 1, 2, 3 after two requests, complete, with the first prompt for id 2 kept |
| Accumulator.RepeatedIdInBatchOvercounts | App.tsx:171-179 | a batch repeating an id is counted twice but shown once, so a 16-second run reports complete with one scene shown |
| Storyboard.ToBatch | App.tsx:191-192 | a rejected request becomes a thrown message, a fulfilled one its batch |
| Storyboard.NoScenesIsEmptyBatch | services/geminiService.ts:187-192 | answers without a `scenes` array are empty batches to the loop |
| Storyboard.SceneLessAnswersEndIncomplete | App.tsx:155-189 | a model that never answers with scenes ends the run incomplete after five requests, and a resume ends it the same way |
| Storyboard.FirstRejectionEndsRun | App.tsx:191-192 | a rejected first request ends the run failed with that message and the scenes unchanged |
| Storyboard.UnreadableFirstAnswerFails | services/geminiService.ts:173-194 | an unreadable first answer fails the run at once with a response error and the scenes unchanged |
| AppActions.ProjectName | App.tsx:43-50 | the name is the placeholder, or a trimmed single-line part of the idea of 1 to 49 characters |
| AppActions.SingleLineIdeaName | App.tsx:43-50 | a one-line idea, however padded with white space, names the project after its trimmed text when that has 1 to 49 characters, and leaves it untitled otherwise |
| AppActions.FirstLineIdeaName | App.tsx:43-50 | an idea of several lines is named by the same rule applied to its first line alone, whatever the later lines hold |
| AppActions.ExportLine | App.tsx:333 | a paragraph is the prompt as it is, or, for a prompt opening with `Scene ` and a digit, the scene's own id, `. `, and the rest of the prompt from its first character that is not white space after the heading |
| AppActions.DigitRun | App.tsx:333 | the length of the opening digit run (`\d+` matched greedily) |
| AppActions.HeadingLength | App.tsx:333 | when the heading pattern matches, it starts with `Scene ` and ends before a character that is not white space |
| AppActions.HeadingRenumbered | App.tsx:333 | a prompt `Scene `, any non-empty run of digits (leading zeros included), a space, an en dash and white space is exported as the scene's own id, `. `, and what follows the white space |
| AppActions.ChangedOnlyWhenHeaded | App.tsx:333 | a paragraph differs from its prompt only when the prompt is `Scene `, a non-empty digit run, a space, an en dash, white space and a body not opening with white space; the paragraph is then the scene's own id, `. ` and that body |
| AppActions.UnheadedPromptKept | App.tsx:333 | a prompt not opening with `Scene ` is exported unchanged |
| AppActions.Export | App.tsx:329-334 | an empty storyboard exports nothing |
| AppActions.ExportIgnoresOrder | App.tsx:331-334 | with unique ids, the exported text does not depend on the order the scenes are held in |
| AppActions.ExportOfOrdered | App.tsx:331-334 | an ordered storyboard exports its paragraphs in that order, joined by blank lines |
| AppActions.UpdateScene | App.tsx:404-406 | the list keeps its length; the scenes with the id are edited, all the others are kept as they were |
| AppActions.UpdateKeepsShape | App.tsx:404-406 | an update that keeps ids keeps the set of ids, their order and their uniqueness |
| AppActions.UpdateThenFind | App.tsx:251-259 | after an update, the scene found for that id is the updated one, and for any other id the old one |
| AppActions.PromptEditIdempotent | App.tsx:403-406 | saving the same prompt twice is saving it once |
| AppActions.EditsKeepIds | App.tsx:251-259 | marking, finishing, aborting and prompt edits never change a scene's id |
| AppActions.FindCharacter | App.tsx:264 | `find` returns the first character with that id, and none exactly when no character has it |
| AppActions.Pending | App.tsx:274 | the scenes without an image, in order, each as often as it occurs, and no other scene |
| AppActions.RenderEach | App.tsx:276-288 | the batch keeps the ids of the scenes; it asks for a prefix of the pending scenes, all of them when no error is set |
| AppActions.RenderStopsAtRejection | App.tsx:276-288 | requests go in order; the batch either runs through with every request accepted, or stops at the first rejected scene, which the error names |
| AppActions.RenderLeavesOthers | App.tsx:276-288 | scenes not pending are left as they were |
| AppActions.Answered | App.tsx:281-284 | an accepted request leaves its image on the scene, a rejected one leaves the image as it was; either way the scene is no longer marked and keeps id, time and prompt |
| AppActions.RenderAnswers | App.tsx:276-288 | with unique pending ids, every scene the loop asked an image for carries the answer to its request, and every pending scene after that is as it was |
| AppActions.PendingKeepsUnique | App.tsx:274 | dropping the scenes with an image keeps identifiers unique |
| AppActions.GenerateAllSceneImages | App.tsx:263-291 | the batch keeps the ids of the scenes, in order |
| AppActions.NoReferenceRequestsNothing | App.tsx:264-268 | without a character that has a reference image, nothing is requested, nothing changes and the error is set |
| AppActions.BatchStopsAtFirstRejection | App.tsx:263-291 | with a reference image, images are asked for the scenes without one, in order, stopping at the first rejection |
| AppActions.BatchKeepsFinishedScenes | App.tsx:274 | with unique ids, scenes that already have an image are not touched |
| AppActions.BatchStoresImages | App.tsx:274-288 | with unique ids and `k` the pending position where the batch stopped (the end when it ran through): a pending scene before `k` had its request accepted and holds the returned image, unmarked; the scene at `k` is only unmarked; later pending scenes are as they were |
| InputPanel.DurationForMinutes | components/InputPanel.tsx:64-77 | the duration is a non-negative multiple of 8, positive exactly when the minutes are a positive number |
| InputPanel.MinutesToDuration | components/InputPanel.tsx:70-73 | m minutes ask for (15m+1)/2 scenes: 60m seconds for even m, 60m+4 for odd m; the one-scene minimum never applies |
| InputPanel.MinutesDisplay | components/InputPanel.tsx:50-57 | the field is empty exactly when no duration is set, and otherwise shows digits |
| InputPanel.MinutesRoundTrip | components/InputPanel.tsx:51-53 | the minutes shown for a duration set from m minutes are m |
| InputPanel.BadMinutesClearDuration | components/InputPanel.tsx:74-76 | missing or non-positive minutes clear the duration |
| InputPanel.JsRem | components/InputPanel.tsx:97 | JavaScript's `%` takes the sign of the dividend and stays below the divisor in size |
| InputPanel.DisplaySplit | components/InputPanel.tsx:96-97 | minutes times 60 plus the seconds shown give back the duration, with fewer than 60 seconds |
| InputPanel.ScenesShownIsTarget | components/InputPanel.tsx:95 | a duration set from minutes shows a whole number of scenes, the loop's target |
| InputPanel.MinutesShown | components/InputPanel.tsx:96 | the whole minutes in the duration, rounded down |
| InputPanel.SecondsShown | components/InputPanel.tsx:97 | the seconds left after whole minutes: below 60 and congruent to the duration for a non-negative one, in (-60, 0] for a negative one |
| InputPanel.ScenesShown | components/InputPanel.tsx:95 | the duration divided into 8-second scenes, and 0 without a positive duration |
| InputPanel.CanGenerateScript | components/InputPanel.tsx:101 | the script button asks for what the character button asks for, at least one character and a positive duration |
| InputPanel.CanGenerateStoryboard | components/InputPanel.tsx:102 | the storyboard button asks for what the script button asks for and a script that is not blank |
| InputPanel.GatesNest | components/InputPanel.tsx:100-102 | the storyboard button needs everything the script button needs, which needs everything the character button needs |
| InputPanel.PrimaryPassesHandlerGuard | components/InputPanel.tsx:299 | an enabled primary button passes the early return of the handler it calls |
| InputPanel.BadMinutesDisable | components/InputPanel.tsx:101 | bad minutes keep the script and primary buttons disabled |
| InputPanel.AddCharacter | components/InputPanel.tsx:79-81 | one blank character with the new id is appended and the others are untouched |
| InputPanel.RemoveCharacter | components/InputPanel.tsx:83-85 | exactly the entry at the index is removed, order kept; an index out of range changes nothing |
| InputPanel.RemoveUndoesAdd | components/InputPanel.tsx:79-85 | removing the character just added gives back the list |
| InputPanel.AddedCharacterBlocksScript | components/InputPanel.tsx:101 | a newly added character has no description, so the script button is disabled |
| InputPanel.ChangeCharacter | components/InputPanel.tsx:87-93 | only the named field of the entry at the index changes |
| InputPanel.ChangeToSameIsNoOp | components/InputPanel.tsx:87-93 | writing back the value a field holds changes nothing |
| SceneCard.Clamp | components/SceneCard.tsx:52 | `substring` clamps an index into the text and keeps one already inside it |
| SceneCard.InsertTag | components/SceneCard.tsx:44-60 | the selection is replaced by the tag, with the prefix and suffix kept and the length adjusted; the parent receives the new text; the cursor lands right after the tag |
| SceneCard.EmptyTagKeepsText | components/SceneCard.tsx:52 | inserting nothing over an empty selection keeps the text |
| SceneCard.Blur | components/SceneCard.tsx:38-42 | the untrimmed text is saved exactly when its trimmed form differs from the stored prompt's |
| SceneCard.PaddingNotSaved | components/SceneCard.tsx:39 | white space added at the ends of the stored prompt is not saved |
| SceneCard.SavedTextIsSettled | components/SceneCard.tsx:38-41 | once the parent stores a text, leaving the field saves nothing more |
| SceneCard.DefaultSelection | components/SceneCard.tsx:28-32 | a selection is kept as it is; an empty one takes the first candidate, or stays empty when there is none |
| SceneCard.DefaultSelectionSettles | components/SceneCard.tsx:28-32 | running the selection effect again changes nothing |
| SceneCard.CardKeepsVanishedSelection | components/SceneCard.tsx:28-32 | the card keeps a selection that is no longer a candidate, which the timeline's rule would reset |
| SceneTimeline.SortedScenes | components/SceneTimeline.tsx:41 | the displayed scenes are an ordered permutation of the scenes |
| SceneTimeline.DisplayOrderCanonical | components/SceneTimeline.tsx:41 | with unique ids, the displayed order depends only on which scenes exist, and an ordered list is shown as it is |
| SceneTimeline.CharactersWithImages | components/SceneTimeline.tsx:43-45 | the candidates are `{ id, name }` of characters with an image, in their order, and every character with an image is among them |
| SceneTimeline.WithImages | components/SceneTimeline.tsx:44 | the filter keeps every character with an image in order, as often as it occurs, and no other |
| SceneTimeline.CandidatesAreFiltered | components/SceneTimeline.tsx:43-45 | the candidates are the filtered characters projected one by one, so multiplicity and order are kept |
| SceneTimeline.HasGeneratedImages | components/SceneTimeline.tsx:47 | true exactly when some scene has an image |
| SceneTimeline.ImagesIffBatchSkips | components/SceneTimeline.tsx:47 | some scene has an image exactly when the batch would skip some scene |
| SceneTimeline.SelectPrimary | components/SceneTimeline.tsx:49-58 | the primary id is empty or a candidate; a listed selection is kept; an empty or vanished one falls back to the first candidate or to nothing |
| SceneTimeline.SelectionSettles | components/SceneTimeline.tsx:49-58 | the selection it sets does not make the effect change it again |
| SceneTimeline.EnabledBatchHasReference | components/SceneTimeline.tsx:95 | with unique character ids, an enabled batch button finds its character with a reference image |

## Left out

- The network calls to the model are parameters. The scene batches, the scene and character
  answers, and the image answers are oracles. A reply either throws or carries text or parts.
- The two image services (`AppActions.ImageService` and the image model of
  `GeminiService.GenerateCharacterImage` and `GeminiService.GenerateSceneImage`) are functions of
  the request alone. Two identical requests in one batch therefore get the same answer, where
  the real service may answer them differently. No stated property depends on this. The
  scene-batch oracle, by contrast, also takes the request number.
- `JSON.parse` is an abstract partial function. The parsed value is reduced to `null`, or to its
  `scenes` and `characters` arrays; a `scenes` value that is not an array reads as missing.
  The schemas, `temperature` and the other request options are not modelled. Neither is the
  text of the scene, character, idea and script prompts. The two image instructions are
  modelled as constants, and so is the order in which the description or prompt follows them.
- `generateStoryIdea`, `generateScript` and the handlers that only await them
  (`handleGenerateStoryIdea`, `handleGenerateScript`, `handleGenerateCharacter`) are left out.
  They pass the model's text through `trim` and set state; only their guards appear, in
  `InputPanel.PrimaryPassesHandlerGuard`.
- `handleGenerateCharacterImage` and `handleGenerateSceneImage` are not modelled as handlers. The
  per-id updates they make are `AppActions.UpdateScene` with the edits `StartImage`,
  `FinishImage` and `AbortImage`.
- React state, effects and re-rendering are left out. So are the stale-closure behaviour, the
  200 ms pause between merged scenes, `batchNumber` and the status and progress messages other
  than the progress counter. The loop and the merge are modelled as if each state update took
  effect at once.
- The zip download and the file download (JSZip, `fetch`, Blob, DOM links) are left out. Only
  the exported text is modelled.
- `resetState` and the new-project confirmation are left out; they only reset fields.
- Translations, the Loader percentage, the modal dialogs, the header, the guide, the prompt
  helper and the icons are left out. They are text tables or presentation.
- Strings are sequences of code points. JavaScript's UTF-16 lengths are not modelled.
- Text.Lower: lower-cases ASCII letters only, because every keyword it is compared with is
  ASCII. A non-ASCII upper-case letter that lower-cases into a keyword letter is not modelled.
- `parseInt` is replaced by an optional integer, the number it yields or none for `NaN`.
  `crypto.randomUUID` is an identifier source passed in. The engine's message for reading a
  property of `null` is a parameter.
- The `...char` spread of `generateCharacterDNA` keeps only name and description. Any extra
  property the model returns is dropped.
- JsonExtract.ExtractJson: a match at one position is decided by the fence and the brace
  alternatives, which never both match there. The lazy `\s*` around the fenced body is folded
  into `trim`; the two are equal.
- SceneCard.InsertTag: the splice is stated for selections with
  `0 <= start <= end <= length`, the only selections a text area reports. The early return
  for a missing text area and the focus and cursor timer are left out; the cursor position is
  a result.
- InputPanel.ChangeCharacter: requires an index inside the list. The panel only calls it with
  the index of a rendered entry. An out-of-range write would create an array hole, which
  sequences cannot represent.
- InputPanel.DisplaySplit: requires a non-negative duration. The duration is only ever set
  from `DurationForMinutes`, which is never negative; `JsRem` covers negative dividends.
- InputPanel.JsRem: states the sign and size of the remainder, not its congruence with the
  dividend.
- `InputPanel.ScenesShown` is a real number. JavaScript's floating-point division is taken as
  exact.
- AppActions.Export: the contract states only when there is nothing to export. The text itself
  is stated by `AppActions.ExportOfOrdered`, `AppActions.ExportIgnoresOrder`,
  `AppActions.HeadingRenumbered` and `AppActions.ChangedOnlyWhenHeaded`.
- AppActions.RenderEach: states the requested prefix in one direction only. A batch whose last
  pending scene is rejected has asked for every scene but still sets an error. What it leaves on
  each scene is stated by `AppActions.RenderAnswers` and `AppActions.RenderLeavesOthers`.
- AppActions.GenerateAllSceneImages: the contract states only that ids are kept. The images it
  stores and the marks it clears are stated by `AppActions.BatchStoresImages`, the scenes it
  leaves alone by `AppActions.BatchKeepsFinishedScenes`.
- GeminiService.ScenePrompts: states that failures are rewraps. When it succeeds is stated by
  `GeminiService.ScenePromptsSucceed`, the kinds of the failures by
  `GeminiService.SceneDecodeFailureIsResponseError`, and the batch it returns by
  `GeminiService.ParsedScenesAreTheBatch`.
- GeminiService.GenerateScenePrompts carries no contract of its own. Its behaviour is stated
  through `Storyboard.ScenesOracle` and the lemmas about it.
- The `{ id, name }` options, the select boxes and the disabled states other than the ones above
  are presentation.
