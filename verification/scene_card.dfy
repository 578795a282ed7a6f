/** The editing rules of components/SceneCard.tsx: the tag inserted at the text selection, the
    save on leaving the text field, and the default reference character. */
module SceneCard {
  import opened Wrappers
  import opened Text
  import opened Model
  import AppActions
  import SceneTimeline

  /** `String.prototype.substring` clamps its indices into the string. */
  function Clamp(i: int, n: nat): (r: nat)
    ensures r <= n
    ensures 0 <= i <= n ==> r == i
  {
    if i < 0 then 0 else if i > n then n else i
  }

  /** What inserting a tag does: the card's new text, the update sent to the parent, and where
      the cursor is put. */
  datatype Insertion = Insertion(text: string, update: (int, string), cursor: int)

  /** `handleInsertTag`: the selection `[start, end)` of `text` is replaced by the tag, the parent
      is told at once, and the cursor goes right after the tag. */
  function InsertTag(scene: Scene, text: string, start: int, end: int, tag: string): (r: Insertion)
    ensures r.update == (scene.sceneId, r.text)
    ensures r.cursor == start + |tag|
    ensures 0 <= start <= end <= |text| ==>
      && |r.text| == |text| - (end - start) + |tag|
      && r.text[..start] == text[..start]
      && r.text[start..r.cursor] == tag
      && r.text[r.cursor..] == text[end..]
      && r.cursor <= |r.text|
  {
    var newText := text[..Clamp(start, |text|)] + tag + text[Clamp(end, |text|)..];
    Insertion(newText, (scene.sceneId, newText), start + |tag|)
  }

  /** Inserting nothing over an empty selection leaves the text as it was. */
  lemma EmptyTagKeepsText(scene: Scene, text: string, k: int)
    requires 0 <= k <= |text|
    ensures InsertTag(scene, text, k, k, "").text == text
  {
    var r := InsertTag(scene, text, k, k, "");
    assert r.text == r.text[..k] + r.text[k..];
  }

  /** `handleBlur`: the prompt to save, when the edited text differs from the stored one other
      than in white space at its ends. The untrimmed text is what is saved. */
  function Blur(scene: Scene, local: string): (r: Option<string>)
    ensures r.Some? <==> Trim(local) != Trim(scene.prompt)
    ensures r.Some? ==> r.value == local
  {
    if Trim(local) != Trim(scene.prompt) then Some(local) else None
  }

  /** Adding or removing white space at the ends of the stored prompt is not saved. */
  lemma PaddingNotSaved(scene: Scene, before: string, after: string)
    requires AllSpace(before) && AllSpace(after)
    ensures Blur(scene, before + scene.prompt + after) == None
  {
    TrimIgnoresPadding(before, scene.prompt, after);
  }

  /** Once the parent has stored a saved or inserted text, leaving the field saves nothing more. */
  lemma SavedTextIsSettled(scenes: seq<Scene>, i: int, text: string)
    requires 0 <= i < |scenes|
    ensures var stored := AppActions.UpdateScene(scenes, scenes[i].sceneId, AppActions.SetPrompt(text));
      Blur(stored[i], text) == None
  {
  }

  /** The selection effect: with nothing selected, the first candidate; otherwise the selection. */
  function DefaultSelection(selected: string, candidates: seq<SceneTimeline.CharacterRef>): (r: string)
    ensures selected != [] ==> r == selected
    ensures selected == [] && candidates != [] ==> r == candidates[0].id
    ensures selected == [] && candidates == [] ==> r == []
  {
    if selected == [] && |candidates| > 0 then candidates[0].id else selected
  }

  /** The effect sets the selection once; running it again changes nothing. */
  lemma DefaultSelectionSettles(selected: string, candidates: seq<SceneTimeline.CharacterRef>)
    ensures DefaultSelection(DefaultSelection(selected, candidates), candidates) == DefaultSelection(selected, candidates)
  {
  }

  /** Unlike the timeline's primary choice, the card keeps a selection that is no longer a
      candidate: the two rules differ exactly on such a selection. */
  lemma CardKeepsVanishedSelection(selected: string, candidates: seq<SceneTimeline.CharacterRef>)
    requires selected != [] && !SceneTimeline.RefListed(candidates, selected)
    ensures DefaultSelection(selected, candidates) == selected
    ensures SceneTimeline.SelectPrimary(selected, candidates) != selected
  {
  }
}
