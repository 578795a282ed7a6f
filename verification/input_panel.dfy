/** The arithmetic and gating of components/InputPanel.tsx: the duration a whole number of minutes
    asks for, how a duration is shown back, which buttons are enabled, and the edits of the
    character list by position. */
module InputPanel {
  import opened Wrappers
  import opened Text
  import opened Model
  import Accumulator

  /** Seconds of video per scene. */
  const SceneSeconds := 8

  function Max(a: int, b: int): int {
    if a < b then b else a
  }

  // ---------------------------------------------------------------- duration from minutes

  /** `handleMinutesInputChange` after `parseInt`: a positive number of minutes asks for the
      nearest whole number of scenes, at least one; anything else clears the duration. */
  function DurationForMinutes(minutes: Option<int>): (d: int)
    ensures d >= 0 && d % SceneSeconds == 0
    ensures d > 0 <==> minutes.Some? && minutes.value > 0
  {
    if minutes.Some? && minutes.value > 0 then
      Max(SceneSeconds, Accumulator.TargetScenes(minutes.value * 60) * SceneSeconds)
    else 0
  }

  /** `m` minutes give exactly `60m` seconds when `m` is even and four seconds more when it is
      odd, since `Math.round` sends the half of `7.5m` up; the lower bound of one scene never
      applies. */
  lemma MinutesToDuration(m: int)
    requires m > 0
    ensures Accumulator.TargetScenes(m * 60) == (15 * m + 1) / 2 >= 1
    ensures DurationForMinutes(Some(m)) == if m % 2 == 0 then 60 * m else 60 * m + 4
    ensures DurationForMinutes(Some(m)) == Accumulator.TargetScenes(m * 60) * SceneSeconds
  {
  }

  /** The minutes field shows the whole minutes of the stored duration, or nothing. */
  function MinutesDisplay(duration: int): (r: string)
    ensures r == [] <==> duration <= 0
    ensures duration > 0 ==> AllDigits(r)
  {
    if duration > 0 then IntToString(duration / 60) else ""
  }

  /** What the user typed is what the field shows once the duration is stored. */
  lemma MinutesRoundTrip(m: int)
    requires m > 0
    ensures DurationForMinutes(Some(m)) / 60 == m
    ensures MinutesDisplay(DurationForMinutes(Some(m))) == IntToString(m)
  {
    MinutesToDuration(m);
  }

  /** Missing or non-positive minutes clear the duration, which disables the script. */
  lemma BadMinutesClearDuration(minutes: Option<int>)
    requires minutes.None? || minutes.value <= 0
    ensures DurationForMinutes(minutes) == 0
  {
  }

  // ---------------------------------------------------------------- displayed values

  /** JavaScript's `%`: the remainder takes the sign of the dividend. */
  function JsRem(a: int, b: int): (r: int)
    requires b > 0
    ensures a >= 0 ==> 0 <= r < b
    ensures a < 0 ==> -b < r <= 0
  {
    if a >= 0 then a % b else -((-a) % b)
  }

  /** `displayMinutes`: `Math.floor` of the duration in minutes. */
  function MinutesShown(duration: int): (m: int)
    ensures m * 60 <= duration < m * 60 + 60
  {
    duration / 60
  }

  /** `displaySeconds`: the seconds left over after whole minutes, signed like the duration. */
  function SecondsShown(duration: int): (sec: int)
    ensures duration >= 0 ==> 0 <= sec < 60 && (duration - sec) % 60 == 0
    ensures duration < 0 ==> -60 < sec <= 0
  {
    JsRem(duration, 60)
  }

  /** `numberOfScenes`: the duration in scenes, a JavaScript number, and none without a duration. */
  function ScenesShown(duration: int): (n: real)
    ensures duration > 0 ==> n * SceneSeconds as real == duration as real
    ensures duration <= 0 ==> n == 0.0
  {
    if duration > 0 then duration as real / SceneSeconds as real else 0.0
  }

  /** The minutes and seconds shown add back up to the duration, with fewer than 60 seconds. */
  lemma DisplaySplit(duration: int)
    requires duration >= 0
    ensures MinutesShown(duration) * 60 + SecondsShown(duration) == duration
    ensures 0 <= SecondsShown(duration) < 60
  {
  }

  /** A duration set from minutes shows a whole number of scenes, the number the storyboard loop
      aims for. */
  lemma ScenesShownIsTarget(minutes: Option<int>)
    ensures var d := DurationForMinutes(minutes);
      ScenesShown(d) == (if d > 0 then Accumulator.TargetScenes(d) as real else 0.0)
  {
    var d := DurationForMinutes(minutes);
    if d > 0 {
      assert d == (d / 8) * 8;
      assert Accumulator.TargetScenes(d) == d / 8;
    }
  }

  // ---------------------------------------------------------------- enabled buttons

  /** What the panel reads to decide which buttons are enabled. `busy` is the `isLoading`
      property, set while a script, a storyboard or a batch of images is being generated. */
  datatype Panel = Panel(
    characters: seq<CharacterProfile>,
    storyIdea: string,
    generatedScript: string,
    duration: int,
    busy: bool,
    characterLoading: bool,
    ideaLoading: bool)

  predicate AnyImageGenerating(characters: seq<CharacterProfile>) {
    exists i | 0 <= i < |characters| :: characters[i].isGeneratingImage
  }

  predicate Idle(p: Panel) {
    !p.busy && !p.characterLoading && !p.ideaLoading && !AnyImageGenerating(p.characters)
  }

  predicate AllDescribed(characters: seq<CharacterProfile>) {
    forall i | 0 <= i < |characters| :: Trim(characters[i].description) != []
  }

  predicate CanGenerateCharacters(p: Panel) {
    Idle(p) && Trim(p.storyIdea) != []
  }

  predicate CanGenerateScript(p: Panel)
    ensures CanGenerateScript(p) ==> CanGenerateCharacters(p) && p.characters != [] && p.duration > 0
  {
    Idle(p) && |p.characters| > 0 && AllDescribed(p.characters) && Trim(p.storyIdea) != [] && p.duration > 0
  }

  predicate CanGenerateStoryboard(p: Panel)
    ensures CanGenerateStoryboard(p) ==> CanGenerateScript(p) && Trim(p.generatedScript) != []
  {
    CanGenerateScript(p) && Trim(p.generatedScript) != []
  }

  /** The primary button: storyboard once a script exists, script before. */
  predicate PrimaryEnabled(p: Panel) {
    !p.busy && if p.generatedScript != [] then CanGenerateStoryboard(p) else CanGenerateScript(p)
  }

  /** Each button asks for strictly more than the one before it. */
  lemma GatesNest(p: Panel)
    ensures CanGenerateStoryboard(p) ==> CanGenerateScript(p)
    ensures CanGenerateScript(p) ==> CanGenerateCharacters(p)
  {
  }

  /** An enabled primary button reaches the handler `handlePrimaryAction` picks, past its early
      return: the storyboard handler needs a non-blank script, the script handler characters, a
      non-blank idea and a positive duration. */
  lemma PrimaryPassesHandlerGuard(p: Panel)
    requires PrimaryEnabled(p)
    ensures p.generatedScript != [] ==> Trim(p.generatedScript) != []
    ensures p.generatedScript == [] ==> !(|p.characters| == 0 || Trim(p.storyIdea) == [] || p.duration <= 0)
  {
  }

  /** Minutes that are missing or not positive keep both generation buttons disabled. */
  lemma BadMinutesDisable(p: Panel, minutes: Option<int>)
    requires minutes.None? || minutes.value <= 0
    ensures !CanGenerateScript(p.(duration := DurationForMinutes(minutes)))
    ensures !PrimaryEnabled(p.(duration := DurationForMinutes(minutes)))
  {
  }

  // ---------------------------------------------------------------- the character list

  /** `handleAddCharacter`: a blank character with a new identifier at the end. */
  function AddCharacter(characters: seq<CharacterProfile>, id: string): (r: seq<CharacterProfile>)
    ensures |r| == |characters| + 1 && r[..|characters|] == characters
    ensures r[|characters|].id == id && r[|characters|].name == [] && r[|characters|].description == []
    ensures !HasUrl(r[|characters|].imageUrl) && !r[|characters|].isGeneratingImage
  {
    characters + [CharacterProfile(id, "", "", None, false)]
  }

  /** `handleRemoveCharacter`: keep every entry whose position is not `index`. */
  function RemoveCharacter(characters: seq<CharacterProfile>, index: int): (r: seq<CharacterProfile>)
    ensures 0 <= index < |characters| ==> r == characters[..index] + characters[index + 1..]
    ensures !(0 <= index < |characters|) ==> r == characters
    decreases |characters|
  {
    if characters == [] then []
    else
      var rest := RemoveCharacter(characters[1..], index - 1);
      if index == 0 then
        assert characters[1..] == characters[..0] + characters[1..];
        rest
      else
        SplitAfterHead(characters, index);
        [characters[0]] + rest
  }

  lemma SplitAfterHead<T>(s: seq<T>, index: int)
    requires s != [] && index != 0
    ensures 0 < index < |s| ==> s[..index] + s[index + 1..] == [s[0]] + (s[1..][..index - 1] + s[1..][index..])
  {
    if 0 < index < |s| {
      assert s[..index] == [s[0]] + s[1..][..index - 1];
      assert s[index + 1..] == s[1..][index..];
    }
  }

  /** Removing the character just added gives back the list before. */
  lemma RemoveUndoesAdd(characters: seq<CharacterProfile>, id: string)
    ensures RemoveCharacter(AddCharacter(characters, id), |characters|) == characters
  {
    var added := AddCharacter(characters, id);
    assert added[..|characters|] == characters;
    assert added[|characters| + 1..] == [];
  }

  /** A newly added character has no description, so the script stays disabled until it has one. */
  lemma AddedCharacterBlocksScript(p: Panel, id: string)
    ensures !CanGenerateScript(p.(characters := AddCharacter(p.characters, id)))
  {
    var chars := AddCharacter(p.characters, id);
    assert Trim(chars[|p.characters|].description) == [];
  }

  /** The two text fields of a character the panel edits. */
  datatype Field = NameField | DescriptionField

  function Read(c: CharacterProfile, field: Field): string {
    match field
    case NameField => c.name
    case DescriptionField => c.description
  }

  function Write(c: CharacterProfile, field: Field, value: string): CharacterProfile {
    match field
    case NameField => c.(name := value)
    case DescriptionField => c.(description := value)
  }

  /** `handleCharacterChange`: the entry at `index` with one field replaced. */
  function ChangeCharacter(characters: seq<CharacterProfile>, index: int, field: Field, value: string)
    : (r: seq<CharacterProfile>)
    requires 0 <= index < |characters|
    ensures |r| == |characters|
    ensures forall j | 0 <= j < |r| && j != index :: r[j] == characters[j]
    ensures Read(r[index], field) == value
    ensures forall other: Field | other != field :: Read(r[index], other) == Read(characters[index], other)
    ensures r[index].id == characters[index].id && r[index].imageUrl == characters[index].imageUrl
    ensures r[index].isGeneratingImage == characters[index].isGeneratingImage
  {
    characters[index := Write(characters[index], field, value)]
  }

  /** Writing back the value a field already holds changes nothing. */
  lemma ChangeToSameIsNoOp(characters: seq<CharacterProfile>, index: int, field: Field)
    requires 0 <= index < |characters|
    ensures ChangeCharacter(characters, index, field, Read(characters[index], field)) == characters
  {
    var r := ChangeCharacter(characters, index, field, Read(characters[index], field));
    assert r[index] == characters[index];
  }
}
