/** The post-processing that services/geminiService.ts applies around its SDK calls: the request
    context of a continued storyboard, the decoding of JSON answers with its soft and hard failures,
    the identification of generated characters, and the image answers. The SDK call itself is a
    parameter (`model`), and so are `JSON.parse` and `crypto.randomUUID`. */
module GeminiService {
  import opened Wrappers
  import opened Text
  import opened Model
  import opened ServiceErrors
  import opened JsonExtract
  import opened DataUri

  const ScenesContext := "generateScenePrompts"
  const CharactersContext := "generateCharacterDNA"
  const CharacterImageContext := "generateCharacterImage"
  const SceneImageContext := "generateSceneImage"

  /** What the SDK call gave back: a thrown value, or the answer's text. */
  datatype Reply = ReplyThrew(error: Thrown) | ReplyText(text: string)

  // ---------------------------------------------------------------- continuation context

  /** How many earlier scenes a continued request shows the model. */
  const RecentCount := 3

  /** The largest identifier of a non-empty scene list (`Math.max(...ids)`). */
  function MaxId(s: seq<Scene>): (m: int)
    requires s != []
    ensures m in IdSet(s)
    ensures forall x | x in s :: x.sceneId <= m
  {
    if |s| == 1 then s[0].sceneId
    else
      var m := MaxId(s[1..]);
      assert forall x | x in s[1..] :: x in s;
      assert forall x | x in s :: x == s[0] || x in s[1..];
      if s[0].sceneId >= m then s[0].sceneId else m
  }

  /** `existingScenes.slice(-3)`: the last three scenes, or all of them when there are fewer. */
  function RecentScenes(existing: seq<Scene>): (r: seq<Scene>)
    ensures |r| == if |existing| < RecentCount then |existing| else RecentCount
    ensures existing == existing[..|existing| - |r|] + r
  {
    if |existing| < RecentCount then existing else existing[|existing| - RecentCount..]
  }

  /** What a request tells the model about the scenes it already has. */
  datatype Continuation =
    | FirstRequest
    | Continuing(lastSceneNumber: int, startFrom: int, recent: seq<Scene>)

  function ContinuationOf(existing: seq<Scene>): (c: Continuation)
    ensures c.Continuing? <==> existing != []
    ensures c.Continuing? ==> c.lastSceneNumber in IdSet(existing)
    ensures c.Continuing? ==> forall x | x in existing :: x.sceneId <= c.lastSceneNumber
    ensures c.Continuing? ==> c.startFrom == c.lastSceneNumber + 1 && c.recent == RecentScenes(existing)
  {
    if existing == [] then FirstRequest
    else
      var last := MaxId(existing);
      Continuing(last, last + 1, RecentScenes(existing))
  }

  /** The number the model is asked to continue from is not taken by any existing scene. */
  lemma ContinuationStartsFresh(existing: seq<Scene>)
    requires existing != []
    ensures ContinuationOf(existing).startFrom !in IdSet(existing)
    ensures forall x | x in existing :: x.sceneId < ContinuationOf(existing).startFrom
  {
  }

  /** On a list kept in `scene_id` order, as the storyboard shows it, the last scene number is the
      identifier of the last scene. */
  lemma SortedContinuesAfterLast(existing: seq<Scene>)
    requires existing != [] && SortedById(existing)
    ensures ContinuationOf(existing).lastSceneNumber == existing[|existing| - 1].sceneId
  {
    MaxIdOfSorted(existing);
  }

  lemma {:induction false} MaxIdOfSorted(s: seq<Scene>)
    requires s != [] && SortedById(s)
    ensures MaxId(s) == s[|s| - 1].sceneId
    decreases |s|
  {
    if |s| > 1 {
      assert SortedById(s[1..]);
      MaxIdOfSorted(s[1..]);
      assert s[1..][|s| - 2] == s[|s| - 1];
    }
  }

  // ---------------------------------------------------------------- decoding JSON answers

  /** A character as the model describes it, before it is given an identifier. */
  datatype CharacterDraft = CharacterDraft(name: string, description: string)

  /** What `JSON.parse` gave, as far as the service looks at it: `null`, whose property read
      throws a `TypeError`, or any other value together with its `scenes` and `characters`
      arrays (`None` when the property is missing, falsy or not an array). */
  datatype Json =
    | JsonNull
    | JsonValue(scenes: Option<seq<Scene>>, characters: Option<seq<CharacterDraft>>)

  /** `JSON.parse`: `None` when it throws. */
  type Parser = string -> Option<Json>

  /** How far the decoding of an answer got. */
  datatype Decoded = NoJsonFound | Unparsable | Parsed(json: Json)

  /** Trim the answer, extract the JSON text and parse it. An empty fenced block yields
      `undefined`, which `JSON.parse` always rejects. */
  function Decode(text: string, parse: Parser): (d: Decoded)
    ensures d == NoJsonFound <==> ExtractJson(Trim(text)).None?
    ensures d.Parsed? <==> (ExtractJson(Trim(text)).Some? && ExtractJson(Trim(text)).value != []
                            && parse(ExtractJson(Trim(text)).value).Some?)
    ensures d.Parsed? ==> parse(ExtractJson(Trim(text)).value) == Some(d.json)
  {
    match ExtractJson(Trim(text))
    case None => NoJsonFound
    case Some(captured) =>
      if captured == [] then Unparsable
      else match parse(captured)
        case None => Unparsable
        case Some(json) => Parsed(json)
  }

  /** `generateScenePrompts` from the model's reply on: a missing `scenes` array is an empty
      batch; every failure is rewrapped by `getErrorMessage`. `nullRead` is the engine's message
      for reading a property of `null`. */
  /** Parsed JSON that is not `null`, so that reading its arrays does not throw. */
  predicate IsObject(d: Decoded) {
    d.Parsed? && d.json.JsonValue?
  }

  function ScenePrompts(reply: Reply, parse: Parser, nullRead: string): (r: Result<seq<Scene>>)
    ensures r.Failure? ==> exists e :: r.error == ErrorMessage(e, ScenesContext)
  {
    match reply
    case ReplyThrew(e) => Failure(ErrorMessage(e, ScenesContext))
    case ReplyText(text) =>
      match Decode(text, parse)
      case NoJsonFound => Failure(ErrorMessage(ErrorValue(SceneJsonMissing), ScenesContext))
      case Unparsable => Failure(ErrorMessage(ErrorValue(SceneJsonInvalid), ScenesContext))
      case Parsed(JsonNull) => Failure(ErrorMessage(ErrorValue(nullRead), ScenesContext))
      case Parsed(JsonValue(scenes, _)) => Success(scenes.GetOr([]))
  }

  /** The scene request succeeds exactly when the model answers with text whose JSON is found and
      parses to a value other than `null`. */
  lemma ScenePromptsSucceed(reply: Reply, parse: Parser, nullRead: string)
    ensures ScenePrompts(reply, parse, nullRead).Success? <==> reply.ReplyText? && IsObject(Decode(reply.text, parse))
  {
  }

  /** A parsed `scenes` array is the batch, as it is; a missing one is an empty batch. */
  lemma ParsedScenesAreTheBatch(text: string, parse: Parser, nullRead: string, scenes: Option<seq<Scene>>,
                                characters: Option<seq<CharacterDraft>>)
    requires Decode(text, parse) == Parsed(JsonValue(scenes, characters))
    ensures ScenePrompts(ReplyText(text), parse, nullRead) == Success(scenes.GetOr([]))
  {
  }

  /** The whole request: the continuation context goes to the model with the script. */
  function GenerateScenePrompts(existing: seq<Scene>, model: Continuation -> Reply, parse: Parser, nullRead: string)
    : (r: Result<seq<Scene>>)
  {
    ScenePrompts(model(ContinuationOf(existing)), parse, nullRead)
  }

  /** The identifier `crypto.randomUUID()` gives the `i`-th character. */
  type IdSource = nat -> string

  /** `{...char, id: crypto.randomUUID()}` for every draft. */
  function Identify(drafts: seq<CharacterDraft>, freshId: IdSource): (r: seq<CharacterProfile>)
    ensures |r| == |drafts|
    ensures forall i | 0 <= i < |r| :: r[i].id == freshId(i)
    ensures forall i | 0 <= i < |r| :: CharacterDraft(r[i].name, r[i].description) == drafts[i]
    ensures forall i | 0 <= i < |r| :: !HasUrl(r[i].imageUrl) && !r[i].isGeneratingImage
  {
    seq(|drafts|, i requires 0 <= i < |drafts| =>
      CharacterProfile(freshId(i), drafts[i].name, drafts[i].description, None, false))
  }

  function DraftOf(c: CharacterProfile): CharacterDraft {
    CharacterDraft(c.name, c.description)
  }

  /** Forgetting the identifiers gives back the drafts, in order. */
  lemma IdentifyForgets(drafts: seq<CharacterDraft>, freshId: IdSource)
    ensures seq(|drafts|, i requires 0 <= i < |drafts| => DraftOf(Identify(drafts, freshId)[i])) == drafts
  {
  }

  /** Distinct identifiers from the source give characters with distinct identifiers. */
  lemma IdentifyDistinct(drafts: seq<CharacterDraft>, freshId: IdSource)
    requires forall i: nat, j: nat | i != j :: freshId(i) != freshId(j)
    ensures forall i, j | 0 <= i < j < |drafts| :: Identify(drafts, freshId)[i].id != Identify(drafts, freshId)[j].id
  {
  }

  /** `generateCharacterDNA` from the model's reply on: a missing `characters` array is an error. */
  function CharacterDna(reply: Reply, parse: Parser, nullRead: string, freshId: IdSource)
    : (r: Result<seq<CharacterProfile>>)
    ensures r.Failure? ==> exists e :: r.error == ErrorMessage(e, CharactersContext)
  {
    match reply
    case ReplyThrew(e) => Failure(ErrorMessage(e, CharactersContext))
    case ReplyText(text) =>
      match Decode(text, parse)
      case NoJsonFound => Failure(ErrorMessage(ErrorValue(CharacterJsonMissing), CharactersContext))
      case Unparsable => Failure(ErrorMessage(ErrorValue(CharacterJsonInvalid), CharactersContext))
      case Parsed(JsonNull) => Failure(ErrorMessage(ErrorValue(nullRead), CharactersContext))
      case Parsed(JsonValue(_, None)) => Failure(ErrorMessage(ErrorValue(CharacterListMissing), CharactersContext))
      case Parsed(JsonValue(_, Some(drafts))) => Success(Identify(drafts, freshId))
  }

  /** When no JSON can be found or parsed, the scene request fails with a response error. */
  lemma SceneDecodeFailureIsResponseError(text: string, parse: Parser, nullRead: string)
    requires !Decode(text, parse).Parsed?
    ensures ScenePrompts(ReplyText(text), parse, nullRead).Failure?
    ensures KindOf(ScenePrompts(ReplyText(text), parse, nullRead).error) == ResponseError
  {
    var m := if Decode(text, parse) == NoJsonFound then SceneJsonMissing else SceneJsonInvalid;
    assert ScenePrompts(ReplyText(text), parse, nullRead) == Failure(ErrorMessage(ErrorValue(m), ScenesContext));
    LocalFailureAnnouncedAsResponse(m, ScenesContext);
  }

  predicate LacksCharacters(json: Json) {
    json.JsonValue? && json.characters.None?
  }

  /** When no JSON can be found or parsed, or it has no `characters` array, the character request
      fails with a response error. */
  lemma CharacterDecodeFailureIsResponseError(text: string, parse: Parser, nullRead: string, freshId: IdSource)
    requires !Decode(text, parse).Parsed? || LacksCharacters(Decode(text, parse).json)
    ensures CharacterDna(ReplyText(text), parse, nullRead, freshId).Failure?
    ensures KindOf(CharacterDna(ReplyText(text), parse, nullRead, freshId).error) == ResponseError
  {
    var d := Decode(text, parse);
    var m := if d == NoJsonFound then CharacterJsonMissing
             else if d == Unparsable then CharacterJsonInvalid
             else CharacterListMissing;
    assert CharacterDna(ReplyText(text), parse, nullRead, freshId) == Failure(ErrorMessage(ErrorValue(m), CharactersContext));
    LocalFailureAnnouncedAsResponse(m, CharactersContext);
  }

  /** The same parsed answer without the expected array: the scene request succeeds with no
      scenes, the character request fails. */
  lemma MissingArraySoftForScenesHardForCharacters(text: string, parse: Parser, nullRead: string, freshId: IdSource)
    requires Decode(text, parse) == Parsed(JsonValue(None, None))
    ensures ScenePrompts(ReplyText(text), parse, nullRead) == Success([])
    ensures CharacterDna(ReplyText(text), parse, nullRead, freshId).Failure?
  {
  }

  /** A parsed `characters` array becomes as many characters, in order, each with a new identifier. */
  lemma CharactersKeepDrafts(text: string, parse: Parser, nullRead: string, freshId: IdSource, drafts: seq<CharacterDraft>)
    requires Decode(text, parse).Parsed? && Decode(text, parse).json.JsonValue?
    requires Decode(text, parse).json.characters == Some(drafts)
    ensures CharacterDna(ReplyText(text), parse, nullRead, freshId).Success?
    ensures |CharacterDna(ReplyText(text), parse, nullRead, freshId).value| == |drafts|
    ensures forall i | 0 <= i < |drafts| ::
      DraftOf(CharacterDna(ReplyText(text), parse, nullRead, freshId).value[i]) == drafts[i]
  {
  }

  // ---------------------------------------------------------------- image answers

  /** A part of the model's answer: inline data, or anything else. */
  datatype Part = InlineData(data: string) | OtherPart

  datatype ImageReply = ImageThrew(error: Thrown) | ImageParts(parts: seq<Part>)

  /** The payload of the first part with inline data. */
  function FirstInline(parts: seq<Part>): (r: Option<string>)
    ensures r.None? <==> forall i | 0 <= i < |parts| :: !parts[i].InlineData?
    ensures r.Some? ==> exists i | 0 <= i < |parts| :: parts[i] == InlineData(r.value)
                                   && forall j | 0 <= j < i :: !parts[j].InlineData?
  {
    if parts == [] then None
    else if parts[0].InlineData? then Some(parts[0].data)
    else
      var r := FirstInline(parts[1..]);
      assert forall i | 1 <= i < |parts| :: parts[i] == parts[1..][i - 1];
      if r.Some? then
        var i :| 0 <= i < |parts[1..]| && parts[1..][i] == InlineData(r.value)
                 && forall j | 0 <= j < i :: !parts[1..][j].InlineData?;
        assert parts[i + 1] == InlineData(r.value);
        r
      else r
  }

  /** The shared tail of both image functions: the first inline payload as a PNG `data:` URL. */
  function ImageAnswer(reply: ImageReply, context: string): (r: Result<string>)
    ensures r.Success? ==> StartsWith(r.value, PngPrefix)
    ensures r.Failure? ==> exists e :: r.error == ErrorMessage(e, context)
  {
    match reply
    case ImageThrew(e) => Failure(ErrorMessage(e, context))
    case ImageParts(parts) =>
      match FirstInline(parts)
      case Some(data) => Success(PngDataUri(data))
      case None => Failure(ErrorMessage(ErrorValue(NoImageData), context))
  }

  /** An answer without an image part fails with the missing-image text kept in the message. */
  lemma NoImagePartKeepsMessage(parts: seq<Part>, context: string)
    requires forall i | 0 <= i < |parts| :: !parts[i].InlineData?
    ensures ImageAnswer(ImageParts(parts), context) == Failure("Error in " + context + ": " + NoImageData)
  {
    NoImageDataIsGeneric(context);
  }

  const CharacterImageInstruction :=
    "Create a full-body, cinematic portrait of the following character. The background should be simple and neutral (e.g., grey or a soft gradient) and not distract from the character. Character details: "

  /** `generateCharacterImage`: the description goes to the model after the portrait instruction;
      an answer with an image part gives that image as a PNG `data:` URL. */
  function GenerateCharacterImage(description: string, model: string -> ImageReply): (r: Result<string>)
    ensures var reply := model(CharacterImageInstruction + description);
      r.Success? <==> reply.ImageParts? && exists i | 0 <= i < |reply.parts| :: reply.parts[i].InlineData?
    ensures r.Success? ==> StartsWith(r.value, PngPrefix)
    ensures r.Failure? ==> exists e :: r.error == ErrorMessage(e, CharacterImageContext)
  {
    ImageAnswer(model(CharacterImageInstruction + description), CharacterImageContext)
  }

  /** What `generateSceneImage` sends: the reference image and the scene's instruction. */
  datatype ImageRequest = ImageRequest(reference: InlineImage, text: string)

  const SceneImageInstruction :=
    "Using the provided reference image for character consistency, create a cinematic image for the following scene: "

  /** Thrown before the `try`, so it is not rewrapped. */
  const InvalidReference := "Invalid base64 image format provided for reference."

  function GenerateSceneImage(prompt: string, reference: string, model: ImageRequest -> ImageReply): (r: Result<string>)
    ensures ParseDataUri(reference).None? ==> r == Failure(InvalidReference)
  {
    match ParseDataUri(reference)
    case None => Failure(InvalidReference)
    case Some(image) => ImageAnswer(model(ImageRequest(image, SceneImageInstruction + prompt)), SceneImageContext)
  }

  /** A malformed reference is refused before any request: the answer does not depend on the model. */
  lemma RefusedBeforeRequest(prompt: string, reference: string, m1: ImageRequest -> ImageReply, m2: ImageRequest -> ImageReply)
    requires ParseDataUri(reference).None?
    ensures GenerateSceneImage(prompt, reference, m1) == GenerateSceneImage(prompt, reference, m2)
  {
  }

  /** A character portrait the service produced, with a non-empty base64 payload, is accepted as the
      reference of a scene image and sent on as `image/png` with that payload. */
  lemma PortraitServesAsReference(description: string, m1: string -> ImageReply, parts: seq<Part>, data: string,
                                  prompt: string, m2: ImageRequest -> ImageReply)
    requires m1(CharacterImageInstruction + description) == ImageParts(parts)
    requires FirstInline(parts) == Some(data)
    requires data != [] && forall i | 0 <= i < |data| :: IsBase64Char(data[i])
    ensures GenerateCharacterImage(description, m1) == Success(PngDataUri(data))
    ensures GenerateSceneImage(prompt, PngDataUri(data), m2)
         == ImageAnswer(m2(ImageRequest(InlineImage("image/png", data), SceneImageInstruction + prompt)), SceneImageContext)
  {
    PngRoundTrip(data);
  }
}
