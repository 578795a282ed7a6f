/** The pure logic of App.tsx outside the generation loop: the project name taken from the story
    idea, the text of the prompt export, the updates that touch one scene by identifier, and the
    rule of the batch image generation. */
module AppActions {
  import opened Wrappers
  import opened Text
  import opened Search
  import opened Model

  // ---------------------------------------------------------------- project name

  /** Names must be shorter than this. */
  const NameLimit := 50

  /** The project-name effect: the trimmed first line of the story idea when it has 1 to 49
      characters, otherwise the untitled placeholder of the current language. */
  function ProjectName(storyIdea: string, untitled: string): (r: string)
    ensures r == untitled || (0 < |r| < NameLimit && IsTrimmed(r) && '\n' !in r && Contains(storyIdea, r))
  {
    var first := Trim(FirstLine(storyIdea));
    if 0 < |first| < NameLimit then
      TrimOfFirstLine(storyIdea);
      first
    else untitled
  }

  /** The trimmed first line of a text is a line, and a part of that text. */
  lemma TrimOfFirstLine(s: string)
    ensures '\n' !in Trim(FirstLine(s)) && Contains(s, Trim(FirstLine(s)))
  {
    var line := FirstLine(s);
    assert s == [] + line + s[|line|..];
    ContainsMiddle([], line, s[|line|..]);
    var a, b := TrimSplits(line);
    forall k | 0 <= k < |Trim(line)| ensures Trim(line)[k] != '\n' {
      assert Trim(line)[k] == line[|a| + k];
    }
    TrimInside(line);
    ContainsPart(s, line, Trim(line));
  }

  /** The first line of a text that opens with a line and a line feed is that line. */
  lemma FirstLineOf(line: string, rest: string)
    requires '\n' !in line
    ensures FirstLine(line + "\n" + rest) == line
  {
    var s := line + "\n" + rest;
    assert s[|line|] == '\n';
    assert line == s[..|line|];
    assert FirstLine(s) == s[..|FirstLine(s)|];
  }

  /** A text without a line feed is its own first line. */
  lemma FirstLineWhole(s: string)
    requires '\n' !in s
    ensures FirstLine(s) == s
  {
  }

  /** A one-line story idea, the title padded with white space: the title names the project
      when it has 1 to 49 characters, and the project is untitled otherwise. */
  lemma SingleLineIdeaName(a: string, title: string, b: string, untitled: string)
    requires AllSpace(a) && AllSpace(b) && IsTrimmed(title) && '\n' !in a + title + b
    ensures ProjectName(a + title + b, untitled) == if 0 < |title| < NameLimit then title else untitled
  {
    FirstLineWhole(a + title + b);
    TrimPadded(a, title, b);
  }

  /** A story idea of several lines is named after its first line alone, by the same rule. */
  lemma FirstLineIdeaName(a: string, title: string, b: string, rest: string, untitled: string)
    requires AllSpace(a) && AllSpace(b) && IsTrimmed(title) && '\n' !in a + title + b
    ensures ProjectName(a + title + b + "\n" + rest, untitled) == if 0 < |title| < NameLimit then title else untitled
  {
    FirstLineOf(a + title + b, rest);
    TrimPadded(a, title, b);
  }

  // ---------------------------------------------------------------- prompt export

  const EnDash: char := '\U{2013}'

  /** The length of the run of decimal digits that opens `s`. */
  function DigitRun(s: string): (n: nat)
    ensures n <= |s| && AllDigits(s[..n])
    ensures n < |s| ==> !IsDigit(s[n])
  {
    if s != [] && IsDigit(s[0]) then
      var n := DigitRun(s[1..]);
      assert s[..n + 1] == [s[0]] + s[1..][..n];
      n + 1
    else 0
  }

  /** How much of `rest` the part ` –\s*` of the heading pattern covers, when it matches. */
  function DashGap(rest: string): (r: Option<nat>)
    ensures r.Some? ==> 2 <= r.value <= |rest| && rest[..2] == [' ', EnDash]
    ensures r.Some? ==> r.value == |rest| || !IsSpace(rest[r.value])
  {
    if !StartsWith(rest, [' ', EnDash]) then None else Some(2 + LeadingSpace(rest[2..]))
  }

  /** How much of `prompt` the pattern `^Scene \d+ –\s*` covers, when it matches: the word, the
      longest digit run, a space and an en dash, and all the white space after them. */
  function HeadingLength(prompt: string): (r: Option<nat>)
    ensures r.Some? ==> 7 <= r.value <= |prompt| && StartsWith(prompt, "Scene ") && IsDigit(prompt[6])
    ensures r.Some? ==> r.value == |prompt| || !IsSpace(prompt[r.value])
  {
    if !StartsWith(prompt, "Scene ") then None
    else
      var k := 6 + DigitRun(prompt[6..]);
      if k == 6 then None
      else match DashGap(prompt[k..])
        case None => None
        case Some(n) => Some(k + n)
  }

  /** One scene's paragraph in the exported file: a matching heading is replaced by `<id>. `,
      any other prompt is written as it is. */
  function ExportLine(s: Scene): (r: string)
    ensures r == s.prompt || exists n | 7 <= n <= |s.prompt| ::
      && StartsWith(s.prompt, "Scene ") && IsDigit(s.prompt[6])
      && r == IntToString(s.sceneId) + ". " + s.prompt[n..]
      && (n == |s.prompt| || !IsSpace(s.prompt[n]))
  {
    match HeadingLength(s.prompt)
    case None => s.prompt
    case Some(n) => IntToString(s.sceneId) + ". " + s.prompt[n..]
  }

  /** A heading `Scene <digits> – ` with any run of digits (leading zeros included) and any white
      space gives way to the scene's own number. */
  lemma HeadingRenumbered(s: Scene, digits: string, gap: string, body: string)
    requires digits != [] && AllDigits(digits)
    requires AllSpace(gap) && (body == [] || !IsSpace(body[0]))
    requires s.prompt == "Scene " + digits + [' ', EnDash] + gap + body
    ensures ExportLine(s) == IntToString(s.sceneId) + ". " + body
  {
    var k := HeadingEnd(s.prompt, digits, gap, body);
    ExportOfHeading(s, k);
  }

  /** The heading of a prompt `Scene <digits> –<gap><body>` ends where the body starts. */
  lemma HeadingEnd(p: string, digits: string, gap: string, body: string) returns (k: nat)
    requires digits != [] && AllDigits(digits)
    requires AllSpace(gap) && (body == [] || !IsSpace(body[0]))
    requires p == "Scene " + digits + [' ', EnDash] + gap + body
    ensures HeadingLength(p) == Some(k) && k <= |p| && p[k..] == body
  {
    k := PromptLayout(p, digits, gap, body);
    HeadingFromLayout(p, digits, gap, body);
  }

  /** The converse: the export changes a prompt only when it opens with the whole heading, `Scene `,
      a run of digits, a space, an en dash and white space, and then keeps exactly what follows the
      heading. So `Scene 5 - x`, `Scene 5: x`, `Scene 5–x` and `Scene one` are written as they are. */
  lemma ChangedOnlyWhenHeaded(s: Scene)
    ensures ExportLine(s) == s.prompt || exists digits, gap, body ::
      && digits != [] && AllDigits(digits) && AllSpace(gap) && (body == [] || !IsSpace(body[0]))
      && s.prompt == "Scene " + digits + [' ', EnDash] + gap + body
      && ExportLine(s) == IntToString(s.sceneId) + ". " + body
  {
    if HeadingLength(s.prompt).Some? {
      var digits, gap, body, m := HeadingCut(s.prompt);
      ExportOfHeading(s, m);
    }
  }

  /** A prompt the heading pattern matches, cut into its digits, its gap and its body. */
  lemma HeadingCut(p: string) returns (digits: string, gap: string, body: string, m: nat)
    requires HeadingLength(p).Some?
    ensures digits != [] && AllDigits(digits) && AllSpace(gap) && (body == [] || !IsSpace(body[0]))
    ensures p == "Scene " + digits + [' ', EnDash] + gap + body
    ensures HeadingLength(p) == Some(m) && m <= |p| && p[m..] == body
  {
    var k := 6 + DigitRun(p[6..]);
    var n := DashGap(p[k..]).value;
    digits, gap, body := HeadingSplit(p, k, n);
    HeadingParts(p, k, n);
    m := k + n;
  }

  /** A matched heading cut into its digits, the white space after the dash, and the body. */
  lemma HeadingSplit(p: string, k: nat, n: nat) returns (digits: string, gap: string, body: string)
    requires StartsWith(p, "Scene ") && 6 < k <= |p| && DigitRun(p[6..]) == k - 6 && DashGap(p[k..]) == Some(n)
    ensures digits != [] && AllDigits(digits) && AllSpace(gap) && (body == [] || !IsSpace(body[0]))
    ensures p == "Scene " + digits + [' ', EnDash] + gap + body && body == p[k + n..]
  {
    digits := p[6..k];
    assert digits == p[6..][..k - 6];
    gap, body := DashSplit(p[k..], n);
    Rejoin(p, k, gap, body);
  }

  lemma Rejoin(p: string, k: nat, gap: string, body: string)
    requires StartsWith(p, "Scene ") && 6 <= k <= |p| && p[k..] == [' ', EnDash] + gap + body
    ensures p == "Scene " + p[6..k] + [' ', EnDash] + gap + body
  {
    assert p == p[..6] + p[6..k] + p[k..];
  }

  /** The part ` –\s*` of the heading cut into the dash, the white space and the body. */
  lemma DashSplit(rest: string, n: nat) returns (gap: string, body: string)
    requires DashGap(rest) == Some(n)
    ensures AllSpace(gap) && (body == [] || !IsSpace(body[0]))
    ensures rest == [' ', EnDash] + gap + body && body == rest[n..]
  {
    gap, body := rest[2..n], rest[n..];
    assert gap == rest[2..][..n - 2];
    assert rest == rest[..2] + gap + body;
  }

  /** Where the parts of a prompt `Scene <digits> –<gap><body>` start. */
  lemma PromptLayout(p: string, digits: string, gap: string, body: string) returns (k: nat)
    requires p == "Scene " + digits + [' ', EnDash] + gap + body
    ensures StartsWith(p, "Scene ") && 6 + |digits| <= |p|
    ensures p[6..] == digits + ([' ', EnDash] + gap + body)
    ensures p[6 + |digits|..] == [' ', EnDash] + gap + body
    ensures k == 6 + |digits| + 2 + |gap| <= |p| && p[k..] == body
  {
    k := 6 + |digits| + 2 + |gap|;
    assert p[..6] == "Scene ";
    assert p[6..] == digits + ([' ', EnDash] + gap + body);
    assert p[6 + |digits|..] == [' ', EnDash] + gap + body;
    assert p[k..] == body;
  }

  /** The heading pattern covers the word, the digits, the dash and the gap. */
  lemma HeadingFromLayout(p: string, digits: string, gap: string, body: string)
    requires digits != [] && AllDigits(digits)
    requires AllSpace(gap) && (body == [] || !IsSpace(body[0]))
    requires StartsWith(p, "Scene ") && 6 + |digits| <= |p|
    requires p[6..] == digits + ([' ', EnDash] + gap + body)
    requires p[6 + |digits|..] == [' ', EnDash] + gap + body
    ensures HeadingLength(p) == Some(6 + |digits| + 2 + |gap|)
  {
    DigitRunOf(digits, [' ', EnDash] + gap + body);
    DashGapOf(gap, body);
    HeadingParts(p, 6 + |digits|, 2 + |gap|);
  }

  /** A prompt whose heading ends at `k` is exported as the scene's number and the rest. */
  lemma ExportOfHeading(s: Scene, k: nat)
    requires HeadingLength(s.prompt) == Some(k)
    ensures ExportLine(s) == IntToString(s.sceneId) + ". " + s.prompt[k..]
  {
  }

  /** The heading pattern read as its parts: the word, a digit run ending at `k`, and the rest. */
  lemma HeadingParts(p: string, k: nat, n: nat)
    requires StartsWith(p, "Scene ") && 6 < k <= |p| && DigitRun(p[6..]) == k - 6 && DashGap(p[k..]) == Some(n)
    ensures HeadingLength(p) == Some(k + n)
  {
  }

  lemma DashGapOf(gap: string, body: string)
    requires AllSpace(gap) && (body == [] || !IsSpace(body[0]))
    ensures DashGap([' ', EnDash] + gap + body) == Some(2 + |gap|)
  {
    var tail := [' ', EnDash] + gap + body;
    assert tail[..2] == [' ', EnDash];
    assert tail[2..] == gap + body;
    LeadingCountOf(gap, body);
  }

  lemma {:induction false} DigitRunOf(digits: string, tail: string)
    requires AllDigits(digits) && tail != [] && !IsDigit(tail[0])
    ensures DigitRun(digits + tail) == |digits|
    decreases |digits|
  {
    if digits == [] {
      assert digits + tail == tail;
    } else {
      assert (digits + tail)[1..] == digits[1..] + tail;
      assert AllDigits(digits[1..]);
      DigitRunOf(digits[1..], tail);
    }
  }

  /** The white space that opens `gap + body` is exactly `gap` when `body` does not open with any. */
  lemma LeadingCountOf(gap: string, body: string)
    requires AllSpace(gap) && (body == [] || !IsSpace(body[0]))
    ensures LeadingSpace(gap + body) == |gap|
  {
    if body == [] {
      assert gap + body == gap;
      AllSpaceLeading(gap);
    } else {
      LeadingCount(gap, body);
    }
  }

  lemma {:induction false} AllSpaceLeading(s: string)
    requires AllSpace(s)
    ensures LeadingSpace(s) == |s|
    decreases |s|
  {
    if s != [] {
      assert AllSpace(s[1..]);
      AllSpaceLeading(s[1..]);
    }
  }

  /** A prompt that does not open with `Scene ` is exported unchanged. */
  lemma UnheadedPromptKept(s: Scene)
    requires !StartsWith(s.prompt, "Scene ")
    ensures ExportLine(s) == s.prompt
  {
  }

  function ExportLines(scenes: seq<Scene>): (r: seq<string>)
    ensures |r| == |scenes| && forall i | 0 <= i < |r| :: r[i] == ExportLine(scenes[i])
  {
    seq(|scenes|, i requires 0 <= i < |scenes| => ExportLine(scenes[i]))
  }

  /** `handleDownload`: nothing for an empty storyboard, otherwise the paragraphs of the scenes in
      `scene_id` order separated by a blank line. */
  function Export(scenes: seq<Scene>): (r: Option<string>)
    ensures r.None? <==> scenes == []
  {
    if scenes == [] then None else Some(Join(ExportLines(SortById(scenes)), "\n\n"))
  }

  /** The exported text depends on the scenes, not on the order they are held in. */
  lemma ExportIgnoresOrder(a: seq<Scene>, b: seq<Scene>)
    requires IdsUnique(a) && multiset(a) == multiset(b)
    ensures Export(a) == Export(b)
  {
    SortIgnoresOrder(a, b);
    assert |a| == |multiset(a)| == |b|;
  }

  /** An exported storyboard already in order writes its scenes' paragraphs in that order. */
  lemma ExportOfOrdered(scenes: seq<Scene>)
    requires scenes != [] && SortedById(scenes)
    ensures Export(scenes) == Some(Join(ExportLines(scenes), "\n\n"))
  {
    SortOfSorted(scenes);
  }

  // ---------------------------------------------------------------- updates by identifier

  /** `prev.map(s => s.scene_id === id ? f(s) : s)`. */
  function UpdateScene(scenes: seq<Scene>, id: int, f: Scene -> Scene): (r: seq<Scene>)
    ensures |r| == |scenes|
    ensures forall i | 0 <= i < |r| :: r[i] == if scenes[i].sceneId == id then f(scenes[i]) else scenes[i]
  {
    seq(|scenes|, i requires 0 <= i < |scenes| => if scenes[i].sceneId == id then f(scenes[i]) else scenes[i])
  }

  /** `f` edits a scene's fields but not its identifier. */
  ghost predicate KeepsId(f: Scene -> Scene) {
    forall x :: f(x).sceneId == x.sceneId
  }

  function SetPrompt(prompt: string): Scene -> Scene {
    (x: Scene) => x.(prompt := prompt)
  }

  function StartImage(): Scene -> Scene {
    (x: Scene) => x.(isGeneratingImage := true)
  }

  function FinishImage(url: string): Scene -> Scene {
    (x: Scene) => x.(imageUrl := Some(url), isGeneratingImage := false)
  }

  function AbortImage(): Scene -> Scene {
    (x: Scene) => x.(isGeneratingImage := false)
  }

  lemma EditsKeepIds(prompt: string, url: string)
    ensures KeepsId(SetPrompt(prompt)) && KeepsId(StartImage()) && KeepsId(FinishImage(url)) && KeepsId(AbortImage())
  {
  }

  /** An update that keeps identifiers keeps the list's identifiers, their order and uniqueness. */
  lemma UpdateKeepsShape(scenes: seq<Scene>, id: int, f: Scene -> Scene)
    requires KeepsId(f)
    ensures IdSet(UpdateScene(scenes, id, f)) == IdSet(scenes)
    ensures SortedById(scenes) ==> SortedById(UpdateScene(scenes, id, f))
    ensures IdsUnique(scenes) ==> IdsUnique(UpdateScene(scenes, id, f))
  {
    var r := UpdateScene(scenes, id, f);
    assert forall i | 0 <= i < |r| :: r[i].sceneId == scenes[i].sceneId;
    forall x | x in IdSet(r) ensures x in IdSet(scenes) {
      var i :| 0 <= i < |r| && r[i].sceneId == x;
      assert scenes[i] in scenes;
    }
    forall x | x in IdSet(scenes) ensures x in IdSet(r) {
      var i :| 0 <= i < |scenes| && scenes[i].sceneId == x;
      assert r[i] in r;
    }
  }

  /** Looking a scene up after an update: the updated scene for that id, the old one for any other. */
  lemma UpdateThenFind(scenes: seq<Scene>, id: int, f: Scene -> Scene, other: int)
    requires KeepsId(f)
    ensures FirstById(UpdateScene(scenes, id, f), other) ==
      if other == id && FirstById(scenes, id).Some? then Some(f(FirstById(scenes, id).value))
      else FirstById(scenes, other)
    decreases |scenes|
  {
    if scenes != [] {
      var r := UpdateScene(scenes, id, f);
      assert r[1..] == UpdateScene(scenes[1..], id, f);
      UpdateThenFind(scenes[1..], id, f, other);
    }
  }

  /** Saving the same prompt twice is saving it once. */
  lemma PromptEditIdempotent(scenes: seq<Scene>, id: int, prompt: string)
    ensures UpdateScene(UpdateScene(scenes, id, SetPrompt(prompt)), id, SetPrompt(prompt))
         == UpdateScene(scenes, id, SetPrompt(prompt))
  {
  }

  // ---------------------------------------------------------------- batch image generation

  const NoReferenceError := "Selected character does not have a reference image."

  function BatchStopError(id: int): string {
    "Failed to generate image for Scene " + IntToString(id) + ". Batch process stopped."
  }

  /** `characters.find(c => c.id === id)`: the first character with the identifier. */
  function FindCharacter(characters: seq<CharacterProfile>, id: string): (r: Option<CharacterProfile>)
    ensures r.Some? ==> r.value in characters && r.value.id == id
    ensures r.None? <==> forall i | 0 <= i < |characters| :: characters[i].id != id
    ensures forall i | 0 <= i < |characters| && characters[i].id == id && (forall j | 0 <= j < i :: characters[j].id != id) ::
      r == Some(characters[i])
  {
    if characters == [] then None
    else if characters[0].id == id then Some(characters[0])
    else
      var r := FindCharacter(characters[1..], id);
      assert forall i | 1 <= i < |characters| :: characters[i] == characters[1..][i - 1];
      r
  }

  /** The scenes without an image, in order (`scenes.filter(s => !s.imageUrl)`). */
  function Pending(scenes: seq<Scene>): (r: seq<Scene>)
    ensures IsSubsequence(r, scenes)
    ensures forall x :: x in r <==> x in scenes && !HasUrl(x.imageUrl)
    ensures forall x :: multiset(r)[x] == if HasUrl(x.imageUrl) then 0 else multiset(scenes)[x]
  {
    if scenes == [] then []
    else
      assert scenes == [scenes[0]] + scenes[1..];
      if HasUrl(scenes[0].imageUrl) then Pending(scenes[1..])
      else [scenes[0]] + Pending(scenes[1..])
  }

  /** Dropping the scenes that have an image never makes two identifiers equal. */
  lemma {:induction false} PendingKeepsUnique(scenes: seq<Scene>)
    requires IdsUnique(scenes)
    ensures IdsUnique(Pending(scenes))
    decreases |scenes|
  {
    if scenes != [] {
      var rest := scenes[1..];
      assert IdsUnique(rest) by {
        assert forall j | 0 <= j < |rest| :: rest[j] == scenes[j + 1];
      }
      PendingKeepsUnique(rest);
      if !HasUrl(scenes[0].imageUrl) {
        assert forall j | 0 <= j < |rest| :: rest[j].sceneId != scenes[0].sceneId by {
          assert forall j | 0 <= j < |rest| :: rest[j] == scenes[j + 1];
        }
        PrependUnique(scenes[0], rest, Pending(rest));
      }
    }
  }

  /** A scene whose identifier no scene of `rest` has can go in front of a filter of `rest`. */
  lemma PrependUnique(x: Scene, rest: seq<Scene>, kept: seq<Scene>)
    requires IdsUnique(kept) && forall y | y in kept :: y in rest
    requires forall j | 0 <= j < |rest| :: rest[j].sceneId != x.sceneId
    ensures IdsUnique([x] + kept)
  {
    assert IdSet([x]) !! IdSet(kept) by {
      forall y | y in kept ensures y.sceneId != x.sceneId {
        var j :| 0 <= j < |rest| && rest[j] == y;
      }
    }
    IdsUniqueConcat([x], kept);
  }

  /** The identifiers of a scene list, in order. */
  function Ids(scenes: seq<Scene>): (r: seq<int>)
    ensures |r| == |scenes| && forall i | 0 <= i < |r| :: r[i] == scenes[i].sceneId
  {
    seq(|scenes|, i requires 0 <= i < |scenes| => scenes[i].sceneId)
  }

  lemma UpdateKeepsIds(scenes: seq<Scene>, id: int, f: Scene -> Scene)
    requires KeepsId(f)
    ensures Ids(UpdateScene(scenes, id, f)) == Ids(scenes)
  {
  }

  lemma IdsOfTail(s: seq<Scene>)
    requires s != []
    ensures Ids(s) == [s[0].sceneId] + Ids(s[1..])
  {
  }

  /** `generateSceneImage(prompt, reference)`: the URL of the new image, or a rejection. */
  type ImageService = (string, string) -> Result<string>

  /** Where a batch ended: the scenes, the error it set, and the scenes it asked images for. */
  datatype BatchRun = BatchRun(scenes: seq<Scene>, error: Option<string>, requested: seq<int>)

  /** One pass of the `for` loop over the pending scenes: mark the scene, ask for its image,
      then record the image and go on, or clear the mark and stop. */
  function RenderEach(current: seq<Scene>, todo: seq<Scene>, reference: string, service: ImageService): (r: BatchRun)
    ensures Ids(r.scenes) == Ids(current)
    ensures r.requested <= Ids(todo)
    ensures r.error.None? ==> r.requested == Ids(todo)
    ensures r.error.Some? ==> r.requested != []
    decreases |todo|
  {
    if todo == [] then BatchRun(current, None, [])
    else
      var x := todo[0];
      var marked := UpdateScene(current, x.sceneId, StartImage());
      UpdateKeepsIds(current, x.sceneId, StartImage());
      IdsOfTail(todo);
      match service(x.prompt, reference)
      case Failure(_) =>
        var done := UpdateScene(marked, x.sceneId, AbortImage());
        UpdateKeepsIds(marked, x.sceneId, AbortImage());
        BatchRun(done, Some(BatchStopError(x.sceneId)), [x.sceneId])
      case Success(url) =>
        var next := UpdateScene(marked, x.sceneId, FinishImage(url));
        UpdateKeepsIds(marked, x.sceneId, FinishImage(url));
        var rest := RenderEach(next, todo[1..], reference, service);
        BatchRun(rest.scenes, rest.error, [x.sceneId] + rest.requested)
  }

  /** The batch asked for every scene of `todo` and every request succeeded. */
  predicate RanThrough(todo: seq<Scene>, reference: string, service: ImageService, r: BatchRun) {
    r.error.None? && r.requested == Ids(todo)
    && forall k | 0 <= k < |todo| :: service(todo[k].prompt, reference).Success?
  }

  /** The batch asked for the scenes of `todo` up to `k`, every request before `k` succeeded,
      the one for `k` was rejected, and the error names that scene. */
  predicate StoppedAt(todo: seq<Scene>, reference: string, service: ImageService, k: int, r: BatchRun) {
    0 <= k < |todo| && r.requested == Ids(todo)[..k + 1]
    && (forall j | 0 <= j < k :: service(todo[j].prompt, reference).Success?)
    && service(todo[k].prompt, reference).Failure?
    && r.error == Some(BatchStopError(todo[k].sceneId))
  }

  /** The loop asks for the scenes in order and stops at the first rejection. */
  lemma {:induction false} RenderStopsAtRejection(current: seq<Scene>, todo: seq<Scene>, reference: string,
                                                  service: ImageService)
    ensures var r := RenderEach(current, todo, reference, service);
      if r.error.None? then RanThrough(todo, reference, service, r)
      else StoppedAt(todo, reference, service, |r.requested| - 1, r)
    decreases |todo|
  {
    if todo != [] {
      var x := todo[0];
      IdsOfTail(todo);
      var marked := UpdateScene(current, x.sceneId, StartImage());
      match service(x.prompt, reference)
      case Failure(_) =>
        var r := BatchRun(UpdateScene(marked, x.sceneId, AbortImage()), Some(BatchStopError(x.sceneId)), [x.sceneId]);
        assert RenderEach(current, todo, reference, service) == r;
        assert r.requested == Ids(todo)[..1];
      case Success(url) =>
        var next := UpdateScene(marked, x.sceneId, FinishImage(url));
        var rest := RenderEach(next, todo[1..], reference, service);
        var r := BatchRun(rest.scenes, rest.error, [x.sceneId] + rest.requested);
        assert RenderEach(current, todo, reference, service) == r;
        RenderStopsAtRejection(next, todo[1..], reference, service);
        if rest.error.None? {
          RanThroughCons(todo, reference, service, rest, r);
        } else {
          StoppedAtCons(todo, reference, service, |rest.requested| - 1, rest, r);
        }
    }
  }

  lemma RanThroughCons(todo: seq<Scene>, reference: string, service: ImageService, rest: BatchRun, r: BatchRun)
    requires todo != [] && service(todo[0].prompt, reference).Success?
    requires RanThrough(todo[1..], reference, service, rest)
    requires r.error == rest.error && r.requested == [todo[0].sceneId] + rest.requested
    requires Ids(todo) == [todo[0].sceneId] + Ids(todo[1..])
    ensures RanThrough(todo, reference, service, r)
  {
    forall k | 1 <= k < |todo| ensures service(todo[k].prompt, reference).Success? {
      assert todo[k] == todo[1..][k - 1];
    }
  }

  lemma StoppedAtCons(todo: seq<Scene>, reference: string, service: ImageService, k: int, rest: BatchRun, r: BatchRun)
    requires todo != [] && service(todo[0].prompt, reference).Success?
    requires StoppedAt(todo[1..], reference, service, k, rest)
    requires r.error == rest.error && r.requested == [todo[0].sceneId] + rest.requested
    requires Ids(todo) == [todo[0].sceneId] + Ids(todo[1..])
    ensures StoppedAt(todo, reference, service, k + 1, r)
  {
    forall j | 1 <= j < k + 1 ensures service(todo[j].prompt, reference).Success? {
      assert todo[j] == todo[1..][j - 1];
    }
    assert todo[k + 1] == todo[1..][k];
    assert Ids(todo)[..k + 2] == [todo[0].sceneId] + Ids(todo[1..])[..k + 1];
  }

  /** A scene whose identifier is not among the pending ones keeps all its fields. */
  lemma {:induction false} RenderLeavesOthers(current: seq<Scene>, todo: seq<Scene>, reference: string,
                                              service: ImageService)
    ensures var r := RenderEach(current, todo, reference, service);
      forall i | 0 <= i < |current| && current[i].sceneId !in Ids(todo) :: r.scenes[i] == current[i]
    decreases |todo|
  {
    if todo != [] {
      var x := todo[0];
      IdsOfTail(todo);
      var marked := UpdateScene(current, x.sceneId, StartImage());
      if service(x.prompt, reference).Success? {
        var url := service(x.prompt, reference).value;
        var next := UpdateScene(marked, x.sceneId, FinishImage(url));
        RenderLeavesOthers(next, todo[1..], reference, service);
      }
    }
  }

  /** What the loop leaves on a scene it asked an image for: the image and a cleared mark when
      the answer is a URL, only the cleared mark when the request was rejected. */
  function Answered(x: Scene, answer: Result<string>): (r: Scene)
    ensures r.sceneId == x.sceneId && r.prompt == x.prompt && r.time == x.time && !r.isGeneratingImage
    ensures r.imageUrl == if answer.Success? then Some(answer.value) else x.imageUrl
  {
    match answer
    case Success(url) => FinishImage(url)(x)
    case Failure(_) => AbortImage()(x)
  }

  /** With unique identifiers among the pending scenes, each scene the loop asked an image for
      carries the answer to its request, and each scene it did not reach is as it was. */
  lemma {:induction false} RenderAnswers(current: seq<Scene>, todo: seq<Scene>, reference: string,
                                         service: ImageService)
    requires IdsUnique(todo)
    ensures var r := RenderEach(current, todo, reference, service);
      forall i, j | 0 <= i < |current| && 0 <= j < |todo| && current[i].sceneId == todo[j].sceneId ::
        r.scenes[i] == if j < |r.requested| then Answered(current[i], service(todo[j].prompt, reference)) else current[i]
    decreases |todo|, 1
  {
    if todo != [] {
      assert forall j | 1 <= j < |todo| :: todo[j].sceneId != todo[0].sceneId;
      if service(todo[0].prompt, reference).Failure? {
        RenderAnswersStop(current, todo, reference, service);
      } else {
        RenderAnswersGo(current, todo, reference, service);
      }
    }
  }

  /** The case of `RenderAnswers` where the first request is rejected. */
  lemma RenderAnswersStop(current: seq<Scene>, todo: seq<Scene>, reference: string, service: ImageService)
    requires todo != [] && service(todo[0].prompt, reference).Failure?
    requires forall j | 1 <= j < |todo| :: todo[j].sceneId != todo[0].sceneId
    ensures var r := RenderEach(current, todo, reference, service);
      forall i, j | 0 <= i < |current| && 0 <= j < |todo| && current[i].sceneId == todo[j].sceneId ::
        r.scenes[i] == if j < |r.requested| then Answered(current[i], service(todo[j].prompt, reference)) else current[i]
  {
    var x := todo[0];
    var r := RenderEach(current, todo, reference, service);
    var marked := UpdateScene(current, x.sceneId, StartImage());
    assert r.scenes == UpdateScene(marked, x.sceneId, AbortImage()) && |r.requested| == 1;
    forall i, j | 0 <= i < |current| && 0 <= j < |todo| && current[i].sceneId == todo[j].sceneId
      ensures r.scenes[i] == if j < |r.requested| then Answered(current[i], service(todo[j].prompt, reference)) else current[i]
    {
      if j == 0 {
        assert r.scenes[i] == Answered(current[i], service(x.prompt, reference));
      } else {
        assert r.scenes[i] == current[i];
      }
    }
  }

  /** The case of `RenderAnswers` where the first request is accepted: the rest of the loop runs
      on the scenes with the first image stored. */
  lemma {:induction false} RenderAnswersGo(current: seq<Scene>, todo: seq<Scene>, reference: string,
                                           service: ImageService)
    requires IdsUnique(todo) && todo != [] && service(todo[0].prompt, reference).Success?
    ensures var r := RenderEach(current, todo, reference, service);
      forall i, j | 0 <= i < |current| && 0 <= j < |todo| && current[i].sceneId == todo[j].sceneId ::
        r.scenes[i] == if j < |r.requested| then Answered(current[i], service(todo[j].prompt, reference)) else current[i]
    decreases |todo|, 0
  {
    var x := todo[0];
    var url := service(x.prompt, reference).value;
    var next := UpdateScene(UpdateScene(current, x.sceneId, StartImage()), x.sceneId, FinishImage(url));
    var rest := RenderEach(next, todo[1..], reference, service);
    var r := RenderEach(current, todo, reference, service);
    RenderAccepted(current, todo, reference, service, url);
    assert IdsUnique(todo[1..]) by {
      assert forall j | 0 <= j < |todo| - 1 :: todo[1..][j] == todo[j + 1];
    }
    RenderAnswers(next, todo[1..], reference, service);
    RenderLeavesOthers(next, todo[1..], reference, service);
    assert |Ids(rest.scenes)| == |Ids(next)|;
    RenderAnswersCons(current, todo, reference, service, next, url, rest, r);
  }

  /** The loop after an accepted first request: the rest runs on the scenes with that image. */
  lemma RenderAccepted(current: seq<Scene>, todo: seq<Scene>, reference: string, service: ImageService, url: string)
    requires todo != [] && service(todo[0].prompt, reference) == Success(url)
    ensures var next := UpdateScene(UpdateScene(current, todo[0].sceneId, StartImage()), todo[0].sceneId, FinishImage(url));
      var rest := RenderEach(next, todo[1..], reference, service);
      RenderEach(current, todo, reference, service) == BatchRun(rest.scenes, rest.error, [todo[0].sceneId] + rest.requested)
  {
  }

  /** The step of `RenderAnswers` after an accepted first request. */
  lemma RenderAnswersCons(current: seq<Scene>, todo: seq<Scene>, reference: string, service: ImageService,
                          next: seq<Scene>, url: string, rest: BatchRun, r: BatchRun)
    requires todo != [] && service(todo[0].prompt, reference) == Success(url)
    requires forall j | 1 <= j < |todo| :: todo[j].sceneId != todo[0].sceneId
    requires next == UpdateScene(UpdateScene(current, todo[0].sceneId, StartImage()), todo[0].sceneId, FinishImage(url))
    requires r.scenes == rest.scenes && |rest.scenes| == |current| && |r.requested| == 1 + |rest.requested|
    requires forall i, j | 0 <= i < |next| && 0 <= j < |todo[1..]| && next[i].sceneId == todo[1..][j].sceneId ::
      rest.scenes[i] == if j < |rest.requested| then Answered(next[i], service(todo[1..][j].prompt, reference)) else next[i]
    requires forall i | 0 <= i < |next| && next[i].sceneId !in Ids(todo[1..]) :: rest.scenes[i] == next[i]
    ensures forall i, j | 0 <= i < |current| && 0 <= j < |todo| && current[i].sceneId == todo[j].sceneId ::
      r.scenes[i] == if j < |r.requested| then Answered(current[i], service(todo[j].prompt, reference)) else current[i]
  {
    forall i, j | 0 <= i < |current| && 0 <= j < |todo| && current[i].sceneId == todo[j].sceneId
      ensures r.scenes[i] == if j < |r.requested| then Answered(current[i], service(todo[j].prompt, reference)) else current[i]
    {
      if j == 0 {
        assert current[i].sceneId !in Ids(todo[1..]);
        assert next[i] == Answered(current[i], Success(url));
      } else {
        assert todo[1..][j - 1] == todo[j];
        assert next[i] == current[i];
      }
    }
  }

  /** `handleGenerateAllSceneImages`. */
  function GenerateAllSceneImages(scenes: seq<Scene>, characters: seq<CharacterProfile>, characterId: string,
                                  service: ImageService): (r: BatchRun)
    ensures Ids(r.scenes) == Ids(scenes)
  {
    match FindCharacter(characters, characterId)
    case None => BatchRun(scenes, Some(NoReferenceError), [])
    case Some(c) =>
      if !HasUrl(c.imageUrl) then BatchRun(scenes, Some(NoReferenceError), [])
      else RenderEach(scenes, Pending(scenes), c.imageUrl.value, service)
  }

  /** Without a character that has a reference image nothing is requested and nothing changes. */
  lemma NoReferenceRequestsNothing(scenes: seq<Scene>, characters: seq<CharacterProfile>, characterId: string,
                                   service: ImageService)
    requires FindCharacter(characters, characterId).None? || !HasUrl(FindCharacter(characters, characterId).value.imageUrl)
    ensures GenerateAllSceneImages(scenes, characters, characterId, service) == BatchRun(scenes, Some(NoReferenceError), [])
  {
  }

  /** With a reference image, images are asked for the scenes without one, in order; the batch
      runs to the end when no request is rejected, and otherwise stops at the first rejected
      scene, which the error names. */
  lemma BatchStopsAtFirstRejection(scenes: seq<Scene>, characters: seq<CharacterProfile>, characterId: string,
                                   c: CharacterProfile, service: ImageService)
    requires FindCharacter(characters, characterId) == Some(c) && HasUrl(c.imageUrl)
    ensures var r := GenerateAllSceneImages(scenes, characters, characterId, service);
      if r.error.None? then RanThrough(Pending(scenes), c.imageUrl.value, service, r)
      else StoppedAt(Pending(scenes), c.imageUrl.value, service, |r.requested| - 1, r)
  {
    RenderStopsAtRejection(scenes, Pending(scenes), c.imageUrl.value, service);
  }

  /** What the batch leaves on each scene that had no image, when identifiers are unique. With
      `k` the position in the pending list where the batch stopped (the end of the list when it
      ran through), a scene before `k` carries the image its prompt was answered with and is no
      longer marked, the scene at `k` is only no longer marked, and a scene after `k` is as it was. */
  lemma BatchStoresImages(scenes: seq<Scene>, characters: seq<CharacterProfile>, characterId: string,
                          c: CharacterProfile, service: ImageService)
    requires IdsUnique(scenes)
    requires FindCharacter(characters, characterId) == Some(c) && HasUrl(c.imageUrl)
    ensures var r := GenerateAllSceneImages(scenes, characters, characterId, service);
      var todo := Pending(scenes);
      var k := if r.error.None? then |todo| else |r.requested| - 1;
      forall i, j | 0 <= i < |scenes| && 0 <= j < |todo| && scenes[i].sceneId == todo[j].sceneId ::
        if j < k then
          && service(scenes[i].prompt, c.imageUrl.value).Success?
          && r.scenes[i] == scenes[i].(imageUrl := Some(service(scenes[i].prompt, c.imageUrl.value).value),
                                       isGeneratingImage := false)
        else if j == k then r.scenes[i] == scenes[i].(isGeneratingImage := false)
        else r.scenes[i] == scenes[i]
  {
    BatchIsRender(scenes, characters, characterId, c, service);
    PendingKeepsUnique(scenes);
    PendingById(scenes);
    RenderStoresImages(scenes, Pending(scenes), c.imageUrl.value, service);
  }

  lemma BatchIsRender(scenes: seq<Scene>, characters: seq<CharacterProfile>, characterId: string,
                      c: CharacterProfile, service: ImageService)
    requires FindCharacter(characters, characterId) == Some(c) && HasUrl(c.imageUrl)
    ensures GenerateAllSceneImages(scenes, characters, characterId, service)
         == RenderEach(scenes, Pending(scenes), c.imageUrl.value, service)
  {
  }

  /** `BatchStoresImages` for any list of scenes to render that are scenes of `current`. */
  lemma RenderStoresImages(current: seq<Scene>, todo: seq<Scene>, reference: string, service: ImageService)
    requires IdsUnique(todo)
    requires forall i, j | 0 <= i < |current| && 0 <= j < |todo| && current[i].sceneId == todo[j].sceneId ::
      todo[j] == current[i]
    ensures var r := RenderEach(current, todo, reference, service);
      var k := if r.error.None? then |todo| else |r.requested| - 1;
      forall i, j | 0 <= i < |current| && 0 <= j < |todo| && current[i].sceneId == todo[j].sceneId ::
        if j < k then
          && service(current[i].prompt, reference).Success?
          && r.scenes[i] == current[i].(imageUrl := Some(service(current[i].prompt, reference).value),
                                        isGeneratingImage := false)
        else if j == k then r.scenes[i] == current[i].(isGeneratingImage := false)
        else r.scenes[i] == current[i]
  {
    var r := RenderEach(current, todo, reference, service);
    var k := if r.error.None? then |todo| else |r.requested| - 1;
    RenderAnswers(current, todo, reference, service);
    RenderStopIndex(current, todo, reference, service);
    StoredFromAnswers(current, todo, reference, service, r, k);
  }

  /** Where the loop stopped: every request before `k` was accepted, the one at `k` (if any) was
      rejected, and the loop asked for the scenes up to and including `k`. */
  lemma RenderStopIndex(current: seq<Scene>, todo: seq<Scene>, reference: string, service: ImageService)
    ensures var r := RenderEach(current, todo, reference, service);
      var k := if r.error.None? then |todo| else |r.requested| - 1;
      && 0 <= k <= |todo|
      && (forall j | 0 <= j < k :: service(todo[j].prompt, reference).Success?)
      && (k < |todo| ==> service(todo[k].prompt, reference).Failure? && |r.requested| == k + 1)
      && (k == |todo| ==> |r.requested| == k)
  {
    var r := RenderEach(current, todo, reference, service);
    RenderStopsAtRejection(current, todo, reference, service);
    if r.error.Some? {
      assert |Ids(todo)[..|r.requested|]| == |r.requested|;
    }
  }

  /** The answers stored per scene, read against where the loop stopped. */
  lemma StoredFromAnswers(current: seq<Scene>, todo: seq<Scene>, reference: string, service: ImageService,
                          r: BatchRun, k: int)
    requires 0 <= k <= |todo| && |r.scenes| == |current|
    requires forall j | 0 <= j < k :: service(todo[j].prompt, reference).Success?
    requires k < |todo| ==> service(todo[k].prompt, reference).Failure? && |r.requested| == k + 1
    requires k == |todo| ==> |r.requested| == k
    requires forall i, j | 0 <= i < |current| && 0 <= j < |todo| && current[i].sceneId == todo[j].sceneId ::
      todo[j] == current[i]
    requires forall i, j | 0 <= i < |current| && 0 <= j < |todo| && current[i].sceneId == todo[j].sceneId ::
      r.scenes[i] == if j < |r.requested| then Answered(current[i], service(todo[j].prompt, reference)) else current[i]
    ensures forall i, j | 0 <= i < |current| && 0 <= j < |todo| && current[i].sceneId == todo[j].sceneId ::
      if j < k then
        && service(current[i].prompt, reference).Success?
        && r.scenes[i] == current[i].(imageUrl := Some(service(current[i].prompt, reference).value),
                                      isGeneratingImage := false)
      else if j == k then r.scenes[i] == current[i].(isGeneratingImage := false)
      else r.scenes[i] == current[i]
  {
  }

  /** With unique identifiers, the pending scene with a scene's identifier is that scene. */
  lemma PendingById(scenes: seq<Scene>)
    requires IdsUnique(scenes)
    ensures var todo := Pending(scenes);
      forall i, j | 0 <= i < |scenes| && 0 <= j < |todo| && scenes[i].sceneId == todo[j].sceneId :: todo[j] == scenes[i]
  {
    var todo := Pending(scenes);
    forall i, j | 0 <= i < |scenes| && 0 <= j < |todo| && scenes[i].sceneId == todo[j].sceneId
      ensures todo[j] == scenes[i]
    {
      assert todo[j] in scenes;
      var i' :| 0 <= i' < |scenes| && scenes[i'] == todo[j];
    }
  }

  /** Scenes that already had an image are not touched by the batch, when identifiers are unique. */
  lemma BatchKeepsFinishedScenes(scenes: seq<Scene>, characters: seq<CharacterProfile>, characterId: string,
                                 service: ImageService)
    requires IdsUnique(scenes)
    ensures forall i | 0 <= i < |scenes| && HasUrl(scenes[i].imageUrl) ::
      GenerateAllSceneImages(scenes, characters, characterId, service).scenes[i] == scenes[i]
  {
    var c := FindCharacter(characters, characterId);
    if c.Some? && HasUrl(c.value.imageUrl) {
      var pending := Pending(scenes);
      BatchIsRender(scenes, characters, characterId, c.value, service);
      RenderLeavesOthers(scenes, pending, c.value.imageUrl.value, service);
      forall i | 0 <= i < |scenes| && HasUrl(scenes[i].imageUrl) ensures scenes[i].sceneId !in Ids(pending) {
      }
    }
  }
}
