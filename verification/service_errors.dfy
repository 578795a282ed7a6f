/** `getErrorMessage` (services/geminiService.ts) and the messages the service functions throw
    themselves before their `catch` rewraps them. */
module ServiceErrors {
  import opened Text
  import opened Search

  /** What a `catch` clause receives: an `Error` with its message, or any other thrown value. */
  datatype Thrown = ErrorValue(message: string) | OtherValue

  /** The six shapes of message `getErrorMessage` produces. */
  datatype ErrorKind = ApiKeyError | QuotaError | PermissionError | ResponseError | GenericError | UnknownError

  /** The keywords looked for in the lower-cased message, in the order they are tried. */
  const Rules: seq<(string, ErrorKind)> := [
    ("api key", ApiKeyError),
    ("quota", QuotaError),
    ("permission denied", PermissionError),
    ("json", ResponseError)
  ]

  /** The kind of the first rule whose keyword `lowered` contains; generic when none does. */
  function FirstRule(lowered: string, rules: seq<(string, ErrorKind)>): (k: ErrorKind)
    ensures (forall i | 0 <= i < |rules| :: !Contains(lowered, rules[i].0)) ==> k == GenericError
    ensures (exists i | 0 <= i < |rules| :: Contains(lowered, rules[i].0)) ==>
      exists i | 0 <= i < |rules| :: && Contains(lowered, rules[i].0) && k == rules[i].1
                                     && forall j | 0 <= j < i :: !Contains(lowered, rules[j].0)
    decreases |rules|
  {
    if rules == [] then GenericError
    else if Contains(lowered, rules[0].0) then rules[0].1
    else
      var k := FirstRule(lowered, rules[1..]);
      assert forall i | 1 <= i < |rules| :: rules[i] == rules[1..][i - 1];
      if exists i | 0 <= i < |rules| :: Contains(lowered, rules[i].0) then
        var i :| 0 <= i < |rules| && Contains(lowered, rules[i].0);
        assert Contains(lowered, rules[1..][i - 1].0);
        var i' :| 0 <= i' < |rules[1..]| && Contains(lowered, rules[1..][i'].0) && k == rules[1..][i'].1
                  && forall j | 0 <= j < i' :: !Contains(lowered, rules[1..][j].0);
        assert forall j | 1 <= j < i' + 1 :: rules[j] == rules[1..][j - 1];
        assert Contains(lowered, rules[i' + 1].0) && k == rules[i' + 1].1;
        k
      else
        k
  }

  /** The kind of message a thrown value is turned into. */
  function Classify(e: Thrown): ErrorKind {
    match e
    case OtherValue => UnknownError
    case ErrorValue(m) => FirstRule(Lower(m), Rules)
  }

  /** The kind a message announces by its opening words. */
  function KindOf(r: string): ErrorKind {
    if StartsWith(r, "API Key Error in ") then ApiKeyError
    else if StartsWith(r, "Quota Error in ") then QuotaError
    else if StartsWith(r, "Permission Error in ") then PermissionError
    else if StartsWith(r, "Response Error in ") then ResponseError
    else if StartsWith(r, "An unknown error occurred in ") then UnknownError
    else GenericError
  }

  /** `getErrorMessage(error, context)`. The logging call is left out. */
  function ErrorMessage(e: Thrown, context: string): (r: string)
    ensures Contains(r, context)
  {
    match e
    case OtherValue =>
      var r := "An unknown error occurred in " + context + ".";
      ContainsMiddle("An unknown error occurred in ", context, ".");
      r
    case ErrorValue(m) =>
      var lowered := Lower(m);
      if Contains(lowered, "api key") then
        var tail := ": The API key is not valid or has been disabled. Please ensure it is correctly configured in your environment.";
        ContainsMiddle("API Key Error in ", context, tail);
        "API Key Error in " + context + tail
      else if Contains(lowered, "quota") then
        var tail := ": You have exceeded your API usage quota. Please check your Google AI project.";
        ContainsMiddle("Quota Error in ", context, tail);
        "Quota Error in " + context + tail
      else if Contains(lowered, "permission denied") then
        var tail := ": The API key lacks the necessary permissions for this operation.";
        ContainsMiddle("Permission Error in ", context, tail);
        "Permission Error in " + context + tail
      else if Contains(lowered, "json") then
        var tail := ": The model returned an invalid response. It might be helpful to try again.";
        ContainsMiddle("Response Error in ", context, tail);
        "Response Error in " + context + tail
      else
        ContainsMiddle("Error in ", context, ": " + m);
        assert "Error in " + context + (": " + m) == "Error in " + context + ": " + m;
        "Error in " + context + ": " + m
  }

  /** The rule table, tried in order, is the `if` chain of `getErrorMessage`. */
  lemma RulesInOrder(lowered: string)
    ensures FirstRule(lowered, Rules) ==
      if Contains(lowered, "api key") then ApiKeyError
      else if Contains(lowered, "quota") then QuotaError
      else if Contains(lowered, "permission denied") then PermissionError
      else if Contains(lowered, "json") then ResponseError
      else GenericError
  {
    assert Rules[1..] == [("quota", QuotaError), ("permission denied", PermissionError), ("json", ResponseError)];
    assert Rules[1..][1..] == [("permission denied", PermissionError), ("json", ResponseError)];
    assert Rules[1..][1..][1..] == [("json", ResponseError)];
    assert Rules[1..][1..][1..][1..] == [];
  }

  /** A message with no keyword is passed on in full after the context. */
  lemma GenericKeepsMessage(m: string, context: string)
    requires Classify(ErrorValue(m)) == GenericError
    ensures ErrorMessage(ErrorValue(m), context) == "Error in " + context + ": " + m
  {
    RulesInOrder(Lower(m));
  }

  lemma StartsWithHead(h: string, x: string)
    ensures StartsWith(h + x, h)
  {
    assert (h + x)[..|h|] == h;
  }

  lemma DiffersAt(s: string, q: string, i: nat)
    requires i < |s| && i < |q| && s[i] != q[i]
    ensures !StartsWith(s, q)
  {
    if |q| <= |s| {
      assert s[..|q|][i] != q[i];
    }
  }

  /** The message for a value that is not an `Error` announces an unknown error. */
  lemma UnknownAnnounced(context: string)
    ensures KindOf(ErrorMessage(OtherValue, context)) == UnknownError
  {
    var r := ErrorMessage(OtherValue, context);
    var h := "An unknown error occurred in ";
    assert r == h + (context + ".");
    StartsWithHead(h, context + ".");
    DiffersAt(r, "API Key Error in ", 1);
    DiffersAt(r, "Quota Error in ", 0);
    DiffersAt(r, "Permission Error in ", 0);
    DiffersAt(r, "Response Error in ", 0);
  }

  /** A message opening with `h` does not open with a `q` whose first letter differs. */
  lemma OpeningExcludes(r: string, h: string, q: string)
    requires StartsWith(r, h) && h != [] && q != [] && q[0] != h[0]
    ensures !StartsWith(r, q)
  {
    assert r[..|h|][0] == r[0];
    DiffersAt(r, q, 0);
  }

  lemma ApiKeyAnnounced(m: string, context: string)
    requires Contains(Lower(m), "api key")
    ensures KindOf(ErrorMessage(ErrorValue(m), context)) == ApiKeyError
  {
    var h := "API Key Error in ";
    StartsWithHead(h, context + ": The API key is not valid or has been disabled. Please ensure it is correctly configured in your environment.");
  }

  lemma QuotaAnnounced(m: string, context: string)
    requires !Contains(Lower(m), "api key") && Contains(Lower(m), "quota")
    ensures KindOf(ErrorMessage(ErrorValue(m), context)) == QuotaError
  {
    var r := ErrorMessage(ErrorValue(m), context);
    var h := "Quota Error in ";
    assert r == h + r[|h|..];
    StartsWithHead(h, r[|h|..]);
    OpeningExcludes(r, h, "API Key Error in ");
  }

  lemma PermissionAnnounced(m: string, context: string)
    requires !Contains(Lower(m), "api key") && !Contains(Lower(m), "quota")
    requires Contains(Lower(m), "permission denied")
    ensures KindOf(ErrorMessage(ErrorValue(m), context)) == PermissionError
  {
    var r := ErrorMessage(ErrorValue(m), context);
    var h := "Permission Error in ";
    assert r == h + r[|h|..];
    StartsWithHead(h, r[|h|..]);
    OpeningExcludes(r, h, "API Key Error in ");
    OpeningExcludes(r, h, "Quota Error in ");
  }

  lemma ResponseAnnounced(m: string, context: string)
    requires !Contains(Lower(m), "api key") && !Contains(Lower(m), "quota")
    requires !Contains(Lower(m), "permission denied") && Contains(Lower(m), "json")
    ensures KindOf(ErrorMessage(ErrorValue(m), context)) == ResponseError
  {
    var r := ErrorMessage(ErrorValue(m), context);
    var h := "Response Error in ";
    assert r == h + r[|h|..];
    StartsWithHead(h, r[|h|..]);
    OpeningExcludes(r, h, "API Key Error in ");
    OpeningExcludes(r, h, "Quota Error in ");
    OpeningExcludes(r, h, "Permission Error in ");
  }

  lemma GenericAnnounced(m: string, context: string)
    requires !Contains(Lower(m), "api key") && !Contains(Lower(m), "quota")
    requires !Contains(Lower(m), "permission denied") && !Contains(Lower(m), "json")
    ensures KindOf(ErrorMessage(ErrorValue(m), context)) == GenericError
  {
    var r := ErrorMessage(ErrorValue(m), context);
    var h := "Error in ";
    assert r == h + r[|h|..];
    StartsWithHead(h, r[|h|..]);
    OpeningExcludes(r, h, "API Key Error in ");
    OpeningExcludes(r, h, "Quota Error in ");
    OpeningExcludes(r, h, "Permission Error in ");
    OpeningExcludes(r, h, "Response Error in ");
    OpeningExcludes(r, h, "An unknown error occurred in ");
  }

  /** A message announces, by its opening words, the kind the first matching rule gives. */
  lemma ErrorMessageAnnouncesKind(e: Thrown, context: string)
    ensures KindOf(ErrorMessage(e, context)) == Classify(e)
  {
    match e
    case OtherValue =>
      UnknownAnnounced(context);
    case ErrorValue(m) =>
      var lowered := Lower(m);
      RulesInOrder(lowered);
      if Contains(lowered, "api key") {
        ApiKeyAnnounced(m, context);
      } else if Contains(lowered, "quota") {
        QuotaAnnounced(m, context);
      } else if Contains(lowered, "permission denied") {
        PermissionAnnounced(m, context);
      } else if Contains(lowered, "json") {
        ResponseAnnounced(m, context);
      } else {
        GenericAnnounced(m, context);
      }
  }

  /** A message made of words separated by single spaces. */
  function Sentence(words: seq<string>): string {
    Join(words, " ")
  }

  /** The messages thrown inside the `try` blocks of `generateScenePrompts` and `generateCharacterDNA`. */
  const SceneJsonMissingWords := ["Could", "not", "find", "a", "valid", "JSON", "object", "in", "the", "API", "response."]
  const SceneJsonInvalidWords := ["Invalid", "JSON", "format", "received", "from", "API", "after", "cleanup."]
  const CharacterJsonMissingWords := ["Could", "not", "find", "a", "valid", "JSON", "object", "in", "the", "character", "response."]
  const CharacterJsonInvalidWords := ["Invalid", "JSON", "format", "for", "characters", "received", "from", "API."]
  const CharacterListMissingWords := ["Invalid", "JSON", "structure", "for", "characters", "received", "from", "API."]
  /** The message the image functions throw when the answer has no inline image. */
  const NoImageDataWords := ["No", "image", "data", "found", "in", "the", "response", "from", "the", "model."]

  const SceneJsonMissing := Sentence(SceneJsonMissingWords)
  const SceneJsonInvalid := Sentence(SceneJsonInvalidWords)
  const CharacterJsonMissing := Sentence(CharacterJsonMissingWords)
  const CharacterJsonInvalid := Sentence(CharacterJsonInvalidWords)
  const CharacterListMissing := Sentence(CharacterListMissingWords)
  const NoImageData := Sentence(NoImageDataWords)

  /** Each earlier keyword contains a fragment without a space, which the word checks look for. */
  lemma KeywordFragments()
    ensures Contains("api key", "key")
    ensures Contains("quota", "quota")
    ensures Contains("permission denied", "permission")
    ensures Contains("json", "json")
  {
    assert "api key" == "api " + "key" + "";
    ContainsMiddle("api ", "key", "");
    assert "quota" == "" + "quota" + "";
    ContainsMiddle("", "quota", "");
    assert "permission denied" == "" + "permission" + " denied";
    ContainsMiddle("", "permission", " denied");
    assert "json" == "" + "json" + "";
    ContainsMiddle("", "json", "");
  }

  /** A sentence whose words are clear of `k`, `q` and `p` holds none of the first three keywords. */
  lemma SentenceLacksEarlierKeywords(words: seq<string>)
    requires AllClear(words, 3, 'k', 'K')
    requires AllClear(words, 5, 'q', 'Q')
    requires AllClear(words, 10, 'p', 'P')
    ensures !Contains(Lower(Sentence(words)), "api key")
    ensures !Contains(Lower(Sentence(words)), "quota")
    ensures !Contains(Lower(Sentence(words)), "permission denied")
  {
    KeywordFragments();
    SentenceLacks(words, "key", 'k', 'K', "api key");
    SentenceLacks(words, "quota", 'q', 'Q', "quota");
    SentenceLacks(words, "permission", 'p', 'P', "permission denied");
  }

  /** A sentence that has the word "JSON" and, word by word, none of the three earlier keywords
      is classified as a response error. */
  lemma JsonSentenceIsResponseError(words: seq<string>, k: nat)
    requires k < |words| && words[k] == "JSON"
    requires AllClear(words, 3, 'k', 'K')
    requires AllClear(words, 5, 'q', 'Q')
    requires AllClear(words, 10, 'p', 'P')
    ensures Classify(ErrorValue(Sentence(words))) == ResponseError
  {
    SentenceLacksEarlierKeywords(words);
    JoinContainsWord(words, k, " ");
    LowerKeepsContains(Sentence(words), "JSON");
    assert Lower("JSON") == "json";
    RulesInOrder(Lower(Sentence(words)));
  }

  /** A sentence that has, word by word, none of the four keywords is rewrapped as it is. */
  lemma PlainSentenceIsGeneric(words: seq<string>)
    requires AllClear(words, 3, 'k', 'K')
    requires AllClear(words, 5, 'q', 'Q')
    requires AllClear(words, 10, 'p', 'P')
    requires AllClear(words, 4, 'j', 'J')
    ensures Classify(ErrorValue(Sentence(words))) == GenericError
  {
    SentenceLacksEarlierKeywords(words);
    KeywordFragments();
    SentenceLacks(words, "json", 'j', 'J', "json");
    RulesInOrder(Lower(Sentence(words)));
  }

  // Word-by-word checks of each message, one fragment at a time.

  lemma SceneJsonMissingClearKey()
    ensures AllClear(SceneJsonMissingWords, 3, 'k', 'K')
  {
  }

  lemma SceneJsonMissingClearQuota()
    ensures AllClear(SceneJsonMissingWords, 5, 'q', 'Q')
  {
  }

  lemma SceneJsonMissingClearPermission()
    ensures AllClear(SceneJsonMissingWords, 10, 'p', 'P')
  {
  }

  lemma SceneJsonInvalidClearKey()
    ensures AllClear(SceneJsonInvalidWords, 3, 'k', 'K')
  {
  }

  lemma SceneJsonInvalidClearQuota()
    ensures AllClear(SceneJsonInvalidWords, 5, 'q', 'Q')
  {
  }

  lemma SceneJsonInvalidClearPermission()
    ensures AllClear(SceneJsonInvalidWords, 10, 'p', 'P')
  {
  }

  lemma CharacterJsonMissingClearKey()
    ensures AllClear(CharacterJsonMissingWords, 3, 'k', 'K')
  {
  }

  lemma CharacterJsonMissingClearQuota()
    ensures AllClear(CharacterJsonMissingWords, 5, 'q', 'Q')
  {
  }

  lemma CharacterJsonMissingClearPermission()
    ensures AllClear(CharacterJsonMissingWords, 10, 'p', 'P')
  {
  }

  lemma CharacterJsonInvalidClearKey()
    ensures AllClear(CharacterJsonInvalidWords, 3, 'k', 'K')
  {
  }

  lemma CharacterJsonInvalidClearQuota()
    ensures AllClear(CharacterJsonInvalidWords, 5, 'q', 'Q')
  {
  }

  lemma CharacterJsonInvalidClearPermission()
    ensures AllClear(CharacterJsonInvalidWords, 10, 'p', 'P')
  {
  }

  lemma CharacterListMissingClearKey()
    ensures AllClear(CharacterListMissingWords, 3, 'k', 'K')
  {
  }

  lemma CharacterListMissingClearQuota()
    ensures AllClear(CharacterListMissingWords, 5, 'q', 'Q')
  {
  }

  lemma CharacterListMissingClearPermission()
    ensures AllClear(CharacterListMissingWords, 10, 'p', 'P')
  {
  }

  lemma NoImageDataClearKey()
    ensures AllClear(NoImageDataWords, 3, 'k', 'K')
  {
  }

  lemma NoImageDataClearQuota()
    ensures AllClear(NoImageDataWords, 5, 'q', 'Q')
  {
  }

  lemma NoImageDataClearPermission()
    ensures AllClear(NoImageDataWords, 10, 'p', 'P')
  {
  }

  lemma NoImageDataClearJson()
    ensures AllClear(NoImageDataWords, 4, 'j', 'J')
  {
  }

  lemma SceneJsonMissingIsResponseError()
    ensures Classify(ErrorValue(SceneJsonMissing)) == ResponseError
  {
    SceneJsonMissingClearKey(); SceneJsonMissingClearQuota(); SceneJsonMissingClearPermission();
    JsonSentenceIsResponseError(SceneJsonMissingWords, 5);
  }

  lemma SceneJsonInvalidIsResponseError()
    ensures Classify(ErrorValue(SceneJsonInvalid)) == ResponseError
  {
    SceneJsonInvalidClearKey(); SceneJsonInvalidClearQuota(); SceneJsonInvalidClearPermission();
    JsonSentenceIsResponseError(SceneJsonInvalidWords, 1);
  }

  lemma CharacterJsonMissingIsResponseError()
    ensures Classify(ErrorValue(CharacterJsonMissing)) == ResponseError
  {
    CharacterJsonMissingClearKey(); CharacterJsonMissingClearQuota(); CharacterJsonMissingClearPermission();
    JsonSentenceIsResponseError(CharacterJsonMissingWords, 5);
  }

  lemma CharacterJsonInvalidIsResponseError()
    ensures Classify(ErrorValue(CharacterJsonInvalid)) == ResponseError
  {
    CharacterJsonInvalidClearKey(); CharacterJsonInvalidClearQuota(); CharacterJsonInvalidClearPermission();
    JsonSentenceIsResponseError(CharacterJsonInvalidWords, 1);
  }

  lemma CharacterListMissingIsResponseError()
    ensures Classify(ErrorValue(CharacterListMissing)) == ResponseError
  {
    CharacterListMissingClearKey(); CharacterListMissingClearQuota(); CharacterListMissingClearPermission();
    JsonSentenceIsResponseError(CharacterListMissingWords, 1);
  }

  /** Every parse or structure failure the service throws itself mentions JSON and none of the
      earlier keywords, so its rewrapped message is always a response error. */
  lemma LocalFailuresAreResponseErrors(m: string)
    requires m in {SceneJsonMissing, SceneJsonInvalid, CharacterJsonMissing, CharacterJsonInvalid, CharacterListMissing}
    ensures Classify(ErrorValue(m)) == ResponseError
  {
    SceneJsonMissingIsResponseError();
    SceneJsonInvalidIsResponseError();
    CharacterJsonMissingIsResponseError();
    CharacterJsonInvalidIsResponseError();
    CharacterListMissingIsResponseError();
  }

  /** Rewrapped in any function, a local failure announces a response error. */
  lemma LocalFailureAnnouncedAsResponse(m: string, context: string)
    requires m in {SceneJsonMissing, SceneJsonInvalid, CharacterJsonMissing, CharacterJsonInvalid, CharacterListMissing}
    ensures KindOf(ErrorMessage(ErrorValue(m), context)) == ResponseError
  {
    LocalFailuresAreResponseErrors(m);
    ErrorMessageAnnouncesKind(ErrorValue(m), context);
  }

  /** The missing-image failure carries no keyword, so it is rewrapped with its text kept. */
  lemma NoImageDataIsGeneric(context: string)
    ensures Classify(ErrorValue(NoImageData)) == GenericError
    ensures ErrorMessage(ErrorValue(NoImageData), context) == "Error in " + context + ": " + NoImageData
  {
    NoImageDataClearKey(); NoImageDataClearQuota(); NoImageDataClearPermission(); NoImageDataClearJson();
    PlainSentenceIsGeneric(NoImageDataWords);
    GenericKeepsMessage(NoImageData, context);
  }
}
