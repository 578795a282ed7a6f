/** The derived values of components/SceneTimeline.tsx: the scenes in display order, the
    characters that can serve as a reference, whether any image exists, the choice of the primary
    character and when the batch button is enabled. */
module SceneTimeline {
  import opened Wrappers
  import opened Model
  import AppActions

  /** `{ id, name }` of a character that has a reference image. */
  datatype CharacterRef = CharacterRef(id: string, name: string)

  function RefOf(c: CharacterProfile): CharacterRef {
    CharacterRef(c.id, c.name)
  }

  /** `sortedScenes`: the scenes ordered by `scene_id`, ties kept in their order (`Model.SortIsStable`). */
  function SortedScenes(scenes: seq<Scene>): (r: seq<Scene>)
    ensures multiset(r) == multiset(scenes)
    ensures SortedById(r)
  {
    SortById(scenes)
  }

  /** With unique identifiers the displayed order depends only on which scenes there are, and a
      list already in order is shown as it is. */
  lemma DisplayOrderCanonical(a: seq<Scene>, b: seq<Scene>)
    requires IdsUnique(a) && multiset(a) == multiset(b)
    ensures SortedScenes(a) == SortedScenes(b)
    ensures SortedById(a) ==> SortedScenes(a) == a
  {
    SortIgnoresOrder(a, b);
    if SortedById(a) {
      SortOfSorted(a);
    }
  }

  /** `charactersWithImages`: the characters with an image, in order, as `{ id, name }`. */
  function CharactersWithImages(characters: seq<CharacterProfile>): (r: seq<CharacterRef>)
    ensures |r| <= |characters|
    ensures forall x :: x in r <==> exists c | c in characters :: HasUrl(c.imageUrl) && RefOf(c) == x
    ensures IsSubsequence(r, Refs(characters))
  {
    if characters == [] then []
    else
      var rest := CharactersWithImages(characters[1..]);
      assert Refs(characters)[1..] == Refs(characters[1..]);
      assert forall c | c in characters :: c == characters[0] || c in characters[1..];
      if HasUrl(characters[0].imageUrl) then
        assert IsSubsequence(rest, Refs(characters)[1..]);
        [RefOf(characters[0])] + rest
      else
        SkipKeepsSubsequence(rest, Refs(characters));
        rest
  }

  /** `characters.filter(c => c.imageUrl)`: every character with an image, as often as it occurs,
      in order, and no other. */
  function WithImages(characters: seq<CharacterProfile>): (r: seq<CharacterProfile>)
    ensures IsSubsequence(r, characters)
    ensures forall c :: multiset(r)[c] == if HasUrl(c.imageUrl) then multiset(characters)[c] else 0
    ensures forall i | 0 <= i < |r| :: HasUrl(r[i].imageUrl)
  {
    if characters == [] then []
    else
      assert characters == [characters[0]] + characters[1..];
      if HasUrl(characters[0].imageUrl) then [characters[0]] + WithImages(characters[1..])
      else WithImages(characters[1..])
  }

  /** The candidates are the characters the filter keeps, each as `{ id, name }`, so a character
      listed twice is offered twice. */
  lemma {:induction false} CandidatesAreFiltered(characters: seq<CharacterProfile>)
    ensures CharactersWithImages(characters) == Refs(WithImages(characters))
    decreases |characters|
  {
    if characters != [] {
      CandidatesAreFiltered(characters[1..]);
      if HasUrl(characters[0].imageUrl) {
        RefsCons(characters[0], WithImages(characters[1..]));
      }
    }
  }

  lemma RefsCons(c: CharacterProfile, rest: seq<CharacterProfile>)
    ensures Refs([c] + rest) == [RefOf(c)] + Refs(rest)
  {
    var l := Refs([c] + rest);
    var m := [RefOf(c)] + Refs(rest);
    forall i | 0 <= i < |l| ensures l[i] == m[i] {
      if i > 0 {
        assert ([c] + rest)[i] == rest[i - 1];
      }
    }
  }

  function Refs(characters: seq<CharacterProfile>): (r: seq<CharacterRef>)
    ensures |r| == |characters| && forall i | 0 <= i < |r| :: r[i] == RefOf(characters[i])
  {
    seq(|characters|, i requires 0 <= i < |characters| => RefOf(characters[i]))
  }

  lemma SkipKeepsSubsequence<T>(r: seq<T>, s: seq<T>)
    requires s != [] && IsSubsequence(r, s[1..])
    ensures IsSubsequence(r, s)
  {
  }

  /** `hasGeneratedImages`: some scene has an image. */
  predicate HasGeneratedImages(scenes: seq<Scene>)
    ensures HasGeneratedImages(scenes) <==> exists x | x in scenes :: HasUrl(x.imageUrl)
  {
    exists i | 0 <= i < |scenes| :: HasUrl(scenes[i].imageUrl)
  }

  /** Some scene has an image exactly when the batch would skip some scene. */
  lemma {:induction false} ImagesIffBatchSkips(scenes: seq<Scene>)
    ensures HasGeneratedImages(scenes) <==> AppActions.Pending(scenes) != scenes
    decreases |scenes|
  {
    if scenes != [] {
      ImagesIffBatchSkips(scenes[1..]);
      var rest := AppActions.Pending(scenes[1..]);
      if HasUrl(scenes[0].imageUrl) {
        assert HasGeneratedImages(scenes);
        assert |rest| <= |scenes[1..]| by { SubsequenceNoLonger(rest, scenes[1..]); }
      } else {
        ImagesOfTail(scenes);
        PendingKeepsHead(scenes);
      }
    }
  }

  /** A first scene without an image does not change whether some scene has one. */
  lemma ImagesOfTail(scenes: seq<Scene>)
    requires scenes != [] && !HasUrl(scenes[0].imageUrl)
    ensures HasGeneratedImages(scenes) <==> HasGeneratedImages(scenes[1..])
  {
    if HasGeneratedImages(scenes) {
      var i :| 0 <= i < |scenes| && HasUrl(scenes[i].imageUrl);
      assert scenes[1..][i - 1] == scenes[i];
    }
    if HasGeneratedImages(scenes[1..]) {
      var i :| 0 <= i < |scenes[1..]| && HasUrl(scenes[1..][i].imageUrl);
      assert scenes[i + 1] == scenes[1..][i];
    }
  }

  /** A first scene without an image is kept by the batch, so the pending list equals the scenes
      exactly when the tail's pending list equals the tail. */
  lemma PendingKeepsHead(scenes: seq<Scene>)
    requires scenes != [] && !HasUrl(scenes[0].imageUrl)
    ensures AppActions.Pending(scenes) == scenes <==> AppActions.Pending(scenes[1..]) == scenes[1..]
  {
    assert AppActions.Pending(scenes) == [scenes[0]] + AppActions.Pending(scenes[1..]);
    assert scenes == [scenes[0]] + scenes[1..];
  }

  lemma {:induction false} SubsequenceNoLonger<T>(r: seq<T>, s: seq<T>)
    requires IsSubsequence(r, s)
    ensures |r| <= |s|
    decreases |s|
  {
    if r != [] {
      if r[0] == s[0] && IsSubsequence(r[1..], s[1..]) {
        SubsequenceNoLonger(r[1..], s[1..]);
      } else {
        SubsequenceNoLonger(r, s[1..]);
      }
    }
  }

  predicate RefListed(candidates: seq<CharacterRef>, id: string) {
    exists i | 0 <= i < |candidates| :: candidates[i].id == id
  }

  /** One run of the selection effect. Both of its tests read the selection the run started
      with: an empty one takes the first candidate, one that is no longer a candidate falls back
      to the first candidate or to nothing. */
  function SelectPrimary(current: string, candidates: seq<CharacterRef>): (r: string)
    ensures r == [] || RefListed(candidates, r)
    ensures current != [] && RefListed(candidates, current) ==> r == current
    ensures candidates != [] && (current == [] || !RefListed(candidates, current)) ==> r == candidates[0].id
    ensures candidates == [] ==> r == []
  {
    var afterFirst := if current == [] && |candidates| > 0 then candidates[0].id else current;
    if current != [] && !RefListed(candidates, current) then
      (if |candidates| > 0 then candidates[0].id else "")
    else afterFirst
  }

  /** The selection it sets does not make the effect change it again. */
  lemma SelectionSettles(current: string, candidates: seq<CharacterRef>)
    ensures SelectPrimary(SelectPrimary(current, candidates), candidates) == SelectPrimary(current, candidates)
  {
  }

  /** Character identifiers come from `crypto.randomUUID`, so no two are the same. */
  predicate CharacterIdsUnique(characters: seq<CharacterProfile>) {
    forall i, j | 0 <= i < j < |characters| :: characters[i].id != characters[j].id
  }

  /** `disabled={!primaryCharacterId || isLoading || isBatchGenerating}`, negated. */
  predicate BatchEnabled(primary: string, loading: bool, batchGenerating: bool) {
    primary != [] && !loading && !batchGenerating
  }

  /** A batch started from the enabled button after the selection effect finds its character with
      a reference image, so it never stops at the missing-reference error. */
  lemma EnabledBatchHasReference(characters: seq<CharacterProfile>, current: string, loading: bool,
                                 batchGenerating: bool)
    requires CharacterIdsUnique(characters)
    requires BatchEnabled(SelectPrimary(current, CharactersWithImages(characters)), loading, batchGenerating)
    ensures var id := SelectPrimary(current, CharactersWithImages(characters));
      var found := AppActions.FindCharacter(characters, id);
      found.Some? && HasUrl(found.value.imageUrl)
  {
    var refs := CharactersWithImages(characters);
    var id := SelectPrimary(current, refs);
    var k :| 0 <= k < |refs| && refs[k].id == id;
    assert refs[k] in refs;
    var c :| c in characters && HasUrl(c.imageUrl) && RefOf(c) == refs[k];
    var found := AppActions.FindCharacter(characters, id);
    assert found.Some?;
    var i :| 0 <= i < |characters| && characters[i] == found.value;
    var j :| 0 <= j < |characters| && characters[j] == c;
    assert i == j;
  }
}
