/** The records of types.ts and the orderings and look-ups the components apply to them. */
module Model {
  import opened Wrappers

  /** One storyboard scene. `imageUrl` is optional in the source; `isGeneratingImage`
      is an optional flag whose absence reads as false, so it is a plain `bool` here. */
  datatype Scene = Scene(
    sceneId: int,
    time: string,
    prompt: string,
    imageUrl: Option<string>,
    isGeneratingImage: bool)

  datatype CharacterProfile = CharacterProfile(
    id: string,
    name: string,
    description: string,
    imageUrl: Option<string>,
    isGeneratingImage: bool)

  /** `duration` is in seconds; 0 means "not set". */
  datatype VideoConfig = VideoConfig(
    duration: int,
    style: string,
    includeDialogue: bool,
    dialogueLanguage: string)

  /** JavaScript truthiness of an optional URL: present and not the empty string. */
  predicate HasUrl(url: Option<string>) {
    url.Some? && url.value != ""
  }

  /** The identifiers present in a scene list. `id in IdSet(s)` is `s.some(x => x.scene_id === id)`. */
  function IdSet(s: seq<Scene>): set<int> {
    set x | x in s :: x.sceneId
  }

  predicate IdsUnique(s: seq<Scene>) {
    forall i, j | 0 <= i < |s| && 0 <= j < |s| && s[i].sceneId == s[j].sceneId :: i == j
  }

  predicate SortedById(s: seq<Scene>) {
    forall i, j | 0 <= i < j < |s| :: s[i].sceneId <= s[j].sceneId
  }

  /** `r` keeps the elements of `s` in their order (a sub-sequence, as `filter` produces). */
  predicate IsSubsequence<T(==)>(r: seq<T>, s: seq<T>)
    decreases |s|
  {
    r == [] || (s != [] && ((r[0] == s[0] && IsSubsequence(r[1..], s[1..])) || IsSubsequence(r, s[1..])))
  }

  lemma IdSetConcat(a: seq<Scene>, b: seq<Scene>)
    ensures IdSet(a + b) == IdSet(a) + IdSet(b)
  {
    forall id | id in IdSet(a + b) ensures id in IdSet(a) + IdSet(b) {
      var x :| x in a + b && x.sceneId == id;
    }
  }

  lemma IdSetOfPermutation(a: seq<Scene>, b: seq<Scene>)
    requires multiset(a) == multiset(b)
    ensures IdSet(a) == IdSet(b)
  {
    forall x ensures x in a <==> x in b {
      assert x in a <==> x in multiset(a);
      assert x in b <==> x in multiset(b);
    }
  }

  /** Where a stable insertion puts `x`: after every element whose id is not larger. */
  function InsertPos(s: seq<Scene>, x: Scene): (k: nat)
    ensures k <= |s|
    ensures forall i | 0 <= i < k :: s[i].sceneId <= x.sceneId
    ensures k < |s| ==> x.sceneId < s[k].sceneId
  {
    if s == [] || x.sceneId < s[0].sceneId then 0 else 1 + InsertPos(s[1..], x)
  }

  function InsertById(s: seq<Scene>, x: Scene): (r: seq<Scene>)
    ensures |r| == |s| + 1
    ensures multiset(r) == multiset(s) + multiset{x}
    ensures SortedById(s) ==> SortedById(r)
  {
    var k := InsertPos(s, x);
    InsertMultiset(s, x, k);
    InsertSorted(s, x, k);
    s[..k] + [x] + s[k..]
  }

  lemma InsertMultiset(s: seq<Scene>, x: Scene, k: nat)
    requires k <= |s|
    ensures multiset(s[..k] + [x] + s[k..]) == multiset(s) + multiset{x}
  {
    assert s == s[..k] + s[k..];
  }

  lemma InsertSorted(s: seq<Scene>, x: Scene, k: nat)
    requires k == InsertPos(s, x)
    ensures SortedById(s) ==> SortedById(s[..k] + [x] + s[k..])
  {
    InsertIndex(s, x, k);
  }

  /** Where each element of an insertion comes from. */
  lemma InsertIndex(s: seq<Scene>, x: Scene, k: nat)
    requires k <= |s|
    ensures var r := s[..k] + [x] + s[k..];
      |r| == |s| + 1 && forall i | 0 <= i < |r| :: r[i] == if i < k then s[i] else if i == k then x else s[i - 1]
  {
  }

  lemma InsertKeepsUnique(s: seq<Scene>, x: Scene)
    requires IdsUnique(s) && x.sceneId !in IdSet(s)
    ensures IdsUnique(InsertById(s, x))
  {
    forall i | 0 <= i < |s| ensures s[i].sceneId != x.sceneId {
      assert s[i] in s;
    }
    InsertUnique(s, x, InsertPos(s, x));
  }

  lemma InsertUnique(s: seq<Scene>, x: Scene, k: nat)
    requires k <= |s| && IdsUnique(s)
    requires forall i | 0 <= i < |s| :: s[i].sceneId != x.sceneId
    ensures IdsUnique(s[..k] + [x] + s[k..])
  {
    var r := s[..k] + [x] + s[k..];
    InsertIndex(s, x, k);
    forall i, j | 0 <= i < |r| && 0 <= j < |r| && r[i].sceneId == r[j].sceneId ensures i == j {
      var i' := if i < k then i else i - 1;
      var j' := if j < k then j else j - 1;
      if i != k && j != k {
        assert r[i] == s[i'] && r[j] == s[j'];
      }
    }
  }

  /** `[...s].sort((a, b) => a.scene_id - b.scene_id)`: a stable insertion sort (`SortIsStable`). */
  function SortById(s: seq<Scene>): (r: seq<Scene>)
    ensures |r| == |s|
    ensures SortedById(r)
    ensures multiset(r) == multiset(s)
  {
    if s == [] then []
    else
      assert s == s[..|s| - 1] + [s[|s| - 1]];
      InsertById(SortById(s[..|s| - 1]), s[|s| - 1])
  }

  /** Sorting an already ordered list leaves it as it is. */
  lemma {:induction false} SortOfSorted(s: seq<Scene>)
    requires SortedById(s)
    ensures SortById(s) == s
    decreases |s|
  {
    if s != [] {
      var init := s[..|s| - 1];
      var x := s[|s| - 1];
      assert s == init + [x];
      SortedSplit(s, init, x);
      SortOfSorted(init);
      InsertAtEnd(init, x);
      SortUnfolds(s);
    }
  }

  lemma SortUnfolds(s: seq<Scene>)
    requires s != []
    ensures SortById(s) == InsertById(SortById(s[..|s| - 1]), s[|s| - 1])
  {
  }

  /** An ordered list without its last element is ordered and no larger than that element. */
  lemma SortedSplit(s: seq<Scene>, init: seq<Scene>, x: Scene)
    requires SortedById(s) && s == init + [x]
    ensures SortedById(init)
    ensures forall i | 0 <= i < |init| :: init[i].sceneId <= x.sceneId
  {
    assert forall i | 0 <= i < |init| :: init[i] == s[i];
    assert s[|init|] == x;
  }

  /** An element no smaller than all others goes last. */
  lemma InsertAtEnd(s: seq<Scene>, x: Scene)
    requires forall i | 0 <= i < |s| :: s[i].sceneId <= x.sceneId
    ensures InsertById(s, x) == s + [x]
  {
    var k := InsertPos(s, x);
    assert k == |s|;
    assert s[..k] == s && s[k..] == [];
  }

  /** Sorting never merges or splits identifiers. */
  lemma {:induction false} SortKeepsUnique(s: seq<Scene>)
    requires IdsUnique(s)
    ensures IdsUnique(SortById(s))
    decreases |s|
  {
    if s != [] {
      var init := s[..|s| - 1];
      var x := s[|s| - 1];
      assert IdsUnique(init);
      SortKeepsUnique(init);
      IdSetOfPermutation(SortById(init), init);
      InsertKeepsUnique(SortById(init), x);
    }
  }

  /** The scenes carrying identifier `id`, in their order (`s.filter(x => x.scene_id === id)`). */
  function WithId(s: seq<Scene>, id: int): seq<Scene> {
    if s == [] then []
    else if s[0].sceneId == id then [s[0]] + WithId(s[1..], id)
    else WithId(s[1..], id)
  }

  /** The sort is stable: for every identifier, the scenes that carry it keep their order. */
  lemma {:induction false} SortIsStable(s: seq<Scene>, id: int)
    ensures WithId(SortById(s), id) == WithId(s, id)
    decreases |s|
  {
    if s != [] {
      var init := s[..|s| - 1];
      var x := s[|s| - 1];
      assert s == init + [x];
      SortIsStable(init, id);
      AfterInsertPos(SortById(init), x);
      InsertIsStable(SortById(init), x, id);
      WithIdConcat(init, [x], id);
    }
  }

  /** Inserting puts `x` after the scenes with its identifier, when every scene from the
      insertion position on has a larger one (as in an ordered list, `AfterInsertPos`). */
  lemma InsertIsStable(t: seq<Scene>, x: Scene, id: int)
    requires forall i | InsertPos(t, x) <= i < |t| :: x.sceneId < t[i].sceneId
    ensures WithId(InsertById(t, x), id) == WithId(t, id) + WithId([x], id)
  {
    var k := InsertPos(t, x);
    InsertSplit(t, x);
    if x.sceneId == id {
      SuffixWithoutId(t, k, id);
    }
    WithIdSplice(t[..k], x, t[k..], id);
  }

  lemma InsertSplit(t: seq<Scene>, x: Scene)
    ensures var k := InsertPos(t, x); InsertById(t, x) == t[..k] + [x] + t[k..] && t == t[..k] + t[k..]
  {
  }

  lemma SuffixWithoutId(t: seq<Scene>, k: nat, id: int)
    requires k <= |t| && forall i | k <= i < |t| :: id < t[i].sceneId
    ensures WithId(t[k..], id) == []
  {
    var b := t[k..];
    assert forall i | 0 <= i < |b| :: b[i] == t[k + i];
    WithIdNone(b, id);
  }

  /** In an ordered list, every scene from the insertion position on has a larger identifier. */
  lemma AfterInsertPos(t: seq<Scene>, x: Scene)
    requires SortedById(t)
    ensures forall i | InsertPos(t, x) <= i < |t| :: x.sceneId < t[i].sceneId
  {
  }

  /** `x` between `a` and `b` is kept after the kept scenes of `a + b` when none of `b` is kept,
      and dropped when it does not carry the identifier. */
  lemma WithIdSplice(a: seq<Scene>, x: Scene, b: seq<Scene>, id: int)
    requires x.sceneId != id || WithId(b, id) == []
    ensures WithId(a + [x] + b, id) == WithId(a + b, id) + WithId([x], id)
  {
    WithIdConcat(a + [x], b, id);
    WithIdConcat(a, [x], id);
    WithIdConcat(a, b, id);
    assert [x][1..] == [];
    if x.sceneId == id {
      assert WithId(b, id) == [];
      assert WithId(a + [x] + b, id) == WithId(a, id) + WithId([x], id) + [];
      assert WithId(a + b, id) == WithId(a, id) + [];
    } else {
      assert WithId([x], id) == [];
      assert WithId(a + [x] + b, id) == WithId(a, id) + [] + WithId(b, id);
    }
  }

  lemma {:induction false} WithIdConcat(a: seq<Scene>, b: seq<Scene>, id: int)
    ensures WithId(a + b, id) == WithId(a, id) + WithId(b, id)
    decreases |a|
  {
    if a != [] {
      var ab := a + b;
      assert ab[0] == a[0] && ab[1..] == a[1..] + b;
      WithIdConcat(a[1..], b, id);
      var rest := WithId(a[1..], id) + WithId(b, id);
      if a[0].sceneId == id {
        assert WithId(ab, id) == [a[0]] + rest;
        assert [a[0]] + rest == ([a[0]] + WithId(a[1..], id)) + WithId(b, id);
      } else {
        assert WithId(ab, id) == rest;
      }
    } else {
      assert a + b == b;
    }
  }

  lemma {:induction false} WithIdNone(s: seq<Scene>, id: int)
    requires forall i | 0 <= i < |s| :: s[i].sceneId != id
    ensures WithId(s, id) == []
    decreases |s|
  {
    if s != [] {
      WithIdNone(s[1..], id);
    }
  }

  /** Two ordered arrangements of the same scenes are equal when no identifier repeats. */
  lemma {:induction false} SortedPermutationsEqual(a: seq<Scene>, b: seq<Scene>)
    requires SortedById(a) && SortedById(b) && IdsUnique(a)
    requires multiset(a) == multiset(b)
    ensures a == b
    decreases |a|
  {
    assert |b| == |multiset(b)| == |a|;
    if a != [] {
      SortedHeadsAgree(a, b);
      SameTails(a, b);
      assert IdsUnique(a[1..]) && SortedById(a[1..]) && SortedById(b[1..]);
      SortedPermutationsEqual(a[1..], b[1..]);
      assert a == [a[0]] + a[1..] && b == [b[0]] + b[1..];
    }
  }

  /** Both arrangements open with the scene of the smallest identifier. */
  lemma SortedHeadsAgree(a: seq<Scene>, b: seq<Scene>)
    requires SortedById(a) && SortedById(b) && IdsUnique(a)
    requires multiset(a) == multiset(b) && a != [] && b != []
    ensures a[0] == b[0]
  {
    assert a[0] in multiset(b) && b[0] in multiset(a);
    var i :| 0 <= i < |b| && b[i] == a[0];
    var j :| 0 <= j < |a| && a[j] == b[0];
    assert a[0].sceneId <= a[j].sceneId;
    assert b[0].sceneId <= b[i].sceneId;
  }

  lemma SameTails<T>(a: seq<T>, b: seq<T>)
    requires a != [] && b != [] && a[0] == b[0] && multiset(a) == multiset(b)
    ensures multiset(a[1..]) == multiset(b[1..])
  {
    assert a == [a[0]] + a[1..];
    assert b == [a[0]] + b[1..];
    assert multiset(a) == multiset{a[0]} + multiset(a[1..]);
    assert multiset(b) == multiset{a[0]} + multiset(b[1..]);
    assert multiset(a[1..]) == multiset(a) - multiset{a[0]};
  }

  /** Sorting scenes with distinct identifiers does not depend on their initial order. */
  lemma SortIgnoresOrder(a: seq<Scene>, b: seq<Scene>)
    requires IdsUnique(a) && multiset(a) == multiset(b)
    ensures SortById(a) == SortById(b)
  {
    SortKeepsUnique(a);
    SortedPermutationsEqual(SortById(a), SortById(b));
  }

  /** The first scene carrying `id`, as `Array.prototype.find` returns it. */
  function FirstById(s: seq<Scene>, id: int): (r: Option<Scene>)
    ensures r.Some? <==> id in IdSet(s)
    ensures r.Some? ==> r.value in s && r.value.sceneId == id
    ensures forall i | 0 <= i < |s| && s[i].sceneId == id && (forall j | 0 <= j < i :: s[j].sceneId != id) ::
      r == Some(s[i])
  {
    if s == [] then None
    else if s[0].sceneId == id then Some(s[0])
    else
      assert s == [s[0]] + s[1..];
      IdSetConcat([s[0]], s[1..]);
      assert forall i | 1 <= i < |s| :: s[i] == s[1..][i - 1];
      FirstById(s[1..], id)
  }

  lemma {:induction false} FirstByIdConcat(a: seq<Scene>, b: seq<Scene>, id: int)
    ensures FirstById(a + b, id) == if FirstById(a, id).Some? then FirstById(a, id) else FirstById(b, id)
    decreases |a|
  {
    if a != [] {
      assert (a + b)[0] == a[0];
      assert (a + b)[1..] == a[1..] + b;
      FirstByIdConcat(a[1..], b, id);
    } else {
      assert a + b == b;
    }
  }

  /** With unique identifiers, the scene found for an id is the only one carrying it. */
  lemma {:induction false} FirstByIdOfUnique(s: seq<Scene>, x: Scene)
    requires IdsUnique(s) && x in s
    ensures FirstById(s, x.sceneId) == Some(x)
    decreases |s|
  {
    if s[0] != x {
      assert x in s[1..];
      assert IdsUnique(s[1..]) by {
        forall i, j | 0 <= i < |s[1..]| && 0 <= j < |s[1..]| && s[1..][i].sceneId == s[1..][j].sceneId
          ensures i == j
        {
          assert s[i + 1].sceneId == s[j + 1].sceneId;
        }
      }
      FirstByIdOfUnique(s[1..], x);
    }
  }

  /** Reordering a list with unique identifiers does not change what a look-up by id finds. */
  lemma FirstByIdOfPermutation(a: seq<Scene>, b: seq<Scene>, id: int)
    requires IdsUnique(a) && IdsUnique(b) && multiset(a) == multiset(b)
    ensures FirstById(a, id) == FirstById(b, id)
  {
    IdSetOfPermutation(a, b);
    if id in IdSet(a) {
      var x := FirstById(a, id).value;
      assert x in multiset(b);
      FirstByIdOfUnique(a, x);
      FirstByIdOfUnique(b, x);
    }
  }

  /** Two lists with unique identifiers and no identifier in common concatenate to one. */
  lemma IdsUniqueConcat(a: seq<Scene>, b: seq<Scene>)
    requires IdsUnique(a) && IdsUnique(b) && IdSet(a) !! IdSet(b)
    ensures IdsUnique(a + b)
  {
    var r := a + b;
    assert forall i | 0 <= i < |a| :: a[i].sceneId in IdSet(a);
    assert forall j | 0 <= j < |b| :: b[j].sceneId in IdSet(b);
    forall i, j | 0 <= i < |r| && 0 <= j < |r| && r[i].sceneId == r[j].sceneId ensures i == j {
      if i < |a| && j < |a| {
        assert r[i] == a[i] && r[j] == a[j];
      } else if i >= |a| && j >= |a| {
        assert r[i] == b[i - |a|] && r[j] == b[j - |a|];
      }
    }
  }

  /** A list with unique identifiers has as many identifiers as elements. */
  lemma {:induction false} IdsUniqueCount(s: seq<Scene>)
    requires IdsUnique(s)
    ensures |IdSet(s)| == |s|
    decreases |s|
  {
    if s != [] {
      var init := s[..|s| - 1];
      var x := s[|s| - 1];
      UniqueSnoc(s, init, x);
      IdsUniqueCount(init);
      NewIdCounts(init, x);
    }
  }

  lemma NewIdCounts(s: seq<Scene>, x: Scene)
    requires x.sceneId !in IdSet(s)
    ensures |IdSet(s + [x])| == |IdSet(s)| + 1
  {
    IdSetConcat(s, [x]);
    assert IdSet([x]) == {x.sceneId};
  }

  /** The last element of a list with unique identifiers carries an identifier the rest lacks. */
  lemma UniqueSnoc(s: seq<Scene>, init: seq<Scene>, x: Scene)
    requires s != [] && IdsUnique(s) && init == s[..|s| - 1] && x == s[|s| - 1]
    ensures s == init + [x] && IdsUnique(init) && x.sceneId !in IdSet(init)
  {
    assert s == init + [x];
    assert forall i | 0 <= i < |init| :: init[i] == s[i];
    forall y | y in init ensures y.sceneId != x.sceneId {
      var i :| 0 <= i < |init| && init[i] == y;
      assert s[i] == y && i != |s| - 1;
    }
  }
}
