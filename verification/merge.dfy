/** The per-scene state update of `addScenesWithDelay` (App.tsx): a scene is inserted into the
    collection the user sees only when its id is new, and the collection is re-sorted by id. */
module SceneMerge {
  import opened Model

  /** The progress counter shown while scenes are generated. */
  datatype Progress = Progress(current: int, total: int)

  /** What the user observes: the `scenes` state and the `generationProgress` state. */
  datatype Observed = Observed(scenes: seq<Scene>, progress: Progress)

  /** The observed state the generation loop keeps: ordered, one scene per id, and a
      progress counter that matches the number of scenes. */
  predicate Coherent(o: Observed, total: int) {
    && SortedById(o.scenes)
    && IdsUnique(o.scenes)
    && o.progress == Progress(|o.scenes|, total)
  }

  /** One `setScenes(prev => ...)` of `addScenesWithDelay`, together with the progress update it makes. */
  function MergeScene(o: Observed, scene: Scene, total: int): (r: Observed)
    ensures scene.sceneId in IdSet(o.scenes) ==> r == o
    ensures scene.sceneId !in IdSet(o.scenes) ==>
      && |r.scenes| == |o.scenes| + 1
      && multiset(r.scenes) == multiset(o.scenes) + multiset{scene}
      && SortedById(r.scenes)
      && r.progress == Progress(|r.scenes|, total)
    ensures IdSet(r.scenes) == IdSet(o.scenes) + {scene.sceneId}
  {
    if scene.sceneId in IdSet(o.scenes) then o
    else
      var merged := SortById(o.scenes + [scene]);
      IdSetOfPermutation(merged, o.scenes + [scene]);
      IdSetConcat(o.scenes, [scene]);
      Observed(merged, Progress(|merged|, total))
  }

  /** Merging a scene whose id is already shown changes nothing, so merging twice is merging once. */
  lemma MergeIdempotent(o: Observed, scene: Scene, total: int)
    ensures MergeScene(MergeScene(o, scene, total), scene, total) == MergeScene(o, scene, total)
  {
  }

  /** On an ordered collection a new scene is inserted in place: the scenes with smaller or equal
      ids stay before it, the larger ones after it, and the order is otherwise untouched. */
  lemma MergeInsertsInPlace(o: Observed, scene: Scene, total: int)
    requires SortedById(o.scenes)
    requires scene.sceneId !in IdSet(o.scenes)
    ensures MergeScene(o, scene, total).scenes == InsertById(o.scenes, scene)
  {
    var s := o.scenes + [scene];
    assert s[..|s| - 1] == o.scenes;
    SortOfSorted(o.scenes);
  }

  /** A scene whose id is larger than every shown id goes to the end. */
  lemma MergeAppendsLargest(o: Observed, scene: Scene, total: int)
    requires SortedById(o.scenes)
    requires forall i | 0 <= i < |o.scenes| :: o.scenes[i].sceneId < scene.sceneId
    ensures MergeScene(o, scene, total) == Observed(o.scenes + [scene], Progress(|o.scenes| + 1, total))
  {
    var s := o.scenes;
    assert forall x | x in s :: x.sceneId != scene.sceneId;
    assert scene.sceneId !in IdSet(s);
    MergeInsertsInPlace(o, scene, total);
    var k := InsertPos(s, scene);
    assert k == |s|;
    assert s[..k] + [scene] + s[k..] == s + [scene];
  }

  /** Merging keeps the observed state coherent. */
  lemma MergeKeepsCoherent(o: Observed, scene: Scene, total: int)
    ensures Coherent(o, total) ==> Coherent(MergeScene(o, scene, total), total)
  {
    if Coherent(o, total) && scene.sceneId !in IdSet(o.scenes) {
      MergeInsertsInPlace(o, scene, total);
      InsertKeepsUnique(o.scenes, scene);
    }
  }

  /** `addScenesWithDelay(scenesToAdd)`: the scenes merged one at a time, in order. */
  function MergeAll(o: Observed, batch: seq<Scene>, total: int): (r: Observed)
    ensures IdSet(r.scenes) == IdSet(o.scenes) + IdSet(batch)
    ensures Coherent(o, total) ==> Coherent(r, total)
    ensures |r.scenes| <= |o.scenes| + |batch|
    decreases |batch|
  {
    if batch == [] then o
    else
      assert batch == [batch[0]] + batch[1..];
      IdSetConcat([batch[0]], batch[1..]);
      MergeKeepsCoherent(o, batch[0], total);
      MergeAll(MergeScene(o, batch[0], total), batch[1..], total)
  }

  /** First seen wins: after merging a batch, the scene shown for each id is the first scene with
      that id in the old collection followed by the batch; later duplicates are discarded. */
  lemma {:induction false} MergeAllFirstSeenWins(o: Observed, batch: seq<Scene>, total: int, id: int)
    requires IdsUnique(o.scenes)
    ensures FirstById(MergeAll(o, batch, total).scenes, id) == FirstById(o.scenes + batch, id)
    decreases |batch|
  {
    if batch == [] {
      assert o.scenes + batch == o.scenes;
    } else {
      var x, rest := batch[0], batch[1..];
      var m := MergeScene(o, x, total);
      assert MergeAll(o, batch, total) == MergeAll(m, rest, total);
      MergeSceneFirstSeen(o, x, total, id);
      MergeAllFirstSeenWins(m, rest, total, id);
      FirstByIdConcat(m.scenes, rest, id);
      FirstByIdConcat(o.scenes + [x], rest, id);
      AppendHead(o.scenes, batch);
    }
  }

  lemma AppendHead<T>(a: seq<T>, b: seq<T>)
    requires b != []
    ensures a + b == (a + [b[0]]) + b[1..]
  {
  }

  lemma IdsUniqueAppend(s: seq<Scene>, x: Scene)
    requires IdsUnique(s) && x.sceneId !in IdSet(s)
    ensures IdsUnique(s + [x])
  {
    var r := s + [x];
    forall i, j | 0 <= i < |r| && 0 <= j < |r| && r[i].sceneId == r[j].sceneId ensures i == j {
      if i < |s| && j < |s| {
        assert r[i] == s[i] && r[j] == s[j];
      }
    }
  }

  lemma MergeSceneFirstSeen(o: Observed, x: Scene, total: int, id: int)
    requires IdsUnique(o.scenes)
    ensures IdsUnique(MergeScene(o, x, total).scenes)
    ensures FirstById(MergeScene(o, x, total).scenes, id) == FirstById(o.scenes + [x], id)
  {
    FirstByIdConcat(o.scenes, [x], id);
    if x.sceneId !in IdSet(o.scenes) {
      IdsUniqueAppend(o.scenes, x);
      SortKeepsUnique(o.scenes + [x]);
      FirstByIdOfPermutation(SortById(o.scenes + [x]), o.scenes + [x], id);
    }
  }
}
