/**
 * The object indexer of the sync enumerator: a lookup map from relative
 * path to stored object, filled by store under a cap on the number of
 * store calls, and walked by traverse, which hands every value to a
 * processor and stops at the first error.
 *
 * The cap MaxNumberOfFilesAllowedInSync is a constructor parameter; the
 * filters and the processor together are one function from a stored object
 * to an optional error, standing for processIfPassedFilters.
 */
module SyncIndexer {

  import opened Wrappers

  /** A stored object; only the relative path matters to the indexer, the rest is carried along. */
  datatype StoredObject = StoredObject(relativePath: string, name: string, size: int)

  /** The error store reports once the cap is reached; it names the cap. */
  datatype IndexError = TooManyFiles(maxFiles: int)

  /** The indexer's fields as a value. */
  datatype IndexState = IndexState(indexMap: map<string, StoredObject>, counter: int)

  /** Every entry is filed under its own relative path. */
  ghost predicate Keyed(m: map<string, StoredObject>)
  {
    forall k :: k in m ==> m[k].relativePath == k
  }

  /** What the constructor establishes and store keeps. */
  ghost predicate Bounded(s: IndexState, maxFiles: int)
  {
    0 <= s.counter <= maxFiles && |s.indexMap| <= s.counter && Keyed(s.indexMap)
  }

  /** One store call: refused at the cap, otherwise the entry is (over)written and counted. */
  function StoreStep(s: IndexState, obj: StoredObject, maxFiles: int): (IndexState, Option<IndexError>)
  {
    if s.counter == maxFiles then (s, Some(TooManyFiles(maxFiles)))
    else (IndexState(s.indexMap[obj.relativePath := obj], s.counter + 1), None)
  }

  /** Storing a list of objects one after another, stopping at the first refusal. */
  function StoreAll(s: IndexState, objs: seq<StoredObject>, maxFiles: int): (IndexState, Option<IndexError>)
    decreases |objs|
  {
    if objs == [] then (s, None)
    else
      var (t, err) := StoreStep(s, objs[0], maxFiles);
      if err.Some? then (t, err) else StoreAll(t, objs[1..], maxFiles)
  }

  /** The relative paths of a list of objects. */
  function Paths(objs: seq<StoredObject>): set<string>
    decreases |objs|
  {
    if objs == [] then {} else {objs[0].relativePath} + Paths(objs[1..])
  }

  function Min(a: int, b: int): int
  {
    if a <= b then a else b
  }

  /** A single store keeps the counter within the cap and at least the number of keys. */
  lemma StoreStepBounded(s: IndexState, obj: StoredObject, maxFiles: int)
    requires Bounded(s, maxFiles)
    ensures Bounded(StoreStep(s, obj, maxFiles).0, maxFiles)
    ensures StoreStep(s, obj, maxFiles).1.Some? <==> s.counter == maxFiles
  {
    if s.counter != maxFiles {
      var m := s.indexMap[obj.relativePath := obj];
      assert m.Keys == s.indexMap.Keys + {obj.relativePath};
      assert |m| <= |s.indexMap| + 1;
    }
  }

  /**
   * Storing a list from a bounded state: the counter never passes the cap,
   * the stores stop with an error exactly when the list is longer than the
   * room left, and the counter then stands at the smaller of the two.
   */
  lemma {:induction false} StoreAllBounded(s: IndexState, objs: seq<StoredObject>, maxFiles: int)
    requires Bounded(s, maxFiles)
    ensures Bounded(StoreAll(s, objs, maxFiles).0, maxFiles)
    ensures StoreAll(s, objs, maxFiles).1.Some? <==> s.counter + |objs| > maxFiles
    ensures StoreAll(s, objs, maxFiles).0.counter == Min(s.counter + |objs|, maxFiles)
    decreases |objs|
  {
    if objs != [] {
      StoreStepBounded(s, objs[0], maxFiles);
      var t := StoreStep(s, objs[0], maxFiles).0;
      if s.counter != maxFiles {
        StoreAllBounded(t, objs[1..], maxFiles);
      }
    }
  }

  /** The keys gained by storing a list are the paths of the objects that were accepted. */
  lemma {:induction false} StoreAllKeys(s: IndexState, objs: seq<StoredObject>, maxFiles: int)
    ensures var t := StoreAll(s, objs, maxFiles).0;
      0 <= t.counter - s.counter <= |objs| &&
      t.indexMap.Keys == s.indexMap.Keys + Paths(objs[..t.counter - s.counter])
    decreases |objs|
  {
    if objs == [] || s.counter == maxFiles {
      assert objs[..0] == [];
    } else {
      var t := StoreStep(s, objs[0], maxFiles).0;
      StoreAllKeys(t, objs[1..], maxFiles);
      var u := StoreAll(t, objs[1..], maxFiles).0;
      assert StoreAll(s, objs, maxFiles).0 == u;
      PathsOfPrefix(objs, u.counter - t.counter);
    }
  }

  lemma PathsOfPrefix(objs: seq<StoredObject>, n: nat)
    requires n < |objs|
    ensures Paths(objs[..n + 1]) == {objs[0].relativePath} + Paths(objs[1..][..n])
  {
    assert objs[..n + 1][0] == objs[0] && objs[..n + 1][1..] == objs[1..][..n];
  }

  /** A later store of the same path replaces the earlier object, and both are counted. */
  lemma StoreOverwrites(a: StoredObject, b: StoredObject, maxFiles: int)
    requires a.relativePath == b.relativePath && 2 <= maxFiles
    ensures var (t, err) := StoreAll(IndexState(map[], 0), [a, b], maxFiles);
      && err == None && t.counter == 2 && t.indexMap == map[a.relativePath := b]
  {
    var p := a.relativePath;
    assert [a, b][1..] == [b];
    assert StoreAll(IndexState(map[], 0), [a, b], maxFiles) == StoreAll(IndexState(map[p := a], 1), [b], maxFiles);
    assert StoreAll(IndexState(map[p := a], 1), [b], maxFiles) == StoreAll(IndexState(map[p := a][p := b], 2), [], maxFiles);
    assert map[p := a][p := b] == map[p := b];
  }

  /** Storing at the cap is refused and leaves the state as it was. */
  lemma StoreAtCapRefused(s: IndexState, objs: seq<StoredObject>, maxFiles: int)
    requires s.counter == maxFiles && objs != []
    ensures StoreAll(s, objs, maxFiles) == (s, Some(TooManyFiles(maxFiles)))
  {
  }

  class ObjectIndexer {
    var indexMap: map<string, StoredObject>
    var counter: int
    /** MaxNumberOfFilesAllowedInSync. */
    const maxFiles: nat

    ghost predicate Valid()
      reads this
    {
      Bounded(State(), maxFiles)
    }

    function State(): IndexState
      reads this
    {
      IndexState(indexMap, counter)
    }

    /** newObjectIndexer: an empty map and a zero counter. */
    constructor (maxFiles: nat)
      ensures this.maxFiles == maxFiles
      ensures indexMap == map[] && counter == 0
      ensures Valid()
    {
      this.maxFiles := maxFiles;
      indexMap := map[];
      counter := 0;
    }

    /**
     * store: refused with an error and no change at the cap; otherwise the
     * object is filed under its relative path and the counter goes up by one.
     */
    method Store(storedObject: StoredObject) returns (err: Option<IndexError>)
      requires Valid()
      modifies this
      ensures Valid()
      ensures (State(), err) == StoreStep(old(State()), storedObject, maxFiles)
      ensures old(counter) == maxFiles ==> err == Some(TooManyFiles(maxFiles)) && unchanged(this)
      ensures old(counter) != maxFiles ==>
        err == None && indexMap == old(indexMap)[storedObject.relativePath := storedObject] && counter == old(counter) + 1
    {
      StoreStepBounded(State(), storedObject, maxFiles);
      if counter == maxFiles {
        return Some(TooManyFiles(maxFiles));
      }
      indexMap := indexMap[storedObject.relativePath := storedObject];
      counter := counter + 1;
      return None;
    }

    /**
     * traverse: hands the values to the processor in some order and returns
     * the first error. The result is nil exactly when every value passes;
     * visited lists the keys in the order they were processed, each once,
     * all passing but a failing last one.
     */
    method Traverse(process: StoredObject -> Option<string>) returns (err: Option<string>, visited: seq<string>)
      ensures forall i, j :: 0 <= i < j < |visited| ==> visited[i] != visited[j]
      ensures forall i :: 0 <= i < |visited| ==> visited[i] in indexMap
      ensures forall i :: 0 <= i < |visited| - 1 ==> process(indexMap[visited[i]]) == None
      ensures err == None ==> (forall k :: k in indexMap ==> k in visited)
      ensures err != None ==> visited != [] && err == process(indexMap[visited[|visited| - 1]])
      ensures err == None <==> forall k :: k in indexMap ==> process(indexMap[k]) == None
    {
      visited := [];
      var rest := indexMap.Keys;
      while rest != {}
        invariant rest <= indexMap.Keys
        invariant forall i, j :: 0 <= i < j < |visited| ==> visited[i] != visited[j]
        invariant forall i :: 0 <= i < |visited| ==> visited[i] in indexMap && visited[i] !in rest
        invariant forall k :: k in indexMap ==> k in rest || k in visited
        invariant forall i :: 0 <= i < |visited| ==> process(indexMap[visited[i]]) == None
        decreases |rest|
      {
        var key :| key in rest;
        visited := visited + [key];
        rest := rest - {key};
        err := process(indexMap[key]);
        if err != None {
          return;
        }
      }
      err := None;
    }
  }
}
