/**
 * List, set and path helpers of the command-line test scenarios: a list of
 * names turned into a lookup map and back, the closure of a list of
 * relative file names under their parent folders, adding and removing a
 * common prefix, and the choice of the remove operation from a URL host.
 *
 * Go maps iterate in no fixed order, so the helpers that turn a map back
 * into a list promise only which names the list holds, each once.
 */
module ScenarioHelpers {

  import opened WriteThroughFile

  // ---------------------------------------------------------------------
  // convertListToMap and convertMapKeysToList

  /** The set of elements of a list. */
  function Elements(list: seq<string>): set<string>
  {
    set e | e in list
  }

  /** convertListToMap: every list element becomes a key, mapped to 0. */
  method ConvertListToMap(list: seq<string>) returns (lookupMap: map<string, int>)
    ensures lookupMap.Keys == Elements(list)
    ensures forall k :: k in lookupMap ==> lookupMap[k] == 0
  {
    lookupMap := map[];
    for i := 0 to |list|
      invariant lookupMap.Keys == Elements(list[..i])
      invariant forall k :: k in lookupMap ==> lookupMap[k] == 0
    {
      assert list[..i + 1] == list[..i] + [list[i]];
      lookupMap := lookupMap[list[i] := 0];
    }
    assert list[..|list|] == list;
  }

  /** No element of the list occurs twice. */
  ghost predicate Distinct(list: seq<string>)
  {
    forall i, j :: 0 <= i < j < |list| ==> list[i] != list[j]
  }

  /**
   * convertMapKeysToList: a list as long as the map that holds every key
   * exactly once, written into a preallocated array in iteration order.
   */
  method ConvertMapKeysToList(m: map<string, int>) returns (list: seq<string>)
    ensures |list| == |m|
    ensures Distinct(list)
    ensures Elements(list) == m.Keys
  {
    var a := new string[|m|];
    var i := 0;
    var rest := m.Keys;
    ghost var listed: seq<string> := [];
    while rest != {}
      invariant rest <= m.Keys
      invariant i + |rest| == |m| && i == |listed|
      invariant forall j :: 0 <= j < i ==> a[j] == listed[j]
      invariant Distinct(listed)
      invariant Elements(listed) == m.Keys - rest
      decreases |rest|
    {
      var key :| key in rest;
      TakeKey(m.Keys, rest, listed, key);
      a[i] := key;
      listed := listed + [key];
      i := i + 1;
      rest := rest - {key};
    }
    list := a[..];
    assert list == listed;
  }

  /** Listing one more key of those left keeps the list distinct and accounts for it. */
  lemma TakeKey(keys: set<string>, rest: set<string>, listed: seq<string>, key: string)
    requires key in rest && rest <= keys && Distinct(listed) && Elements(listed) == keys - rest
    ensures Distinct(listed + [key])
    ensures Elements(listed + [key]) == keys - (rest - {key})
    ensures |rest - {key}| == |rest| - 1
  {
    AppendFresh(listed, key);
  }

  /** Appending a name not yet in a list of distinct names keeps it distinct. */
  lemma AppendFresh(list: seq<string>, x: string)
    requires Distinct(list) && x !in Elements(list)
    ensures Distinct(list + [x])
    ensures Elements(list + [x]) == Elements(list) + {x}
  {
    var ext := list + [x];
    forall i, j | 0 <= i < j < |ext|
      ensures ext[i] != ext[j]
    {
      if j == |list| {
        assert ext[i] == list[i];
      } else {
        assert ext[i] == list[i] && ext[j] == list[j];
      }
    }
  }

  // ---------------------------------------------------------------------
  // addFoldersToList

  /**
   * path.Dir for clean relative names: the part before the last "/", or "."
   * when there is none.
   */
  function Dir(name: string): (d: string)
    ensures Separator in name ==>
      && |d| < |name| && d == name[..|d|] && name[|d|] == Separator
      && forall j :: |d| < j < |name| ==> name[j] != Separator
    ensures Separator !in name ==> d == "."
  {
    if Separator in name then name[..LastIndex(name, Separator)] else "."
  }

  /** The last element of a name: what follows its last "/". */
  function Base(name: string): string
  {
    name[LastIndex(name, Separator) + 1..]
  }

  /**
   * A clean relative name: every "/"-separated element is non-empty and is
   * neither "." nor "..". On such names Dir agrees with Go's path.Dir, and
   * repeated Dir reaches "."; path.Dir("/") is "/", so an absolute name
   * would keep the loop of addFoldersToList running for ever.
   */
  predicate CleanRelative(name: string)
    decreases |name|
  {
    var b := Base(name);
    && b != "" && b != "." && b != ".."
    && (Separator in name ==> CleanRelative(Dir(name)))
  }

  /** The folders repeated Dir passes through before it reaches ".". */
  function Ancestors(name: string): (r: set<string>)
    decreases |name|
  {
    if Separator in name then {Dir(name)} + Ancestors(Dir(name)) else {}
  }

  lemma {:induction false} AncestorsAreClean(name: string)
    requires CleanRelative(name)
    ensures forall a :: a in Ancestors(name) ==> CleanRelative(a)
    decreases |name|
  {
    if Separator in name {
      AncestorsAreClean(Dir(name));
    }
  }

  /** Clean names are neither "" nor ".". */
  lemma CleanIsNotRootOrDot(name: string)
    requires CleanRelative(name)
    ensures name != "" && name != "."
  {
  }

  /** Dir of a clean name is "." exactly when the name has no separator. */
  lemma DirReachesDot(name: string)
    requires CleanRelative(name)
    ensures Dir(name) == "." <==> Separator !in name
  {
    if Separator in name {
      CleanIsNotRootOrDot(Dir(name));
    }
  }

  /** The ancestors of every name of a set. */
  function AncestorsOfAll(names: set<string>): set<string>
  {
    set n, a | n in names && a in Ancestors(n) :: a
  }

  /** "" stands for the root; it is added when asked for and some name was walked up. */
  function Root(includeRoot: bool, names: set<string>): set<string>
  {
    if includeRoot && names != {} then {""} else {}
  }

  /** What addFoldersToList returns, as a set. */
  function FolderSet(names: set<string>, includeRoot: bool): set<string>
  {
    names + AncestorsOfAll(names) + Root(includeRoot, names)
  }

  lemma AncestorsOfAllAdd(done: set<string>, n: string)
    ensures AncestorsOfAll(done + {n}) == AncestorsOfAll(done) + Ancestors(n)
  {
  }

  /** Before any name is walked, the keys are the names alone. */
  lemma NothingWalked(names: set<string>, includeRoot: bool)
    ensures {} + names == names && {} !! names
    ensures names + AncestorsOfAll({}) + Root(includeRoot, {}) == names
  {
  }

  /** One step of the outer loop: a name has been walked up to the root. */
  lemma OuterStep(names: set<string>, done: set<string>, start: string, before: set<string>,
                  after: set<string>, includeRoot: bool)
    requires before == names + AncestorsOfAll(done) + Root(includeRoot, done)
    requires after == before + Ancestors(start) + (if includeRoot then {""} else {})
    ensures after == names + AncestorsOfAll(done + {start}) + Root(includeRoot, done + {start})
  {
    AncestorsOfAllAdd(done, start);
  }

  /** Moving one name from the names still to walk to the names walked. */
  lemma MoveOne(done: set<string>, todo: set<string>, name: string)
    requires name in todo && done !! todo
    ensures (done + {name}) + (todo - {name}) == done + todo
    ensures (done + {name}) !! (todo - {name})
    ensures |todo - {name}| < |todo|
  {
  }

  /** The keys a walk will have once it has gone up from current to the top. */
  ghost function Reach(keys: set<string>, current: string): set<string>
  {
    keys + Ancestors(current)
  }

  /** One step up from a clean name with a "/": to a clean, shorter parent other than ".", adding it keeps what the walk reaches. */
  lemma ReachStep(keys: set<string>, current: string)
    requires CleanRelative(current) && Separator in current
    ensures Dir(current) != "." && CleanRelative(Dir(current)) && |Dir(current)| < |current|
    ensures Reach(keys + {Dir(current)}, Dir(current)) == Reach(keys, current)
  {
    DirReachesDot(current);
  }

  /** A name without "/" has no folder above it: the walk has reached the top. */
  lemma ReachTop(keys: set<string>, current: string)
    requires Separator !in current
    ensures Reach(keys, current) == keys
  {
  }

  /** One turn of the inner loop: go up to the parent and add it. */
  method StepUp(walked: map<string, int>, current: string) returns (next: map<string, int>, parent: string)
    requires CleanRelative(current) && Separator in current
    ensures parent == Dir(current) && CleanRelative(parent) && |parent| < |current|
    ensures Reach(next.Keys, parent) == Reach(walked.Keys, current)
  {
    ReachStep(walked.Keys, current);
    parent := Dir(current);
    next := walked[parent := 0];
  }

  /**
   * The inner loop of addFoldersToList: walk a name up with Dir, adding each
   * folder on the way, and "" on reaching "." when the root is asked for.
   * Dir gives "." exactly for a name without "/" (DirReachesDot), so the
   * loop test is written on the name before the step.
   */
  method WalkUp(m: map<string, int>, name: string, includeRoot: bool) returns (walked: map<string, int>)
    requires CleanRelative(name)
    ensures walked.Keys == m.Keys + Ancestors(name) + (if includeRoot then {""} else {})
  {
    walked := m;
    var current := name;
    while Separator in current
      invariant CleanRelative(current)
      invariant Reach(walked.Keys, current) == Reach(m.Keys, name)
      decreases |current|
    {
      walked, current := StepUp(walked, current);
    }
    ReachTop(walked.Keys, current);
    if includeRoot {
      walked := walked["" := 0];
    }
  }

  /**
   * The outer loop of addFoldersToList: every key of the map is walked up.
   * Entries the loop adds to the map while ranging over it are not walked
   * again; walking them would add nothing new.
   */
  method WalkAll(lookupMap: map<string, int>, includeRoot: bool) returns (m: map<string, int>)
    requires forall n :: n in lookupMap ==> CleanRelative(n)
    ensures m.Keys == FolderSet(lookupMap.Keys, includeRoot)
  {
    m := lookupMap;
    ghost var names := lookupMap.Keys;
    var todo := m.Keys;
    ghost var done: set<string> := {};
    NothingWalked(names, includeRoot);
    while todo != {}
      invariant done + todo == names && done !! todo
      invariant m.Keys == names + AncestorsOfAll(done) + Root(includeRoot, done)
      decreases |todo|
    {
      var name :| name in todo;
      ghost var before := m.Keys;
      MoveOne(done, todo, name);
      todo := todo - {name};
      m := WalkUp(m, name, includeRoot);
      OuterStep(names, done, name, before, m.Keys, includeRoot);
      done := done + {name};
    }
  }

  /**
   * addFoldersToList: every input name and every folder above it, without
   * duplicates, plus "" when includeRoot is set and the list is not empty.
   */
  method AddFoldersToList(fileList: seq<string>, includeRoot: bool) returns (list: seq<string>)
    requires forall i :: 0 <= i < |fileList| ==> CleanRelative(fileList[i])
    ensures Distinct(list)
    ensures Elements(list) == FolderSet(Elements(fileList), includeRoot)
  {
    var m := ConvertListToMap(fileList);
    m := WalkAll(m, includeRoot);
    list := ConvertMapKeysToList(m);
  }

  /** A folder above some name of a set is above one particular name of it. */
  lemma AncestorWitness(names: set<string>, x: string) returns (n: string)
    requires x in AncestorsOfAll(names)
    ensures n in names && x in Ancestors(n)
  {
    var n', a :| n' in names && a in Ancestors(n') && a == x;
    n := n';
  }

  /** The names and the folders above them are clean relative names. */
  lemma FolderSetClean(names: set<string>, x: string)
    requires forall n :: n in names ==> CleanRelative(n)
    requires x in names + AncestorsOfAll(names)
    ensures CleanRelative(x)
  {
    if x !in names {
      var n := AncestorWitness(names, x);
      AncestorsAreClean(n);
    }
  }

  /** The parent of every folder in the folder set is in it too. */
  lemma FolderSetClosed(names: set<string>, includeRoot: bool, x: string)
    requires x in FolderSet(names, includeRoot) && Separator in x
    ensures Dir(x) in FolderSet(names, includeRoot)
  {
    if x in names {
      assert Dir(x) in Ancestors(x);
    } else if x in AncestorsOfAll(names) {
      var n := AncestorWitness(names, x);
      AncestorsOfDir(n, x);
    }
  }

  /**
   * The folder set never holds "."; it holds "" exactly when the root was
   * asked for and there was a name; and it is closed under Dir: the parent
   * of every folder in it is in it too.
   */
  lemma FolderSetShape(names: set<string>, includeRoot: bool)
    requires forall n :: n in names ==> CleanRelative(n)
    ensures "." !in FolderSet(names, includeRoot)
    ensures "" in FolderSet(names, includeRoot) <==> includeRoot && names != {}
    ensures forall x :: x in FolderSet(names, includeRoot) && Separator in x ==> Dir(x) in FolderSet(names, includeRoot)
  {
    if "." in names + AncestorsOfAll(names) {
      FolderSetClean(names, ".");
      CleanIsNotRootOrDot(".");
    }
    if "" in names + AncestorsOfAll(names) {
      FolderSetClean(names, "");
      CleanIsNotRootOrDot("");
    }
    forall x | x in FolderSet(names, includeRoot) && Separator in x
      ensures Dir(x) in FolderSet(names, includeRoot)
    {
      FolderSetClosed(names, includeRoot, x);
    }
  }

  /** The ancestors of a name include the parent of each of its ancestors. */
  lemma {:induction false} AncestorsOfDir(n: string, x: string)
    requires x in Ancestors(n) && Separator in x
    ensures Dir(x) in Ancestors(n)
    decreases |n|
  {
    assert Separator in n;
    if x != Dir(n) {
      AncestorsOfDir(Dir(n), x);
    }
  }

  // ---------------------------------------------------------------------
  // shaveOffPrefix and addPrefix

  /** strings.TrimPrefix: the name without the prefix if it starts with it, else unchanged. */
  function TrimPrefix(s: string, prefix: string): (r: string)
    ensures prefix <= s ==> prefix + r == s
    ensures !(prefix <= s) ==> r == s
  {
    if prefix <= s then s[|prefix|..] else s
  }

  /** shaveOffPrefix: element i is list[i] with the prefix trimmed. */
  method ShaveOffPrefix(list: seq<string>, prefix: string) returns (cleanList: seq<string>)
    ensures |cleanList| == |list|
    ensures forall i :: 0 <= i < |list| ==> cleanList[i] == TrimPrefix(list[i], prefix)
  {
    var a := new string[|list|];
    for i := 0 to |list|
      invariant forall j :: 0 <= j < i ==> a[j] == TrimPrefix(list[j], prefix)
    {
      a[i] := TrimPrefix(list[i], prefix);
    }
    cleanList := a[..];
  }

  /** addPrefix: element i is the prefix followed by list[i]. */
  method AddPrefix(list: seq<string>, prefix: string) returns (modifiedList: seq<string>)
    ensures |modifiedList| == |list|
    ensures forall i :: 0 <= i < |list| ==> modifiedList[i] == prefix + list[i]
  {
    var a := new string[|list|];
    for i := 0 to |list|
      invariant forall j :: 0 <= j < i ==> a[j] == prefix + list[j]
    {
      a[i] := prefix + list[i];
    }
    modifiedList := a[..];
  }

  /** Trimming a prefix just added gives the name back. */
  lemma TrimAddedPrefix(s: string, prefix: string)
    ensures TrimPrefix(prefix + s, prefix) == s
  {
    assert prefix <= prefix + s;
    assert (prefix + s)[|prefix|..] == s;
  }

  /** shaveOffPrefix undoes addPrefix. */
  method PrefixRoundTrip(list: seq<string>, prefix: string) returns (back: seq<string>)
    ensures back == list
  {
    var prefixed := AddPrefix(list, prefix);
    back := ShaveOffPrefix(prefixed, prefix);
    forall i | 0 <= i < |list|
      ensures back[i] == list[i]
    {
      TrimAddedPrefix(list[i], prefix);
    }
  }

  // ---------------------------------------------------------------------
  // getDefaultRemoveRawInput

  /** The remove operations a scenario can run. */
  datatype FromTo = BlobTrash | FileTrash | BlobFSTrash

  ghost predicate OccursAt(s: string, sub: string, i: int)
  {
    0 <= i && i + |sub| <= |s| && s[i..i + |sub|] == sub
  }

  /** strings.Contains. */
  function Contains(s: string, sub: string): (r: bool)
    ensures r <==> exists i :: OccursAt(s, sub, i)
    decreases |s|
  {
    if sub <= s then
      assert OccursAt(s, sub, 0);
      true
    else if s == [] then
      assert forall i :: !OccursAt(s, sub, i);
      false
    else
      var r := Contains(s[1..], sub);
      assert forall i :: OccursAt(s[1..], sub, i) ==> OccursAt(s, sub, i + 1) by {
        forall i | OccursAt(s[1..], sub, i)
          ensures OccursAt(s, sub, i + 1)
        {
          assert s[1..][i..i + |sub|] == s[i + 1..i + 1 + |sub|];
        }
      }
      assert forall i :: OccursAt(s, sub, i) ==> i == 0 || OccursAt(s[1..], sub, i - 1) by {
        forall i | OccursAt(s, sub, i) && i != 0
          ensures OccursAt(s[1..], sub, i - 1)
        {
          assert s[1..][i - 1..i - 1 + |sub|] == s[i..i + |sub|];
        }
      }
      r
  }

  /**
   * The fromTo of getDefaultRemoveRawInput, chosen from the host of the
   * source URL: "file" wins over "dfs", and BlobTrash is the default.
   */
  method DefaultRemoveFromTo(host: string) returns (fromTo: FromTo)
    ensures Contains(host, "file") ==> fromTo == FileTrash
    ensures !Contains(host, "file") && Contains(host, "dfs") ==> fromTo == BlobFSTrash
    ensures !Contains(host, "file") && !Contains(host, "dfs") ==> fromTo == BlobTrash
  {
    fromTo := BlobTrash;
    if Contains(host, "file") {
      fromTo := FileTrash;
    } else if Contains(host, "dfs") {
      fromTo := BlobFSTrash;
    }
  }
}
