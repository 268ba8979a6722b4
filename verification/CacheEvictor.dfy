/**
 The part cache's evictor: a map of tracked files, a vector of their paths kept
 dense by swap-remove so that two can be picked at random, and a byte counter
 updated beside them. The methods keep map, vector and counter exact whatever
 the file system answers; an evicting access brings the total under its target
 or leaves a single file, and each file it evicts is outlived by one accessed
 no earlier.
 */
module CacheEvictor {
  import opened Options

  type Path = string

  datatype Entry = Entry(accessTime: int, sizeBytes: nat, keyIndex: nat)

  /** What the evictor knows about a file, apart from where its key is kept. */
  datatype Record = Record(accessTime: int, sizeBytes: nat)

  type Files = map<Path, Record>

  /** How the file system answers a removal. */
  datatype Removal = Removed | NotFound | RemovalFailed

  // ---------------------------------------------------------------- the total

  ghost function TotalBytes(files: Files): nat {
    if files == map[] then 0
    else
      var p :| p in files;
      files[p].sizeBytes + TotalBytes(files - {p})
  }

  lemma {:induction false} TotalWithout(files: Files, p: Path)
    requires p in files
    ensures TotalBytes(files) == files[p].sizeBytes + TotalBytes(files - {p})
    decreases |files|
  {
    var q :| q in files && TotalBytes(files) == files[q].sizeBytes + TotalBytes(files - {q});
    if q != p {
      TotalWithout(files - {q}, p);
      TotalWithout(files - {p}, q);
      assert files - {q} - {p} == files - {p} - {q};
    }
  }

  /** Forgetting more leaves no more bytes. */
  lemma {:induction false} TotalShrinks(files: Files, few: set<Path>, many: set<Path>)
    requires few <= many
    ensures TotalBytes(files - many) <= TotalBytes(files - few)
    decreases |many - few|
  {
    if p :| p in many && p !in few {
      assert many - (few + {p}) < many - few;
      TotalShrinks(files, few + {p}, many);
      if p in files {
        TotalWithout(files - few, p);
        assert files - few - {p} == files - (few + {p});
      } else {
        assert files - few == files - (few + {p});
      }
    } else {
      assert few == many;
    }
  }

  lemma TotalTracked(files: Files, p: Path, r: Record)
    ensures TotalBytes(files[p := r]) == TotalBytes(files - {p}) + r.sizeBytes
  {
    TotalWithout(files[p := r], p);
    assert files[p := r] - {p} == files - {p};
  }

  // ---------------------------------------------------------------- the keys

  /** The key vector and the entries are in bijection, and every entry knows its key's index. */
  ghost predicate Indexed(entries: map<Path, Entry>, keys: seq<Path>) {
    && (forall i :: 0 <= i < |keys| ==> keys[i] in entries && entries[keys[i]].keyIndex == i)
    && (forall p :: p in entries ==> entries[p].keyIndex < |keys| && keys[entries[p].keyIndex] == p)
  }

  ghost function Tracked(entries: map<Path, Entry>): Files {
    map p | p in entries :: Record(entries[p].accessTime, entries[p].sizeBytes)
  }

  lemma {:induction false} IndexedCount(entries: map<Path, Entry>, keys: seq<Path>)
    requires Indexed(entries, keys)
    ensures |entries| == |keys|
    decreases |keys|
  {
    if |keys| > 0 {
      var last := keys[|keys| - 1];
      IndexedCount(entries - {last}, keys[..|keys| - 1]);
      assert entries.Keys == (entries - {last}).Keys + {last};
    } else {
      assert forall p :: p !in entries;
      assert entries == map[];
    }
  }

  lemma EntryInRange(entries: map<Path, Entry>, keys: seq<Path>, path: Path)
    requires Indexed(entries, keys)
    ensures path in entries ==> entries[path].keyIndex < |keys|
    ensures path in entries ==>
            keys[|keys| - 1] in entries && (keys[|keys| - 1] == path <==> entries[path].keyIndex == |keys| - 1)
  {
  }

  lemma NothingTracked(entries: map<Path, Entry>, path: Path)
    requires path !in entries
    ensures Tracked(entries) - {path} == Tracked(entries)
  {
  }

  lemma LastRemoved(entries: map<Path, Entry>, keys: seq<Path>, path: Path)
    requires Indexed(entries, keys) && path in entries && entries[path].keyIndex == |keys| - 1
    ensures Indexed(entries - {path}, keys[..|keys| - 1])
    ensures Tracked(entries - {path}) == Tracked(entries) - {path}
  {
  }

  /** Moving the last key into the gap keeps the bijection, and touches nothing but that key's index. */
  lemma SwapRemoved(entries: map<Path, Entry>, keys: seq<Path>, path: Path)
    requires Indexed(entries, keys) && path in entries && entries[path].keyIndex < |keys| - 1
    requires keys[|keys| - 1] in entries
    ensures var i, last := entries[path].keyIndex, |keys| - 1;
            var entries' := (entries - {path})[keys[last] := entries[keys[last]].(keyIndex := i)];
            Indexed(entries', keys[i := keys[last]][..last]) && Tracked(entries') == Tracked(entries) - {path}
  {
  }

  lemma TrackedKeys(entries: map<Path, Entry>)
    ensures Tracked(entries).Keys == entries.Keys
  {
  }

  /** An access of a known file changes its time alone. */
  lemma TimeChanged(entries: map<Path, Entry>, keys: seq<Path>, path: Path, bytes: nat, time: int)
    requires Indexed(entries, keys) && path in entries
    ensures var entries' := entries[path := entries[path].(accessTime := time)];
      Indexed(entries', keys) && Tracked(entries') == Accessed(Tracked(entries), path, bytes, time)
  {
  }

  /** A new file's key goes to the end. */
  lemma EntryAdded(entries: map<Path, Entry>, keys: seq<Path>, path: Path, bytes: nat, time: int)
    requires Indexed(entries, keys) && path !in entries
    ensures var entries' := entries[path := Entry(time, bytes, |keys|)];
      Indexed(entries', keys + [path]) && Tracked(entries') == Accessed(Tracked(entries), path, bytes, time)
  {
  }

  lemma AccessTotals(files: Files, path: Path, bytes: nat, time: int)
    ensures TotalBytes(Accessed(files, path, bytes, time)) == TotalBytes(files) + if path in files then 0 else bytes
  {
    hide TotalBytes;
    var files' := Accessed(files, path, bytes, time);
    TotalTracked(files, path, files'[path]);
    if path in files {
      TotalWithout(files, path);
    } else {
      assert files - {path} == files;
    }
  }

  /** The indices taken out of the running, and the paths they stand for. */
  ghost function PathsAt(keys: seq<Path>, picked: set<nat>): set<Path> {
    set i | i in picked && i < |keys| :: keys[i]
  }

  lemma {:induction false} IndicesBelow(n: nat, picked: set<nat>)
    requires forall i :: i in picked ==> i < n
    ensures |picked| <= n
    ensures |picked| == n ==> forall i: nat :: i < n ==> i in picked
  {
    if n > 0 {
      var last: nat := n - 1;
      IndicesBelow(last, picked - {last});
      if last !in picked {
        assert picked - {last} == picked;
      } else {
        assert forall i: nat :: i < last && i in picked - {last} ==> i in picked;
      }
    } else {
      assert picked == {};
    }
  }

  /** Leaving out one more index leaves a free one while the count says so. */
  lemma FreeIndex(n: nat, picked: set<nat>, exclude: Option<nat>)
    requires forall i :: i in picked ==> i < n
    requires exclude.Some? ==> exclude.value < n
    requires |picked| + (if exclude.Some? && exclude.value !in picked then 1 else 0) < n
    ensures exists i: nat :: i < n && i !in picked && exclude != Some(i)
  {
    var out := if exclude.Some? then picked + {exclude.value} else picked;
    assert exclude.Some? && exclude.value in picked ==> out == picked;
    if forall i: nat :: i < n ==> i in out {
      AllIndices(n, out);
      assert false;
    }
  }

  lemma {:induction false} AllIndices(n: nat, s: set<nat>)
    requires forall i: nat :: i < n ==> i in s
    ensures n <= |s|
  {
    if n > 0 {
      AllIndices(n - 1, s - {n - 1});
    }
  }

  /** With fewer than two indices left, at most one file is. */
  lemma FewLeft(entries: map<Path, Entry>, keys: seq<Path>, picked: set<nat>)
    requires Indexed(entries, keys) && (forall i :: i in picked ==> i < |keys|) && |keys| - |picked| < 2
    ensures |Tracked(entries) - PathsAt(keys, picked)| <= 1
  {
    var rest := Tracked(entries) - PathsAt(keys, picked);
    if p, q :| p in rest && q in rest && p != q {
      var i, j := entries[p].keyIndex, entries[q].keyIndex;
      assert keys[i] == p && keys[j] == q;
      IndicesBelow(|keys|, picked + {i, j});
      assert false;
    }
    AtMostOne(rest.Keys);
  }

  lemma AtMostOne(s: set<Path>)
    requires forall p, q :: p in s && q in s ==> p == q
    ensures |s| <= 1
  {
    if p :| p in s {
      assert s == {p};
    }
  }

  /** A free index stands for a path that is not a target. */
  lemma PickedApart(entries: map<Path, Entry>, keys: seq<Path>, picked: set<nat>, i: nat)
    requires Indexed(entries, keys) && i < |keys| && i !in picked
    ensures keys[i] in Tracked(entries) && keys[i] !in PathsAt(keys, picked)
  {
  }

  // ---------------------------------------------------------------- the picks

  ghost function Among(paths: seq<Path>): set<Path> {
    set p | p in paths
  }

  ghost function PathsOf(targets: seq<(Path, nat)>): set<Path> {
    set i | 0 <= i < |targets| :: targets[i].0
  }

  /** Some file left has been accessed no earlier than p. */
  ghost predicate Outlived(files: Files, evicted: set<Path>, p: Path) {
    p in files && exists q :: q in files && q !in evicted && files[p].accessTime <= files[q].accessTime
  }

  /** Distinct tracked files with their sizes, each outlived by a file that stays. */
  ghost predicate GoodTargets(files: Files, targets: seq<(Path, nat)>) {
    && (forall i :: 0 <= i < |targets| ==> targets[i].0 in files && targets[i].1 == files[targets[i].0].sizeBytes)
    && (forall i, j :: 0 <= i < j < |targets| ==> targets[i].0 != targets[j].0)
    && (forall p :: p in PathsOf(targets) ==> Outlived(files, PathsOf(targets), p))
  }

  /** Every target was taken while the files left were still over the target size. */
  ghost predicate NoneWasted(files: Files, targets: seq<(Path, nat)>, targetSize: nat) {
    forall k :: 0 <= k < |targets| ==> TotalBytes(files - PathsOf(targets[..k])) > targetSize
  }

  /** The picks stopped because the size was reached or because no two files were left to compare. */
  ghost predicate Enough(files: Files, gone: set<Path>, targetSize: nat) {
    TotalBytes(files - gone) <= targetSize || |files - gone| <= 1
  }

  lemma Taken(files: Files, targets: seq<(Path, nat)>, p: Path)
    requires p in files && p !in PathsOf(targets)
    ensures PathsOf(targets + [(p, files[p].sizeBytes)]) == PathsOf(targets) + {p}
    ensures TotalBytes(files - PathsOf(targets)) == files[p].sizeBytes + TotalBytes(files - (PathsOf(targets) + {p}))
  {
    var gone, more := PathsOf(targets), targets + [(p, files[p].sizeBytes)];
    assert more[|targets|].0 == p;
    assert forall i :: 0 <= i < |targets| ==> more[i] == targets[i];
    TotalWithout(files - gone, p);
    assert files - gone - {p} == files - (gone + {p});
  }

  /** Taking the older of two remaining files leaves every earlier target outlived. */
  lemma PickOlder(files: Files, targets: seq<(Path, nat)>, p: Path, q: Path)
    requires GoodTargets(files, targets)
    requires p in files && q in files && p !in PathsOf(targets) && q !in PathsOf(targets) && p != q
    requires files[p].accessTime <= files[q].accessTime
    ensures GoodTargets(files, targets + [(p, files[p].sizeBytes)])
  {
    Taken(files, targets, p);
    var gone := PathsOf(targets);
    forall r | r in gone + {p}
      ensures Outlived(files, gone + {p}, r)
    {
      if r != p {
        assert Outlived(files, gone, r);
        var w :| w in files && w !in gone && files[r].accessTime <= files[w].accessTime;
        assert w != p || files[r].accessTime <= files[q].accessTime;
      }
    }
  }

  lemma NoTargets(files: Files, keys: seq<Path>, targetSize: nat)
    ensures GoodTargets(files, []) && NoneWasted(files, [], targetSize)
    ensures PathsOf([]) == PathsAt(keys, {}) && files - PathsOf([]) == files
  {
    assert PathsOf([]) == {} == PathsAt(keys, {});
  }

  lemma PathsAtNext(keys: seq<Path>, picked: set<nat>, i: nat)
    requires i < |keys|
    ensures PathsAt(keys, picked + {i}) == PathsAt(keys, picked) + {keys[i]}
  {
  }

  lemma PickedSoFar(files: Files, targets: seq<(Path, nat)>, t: (Path, nat), targetSize: nat)
    requires NoneWasted(files, targets, targetSize) && TotalBytes(files - PathsOf(targets)) > targetSize
    ensures NoneWasted(files, targets + [t], targetSize)
  {
    var more := targets + [t];
    forall k | 0 <= k < |more|
      ensures TotalBytes(files - PathsOf(more[..k])) > targetSize
    {
      assert more[..k] == targets[..k];
      assert targets[..|targets|] == targets;
    }
  }

  ghost predicate StrictlyNewest(files: Files, p: Path) {
    p in files && forall q :: q in files && q != p ==> files[q].accessTime < files[p].accessTime
  }

  /** One round of the loop: still over the size, take the older of two files not taken yet. */
  ghost predicate PickStep(files: Files, targetSize: nat, targets: seq<(Path, nat)>, t: (Path, nat)) {
    && TotalBytes(files - PathsOf(targets)) > targetSize
    && t.0 in files && t.0 !in PathsOf(targets) && t.1 == files[t.0].sizeBytes
    && exists q :: q in files && q !in PathsOf(targets) && q != t.0 && files[t.0].accessTime <= files[q].accessTime
  }

  lemma StepOf(files: Files, targetSize: nat, targets: seq<(Path, nat)>, p: Path, q: Path)
    requires TotalBytes(files - PathsOf(targets)) > targetSize
    requires p in files && q in files && p !in PathsOf(targets) && q !in PathsOf(targets) && p != q
    requires files[p].accessTime <= files[q].accessTime
    ensures PickStep(files, targetSize, targets, (p, files[p].sizeBytes))
  {
  }

  /** The lists the loop can build, whichever pairs the random picks offer. */
  ghost predicate Picks(files: Files, targetSize: nat, targets: seq<(Path, nat)>)
    decreases |targets|
  {
    targets == [] ||
    (Picks(files, targetSize, targets[..|targets| - 1])
     && PickStep(files, targetSize, targets[..|targets| - 1], targets[|targets| - 1]))
  }

  /** The lists the loop can return: built by its rounds, and with no further round to make. */
  ghost predicate PickResult(files: Files, targetSize: nat, targets: seq<(Path, nat)>) {
    Picks(files, targetSize, targets) && Enough(files, PathsOf(targets), targetSize)
  }

  lemma PicksMore(files: Files, targetSize: nat, targets: seq<(Path, nat)>, t: (Path, nat))
    requires Picks(files, targetSize, targets) && PickStep(files, targetSize, targets, t)
    ensures Picks(files, targetSize, targets + [t])
  {
    hide PickStep;
    assert (targets + [t])[..|targets|] == targets;
  }

  /** Whatever the loop builds is distinct, outlived, and taken only while over the size. */
  lemma {:induction false} PicksAreGood(files: Files, targetSize: nat, targets: seq<(Path, nat)>)
    requires Picks(files, targetSize, targets)
    ensures GoodTargets(files, targets) && NoneWasted(files, targets, targetSize)
    decreases |targets|
  {
    hide TotalBytes, GoodTargets, NoneWasted, PathsOf;
    if targets == [] {
      NoTargets(files, [], targetSize);
    } else {
      var rest, t := targets[..|targets| - 1], targets[|targets| - 1];
      PicksAreGood(files, targetSize, rest);
      assert targets == rest + [t];
      var q :| q in files && q !in PathsOf(rest) && q != t.0 && files[t.0].accessTime <= files[q].accessTime;
      PickOlder(files, rest, t.0, q);
      PickedSoFar(files, rest, t, targetSize);
    }
  }

  /** While two files are left over the size, one of them can be taken. */
  lemma NextPick(files: Files, targetSize: nat, targets: seq<(Path, nat)>) returns (t: (Path, nat))
    requires !Enough(files, PathsOf(targets), targetSize)
    ensures PickStep(files, targetSize, targets, t)
  {
    hide TotalBytes, PathsOf;
    var left := files - PathsOf(targets);
    var p :| p in left;
    assert left.Keys != {p};
    var q :| q in left && q != p;
    var older := if files[p].accessTime <= files[q].accessTime then p else q;
    t := (older, files[older].sizeBytes);
  }

  /** Any list the loop can build is the beginning of one it can return. */
  lemma {:induction false} PicksFinish(files: Files, targetSize: nat, targets: seq<(Path, nat)>)
    returns (all: seq<(Path, nat)>)
    requires Picks(files, targetSize, targets)
    ensures PickResult(files, targetSize, all) && targets <= all
    decreases |files - PathsOf(targets)|
  {
    hide TotalBytes, PathsOf, Picks, PickStep;
    all := targets;
    if !Enough(files, PathsOf(targets), targetSize) {
      var t := NextPick(files, targetSize, targets);
      PicksMore(files, targetSize, targets, t);
      FewerLeft(files, targetSize, targets, t);
      all := PicksFinish(files, targetSize, targets + [t]);
    }
  }

  lemma FewerLeft(files: Files, targetSize: nat, targets: seq<(Path, nat)>, t: (Path, nat))
    requires PickStep(files, targetSize, targets, t)
    ensures |files - PathsOf(targets + [t])| < |files - PathsOf(targets)|
    ensures t.0 in PathsOf(targets + [t])
  {
    hide TotalBytes;
    var more := targets + [t];
    assert more[|targets|].0 == t.0;
    assert forall i :: 0 <= i < |targets| ==> more[i] == targets[i];
    assert PathsOf(more) == PathsOf(targets) + {t.0};
    assert files - PathsOf(more) == files - PathsOf(targets) - {t.0};
    assert t.0 in files - PathsOf(targets);
  }

  lemma PathsPrefix(few: seq<(Path, nat)>, many: seq<(Path, nat)>)
    requires few <= many
    ensures PathsOf(few) <= PathsOf(many)
  {
    assert forall i :: 0 <= i < |few| ==> few[i] == many[i];
  }

  /**
   A file is safe from every run of the picking loop exactly when the cache is within the size
   already or the file was accessed strictly later than every other.
   */
  lemma SafeIffNewest(files: Files, targetSize: nat, p: Path)
    requires p in files
    ensures (forall targets :: PickResult(files, targetSize, targets) ==> p !in PathsOf(targets))
            <==> (TotalBytes(files) <= targetSize || StrictlyNewest(files, p))
  {
    hide TotalBytes, Picks, PathsOf;
    NoTargets(files, [], targetSize);
    if TotalBytes(files) <= targetSize || StrictlyNewest(files, p) {
      forall targets | PickResult(files, targetSize, targets)
        ensures p !in PathsOf(targets)
      {
        NeverTaken(files, targetSize, targets, p);
      }
    } else {
      var q :| q in files && q != p && files[p].accessTime <= files[q].accessTime;
      var t := (p, files[p].sizeBytes);
      assert PickStep(files, targetSize, [], t);
      PicksNothing(files, targetSize);
      PicksMore(files, targetSize, [], t);
      FewerLeft(files, targetSize, [], t);
      var all := PicksFinish(files, targetSize, [] + [t]);
      PathsPrefix([] + [t], all);
    }
  }

  lemma PicksNothing(files: Files, targetSize: nat)
    ensures Picks(files, targetSize, []) && PathsOf([]) == {}
  {
  }

  lemma NeverTaken(files: Files, targetSize: nat, targets: seq<(Path, nat)>, p: Path)
    requires Picks(files, targetSize, targets) && (TotalBytes(files) <= targetSize || StrictlyNewest(files, p))
    ensures p !in PathsOf(targets)
  {
    hide TotalBytes, Picks, PathsOf;
    PicksAreGood(files, targetSize, targets);
    PicksNothing(files, targetSize);
    if TotalBytes(files) <= targetSize {
      assert files - PathsOf([]) == files && targets[..0] == [];
      assert targets == [];
    } else {
      assert p in PathsOf(targets) ==> Outlived(files, PathsOf(targets), p);
    }
  }

  const TWO_FILES: Files := map["first" := Record(7, 60), "second" := Record(7, 60)]

  lemma TwoFilesTotal()
    ensures TotalBytes(TWO_FILES) == 120
  {
    TotalWithout(TWO_FILES, "second");
    TotalWithout(TWO_FILES - {"second"}, "first");
    assert TWO_FILES - {"second"} - {"first"} == map[];
  }

  lemma TwoFilesPick()
    ensures PickStep(TWO_FILES, 90, [], ("second", 60))
    ensures PathsOf([("second", 60)]) == {"second"} && |TWO_FILES - {"second"}| <= 1
  {
    hide TotalBytes;
    TwoFilesTotal();
    assert TWO_FILES - PathsOf([]) == TWO_FILES;
    assert "first" in TWO_FILES && "first" !in PathsOf([]);
    assert [("second", 60)][0].0 == "second";
    assert TWO_FILES - {"second"} == map["first" := Record(7, 60)];
  }

  /**
   Two files of sixty bytes in a cache of a hundred, accessed at the same instant: the eviction that the
   second access triggers can take the second file.
   */
  lemma AccessedCanBeEvicted()
    ensures Accessed(map["first" := Record(7, 60)], "second", 60, 7) == TWO_FILES
    ensures TotalBytes(TWO_FILES) == 120 > 100 && EvictionTarget(100) == 90
    ensures PickResult(TWO_FILES, 90, [("second", 60)])
  {
    hide TotalBytes, PickStep, Picks, PathsOf;
    TwoFilesTotal();
    TwoFilesPick();
    PicksNothing(TWO_FILES, 90);
    PicksMore(TWO_FILES, 90, [], ("second", 60));
    assert [] + [("second", 60)] == [("second", 60)];
  }

  // ---------------------------------------------------------------- the evictor

  class Evictor {
    var entries: map<Path, Entry>
    var keys: seq<Path>
    var cacheSizeBytes: nat
    const maxCacheSizeBytes: nat

    ghost predicate Valid()
      reads this
    {
      Indexed(entries, keys) && cacheSizeBytes == TotalBytes(Tracked(entries))
    }

    constructor (max: nat)
      ensures Valid() && Tracked(entries) == map[] && maxCacheSizeBytes == max
    {
      entries, keys, cacheSizeBytes, maxCacheSizeBytes := map[], [], 0, max;
    }

    /** Removes a path and moves the last key into its place; the counter is the caller's to adjust. */
    method RemoveEntry(path: Path) returns (removed: Option<Entry>)
      requires Indexed(entries, keys)
      modifies this`entries, this`keys
      ensures Indexed(entries, keys)
      ensures Tracked(entries) == Tracked(old(entries)) - {path}
      ensures removed == if path in old(entries) then Some(old(entries)[path]) else None
    {
      hide Indexed, Tracked;
      EntryInRange(entries, keys, path);
      if path !in entries {
        NothingTracked(entries, path);
        return None;
      }
      var entry := entries[path];
      removed := Some(entry);
      entries := entries - {path};
      var last := |keys| - 1;
      if entry.keyIndex < last {
        SwapRemoved(old(entries), keys, path);
      } else {
        LastRemoved(old(entries), keys, path);
        assert keys[last := keys[last]][..last] == keys[..last];
      }
      keys := keys[entry.keyIndex := keys[last]][..last];
      if entry.keyIndex < |keys| {
        var swapped := keys[entry.keyIndex];
        entries := entries[swapped := entries[swapped].(keyIndex := entry.keyIndex)];
      }
    }

    /** Any index not yet taken and not excluded, if there is one. */
    method PickAvailableIndex(picked: set<nat>, exclude: Option<nat>) returns (r: Option<nat>)
      requires forall i :: i in picked ==> i < |keys|
      requires exclude.Some? ==> exclude.value < |keys|
      ensures r.Some? ==> r.value < |keys| && r.value !in picked && exclude != r
      ensures r.None? <==> forall i: nat :: i < |keys| ==> i in picked || exclude == Some(i)
    {
      IndicesBelow(|keys|, picked);
      var excluded := if exclude.Some? && exclude.value !in picked then 1 else 0;
      if |keys| <= |picked| + excluded {
        ghost var out := if exclude.Some? then picked + {exclude.value} else picked;
        assert |out| >= |keys|;
        IndicesBelow(|keys|, out);
        return None;
      }
      FreeIndex(|keys|, picked, exclude);
      var i: nat :| i < |keys| && i !in picked && exclude != Some(i);
      r := Some(i);
    }

    /** Two random free indices, the one whose file was accessed earlier first; a tie keeps the order of the picks. */
    method PickPair(picked: set<nat>) returns (chosen: nat, other: nat)
      requires Indexed(entries, keys) && (forall i :: i in picked ==> i < |keys|) && |picked| + 2 <= |keys|
      ensures chosen < |keys| && other < |keys| && chosen !in picked && other !in picked && chosen != other
      ensures keys[chosen] in entries && keys[other] in entries && keys[chosen] != keys[other]
      ensures entries[keys[chosen]].accessTime <= entries[keys[other]].accessTime
    {
      // Two indices are free, so neither pick comes back empty and both paths have entries.
      FreeIndex(|keys|, picked, None);
      var first := PickAvailableIndex(picked, None);
      FreeIndex(|keys|, picked, first);
      var second := PickAvailableIndex(picked, first);
      chosen, other := first.value, second.value;
      if entries[keys[chosen]].accessTime > entries[keys[other]].accessTime {
        chosen, other := other, chosen;
      }
    }

    /** Picks pairs at random and takes the older of each until the rest would fit. */
    method PickEvictTargets(targetSize: nat) returns (targets: seq<(Path, nat)>)
      requires Valid()
      ensures PickResult(Tracked(entries), targetSize, targets)
      ensures GoodTargets(Tracked(entries), targets) && NoneWasted(Tracked(entries), targets, targetSize)
    {
      hide TotalBytes, GoodTargets, NoneWasted, PathsOf, PathsAt, Picks, PickStep;
      ghost var files := Tracked(entries);
      IndexedCount(entries, keys);
      assert files.Keys == entries.Keys;
      targets := [];
      NoTargets(files, keys, targetSize);
      PicksNothing(files, targetSize);
      if |keys| < 2 {
        return;
      }
      var simulatedSize := cacheSizeBytes;
      var picked: set<nat> := {};
      while simulatedSize > targetSize
        invariant forall i :: i in picked ==> i < |keys|
        invariant PathsAt(keys, picked) == PathsOf(targets) && |picked| == |targets|
        invariant Picks(files, targetSize, targets)
        invariant simulatedSize == TotalBytes(files - PathsOf(targets))
        decreases |keys| - |targets|
      {
        IndicesBelow(|keys|, picked);
        if |keys| - |picked| < 2 {
          FewLeft(entries, keys, picked);
          break;
        }
        var chosen, other := PickPair(picked);
        var path, bytes := keys[chosen], entries[keys[chosen]].sizeBytes;
        PickedApart(entries, keys, picked, chosen);
        PickedApart(entries, keys, picked, other);
        Taken(files, targets, path);
        StepOf(files, targetSize, targets, path, keys[other]);
        PicksMore(files, targetSize, targets, (path, bytes));
        PathsAtNext(keys, picked, chosen);
        picked := picked + {chosen};
        simulatedSize := if bytes <= simulatedSize then simulatedSize - bytes else 0;
        targets := targets + [(path, bytes)];
      }
      PicksAreGood(files, targetSize, targets);
    }

    /** Forgets a file whose removal succeeded. */
    method Forget(path: Path, bytes: nat) returns (evicted: nat)
      requires Valid() && (path in entries ==> Tracked(entries)[path].sizeBytes == bytes)
      modifies this
      ensures Valid()
      ensures Tracked(entries) == old(Tracked(entries)) - {path}
      ensures evicted == old(cacheSizeBytes) - cacheSizeBytes
    {
      if path in entries {
        TotalWithout(Tracked(entries), path);
      }
      var removed := RemoveEntry(path);
      if removed.Some? {
        cacheSizeBytes := cacheSizeBytes - bytes;
        return bytes;
      }
      assert old(Tracked(entries)) - {path} == old(Tracked(entries));
      evicted := 0;
    }

    /**
     Evicts towards the target size. Files whose removal fails stay tracked and
     counted; the others are forgotten, also when they were already gone.
     */
    method EvictToTargetSize(targetSize: nat, removal: Path -> Removal) returns (evictedBytes: nat)
      requires Valid()
      modifies this
      ensures Valid()
      ensures evictedBytes == old(cacheSizeBytes) - cacheSizeBytes
      ensures Evicted(old(Tracked(entries)), Tracked(entries), targetSize, removal)
    {
      hide Indexed, TotalBytes, GoodTargets, NoneWasted, Enough, DeletedFrom, Evicted, PathsOf;
      var picked := PickEvictTargets(targetSize);
      ghost var files := Tracked(entries);
      var deleted := RemoveFiles(picked, removal);
      evictedBytes := 0;
      NothingGone(files, deleted);
      for i := 0 to |deleted|
        invariant Valid()
        invariant Tracked(entries) == files - PathsOf(deleted[..i])
        invariant evictedBytes == old(cacheSizeBytes) - cacheSizeBytes
      {
        var (target, bytes) := deleted[i];
        DeletedSize(files, picked, deleted, i, removal);
        assert target in entries ==> Tracked(entries)[target] == files[target];
        var dropped := Forget(target, bytes);
        evictedBytes := evictedBytes + dropped;
        PathsNext(files, deleted, i);
      }
      assert deleted[..|deleted|] == deleted;
      EvictedBy(files, picked, deleted, targetSize, removal);
    }

    /** Records an access and, when asked to and the cache is over its limit, evicts down to nine tenths of it. */
    method TrackEntryAccessed(path: Path, bytes: nat, accessedTime: int, evict: bool, removal: Path -> Removal)
      returns (evictedBytes: nat)
      requires Valid()
      modifies this
      ensures Valid()
      ensures var files := Accessed(old(Tracked(entries)), path, bytes, accessedTime);
              && evictedBytes == TotalBytes(files) - cacheSizeBytes
              && (!evict || TotalBytes(files) <= maxCacheSizeBytes ==> Tracked(entries) == files)
              && (evict && TotalBytes(files) > maxCacheSizeBytes ==>
                   Evicted(files, Tracked(entries), EvictionTarget(maxCacheSizeBytes), removal))
    {
      hide Indexed, TotalBytes, Evicted, Accessed, EvictionTarget;
      Track(path, bytes, accessedTime);
      if cacheSizeBytes <= maxCacheSizeBytes || !evict {
        return 0;
      }
      evictedBytes := EvictToTargetSize(EvictionTarget(maxCacheSizeBytes), removal);
    }

    /** The bookkeeping of an access: a known file gets a new time, an unknown one is counted. */
    method Track(path: Path, bytes: nat, accessedTime: int)
      requires Valid()
      modifies this
      ensures Valid()
      ensures Tracked(entries) == Accessed(old(Tracked(entries)), path, bytes, accessedTime)
      ensures path in Tracked(entries) && Tracked(entries)[path].accessTime == accessedTime
      ensures Tracked(entries)[path].sizeBytes ==
              if path in old(entries) then old(entries)[path].sizeBytes else bytes
      ensures Tracked(entries) - {path} == old(Tracked(entries)) - {path}
    {
      hide TotalBytes, Indexed, Tracked, Accessed;
      AccessedIs(entries, path, bytes, accessedTime);
      AccessTotals(Tracked(entries), path, bytes, accessedTime);
      TrackedKeys(entries);
      if path in entries {
        TimeChanged(entries, keys, path, bytes, accessedTime);
        entries := entries[path := entries[path].(accessTime := accessedTime)];
      } else {
        EntryAdded(entries, keys, path, bytes, accessedTime);
        entries := entries[path := Entry(accessedTime, bytes, |keys|)];
        keys := keys + [path];
        cacheSizeBytes := cacheSizeBytes + bytes;
      }
    }

    /** Forgets the files found deleted under a path. */
    method DeleteEntry(deleted: seq<Path>)
      requires Valid()
      modifies this
      ensures Valid()
      ensures Tracked(entries) == old(Tracked(entries)) - Among(deleted)
    {
      hide Indexed, TotalBytes;
      ghost var files := Tracked(entries);
      assert files - Among(deleted[..0]) == files;
      for i := 0 to |deleted|
        invariant Valid()
        invariant Tracked(entries) == files - Among(deleted[..i])
      {
        var bytes := if deleted[i] in entries then entries[deleted[i]].sizeBytes else 0;
        var _ := Forget(deleted[i], bytes);
        assert deleted[..i + 1] == deleted[..i] + [deleted[i]];
        assert files - Among(deleted[..i]) - {deleted[i]} == files - Among(deleted[..i + 1]);
      }
      assert deleted[..|deleted|] == deleted;
    }
  }

  // ---------------------------------------------------------------- what an eviction does

  function Accessed(files: Files, path: Path, bytes: nat, time: int): Files {
    if path in files then files[path := files[path].(accessTime := time)] else files[path := Record(time, bytes)]
  }

  lemma AccessedIs(entries: map<Path, Entry>, path: Path, bytes: nat, time: int)
    ensures var files := Accessed(Tracked(entries), path, bytes, time);
      && path in files && files - {path} == Tracked(entries) - {path}
      && files[path] == Record(time, if path in entries then entries[path].sizeBytes else bytes)
  {
  }

  function EvictionTarget(max: nat): nat {
    (max as real * 0.9).Floor
  }

  /**
   An eviction only forgets files: ones the file system let go, each outlived
   by a file that stays. If no removal fails, the target is met or one file is
   left. Unless nothing was forgotten, one of the files could not have been spared.
   */
  ghost predicate Evicted(files: Files, files': Files, targetSize: nat, removal: Path -> Removal) {
    && files' == files - (files.Keys - files'.Keys)
    && (forall p :: p in files && p !in files' ==> LetGo(files, files.Keys - files'.Keys, removal, p))
    && (NoneFail(files, removal) ==> TotalBytes(files') <= targetSize || |files'| <= 1)
    && (files' != files ==> OneNeeded(files, files.Keys - files'.Keys, targetSize))
  }

  ghost predicate LetGo(files: Files, gone: set<Path>, removal: Path -> Removal, p: Path) {
    removal(p) != RemovalFailed && Outlived(files, gone, p)
  }

  /** With one of the forgotten files kept, the target would be missed. */
  ghost predicate OneNeeded(files: Files, gone: set<Path>, targetSize: nat) {
    exists p :: p in gone && TotalBytes(files - (gone - {p})) > targetSize
  }

  ghost predicate NoneFail(files: Files, removal: Path -> Removal) {
    forall p :: p in files ==> removal(p) != RemovalFailed
  }

  /** An entry accessed strictly later than all others survives its own eviction, and a tracked cache never empties. */
  lemma AccessedStays(files: Files, files': Files, targetSize: nat, removal: Path -> Removal, path: Path)
    requires Evicted(files, files', targetSize, removal) && path in files
    ensures files' != map[]
    ensures StrictlyNewest(files, path) ==> path in files'
  {
    if path !in files' {
      assert LetGo(files, files.Keys - files'.Keys, removal, path);
    }
  }

  /** A successful eviction leaves room, or one file that alone may be over the limit. */
  lemma EvictionFits(files: Files, files': Files, max: nat, removal: Path -> Removal)
    requires Evicted(files, files', EvictionTarget(max), removal)
    requires NoneFail(files, removal)
    ensures 10 * TotalBytes(files') <= 9 * max || |files'| <= 1
  {
    assert EvictionTarget(max) as real <= max as real * 0.9;
  }

  /** An eviction does not go further than it has to: with one of the forgotten files it would be over nine tenths. */
  lemma EvictionStops(files: Files, files': Files, max: nat, removal: Path -> Removal) returns (p: Path)
    requires Evicted(files, files', EvictionTarget(max), removal) && files' != files
    ensures p in files && p !in files'
    ensures 10 * TotalBytes(files - (files.Keys - files'.Keys - {p})) > 9 * max
  {
    var gone := files.Keys - files'.Keys;
    p :| p in gone && TotalBytes(files - (gone - {p})) > EvictionTarget(max);
    assert (EvictionTarget(max) + 1) as real > max as real * 0.9;
  }

  /** The deleted targets are the picked ones whose removal did not fail, in order. */
  ghost predicate DeletedFrom(picked: seq<(Path, nat)>, deleted: seq<(Path, nat)>, removal: Path -> Removal) {
    forall t :: t in deleted <==> t in picked && removal(t.0) != RemovalFailed
  }

  /** Tries to remove every target, and lists those that are gone. */
  method RemoveFiles(picked: seq<(Path, nat)>, removal: Path -> Removal) returns (deleted: seq<(Path, nat)>)
    ensures DeletedFrom(picked, deleted, removal)
  {
    deleted := [];
    for i := 0 to |picked|
      invariant DeletedFrom(picked[..i], deleted, removal)
    {
      DeletedNext(picked, i, deleted, removal);
      if !removal(picked[i].0).RemovalFailed? {
        deleted := deleted + [picked[i]];
      }
    }
    assert picked[..|picked|] == picked;
  }

  lemma NothingGone(files: Files, deleted: seq<(Path, nat)>)
    ensures files - PathsOf(deleted[..0]) == files
  {
  }

  lemma DeletedNext(picked: seq<(Path, nat)>, i: nat, deleted: seq<(Path, nat)>, removal: Path -> Removal)
    requires i < |picked| && DeletedFrom(picked[..i], deleted, removal)
    ensures DeletedFrom(picked[..i + 1], if removal(picked[i].0).RemovalFailed? then deleted
                        else deleted + [picked[i]], removal)
  {
    assert picked[..i + 1] == picked[..i] + [picked[i]];
  }

  lemma DeletedSize(files: Files, picked: seq<(Path, nat)>, deleted: seq<(Path, nat)>, i: nat, removal: Path -> Removal)
    requires GoodTargets(files, picked) && DeletedFrom(picked, deleted, removal) && i < |deleted|
    ensures deleted[i].0 in files && deleted[i].1 == files[deleted[i].0].sizeBytes
  {
    assert deleted[i] in picked;
  }

  lemma PathsNext(files: Files, deleted: seq<(Path, nat)>, i: nat)
    requires i < |deleted|
    ensures files - PathsOf(deleted[..i]) - {deleted[i].0} == files - PathsOf(deleted[..i + 1])
  {
    var before, after := deleted[..i], deleted[..i + 1];
    assert after == before + [deleted[i]];
    assert forall j :: 0 <= j < i ==> after[j] == before[j];
    assert after[i].0 == deleted[i].0;
    assert PathsOf(after) == PathsOf(before) + {deleted[i].0};
  }

  lemma DeletedPaths(picked: seq<(Path, nat)>, deleted: seq<(Path, nat)>, removal: Path -> Removal, p: Path)
    requires DeletedFrom(picked, deleted, removal)
    ensures p in PathsOf(deleted) <==> p in PathsOf(picked) && removal(p) != RemovalFailed
  {
    if p in PathsOf(deleted) {
      var i :| 0 <= i < |deleted| && deleted[i].0 == p;
      assert deleted[i] in picked;
    }
    if p in PathsOf(picked) && removal(p) != RemovalFailed {
      var i :| 0 <= i < |picked| && picked[i].0 == p;
      assert picked[i] in deleted;
    }
  }

  lemma DeletedOutlived(files: Files, picked: seq<(Path, nat)>, deleted: seq<(Path, nat)>, removal: Path -> Removal,
                        p: Path)
    requires GoodTargets(files, picked) && DeletedFrom(picked, deleted, removal) && p in PathsOf(deleted)
    ensures LetGo(files, PathsOf(deleted), removal, p)
  {
    hide DeletedFrom, PathsOf;
    DeletedPaths(picked, deleted, removal, p);
    assert Outlived(files, PathsOf(picked), p);
    var q :| q in files && q !in PathsOf(picked) && files[p].accessTime <= files[q].accessTime;
    DeletedPaths(picked, deleted, removal, q);
  }

  lemma AllDeleted(files: Files, picked: seq<(Path, nat)>, deleted: seq<(Path, nat)>, removal: Path -> Removal)
    requires DeletedFrom(picked, deleted, removal) && NoneFail(files, removal)
    ensures files - PathsOf(deleted) == files - PathsOf(picked)
  {
    hide DeletedFrom, PathsOf;
    forall p | p in files
      ensures p in PathsOf(deleted) <==> p in PathsOf(picked)
    {
      DeletedPaths(picked, deleted, removal, p);
    }
  }

  lemma EvictedBy(files: Files, picked: seq<(Path, nat)>, deleted: seq<(Path, nat)>, targetSize: nat,
                  removal: Path -> Removal)
    requires GoodTargets(files, picked) && DeletedFrom(picked, deleted, removal)
    requires Enough(files, PathsOf(picked), targetSize) && NoneWasted(files, picked, targetSize)
    ensures Evicted(files, files - PathsOf(deleted), targetSize, removal)
  {
    hide TotalBytes, GoodTargets, DeletedFrom, PathsOf, LetGo, NoneFail, NoneWasted, OneNeeded;
    var gone := PathsOf(deleted);
    forall p | p in gone
      ensures LetGo(files, gone, removal, p)
    {
      DeletedOutlived(files, picked, deleted, removal, p);
    }
    if NoneFail(files, removal) {
      AllDeleted(files, picked, deleted, removal);
    }
    DeletedTracked(files, picked, deleted, removal);
    if gone != {} {
      SomeNeeded(files, picked, deleted, targetSize, removal);
    } else {
      assert files - gone == files;
    }
    assert files.Keys - (files - gone).Keys == gone;
  }

  lemma SomeNeeded(files: Files, picked: seq<(Path, nat)>, deleted: seq<(Path, nat)>, targetSize: nat,
                   removal: Path -> Removal)
    requires GoodTargets(files, picked) && DeletedFrom(picked, deleted, removal)
    requires NoneWasted(files, picked, targetSize) && PathsOf(deleted) != {}
    ensures OneNeeded(files, PathsOf(deleted), targetSize)
  {
    hide TotalBytes, DeletedFrom, GoodTargets;
    var gone := PathsOf(deleted);
    var p0 :| p0 in gone;
    DeletedPaths(picked, deleted, removal, p0);
    var last := picked[|picked| - 1].0;
    var before := picked[..|picked| - 1];
    var p := if last in gone then last else p0;
    forall q | q in gone - {p}
      ensures q in PathsOf(before)
    {
      DeletedPaths(picked, deleted, removal, q);
      var i :| 0 <= i < |picked| && picked[i].0 == q;
      assert before[i] == picked[i];
    }
    TotalShrinks(files, gone - {p}, PathsOf(before));
  }

  lemma DeletedTracked(files: Files, picked: seq<(Path, nat)>, deleted: seq<(Path, nat)>, removal: Path -> Removal)
    requires GoodTargets(files, picked) && DeletedFrom(picked, deleted, removal)
    ensures PathsOf(deleted) <= files.Keys
  {
    forall i | 0 <= i < |deleted|
      ensures deleted[i].0 in files
    {
      DeletedSize(files, picked, deleted, i, removal);
    }
  }
}
