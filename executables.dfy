/** The executable index of `src/shared.cc`: file names found along `$PATH`
    mapped to their canonical paths, with exact lookup and a nearest-name
    search by edit distance. */
module Executables {
  import opened Wrappers
  import opened Text
  import opened EditDistance

  /** What the file system reports for one entry of a directory: its file name,
      its canonical path, and whether it may be executed. */
  datatype DirEntry = DirEntry(filename: string, canonical: string, executable: bool)

  /** A directory listing: `None` when the path does not exist or is not a directory. */
  type Listing = string -> Option<seq<DirEntry>>

  /** `m_paths.emplace(k, v)`: inserts only when the key is absent. */
  function Emplace(m: map<string, string>, k: string, v: string): (r: map<string, string>)
    ensures k in r && r.Keys == m.Keys + {k}
    ensures k in m ==> r == m
    ensures k !in m ==> r[k] == v && forall x :: x in m ==> r[x] == m[x]
  {
    if k in m then m else m[k := v]
  }

  /** The map that emplacing the pairs one after another builds. */
  function FirstWins(pairs: seq<(string, string)>): map<string, string>
  {
    if pairs == [] then map[]
    else Emplace(FirstWins(pairs[..|pairs| - 1]), pairs[|pairs| - 1].0, pairs[|pairs| - 1].1)
  }

  /** Every name listed is a key, and nothing else is. */
  lemma {:induction false} FirstWinsKeys(pairs: seq<(string, string)>)
    ensures forall x :: x in FirstWins(pairs) <==> exists i :: 0 <= i < |pairs| && pairs[i].0 == x
    decreases |pairs|
  {
    if pairs != [] {
      var init := pairs[..|pairs| - 1];
      FirstWinsKeys(init);
      forall x | x in FirstWins(pairs)
        ensures exists i :: 0 <= i < |pairs| && pairs[i].0 == x
      {
        if x != pairs[|pairs| - 1].0 {
          assert x in FirstWins(init);
          var i :| 0 <= i < |init| && init[i].0 == x;
          assert pairs[i] == init[i];
        }
      }
      forall x | exists i :: 0 <= i < |pairs| && pairs[i].0 == x
        ensures x in FirstWins(pairs)
      {
        var i :| 0 <= i < |pairs| && pairs[i].0 == x;
        if i < |init| {
          assert init[i] == pairs[i];
        }
      }
    }
  }

  /** Each key maps to the path of its first occurrence. */
  lemma {:induction false} FirstWinsFirst(pairs: seq<(string, string)>)
    ensures forall i :: 0 <= i < |pairs| && (forall j :: 0 <= j < i ==> pairs[j].0 != pairs[i].0) ==>
              pairs[i].0 in FirstWins(pairs) && FirstWins(pairs)[pairs[i].0] == pairs[i].1
    decreases |pairs|
  {
    if pairs != [] {
      var n := |pairs| - 1;
      var init := pairs[..n];
      FirstWinsFirst(init);
      FirstWinsKeys(init);
      forall i | 0 <= i < |pairs| && (forall j :: 0 <= j < i ==> pairs[j].0 != pairs[i].0)
        ensures pairs[i].0 in FirstWins(pairs) && FirstWins(pairs)[pairs[i].0] == pairs[i].1
      {
        if i < n {
          assert init[i] == pairs[i];
          assert forall j :: 0 <= j < i ==> init[j] == pairs[j];
        } else {
          assert forall j :: 0 <= j < n ==> init[j] == pairs[j];
        }
      }
    }
  }

  /** The non-empty `:`-separated components of `$PATH`, in order. */
  function Directories(pathVar: string): (dirs: seq<string>)
    ensures forall k :: 0 <= k < |dirs| ==> dirs[k] != []
  {
    NonEmptyKeeps(Split(pathVar, ':'));
    NonEmpty(Split(pathVar, ':'))
  }

  /** The components in order, with the empty ones skipped. */
  function NonEmpty(parts: seq<string>): seq<string>
  {
    if parts == [] then []
    else NonEmpty(parts[..|parts| - 1]) + (if parts[|parts| - 1] == [] then [] else [parts[|parts| - 1]])
  }

  /** Skipping empty components keeps every non-empty one and adds nothing. */
  lemma {:induction false} NonEmptyKeeps(parts: seq<string>)
    ensures var r := NonEmpty(parts);
      && (forall k :: 0 <= k < |r| ==> r[k] != [])
      && (forall k :: 0 <= k < |parts| && parts[k] != [] ==> parts[k] in r)
      && (forall k :: 0 <= k < |r| ==> r[k] in parts)
    decreases |parts|
  {
    if parts != [] {
      var init := parts[..|parts| - 1];
      NonEmptyKeeps(init);
      assert forall k :: 0 <= k < |init| ==> init[k] == parts[k];
    }
  }

  /** The executable entries of one listing, as (file name, canonical path). */
  function ExecutablePairs(entries: seq<DirEntry>): seq<(string, string)>
  {
    if entries == [] then []
    else
      var e := entries[|entries| - 1];
      ExecutablePairs(entries[..|entries| - 1]) + (if e.executable then [(e.filename, e.canonical)] else [])
  }

  /** The pairs one `$PATH` component contributes. */
  function DirectoryPairs(dir: string, listing: Listing): seq<(string, string)>
  {
    match listing(dir)
    case None => []
    case Some(entries) => ExecutablePairs(entries)
  }

  /** The pairs of a run of components, in `$PATH` order. */
  function PairsOf(dirs: seq<string>, listing: Listing): seq<(string, string)>
  {
    if dirs == [] then []
    else PairsOf(dirs[..|dirs| - 1], listing) + DirectoryPairs(dirs[|dirs| - 1], listing)
  }

  /** The index the constructor builds from `$PATH`. */
  function Index(pathVar: string, listing: Listing): map<string, string>
  {
    FirstWins(PairsOf(Directories(pathVar), listing))
  }

  /** The `$PATH` text, when it is set; the constructor throws otherwise. */
  function PathVariable(env: Option<string>): (r: Result<string, string>)
    ensures env.None? <==> r == Err("$PATH is not defined.")
    ensures env.Some? ==> r == Ok(env.value)
  {
    match env
    case None => Err("$PATH is not defined.")
    case Some(p) => Ok(p)
  }


  /** Whether a candidate's length is within 2 of the name's. */
  predicate LengthEligible(cmd: string, name: string)
  {
    -2 <= |cmd| - |name| <= 2
  }

  /** `order` lists every key of `m` exactly once (the index's iteration order). */
  predicate IsEnumeration(order: seq<string>, m: map<string, string>)
  {
    && (forall k :: 0 <= k < |order| ==> order[k] in m)
    && (forall x :: x in m ==> x in order)
    && (forall i, j :: 0 <= i < j < |order| ==> order[i] != order[j])
  }

  /** The scan `closest` performs over `order`: the first length-eligible
      entry of least distance to `name`, with that distance; `SIZE_MAX` when
      there is none. */
  function ScanClosest(order: seq<string>, name: string): (r: (Option<string>, nat))
    ensures r.0.Some? ==> r.0.value in order
    ensures r.0.None? ==> r.1 == SIZE_MAX
  {
    if order == [] then (None, SIZE_MAX)
    else
      var n := |order| - 1;
      var (closest, closestDistance) := ScanClosest(order[..n], name);
      var cmd := order[n];
      if LengthEligible(cmd, name) && Distance(name, cmd) < closestDistance then (Some(cmd), Distance(name, cmd))
      else (closest, closestDistance)
  }

  /** The value `closest` returns, given the index's iteration order. */
  function ClosestOf(paths: map<string, string>, order: seq<string>, name: string, maxDistance: nat := 2)
    : Result<Option<(string, string)>, string>
    requires IsEnumeration(order, paths)
  {
    if paths == map[] then Err("no executables indexed")
    else
      var (closest, closestDistance) := ScanClosest(order, name);
      if closest.None? || closestDistance > maxDistance then Ok(None)
      else Ok(Some((closest.value, paths[closest.value])))
  }

  /** What the scan finds: nothing exactly when no entry's length is within 2
      of the name's; otherwise an eligible entry at some position of `order`,
      with its distance, no farther than any eligible entry and strictly
      nearer than every eligible entry before it. Distances of eligible
      entries stay below `SIZE_MAX`, so the first eligible entry is always
      taken. */
  lemma {:induction false} ScanClosestSpec(order: seq<string>, name: string)
    requires |name| + 2 < SIZE_MAX
    ensures var (closest, d) := ScanClosest(order, name);
      && (closest.None? <==> forall j :: 0 <= j < |order| ==> !LengthEligible(order[j], name))
      && (closest.Some? ==>
            exists idx :: 0 <= idx < |order| && order[idx] == closest.value
              && LengthEligible(closest.value, name) && d == Distance(name, closest.value)
              && (forall j :: 0 <= j < |order| && LengthEligible(order[j], name) ==> d <= Distance(name, order[j]))
              && (forall j :: 0 <= j < idx && LengthEligible(order[j], name) ==> d < Distance(name, order[j])))
    decreases |order|
  {
    if order != [] {
      var n := |order| - 1;
      var init := order[..n];
      ScanClosestSpec(init, name);
      assert forall j :: 0 <= j < n ==> init[j] == order[j];
      var cmd := order[n];
      DistanceBounds(name, cmd);
      var (c0, d0) := ScanClosest(init, name);
      if c0.Some? {
        var idx :| 0 <= idx < n && init[idx] == c0.value
              && LengthEligible(c0.value, name) && d0 == Distance(name, c0.value)
              && (forall j :: 0 <= j < n && LengthEligible(init[j], name) ==> d0 <= Distance(name, init[j]))
              && (forall j :: 0 <= j < idx && LengthEligible(init[j], name) ==> d0 < Distance(name, init[j]));
        if LengthEligible(cmd, name) && Distance(name, cmd) < d0 {
          assert order[n] == cmd;
        } else {
          assert order[idx] == c0.value;
        }
      } else {
        if LengthEligible(cmd, name) {
          assert order[n] == cmd;
        }
      }
    }
  }

  /** `closest`'s promises, whatever the iteration order: an empty index is an
      error; a result is an indexed entry whose length is within 2 of the
      name's, at most `maxDistance` away and no farther than any other such
      entry, and the first of least distance in `order`; no result means every
      such entry is farther than `maxDistance`; and an indexed name finds
      itself. */
  lemma ClosestOfSpec(paths: map<string, string>, order: seq<string>, name: string, maxDistance: nat)
    requires IsEnumeration(order, paths)
    requires |name| + 2 < SIZE_MAX
    ensures var r := ClosestOf(paths, order, name, maxDistance);
      && (paths == map[] <==> r == Err("no executables indexed"))
      && (paths != map[] ==> r.Ok?)
      && (r.Ok? && r.value.Some? ==>
            var (cmd, path) := r.value.value;
            && cmd in paths && path == paths[cmd]
            && LengthEligible(cmd, name)
            && Distance(name, cmd) <= maxDistance
            && (forall c :: c in paths && LengthEligible(c, name) ==> Distance(name, cmd) <= Distance(name, c))
            && (exists idx :: 0 <= idx < |order| && order[idx] == cmd
                  && forall j :: 0 <= j < idx && LengthEligible(order[j], name) ==>
                       Distance(name, cmd) < Distance(name, order[j])))
      && (r.Ok? && r.value.None? ==>
            forall c :: c in paths && LengthEligible(c, name) ==> Distance(name, c) > maxDistance)
      && (name in paths ==> r == Ok(Some((name, paths[name]))))
  {
    ScanClosestSpec(order, name);
    var (closest, d) := ScanClosest(order, name);
    forall c | c in paths
      ensures exists j :: 0 <= j < |order| && order[j] == c
    {
      assert c in order;
    }
    if name in paths {
      DistanceZeroIff(name, name);
      var at :| 0 <= at < |order| && order[at] == name;
      assert LengthEligible(name, name);
      if closest.Some? {
        DistanceZeroIff(name, closest.value);
      }
    }
  }

  lemma ExecutablePairsSnoc(entries: seq<DirEntry>, e: nat)
    requires e < |entries|
    ensures ExecutablePairs(entries[..e + 1])
         == ExecutablePairs(entries[..e]) + (if entries[e].executable then [(entries[e].filename, entries[e].canonical)] else [])
  {
    assert entries[..e + 1][..e] == entries[..e];
  }

  lemma PairsOfSnoc(dirs: seq<string>, d: string, listing: Listing)
    ensures PairsOf(dirs + [d], listing) == PairsOf(dirs, listing) + DirectoryPairs(d, listing)
  {
    assert (dirs + [d])[..|dirs|] == dirs;
  }

  lemma NonEmptySnoc(dirs: seq<string>, k: nat)
    requires k < |dirs|
    ensures NonEmpty(dirs[..k + 1]) == NonEmpty(dirs[..k]) + (if dirs[k] == [] then [] else [dirs[k]])
  {
    assert dirs[..k + 1][..k] == dirs[..k];
  }

  /** The inner loop of the constructor: emplaces the executable entries of
      one directory, in listing order. */
  method EmplaceExecutables(m: map<string, string>, entries: seq<DirEntry>, ghost before: seq<(string, string)>)
    returns (r: map<string, string>)
    requires m == FirstWins(before)
    ensures r == FirstWins(before + ExecutablePairs(entries))
  {
    r := m;
    var e := 0;
    assert before + ExecutablePairs(entries[..0]) == before;
    while e < |entries|
      invariant 0 <= e <= |entries|
      invariant r == FirstWins(before + ExecutablePairs(entries[..e]))
    {
      ExecutablePairsSnoc(entries, e);
      var entry := entries[e];
      if entry.executable {
        ghost var prefix := before + ExecutablePairs(entries[..e]);
        assert before + ExecutablePairs(entries[..e + 1]) == prefix + [(entry.filename, entry.canonical)];
        assert (prefix + [(entry.filename, entry.canonical)])[..|prefix|] == prefix;
        if entry.filename !in r {
          r := r[entry.filename := entry.canonical];
        }
      } else {
        assert before + ExecutablePairs(entries[..e + 1]) == before + ExecutablePairs(entries[..e]);
      }
      e := e + 1;
    }
    assert entries[..|entries|] == entries;
  }

  /** One pass of the constructor's outer loop: an empty component is skipped,
      and a directory that lists adds its executables after those of the
      components `kept` before it. */
  method AddDirectory(m: map<string, string>, directory: string, listing: Listing, ghost kept: seq<string>)
    returns (r: map<string, string>)
    requires m == FirstWins(PairsOf(kept, listing))
    ensures r == FirstWins(PairsOf(kept + (if directory == [] then [] else [directory]), listing))
  {
    r := m;
    if directory == [] {
      assert kept + [] == kept;
      return;
    }
    PairsOfSnoc(kept, directory, listing);
    var listed := listing(directory);
    if listed.Some? {
      r := EmplaceExecutables(m, listed.value, PairsOf(kept, listing));
    } else {
      assert PairsOf(kept, listing) + [] == PairsOf(kept, listing);
    }
  }

  /** `executables`: the index from file name to canonical path. */
  class ExecutableIndex {
    var paths: map<string, string>

    /** The constructor: walks the components of `$PATH` in order, skipping
        empty ones and those that are not directories, and emplaces every
        executable entry, so the first directory that holds a name wins. */
    constructor (pathVar: string, listing: Listing)
      ensures paths == Index(pathVar, listing)
    {
      var m: map<string, string> := map[];
      var dirs := Split(pathVar, ':');
      var k := 0;
      while k < |dirs|
        invariant 0 <= k <= |dirs|
        invariant m == FirstWins(PairsOf(NonEmpty(dirs[..k]), listing))
      {
        NonEmptySnoc(dirs, k);
        m := AddDirectory(m, dirs[k], listing, NonEmpty(dirs[..k]));
        k := k + 1;
      }
      assert dirs[..|dirs|] == dirs;
      paths := m;
    }

    /** `exists`: an exact lookup. */
    function Exists(name: string): (b: bool)
      reads this
      ensures b <==> name in paths
    {
      name in paths
    }

    /** `closest`: the scan over the index in its iteration order `order`
        (see `ClosestOf` and `ClosestOfSpec`). */
    method Closest(name: string, order: seq<string>, maxDistance: nat := 2)
      returns (r: Result<Option<(string, string)>, string>)
      requires IsEnumeration(order, paths)
      ensures r == ClosestOf(paths, order, name, maxDistance)
    {
      if paths == map[] {
        return Err("no executables indexed");
      }
      var closest: Option<string> := None;
      var closestDistance := SIZE_MAX;
      var i := 0;
      while i < |order|
        invariant 0 <= i <= |order|
        invariant (closest, closestDistance) == ScanClosest(order[..i], name)
      {
        var cmd := order[i];
        assert order[..i + 1][..i] == order[..i];
        if !LengthEligible(cmd, name) {
          i := i + 1;
          continue;
        }
        var dist := DamerauLevenshteinOsa(name, cmd);
        if dist < closestDistance {
          closestDistance := dist;
          closest := Some(cmd);
        }
        i := i + 1;
      }
      assert order[..|order|] == order;
      if closest.None? || closestDistance > maxDistance {
        r := Ok(None);
      } else {
        r := Ok(Some((closest.value, paths[closest.value])));
      }
    }
  }
}
