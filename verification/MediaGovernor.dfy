/** The retention pass over downloaded media (src/media.rs).

    The file system is one map from paths to files; a path names the directory a file
    lives in.  The order in which a directory is listed, the clock, entries that are not
    regular files and paths that cannot be removed are inputs. */
module MediaGovernor {
  import opened Basics
  import Order

  const MEDIA_TTL := 7 * 24 * 60 * 60 * 1_000_000_000
  const MEDIA_QUOTA_BYTES := 2 * 1024 * 1024 * 1024
  const MAX_DELETIONS_PER_PASS := 256

  /** An account's own bucket, the flat pool, or a directory of the older layout. */
  datatype Place = Account(id: string) | Flat | Legacy(id: string)

  datatype Path = Path(place: Place, name: string)

  /** Modification times are in nanoseconds. */
  datatype File = File(size: nat, mtime: int)

  type Disk = map<Path, File>

  /** What a pass sees besides the regular files. */
  datatype World = World(now: int, fixed: map<Path, int>, stuck: set<Path>)

  datatype Stats = Stats(deleted: nat, bytes: nat)

  // ------------------------------------------------------------------ accounting

  /** The total size of the files on a disk. */
  ghost function Weight(disk: Disk): nat
    decreases |disk|
  {
    if disk == map[] then 0
    else
      var x :| x in disk;
      CountWithout(disk, x);
      disk[x].size + Weight(disk - {x})
  }

  lemma CountWithout(disk: Disk, x: Path)
    requires x in disk
    ensures |disk - {x}| == |disk| - 1
  {
    assert (disk - {x}).Keys == disk.Keys - {x};
  }

  lemma {:induction false} WeightWithout(disk: Disk, x: Path)
    requires x in disk
    ensures Weight(disk) == disk[x].size + Weight(disk - {x})
    decreases |disk|
  {
    var y :| y in disk && Weight(disk) == disk[y].size + Weight(disk - {y});
    if y != x {
      CountWithout(disk, y);
      WeightWithout(disk - {y}, x);
      WeightWithoutBoth(disk, x, y);
    }
  }

  lemma {:induction false} WeightWithoutBoth(disk: Disk, x: Path, y: Path)
    requires x in disk && y in disk && x != y
    ensures Weight(disk - {x}) == disk[y].size + Weight(disk - {y} - {x})
    decreases |disk|, 0
  {
    CountWithout(disk, x);
    WeightWithout(disk - {x}, y);
    assert disk - {x} - {y} == disk - {y} - {x};
  }

  function Restrict(disk: Disk, keep: set<Path>): Disk
  {
    map x | x in disk && x in keep :: disk[x]
  }

  lemma RestrictWithout(disk: Disk, keep: set<Path>, x: Path)
    requires x in disk && x in keep
    ensures Weight(Restrict(disk, keep)) == disk[x].size + Weight(Restrict(disk - {x}, keep))
  {
    WeightWithout(Restrict(disk, keep), x);
    assert Restrict(disk, keep) - {x} == Restrict(disk - {x}, keep);
  }

  /** Files and bytes are on disk or in the statistics, deletions are paid for. */
  ghost predicate Booked(disk: Disk, budget: nat, stats: Stats, after: Disk, left: nat, tally: Stats)
  {
    && |disk| + stats.deleted == |after| + tally.deleted
    && Weight(disk) + stats.bytes == Weight(after) + tally.bytes
    && budget + stats.deleted == left + tally.deleted
  }

  // --------------------------------------------------------- reasons for deletion

  const PREVIEW := ".preview"

  function Stem(name: string): Option<string>
  {
    if |name| >= |PREVIEW| && name[|name| - |PREVIEW|..] == PREVIEW then Some(name[..|name| - |PREVIEW|]) else None
  }

  /** A preview is stale when its main file is gone or is newer than it. */
  predicate Stale(disk: Disk, w: World, path: Path, mtime: int)
  {
    var stem := Stem(path.name);
    && stem.Some?
    && var main := Path(path.place, stem.value);
       if main in w.fixed then mtime < w.fixed[main]
       else main in disk ==> mtime < disk[main].mtime
  }

  predicate Expired(f: File, now: int)
  {
    now - f.mtime > MEDIA_TTL
  }

  /** Removing files never makes a stale preview fresh. */
  lemma StaleStays(disk: Disk, after: Disk, w: World, path: Path, mtime: int)
    requires Part(after, disk) && Stale(disk, w, path, mtime)
    ensures Stale(after, w, path, mtime)
  {
  }

  /** `after` is `disk` with some files removed. */
  ghost predicate Part(after: Disk, disk: Disk)
  {
    after.Keys <= disk.Keys && forall x | x in after :: after[x] == disk[x]
  }

  // ---------------------------------------------------------------- the deletion

  method Delete(disk: Disk, x: Path, w: World, budget: nat, stats: Stats)
    returns (after: Disk, left: nat, tally: Stats, gone: bool)
    requires x in disk && budget > 0
    ensures gone <==> x !in w.stuck
    ensures after == if gone then disk - {x} else disk
    ensures left == if gone then budget - 1 else budget
    ensures Booked(disk, budget, stats, after, left, tally)
  {
    gone := x !in w.stuck;
    after, left, tally := disk, budget, stats;
    if gone {
      CountWithout(disk, x);
      WeightWithout(disk, x);
      after := disk - {x};
      left := budget - 1;
      tally := Stats(stats.deleted + 1, stats.bytes + disk[x].size);
    }
  }

  lemma Rebook(disk: Disk, budget: nat, stats: Stats, mid: Disk, left: nat, tally: Stats, after: Disk, end: nat, sum: Stats)
    requires Booked(disk, budget, stats, mid, left, tally) && Booked(mid, left, tally, after, end, sum)
    ensures Booked(disk, budget, stats, after, end, sum)
  {
  }

  ghost predicate Distinct(files: seq<Path>)
  {
    forall i, j | 0 <= i < j < |files| :: files[i] != files[j]
  }

  ghost function Members(files: seq<Path>): set<Path>
  {
    set x | x in files
  }

  lemma NextMember(files: seq<Path>, i: nat)
    requires Distinct(files) && i < |files|
    ensures Members(files[..i + 1]) == Members(files[..i]) + {files[i]}
    ensures files[i] !in Members(files[..i]) && files[i] in Members(files)
  {
    assert files[..i + 1] == files[..i] + [files[i]];
  }

  lemma NoMembersAllMembers(files: seq<Path>)
    ensures Members(files[..0]) == {} && Members(files[..|files|]) == Members(files)
  {
    assert files[..|files|] == files;
  }

  // --------------------------------------------------------- phase one: previews

  /** Of the files `seen`, exactly the stale previews that can be removed are `gone`. */
  ghost predicate PreviewsDone(disk: Disk, w: World, seen: set<Path>, after: Disk, gone: set<Path>)
  {
    && after == disk - gone && gone !! w.stuck && gone <= seen <= disk.Keys
    && (forall x | x in gone :: Stale(after, w, x, disk[x].mtime))
    && (forall x | x in seen - gone - w.stuck :: !Stale(disk, w, x, disk[x].mtime))
  }

  lemma PreviewsStart(disk: Disk, w: World)
    ensures PreviewsDone(disk, w, {}, disk, {})
  {
  }

  lemma PreviewStays(disk: Disk, w: World, seen: set<Path>, after: Disk, gone: set<Path>, x: Path)
    requires PreviewsDone(disk, w, seen, after, gone) && x in disk && x !in seen
    requires x in w.stuck || !Stale(after, w, x, disk[x].mtime)
    ensures PreviewsDone(disk, w, seen + {x}, after, gone)
  {
    if Stale(disk, w, x, disk[x].mtime) {
      StaleStays(disk, after, w, x, disk[x].mtime);
    }
  }

  lemma PreviewGoes(disk: Disk, w: World, seen: set<Path>, after: Disk, gone: set<Path>, x: Path)
    requires PreviewsDone(disk, w, seen, after, gone) && x in disk
    requires x !in w.stuck && Stale(after, w, x, disk[x].mtime)
    ensures PreviewsDone(disk, w, seen + {x}, after - {x}, gone + {x})
  {
    forall y | y in gone + {x} ensures Stale(after - {x}, w, y, disk[y].mtime) {
      StaleStays(after, after - {x}, w, y, disk[y].mtime);
    }
  }

  method SweepPreviews(disk: Disk, files: seq<Path>, w: World, budget: nat, stats: Stats)
    returns (after: Disk, left: nat, tally: Stats, ghost gone: set<Path>, ghost seen: set<Path>)
    requires Distinct(files) && Members(files) <= disk.Keys
    ensures PreviewsDone(disk, w, seen, after, gone)
    ensures seen <= Members(files) && (left > 0 ==> seen == Members(files))
    ensures left <= budget && Booked(disk, budget, stats, after, left, tally)
  {
    hide Stale, PreviewsDone, Members, Distinct;
    after, left, tally, gone, seen := disk, budget, stats, {}, {};
    NoMembersAllMembers(files);
    PreviewsStart(disk, w);
    var i := 0;
    assert Booked(disk, budget, stats, after, left, tally);
    hide Booked;
    while i < |files|
      invariant 0 <= i <= |files|
      invariant seen == Members(files[..i]) && seen <= Members(files)
      invariant PreviewsDone(disk, w, seen, after, gone)
      invariant left <= budget && Booked(disk, budget, stats, after, left, tally)
    {
      if left == 0 {
        return;
      }
      var x := files[i];
      NextMember(files, i);
      StillThere(disk, w, seen, after, gone, x);
      if Stale(after, w, x, disk[x].mtime) {
        var next, n, t, ok := Delete(after, x, w, left, tally);
        Rebook(disk, budget, stats, after, left, tally, next, n, t);
        if ok {
          PreviewGoes(disk, w, seen, after, gone, x);
          gone := gone + {x};
        } else {
          PreviewStays(disk, w, seen, after, gone, x);
        }
        after, left, tally := next, n, t;
      } else {
        PreviewStays(disk, w, seen, after, gone, x);
      }
      seen := seen + {x};
      i := i + 1;
    }
  }

  lemma StillThere(disk: Disk, w: World, seen: set<Path>, after: Disk, gone: set<Path>, x: Path)
    requires PreviewsDone(disk, w, seen, after, gone) && x in disk && x !in seen
    ensures x in after
  {
  }

  // -------------------------------------------------------- phase two: expired files

  ghost function Past(disk: Disk, w: World, seen: set<Path>): set<Path>
  {
    set x | x in seen && x in disk && Expired(disk[x], w.now)
  }

  /** Of the files `seen`, exactly the expired ones that can be removed are gone, and
      the unexpired ones are `kept`. */
  ghost predicate ExpiredDone(disk: Disk, w: World, seen: set<Path>, after: Disk, kept: seq<Path>)
  {
    && after == disk - (Past(disk, w, seen) - w.stuck)
    && Distinct(kept) && Members(kept) == seen * disk.Keys - Past(disk, w, seen)
  }

  lemma ExpiredStep(disk: Disk, w: World, seen: set<Path>, after: Disk, kept: seq<Path>, x: Path)
    requires ExpiredDone(disk, w, seen, after, kept) && x !in seen
    ensures x !in disk ==> ExpiredDone(disk, w, seen + {x}, after, kept)
    ensures x in disk && !Expired(disk[x], w.now) ==> ExpiredDone(disk, w, seen + {x}, after, kept + [x])
    ensures x in disk && Expired(disk[x], w.now) && x in w.stuck ==> ExpiredDone(disk, w, seen + {x}, after, kept)
    ensures x in disk && Expired(disk[x], w.now) && x !in w.stuck ==>
              ExpiredDone(disk, w, seen + {x}, after - {x}, kept)
  {
    hide Expired;
    var past, next := Past(disk, w, seen), Past(disk, w, seen + {x});
    if x in disk && Expired(disk[x], w.now) {
      assert next == past + {x};
      assert x !in w.stuck ==> next - w.stuck == (past - w.stuck) + {x};
      assert x in w.stuck ==> next - w.stuck == past - w.stuck;
    } else {
      assert next == past;
      if x in disk {
        assert x !in Members(kept);
        assert Members(kept + [x]) == Members(kept) + {x};
        assert Distinct(kept + [x]);
      }
    }
  }

  lemma ExpiredStart(disk: Disk, w: World)
    ensures ExpiredDone(disk, w, {}, disk, [])
  {
    assert Past(disk, w, {}) == {};
  }

  lemma NotYetSwept(disk: Disk, w: World, seen: set<Path>, after: Disk, kept: seq<Path>, x: Path)
    requires ExpiredDone(disk, w, seen, after, kept) && x !in seen
    ensures x in after <==> x in disk
    ensures x in after ==> after[x] == disk[x]
  {
  }

  method SweepExpired(disk: Disk, files: seq<Path>, w: World, budget: nat, stats: Stats)
    returns (after: Disk, left: nat, tally: Stats, kept: seq<Path>, ghost seen: set<Path>)
    requires Distinct(files)
    ensures ExpiredDone(disk, w, seen, after, kept)
    ensures seen <= Members(files) && (left > 0 ==> seen == Members(files))
    ensures left <= budget && Booked(disk, budget, stats, after, left, tally)
  {
    hide Expired, ExpiredDone, Members, Distinct, Past;
    after, left, tally, kept, seen := disk, budget, stats, [], {};
    NoMembersAllMembers(files);
    ExpiredStart(disk, w);
    var i := 0;
    assert Booked(disk, budget, stats, after, left, tally);
    hide Booked;
    while i < |files|
      invariant 0 <= i <= |files|
      invariant seen == Members(files[..i]) && seen <= Members(files)
      invariant ExpiredDone(disk, w, seen, after, kept)
      invariant left <= budget && Booked(disk, budget, stats, after, left, tally)
    {
      if left == 0 {
        break;
      }
      var x := files[i];
      NextMember(files, i);
      NotYetSwept(disk, w, seen, after, kept, x);
      ExpiredStep(disk, w, seen, after, kept, x);
      if x in disk {
        if Expired(disk[x], w.now) {
          var next, n, t, ok := Delete(after, x, w, left, tally);
          Rebook(disk, budget, stats, after, left, tally, next, n, t);
          after, left, tally := next, n, t;
        } else {
          kept := kept + [x];
        }
      }
      seen := seen + {x};
      i := i + 1;
    }
  }

  // ------------------------------------------------------------ phase three: quota

  ghost predicate OldestFirst(disk: Disk, files: seq<Path>)
    requires Members(files) <= disk.Keys
  {
    forall i, j | 0 <= i < j < |files| :: disk[files[i]].mtime <= disk[files[j]].mtime
  }

  lemma Snoc(disk: Disk, files: seq<Path>, x: Path)
    requires Members(files) <= disk.Keys && x in disk && x !in Members(files)
    requires Distinct(files) && OldestFirst(disk, files)
    requires forall y | y in Members(files) :: disk[y].mtime <= disk[x].mtime
    ensures Members(files + [x]) == Members(files) + {x}
    ensures Distinct(files + [x]) && OldestFirst(disk, files + [x])
  {
    forall i | 0 <= i < |files| ensures files[i] != x && disk[files[i]].mtime <= disk[x].mtime {
      assert files[i] in Members(files);
    }
  }

  lemma Unsnoc(disk: Disk, files: seq<Path>)
    requires files != [] && Distinct(files) && Members(files) <= disk.Keys && OldestFirst(disk, files)
    ensures var init, last := files[..|files| - 1], files[|files| - 1];
      && Members(files) == Members(init) + {last} && last !in Members(init)
      && Distinct(init) && OldestFirst(disk, init)
      && forall y | y in Members(init) :: disk[y].mtime <= disk[last].mtime
  {
    assert files == files[..|files| - 1] + [files[|files| - 1]];
  }

  /** `x` placed behind everything at least as old as it. */
  function Insert(disk: Disk, files: seq<Path>, x: Path): (r: seq<Path>)
    requires x in disk && Members(files) <= disk.Keys && OldestFirst(disk, files)
    requires Distinct(files) && x !in Members(files)
    ensures Members(r) == Members(files) + {x}
    ensures Distinct(r) && OldestFirst(disk, r)
  {
    hide Members, Distinct, OldestFirst;
    if files == [] then
      Snoc(disk, files, x);
      files + [x]
    else
      var init, last := files[..|files| - 1], files[|files| - 1];
      Unsnoc(disk, files);
      if disk[last].mtime <= disk[x].mtime then
        Snoc(disk, files, x);
        files + [x]
      else
        var r := Insert(disk, init, x);
        Snoc(disk, r, last);
        r + [last]
  }

  /** The files by modification time, equal times in listing order. */
  function ByAge(disk: Disk, files: seq<Path>): (r: seq<Path>)
    requires Members(files) <= disk.Keys && Distinct(files)
    ensures Members(r) == Members(files)
    ensures Distinct(r) && OldestFirst(disk, r)
  {
    if files == [] then []
    else
      var n := |files| - 1;
      assert files[..n + 1] == files;
      NextMember(files, n);
      Insert(disk, ByAge(disk, files[..n]), files[n])
  }

  /** The files of one modification time, in order. */
  function OfTime(disk: Disk, files: seq<Path>, mtime: int): seq<Path>
  {
    if files == [] then []
    else
      var init, last := OfTime(disk, files[..|files| - 1], mtime), files[|files| - 1];
      if last in disk && disk[last].mtime == mtime then init + [last] else init
  }

  lemma OfTimeSnoc(disk: Disk, files: seq<Path>, x: Path, mtime: int)
    ensures OfTime(disk, files + [x], mtime) ==
              OfTime(disk, files, mtime) + if x in disk && disk[x].mtime == mtime then [x] else []
  {
    assert (files + [x])[..|files|] == files;
  }

  lemma {:induction false} InsertIsStable(disk: Disk, files: seq<Path>, x: Path, mtime: int)
    requires x in disk && Members(files) <= disk.Keys && OldestFirst(disk, files) && Distinct(files) && x !in Members(files)
    ensures OfTime(disk, Insert(disk, files, x), mtime) == OfTime(disk, files + [x], mtime)
  {
    hide Members, Distinct, OldestFirst, OfTime;
    OfTimeSnoc(disk, files, x, mtime);
    if files != [] {
      var init, last := files[..|files| - 1], files[|files| - 1];
      Unsnoc(disk, files);
      assert files == init + [last];
      InsertIsStable(disk, init, x, mtime);
      OfTimeSnoc(disk, init, x, mtime);
      OfTimeSnoc(disk, init, last, mtime);
      OfTimeSnoc(disk, Insert(disk, init, x), last, mtime);
    }
  }

  /** Files of equal modification time stay in listing order. */
  lemma {:induction false} ByAgeIsStable(disk: Disk, files: seq<Path>, mtime: int)
    requires Members(files) <= disk.Keys && Distinct(files)
    ensures OfTime(disk, ByAge(disk, files), mtime) == OfTime(disk, files, mtime)
  {
    if files != [] {
      var n := |files| - 1;
      assert files == files[..n] + [files[n]] && files[..n + 1] == files;
      NextMember(files, n);
      var sorted := ByAge(disk, files[..n]);
      assert ByAge(disk, files) == Insert(disk, sorted, files[n]);
      hide Members, Distinct, OldestFirst, OfTime, Insert, ByAge;
      ByAgeIsStable(disk, files[..n], mtime);
      InsertIsStable(disk, sorted, files[n], mtime);
      OfTimeSnoc(disk, sorted, files[n], mtime);
      OfTimeSnoc(disk, files[..n], files[n], mtime);
    }
  }

  method TotalSize(disk: Disk, files: seq<Path>) returns (total: nat)
    requires Distinct(files) && Members(files) <= disk.Keys
    ensures total == Weight(Restrict(disk, Members(files)))
  {
    total := 0;
    assert Restrict(disk, Members(files[..0])) == map[];
    assert Weight(map[]) == 0;
    hide Weight;
    for i := 0 to |files|
      invariant total == Weight(Restrict(disk, Members(files[..i])))
    {
      NextMember(files, i);
      assert files[i] in Members(files);
      hide Members;
      ghost var here, next := Members(files[..i]), Members(files[..i + 1]);
      WeightWithout(Restrict(disk, next), files[i]);
      assert Restrict(disk, next) - {files[i]} == Restrict(disk, here);
      total := total + disk[files[i]].size;
    }
    assert files[..|files|] == files;
  }

  ghost predicate Newest(disk: Disk, gone: set<Path>, x: Path)
  {
    x in gone && gone <= disk.Keys && forall y | y in gone :: disk[y].mtime <= disk[x].mtime
  }

  /** Of the weighed files `keep`, the oldest ones, `seen`, have been removed where that
      was possible, and the last removal was still needed to come within the quota. */
  ghost predicate Evicting(disk: Disk, w: World, keep: set<Path>, quota: nat, seen: set<Path>, after: Disk)
  {
    && seen <= keep <= disk.Keys
    && after == disk - (seen - w.stuck)
    && (forall x, y | x in seen && y in keep - seen :: disk[x].mtime <= disk[y].mtime)
    && (seen <= w.stuck || exists x :: Newest(disk, seen - w.stuck, x) && Weight(Restrict(after, keep)) + disk[x].size > quota)
  }

  ghost predicate Before(disk: Disk, seen: set<Path>, x: Path)
  {
    seen <= disk.Keys && x in disk && forall y | y in seen :: disk[y].mtime <= disk[x].mtime
  }

  lemma EvictStep(disk: Disk, w: World, keep: set<Path>, quota: nat, seen: set<Path>, after: Disk, x: Path)
    requires Evicting(disk, w, keep, quota, seen, after)
    requires x in keep - seen && Before(disk, seen, x) && forall y | y in keep - seen :: disk[x].mtime <= disk[y].mtime
    requires Weight(Restrict(after, keep)) > quota
    ensures x in after
    ensures x in w.stuck ==> Evicting(disk, w, keep, quota, seen + {x}, after)
    ensures x !in w.stuck ==> Evicting(disk, w, keep, quota, seen + {x}, after - {x})
    ensures x !in w.stuck ==> Weight(Restrict(after, keep)) == disk[x].size + Weight(Restrict(after - {x}, keep))
  {
    if x in w.stuck {
      assert (seen + {x}) - w.stuck == seen - w.stuck;
    } else {
      assert (seen + {x}) - w.stuck == (seen - w.stuck) + {x};
      RestrictWithout(after, keep, x);
      assert Newest(disk, (seen - w.stuck) + {x}, x);
    }
  }

  /** While the weighed files are over the quota, the oldest of them goes. */
  method EvictOldest(disk: Disk, files: seq<Path>, w: World, quota: nat, budget: nat, stats: Stats)
    returns (after: Disk, left: nat, tally: Stats, ghost seen: set<Path>)
    requires Distinct(files) && Members(files) <= disk.Keys
    ensures Evicting(disk, w, Members(files), quota, seen, after)
    ensures left > 0 ==> Weight(Restrict(after, Members(files))) <= quota || seen == Members(files)
    ensures budget == 0 ==> seen == {}
    ensures left <= budget && Booked(disk, budget, stats, after, left, tally)
  {
    hide Restrict, Evicting, Members, Distinct, OldestFirst, Before;
    after, left, tally, seen := disk, budget, stats, {};
    EvictStart(disk, w, Members(files), quota);
    var total := TotalSize(disk, files);
    if total <= quota {
      return;
    }
    var order := ByAge(disk, files);
    ghost var keep := Members(files);
    NoMembersAllMembers(order);
    var i := 0;
    assert Booked(disk, budget, stats, after, left, tally);
    hide Booked;
    while i < |order|
      invariant 0 <= i <= |order|
      invariant seen == Members(order[..i]) && (left > 0 ==> budget > 0) && (budget == 0 ==> i == 0)
      invariant Evicting(disk, w, keep, quota, seen, after)
      invariant total == Weight(Restrict(after, keep))
      invariant left <= budget && Booked(disk, budget, stats, after, left, tally)
    {
      if left == 0 || total <= quota {
        break;
      }
      var x := order[i];
      NextMember(order, i);
      OldestNext(disk, order, i);
      EvictStep(disk, w, keep, quota, seen, after, x);
      var next, n, t, ok := Delete(after, x, w, left, tally);
      Rebook(disk, budget, stats, after, left, tally, next, n, t);
      if ok {
        total := total - disk[x].size;
      }
      after, left, tally := next, n, t;
      seen := seen + {x};
      i := i + 1;
    }
  }

  lemma EvictStart(disk: Disk, w: World, keep: set<Path>, quota: nat)
    requires keep <= disk.Keys
    ensures Evicting(disk, w, keep, quota, {}, disk)
  {
    assert disk - ({} - w.stuck) == disk;
  }

  lemma OldestNext(disk: Disk, order: seq<Path>, i: nat)
    requires Distinct(order) && Members(order) <= disk.Keys && OldestFirst(disk, order) && i < |order|
    ensures order[i] in Members(order) - Members(order[..i])
    ensures Before(disk, Members(order[..i]), order[i])
    ensures forall y | y in Members(order) - Members(order[..i]) :: disk[order[i]].mtime <= disk[y].mtime
  {
    forall y | y in Members(order) - Members(order[..i]) ensures disk[order[i]].mtime <= disk[y].mtime {
      var j :| 0 <= j < |order| && order[j] == y;
    }
  }

  // ------------------------------------------------------------- one directory

  function In(disk: Disk, p: Place): Disk
  {
    map x | x in disk && x.place == p :: disk[x]
  }

  lemma {:induction false} WeightOfPart(after: Disk, disk: Disk)
    requires Part(after, disk)
    ensures Weight(after) <= Weight(disk)
    decreases |disk|
  {
    if x :| x in disk && x !in after {
      CountWithout(disk, x);
      WeightWithout(disk, x);
      WeightOfPart(after, disk - {x});
    } else {
      assert after == disk;
    }
  }

  /** Who went in which phase: stale previews, expired files, files evicted for space. */
  datatype Sweep = Sweep(gone: set<Path>, past: set<Path>, evicted: set<Path>)

  /** What the quota phase weighs: the unexpired files that the preview phase left. */
  ghost function Weighed(mid: Disk, w: World): set<Path>
  {
    mid.Keys - Past(mid, w, mid.Keys)
  }

  /** Files go for space oldest first, and the newest of them still had to go. */
  ghost predicate EvictedFairly(mid: Disk, after: Disk, w: World, quota: nat, evicted: set<Path>)
  {
    && evicted <= mid.Keys
    && (forall x, y | x in evicted && y in Weighed(mid, w) - evicted - w.stuck :: mid[x].mtime <= mid[y].mtime)
    && exists x :: Newest(mid, evicted, x) && Weight(Restrict(after, Weighed(mid, w))) + mid[x].size > quota
  }

  /** When the deletion budget sufficed nothing removable is due any more. */
  ghost predicate Finished(dir: Disk, after: Disk, w: World, quota: Option<nat>, s: Sweep)
  {
    var mid := dir - s.gone;
    && (forall x | x in dir && x !in s.gone && x !in w.stuck :: !Stale(dir, w, x, dir[x].mtime))
    && s.past == Past(mid, w, mid.Keys) - w.stuck
    && (quota.Some? ==> Weight(Restrict(after, Weighed(mid, w))) <= quota.value || Weighed(mid, w) <= s.evicted + w.stuck)
  }

  ghost predicate SweptBy(dir: Disk, after: Disk, w: World, quota: Option<nat>, done: bool, s: Sweep)
  {
    var mid := dir - s.gone;
    && after == dir - (s.gone + s.past + s.evicted)
    && s.gone <= dir.Keys && (s.gone + s.past + s.evicted) !! w.stuck
    && (forall x | x in s.gone :: Stale(mid, w, x, dir[x].mtime))
    && s.past <= Past(mid, w, mid.Keys) && s.evicted <= Weighed(mid, w)
    && (s.evicted != {} ==>
          && quota.Some? && s.past == Past(mid, w, mid.Keys) - w.stuck
          && EvictedFairly(mid, after, w, quota.value, s.evicted))
    && (done ==> Finished(dir, after, w, quota, s))
  }

  /** What a sweep makes of one directory; `done` when the deletion budget sufficed. */
  ghost predicate Swept(dir: Disk, after: Disk, w: World, quota: Option<nat>, done: bool)
  {
    exists s :: SweptBy(dir, after, w, quota, done, s)
  }

  ghost predicate Elsewhere(disk: Disk, after: Disk, p: Place)
  {
    forall q | q != p :: In(after, q) == In(disk, q)
  }

  /** The three phases of a sweep of the files `all`, with the disks between them. */
  datatype Phases = Phases(
    disk: Disk, mid: Disk, late: Disk, after: Disk, all: set<Path>,
    gone: set<Path>, looked: set<Path>, seen: set<Path>, kept: seq<Path>, evicted: set<Path>,
    first: nat, second: nat, left: nat)

  ghost predicate Ran(r: Phases, w: World, quota: Option<nat>)
  {
    && PreviewsDone(r.disk, w, r.looked, r.mid, r.gone)
    && r.looked <= r.all && r.seen <= r.all && r.left <= r.second <= r.first
    && (r.first > 0 ==> r.looked == r.all)
    && ExpiredDone(r.mid, w, r.seen, r.late, r.kept)
    && (r.second > 0 ==> r.seen == r.all)
    && (quota.None? ==> r.after == r.late && r.evicted == {})
    && (quota.Some? ==>
          var keep := Members(r.kept);
          && Evicting(r.late, w, keep, quota.value, r.evicted, r.after)
          && (r.left > 0 ==> Weight(Restrict(r.after, keep)) <= quota.value || r.evicted == keep)
          && (r.second == 0 ==> r.evicted == {}))
  }

  lemma KeptSurvive(r: Phases, w: World)
    requires ExpiredDone(r.mid, w, r.seen, r.late, r.kept)
    ensures Distinct(r.kept) && Members(r.kept) <= r.late.Keys
  {
  }

  ghost function Removed(r: Phases, w: World): set<Path>
  {
    r.gone + (Past(r.mid, w, r.seen) - w.stuck) + (r.evicted - w.stuck)
  }

  lemma RemovedAre(r: Phases, w: World, quota: Option<nat>)
    requires Ran(r, w, quota)
    ensures Removed(r, w) <= r.all && Removed(r, w) !! w.stuck && r.after == r.disk - Removed(r, w)
  {
    hide Stale, Expired;
  }

  lemma OnlyThere(disk: Disk, after: Disk, p: Place, removed: set<Path>)
    requires after == disk - removed && removed <= In(disk, p).Keys
    ensures Elsewhere(disk, after, p) && In(after, p) == In(disk, p) - removed
  {
  }

  lemma StaleThere(disk: Disk, w: World, x: Path, mtime: int)
    ensures Stale(disk, w, x, mtime) <==> Stale(In(disk, x.place), w, x, mtime)
  {
  }

  method SweepDir(disk: Disk, p: Place, files: seq<Path>, w: World, quota: Option<nat>, budget: nat, stats: Stats)
    returns (after: Disk, left: nat, tally: Stats)
    requires Distinct(files) && Members(files) == In(disk, p).Keys
    ensures Swept(In(disk, p), In(after, p), w, quota, left > 0)
    ensures Elsewhere(disk, after, p)
    ensures left <= budget && Booked(disk, budget, stats, after, left, tally)
  {
    hide PreviewsDone, ExpiredDone, Evicting, Booked, Swept, Elsewhere;
    ghost var r := Phases(disk, disk, disk, disk, Members(files), {}, {}, {}, [], {}, 0, 0, 0);
    ghost var gone, looked, seen;
    var mid, n, t;
    mid, n, t, gone, looked := SweepPreviews(disk, files, w, budget, stats);
    r := r.(mid := mid, gone := gone, looked := looked, first := n);
    var kept;
    after, left, tally, kept, seen := SweepExpired(mid, files, w, n, t);
    Rebook(disk, budget, stats, mid, n, t, after, left, tally);
    r := r.(late := after, kept := kept, seen := seen, second := left);
    KeptSurvive(r, w);
    if quota.Some? {
      ghost var evicted;
      var end, m, u;
      end, m, u, evicted := EvictOldest(after, kept, w, quota.value, left, tally);
      Rebook(disk, budget, stats, after, left, tally, end, m, u);
      r := r.(evicted := evicted);
      after, left, tally := end, m, u;
    }
    r := r.(after := after, left := left);
    RanIsSwept(r, p, w, quota);
  }

  ghost function SweepOf(r: Phases, w: World): Sweep
  {
    Sweep(r.gone, Past(r.mid, w, r.seen) - w.stuck, r.evicted - w.stuck)
  }

  lemma RanIsSwept(r: Phases, p: Place, w: World, quota: Option<nat>)
    requires Ran(r, w, quota) && r.all == In(r.disk, p).Keys
    ensures Swept(In(r.disk, p), In(r.after, p), w, quota, r.left > 0)
    ensures Elsewhere(r.disk, r.after, p)
  {
    RemovedAre(r, w, quota);
    OnlyThere(r.disk, r.after, p, Removed(r, w));
    ThereInBetween(r, p, w, quota);
    var dir, fin, mid, s := In(r.disk, p), In(r.after, p), In(r.mid, p), SweepOf(r, w);
    if s.evicted != {} {
      EvictedForSpace(r, p, w, quota);
    }
    if r.left > 0 {
      DoneIsFinished(r, p, w, quota);
    }
    forall x | x in r.gone ensures Stale(mid, w, x, dir[x].mtime) {
      StaleThere(r.mid, w, x, r.disk[x].mtime);
    }
    hide Stale, Expired, EvictedFairly, Finished, Elsewhere;
    assert fin == dir - (s.gone + s.past + s.evicted);
    assert SweptBy(dir, fin, w, quota, r.left > 0, s);
  }

  /** The directory after the preview phase, and what of it is expired or weighed. */
  lemma ThereInBetween(r: Phases, p: Place, w: World, quota: Option<nat>)
    requires Ran(r, w, quota) && r.all == In(r.disk, p).Keys
    ensures In(r.mid, p) == In(r.disk, p) - r.gone
    ensures Past(r.mid, w, r.seen) <= Past(In(r.mid, p), w, In(r.mid, p).Keys)
    ensures r.evicted <= Weighed(In(r.mid, p), w)
    ensures r.second > 0 ==> Past(r.mid, w, r.seen) == Past(In(r.mid, p), w, In(r.mid, p).Keys)
    ensures r.second > 0 ==> Members(r.kept) == Weighed(In(r.mid, p), w)
  {
    hide Stale, Expired;
  }

  lemma SameFilesWeighed(r: Phases, p: Place, keep: set<Path>)
    requires keep <= In(r.disk, p).Keys
    ensures Restrict(In(r.after, p), keep) == Restrict(r.after, keep)
  {
  }

  lemma EvictedForSpace(r: Phases, p: Place, w: World, quota: Option<nat>)
    requires Ran(r, w, quota) && r.all == In(r.disk, p).Keys && r.evicted - w.stuck != {}
    ensures quota.Some? && r.second > 0 && EvictedFairly(In(r.mid, p), In(r.after, p), w, quota.value, r.evicted - w.stuck)
  {
    hide Stale, Expired;
    ThereInBetween(r, p, w, quota);
    var keep := Members(r.kept);
    SameFilesWeighed(r, p, keep);
    hide Past, Weighed, Restrict;
    var evicted := r.evicted - w.stuck;
    var e :| Newest(r.late, evicted, e) && Weight(Restrict(r.after, keep)) + r.late[e].size > quota.value;
    assert forall x | x in r.late :: x in r.mid && r.late[x] == r.mid[x];
    assert Newest(In(r.mid, p), evicted, e);
  }

  lemma DoneIsFinished(r: Phases, p: Place, w: World, quota: Option<nat>)
    requires Ran(r, w, quota) && r.all == In(r.disk, p).Keys && r.left > 0
    ensures Finished(In(r.disk, p), In(r.after, p), w, quota, SweepOf(r, w))
  {
    ThereInBetween(r, p, w, quota);
    SameFilesWeighed(r, p, Members(r.kept));
    var dir := In(r.disk, p);
    forall x | x in dir && x !in r.gone && x !in w.stuck ensures !Stale(dir, w, x, dir[x].mtime) {
      StaleThere(r.disk, w, x, r.disk[x].mtime);
    }
    hide Stale, Expired, Past, Weighed, Restrict;
  }

  /** Nothing is evicted from a directory whose weighed files are within the quota. */
  lemma EvictionMeansOverQuota(dir: Disk, after: Disk, w: World, quota: Option<nat>, done: bool, s: Sweep)
    requires SweptBy(dir, after, w, quota, done, s) && s.evicted != {}
    ensures quota.Some? && Weight(Restrict(dir - s.gone, Weighed(dir - s.gone, w))) > quota.value
  {
    hide Stale, Expired, Past, Finished;
    var mid, keep := dir - s.gone, Weighed(dir - s.gone, w);
    var x :| Newest(mid, s.evicted, x) && Weight(Restrict(after, keep)) + mid[x].size > quota.value;
    RestrictWithout(mid, keep, x);
    WeightOfPart(Restrict(after, keep), Restrict(mid - {x}, keep));
  }

  /** A file that is neither a preview nor expired goes only if the unexpired files left by
      the preview phase were over the quota, and then only if no older one stays. */
  lemma RemovedForSpace(dir: Disk, after: Disk, w: World, quota: Option<nat>, done: bool, x: Path) returns (s: Sweep)
    requires Swept(dir, after, w, quota, done) && x in dir && x !in after
    requires Stem(x.name).None? && !Expired(dir[x], w.now)
    ensures SweptBy(dir, after, w, quota, done, s) && x in s.evicted
    ensures quota.Some? && Weight(Restrict(dir - s.gone, Weighed(dir - s.gone, w))) > quota.value
    ensures forall y | y in after && y !in w.stuck && !Expired(dir[y], w.now) :: dir[x].mtime <= dir[y].mtime
  {
    s :| SweptBy(dir, after, w, quota, done, s);
    EvictionMeansOverQuota(dir, after, w, quota, done, s);
  }

  // ---------------------------------------------------------------- one whole pass

  /** The flat pool has no provable owner, so no quota applies to it. */
  function QuotaOf(p: Place): Option<nat>
  {
    if p == Flat then None else Some(MEDIA_QUOTA_BYTES)
  }

  function Each(ids: seq<string>, account: bool): (r: seq<Place>)
    ensures |r| == |ids|
    ensures forall i | 0 <= i < |ids| :: r[i] == if account then Account(ids[i]) else Legacy(ids[i])
  {
    seq(|ids|, i requires 0 <= i < |ids| => if account then Account(ids[i]) else Legacy(ids[i]))
  }

  /** The directories in the order of a pass: accounts, the flat pool, the older layout. */
  function Directories(disk: Disk): (r: seq<Place>)
    ensures forall i, j | 0 <= i < j < |r| :: r[i] != r[j]
    ensures forall x | x in disk :: x.place in r
  {
    var accounts := Order.Sorted(set x | x in disk && x.place.Account? :: x.place.id);
    var legacy := Order.Sorted(set x | x in disk && x.place.Legacy? :: x.place.id);
    var r := Each(accounts, true) + (if exists x :: x in disk && x.place == Flat then [Flat] else []) + Each(legacy, false);
    DirectoriesCover(disk, accounts, legacy, r);
    r
  }

  lemma DirectoriesCover(disk: Disk, accounts: seq<string>, legacy: seq<string>, r: seq<Place>)
    requires Order.Ascending(accounts) && Order.Ascending(legacy)
    requires Order.Elements(accounts) == set x | x in disk && x.place.Account? :: x.place.id
    requires Order.Elements(legacy) == set x | x in disk && x.place.Legacy? :: x.place.id
    requires r == Each(accounts, true) + (if exists x :: x in disk && x.place == Flat then [Flat] else []) + Each(legacy, false)
    ensures forall i, j | 0 <= i < j < |r| :: r[i] != r[j]
    ensures forall x | x in disk :: x.place in r
  {
    Order.AscendingDistinct(accounts);
    Order.AscendingDistinct(legacy);
    forall x | x in disk ensures x.place in r {
      match x.place {
        case Flat =>
        case Account(id) =>
          assert id in Order.Elements(accounts);
          var i :| 0 <= i < |accounts| && accounts[i] == id;
          assert Each(accounts, true)[i] == x.place;
        case Legacy(id) =>
          assert id in Order.Elements(legacy);
          var i :| 0 <= i < |legacy| && legacy[i] == id;
          assert Each(legacy, false)[i] == x.place;
      }
    }
  }

  ghost predicate Lists(files: seq<Path>, s: set<Path>)
  {
    Distinct(files) && Members(files) == s
  }

  /** Every directory is swept on its own, at its own time. */
  type Worlds = Place -> World

  /** What one pass makes of the disk. */
  ghost predicate Passed(disk: Disk, after: Disk, ws: Worlds, stats: Stats)
  {
    && stats.deleted <= MAX_DELETIONS_PER_PASS
    && Booked(disk, MAX_DELETIONS_PER_PASS, Stats(0, 0), after, MAX_DELETIONS_PER_PASS - stats.deleted, stats)
    && forall p :: Swept(In(disk, p), In(after, p), ws(p), QuotaOf(p), stats.deleted < MAX_DELETIONS_PER_PASS)
  }

  /** Part of a pass: the directories `done` have been swept to the end, the others not at all. */
  ghost predicate Passing(disk: Disk, now: Disk, ws: Worlds, done: set<Place>)
  {
    && (forall p | p in done :: Swept(In(disk, p), In(now, p), ws(p), QuotaOf(p), true))
    && forall p | p !in done :: In(now, p) == In(disk, p)
  }

  lemma PassingStep(disk: Disk, now: Disk, next: Disk, ws: Worlds, done: set<Place>, p: Place, more: bool)
    requires Passing(disk, now, ws, done) && p !in done
    requires Swept(In(now, p), In(next, p), ws(p), QuotaOf(p), more) && Elsewhere(now, next, p)
    ensures more ==> Passing(disk, next, ws, done + {p})
    ensures forall q :: Swept(In(disk, q), In(next, q), ws(q), QuotaOf(q), q in done || (more && q == p))
  {
    hide Swept, In;
    forall q ensures Swept(In(disk, q), In(next, q), ws(q), QuotaOf(q), q in done || (more && q == p)) {
      if q !in done && q != p {
        UntouchedIsSwept(In(disk, q), ws(q), QuotaOf(q));
      }
    }
  }

  lemma UntouchedIsSwept(dir: Disk, w: World, quota: Option<nat>)
    ensures Swept(dir, dir, w, quota, false)
  {
    assert SweptBy(dir, dir, w, quota, false, Sweep({}, {}, {}));
  }

  lemma EmptyIsCleared(dir: Disk, w: World, quota: Option<nat>)
    requires dir == map[]
    ensures Swept(dir, dir, w, quota, true)
  {
    assert dir - {} == dir && Restrict(dir, Weighed(dir, w)) == map[];
    assert SweptBy(dir, dir, w, quota, true, Sweep({}, {}, {}));
  }

  class Governor {
    var disk: Disk

    method RunPass(ws: Worlds, listing: set<Path> -> seq<Path>) returns (stats: Stats)
      requires forall s :: Lists(listing(s), s)
      modifies this
      ensures Passed(old(disk), disk, ws, stats)
    {
      hide Swept, In, Booked, Elsewhere, Passing, Passed, Members, Distinct, First;
      stats := Stats(0, 0);
      var budget := MAX_DELETIONS_PER_PASS;
      var places := Directories(disk);
      ghost var start := disk;
      StartPassing(start, ws, places);
      for i := 0 to |places|
        invariant 0 < budget <= MAX_DELETIONS_PER_PASS
        invariant Passing(start, disk, ws, First(places, i))
        invariant Booked(start, MAX_DELETIONS_PER_PASS, Stats(0, 0), disk, budget, stats)
      {
        var files := listing(In(disk, places[i]).Keys);
        assert Lists(files, In(disk, places[i]).Keys);
        var after, left, tally := SweepDir(disk, places[i], files, ws(places[i]), QuotaOf(places[i]), budget, stats);
        Rebook(start, MAX_DELETIONS_PER_PASS, Stats(0, 0), disk, budget, stats, after, left, tally);
        PassNext(start, disk, after, ws, places, i, left, tally);
        disk, budget, stats := after, left, tally;
        if budget == 0 {
          return;
        }
      }
      AllPassed(start, disk, ws, places, budget, stats);
    }
  }

  ghost function First(places: seq<Place>, i: nat): set<Place>
    requires i <= |places|
  {
    set k | 0 <= k < i :: places[k]
  }

  lemma StartPassing(disk: Disk, ws: Worlds, places: seq<Place>)
    ensures Passing(disk, disk, ws, First(places, 0))
    ensures Booked(disk, MAX_DELETIONS_PER_PASS, Stats(0, 0), disk, MAX_DELETIONS_PER_PASS, Stats(0, 0))
  {
  }

  lemma PassNext(disk: Disk, now: Disk, next: Disk, ws: Worlds, places: seq<Place>, i: nat, left: nat, tally: Stats)
    requires i < |places| && forall i, j | 0 <= i < j < |places| :: places[i] != places[j]
    requires Passing(disk, now, ws, First(places, i))
    requires Swept(In(now, places[i]), In(next, places[i]), ws(places[i]), QuotaOf(places[i]), left > 0)
    requires Elsewhere(now, next, places[i])
    requires Booked(disk, MAX_DELETIONS_PER_PASS, Stats(0, 0), next, left, tally)
    ensures left > 0 ==> Passing(disk, next, ws, First(places, i + 1))
    ensures left == 0 ==> Passed(disk, next, ws, tally)
  {
    assert places[i] !in First(places, i);
    assert First(places, i + 1) == First(places, i) + {places[i]};
    BudgetSpent(disk, next, left, tally);
    hide Swept, In, Passing, Elsewhere, Booked;
    PassingStep(disk, now, next, ws, First(places, i), places[i], left > 0);
    if left == 0 {
      forall q ensures Swept(In(disk, q), In(next, q), ws(q), QuotaOf(q), false) {
        SweptInPart(In(disk, q), In(next, q), ws(q), QuotaOf(q), q in First(places, i));
      }
    }
  }

  lemma SweptInPart(dir: Disk, after: Disk, w: World, quota: Option<nat>, done: bool)
    requires Swept(dir, after, w, quota, done)
    ensures Swept(dir, after, w, quota, false)
  {
    var s :| SweptBy(dir, after, w, quota, done, s);
    assert SweptBy(dir, after, w, quota, false, s);
  }

  lemma BudgetSpent(disk: Disk, after: Disk, left: nat, stats: Stats)
    requires Booked(disk, MAX_DELETIONS_PER_PASS, Stats(0, 0), after, left, stats)
    ensures stats.deleted == MAX_DELETIONS_PER_PASS - left
  {
  }

  lemma AllPassed(disk: Disk, after: Disk, ws: Worlds, places: seq<Place>, left: nat, stats: Stats)
    requires Passing(disk, after, ws, First(places, |places|)) && forall x | x in disk :: x.place in places
    requires left > 0 && Booked(disk, MAX_DELETIONS_PER_PASS, Stats(0, 0), after, left, stats)
    ensures Passed(disk, after, ws, stats)
  {
    BudgetSpent(disk, after, left, stats);
    hide Swept, Booked;
    forall p ensures Swept(In(disk, p), In(after, p), ws(p), QuotaOf(p), true) {
      if p !in First(places, |places|) {
        assert In(disk, p) == map[];
        EmptyIsCleared(In(disk, p), ws(p), QuotaOf(p));
      }
    }
  }

  // ----------------------------------------------------------------- many passes

  /** Within every quota, and nothing that was expired at `now` is left. */
  ghost predicate Settled(disk: Disk, now: int)
  {
    && (forall p | p != Flat :: Weight(In(disk, p)) <= MEDIA_QUOTA_BYTES)
    && forall x | x in disk :: !Expired(disk[x], now)
  }

  lemma SweepShrinks(dir: Disk, after: Disk, w: World, quota: Option<nat>, done: bool)
    requires Swept(dir, after, w, quota, done)
    ensures Part(after, dir)
  {
    hide Stale, Past, Weighed, Finished, EvictedFairly;
  }

  lemma PassShrinks(disk: Disk, after: Disk, ws: Worlds, stats: Stats)
    requires Passed(disk, after, ws, stats)
    ensures Part(after, disk)
  {
    hide Booked, Swept;
    forall x | x in after ensures x in disk && after[x] == disk[x] {
      assert x in In(after, x.place);
      SweepShrinks(In(disk, x.place), In(after, x.place), ws(x.place), QuotaOf(x.place), stats.deleted < MAX_DELETIONS_PER_PASS);
    }
  }

  /** A finished sweep with nothing stuck leaves no expired file, and the quota met. */
  lemma SweepSettles(dir: Disk, after: Disk, w: World, quota: Option<nat>)
    requires Swept(dir, after, w, quota, true) && w.stuck == {}
    ensures forall x | x in after :: !Expired(after[x], w.now)
    ensures quota.Some? ==> Weight(after) <= quota.value
  {
    hide Stale, Expired, EvictedFairly;
    var s :| SweptBy(dir, after, w, quota, true, s);
    var mid := dir - s.gone;
    assert Restrict(after, Weighed(mid, w)) == after;
    if Weighed(mid, w) <= s.evicted {
      assert after == map[];
    }
  }

  /** A pass that did not run out of deletions leaves the disk settled. */
  lemma PassSettles(disk: Disk, after: Disk, ws: Worlds, stats: Stats, now: int)
    requires Passed(disk, after, ws, stats) && Working(ws, now) && stats.deleted < MAX_DELETIONS_PER_PASS
    ensures Settled(after, now)
  {
    hide Booked, Swept;
    forall x | x in after ensures !Expired(after[x], now) {
      assert x in In(after, x.place);
      SweepSettles(In(disk, x.place), In(after, x.place), ws(x.place), QuotaOf(x.place));
    }
    forall p | p != Flat ensures Weight(In(after, p)) <= MEDIA_QUOTA_BYTES {
      SweepSettles(In(disk, p), In(after, p), ws(p), QuotaOf(p));
    }
  }

  /** Deletions succeed, and no directory is swept before the time `now`. */
  ghost predicate Working(ws: Worlds, now: int)
  {
    forall p :: ws(p).stuck == {} && now <= ws(p).now
  }

  /** Later passes do not undo it. */
  lemma PassKeepsSettled(disk: Disk, after: Disk, ws: Worlds, stats: Stats, now: int)
    requires Passed(disk, after, ws, stats) && Settled(disk, now)
    ensures Settled(after, now)
  {
    PassShrinks(disk, after, ws, stats);
    hide Passed;
    forall p | p != Flat ensures Weight(In(after, p)) <= MEDIA_QUOTA_BYTES {
      WeightOfPart(In(after, p), In(disk, p));
    }
  }

  /** A series of passes, none before `now`, with nothing downloaded in between. */
  ghost predicate Series(disks: seq<Disk>, worlds: seq<Worlds>, stats: seq<Stats>, now: int)
  {
    && |disks| == |worlds| + 1 && |stats| == |worlds|
    && forall i | 0 <= i < |worlds| :: PassAt(disks, worlds, stats, now, i)
  }

  ghost predicate PassAt(disks: seq<Disk>, worlds: seq<Worlds>, stats: seq<Stats>, now: int, i: nat)
    requires i < |worlds| == |stats| < |disks|
  {
    Passed(disks[i], disks[i + 1], worlds[i], stats[i]) && Working(worlds[i], now)
  }

  lemma PassSettlesOrShrinks(disk: Disk, after: Disk, ws: Worlds, stats: Stats, now: int)
    requires Passed(disk, after, ws, stats) && Working(ws, now)
    ensures Settled(after, now) || (!Settled(disk, now) && |after| + MAX_DELETIONS_PER_PASS == |disk|)
  {
    hide Settled, Working;
    if Settled(disk, now) {
      PassKeepsSettled(disk, after, ws, stats, now);
    } else if stats.deleted < MAX_DELETIONS_PER_PASS {
      PassSettles(disk, after, ws, stats, now);
    }
  }

  /** Either the disk has settled or every pass so far has removed a full batch. */
  lemma {:induction false} SeriesSettlesOrShrinks(disks: seq<Disk>, worlds: seq<Worlds>, stats: seq<Stats>, now: int, k: nat)
    requires Series(disks, worlds, stats, now) && 0 < k <= |worlds|
    ensures Settled(disks[k], now) || |disks[k]| + MAX_DELETIONS_PER_PASS * k == |disks[0]|
  {
    hide Settled, Passed, Working;
    if k > 1 {
      SeriesSettlesOrShrinks(disks, worlds, stats, now, k - 1);
    }
    assert PassAt(disks, worlds, stats, now, k - 1);
    PassSettlesOrShrinks(disks[k - 1], disks[k], worlds[k - 1], stats[k - 1], now);
  }

  /** Enough passes bring every owned directory within its quota. */
  lemma EnoughPassesSettle(disks: seq<Disk>, worlds: seq<Worlds>, stats: seq<Stats>, now: int)
    requires Series(disks, worlds, stats, now) && MAX_DELETIONS_PER_PASS * |worlds| > |disks[0]|
    ensures Settled(disks[|worlds|], now)
  {
    SeriesSettlesOrShrinks(disks, worlds, stats, now, |worlds|);
  }

  /** A pass takes a file that is neither a preview nor expired only from a directory with an
      owner whose unexpired files weigh more than its quota, so never from the flat pool. */
  lemma UnexpiredGoesOnlyForSpace(disk: Disk, after: Disk, ws: Worlds, stats: Stats, x: Path)
    requires Passed(disk, after, ws, stats) && x in disk && Stem(x.name).None? && !Expired(disk[x], ws(x.place).now)
    ensures x in after ==> after[x] == disk[x]
    ensures x.place == Flat ==> x in after
    ensures x !in after ==> Weight(In(disk, x.place)) > MEDIA_QUOTA_BYTES
  {
    hide Booked, Swept, Stem, Expired;
    PassShrinks(disk, after, ws, stats);
    if x !in after {
      var dir, w, quota := In(disk, x.place), ws(x.place), QuotaOf(x.place);
      assert x in dir && x !in In(after, x.place);
      var s := RemovedForSpace(dir, In(after, x.place), w, quota, stats.deleted < MAX_DELETIONS_PER_PASS, x);
      hide Weighed, SweptBy;
      WeightOfPart(Restrict(dir - s.gone, Weighed(dir - s.gone, w)), dir);
    }
  }

  /** A directory with nothing stale or expired and within its quota is left as it is,
      whatever the other directories hold. */
  lemma PassSparesTheOrderly(disk: Disk, after: Disk, ws: Worlds, stats: Stats, p: Place)
    requires Passed(disk, after, ws, stats) && Orderly(In(disk, p), ws(p), QuotaOf(p))
    ensures In(after, p) == In(disk, p)
  {
    hide Booked, Swept, Orderly, In;
    OrderlyStays(In(disk, p), In(after, p), ws(p), QuotaOf(p), stats.deleted < MAX_DELETIONS_PER_PASS);
  }

  ghost predicate Orderly(dir: Disk, w: World, quota: Option<nat>)
  {
    && (forall x | x in dir :: !Stale(dir, w, x, dir[x].mtime) && !Expired(dir[x], w.now))
    && (quota.Some? ==> Weight(dir) <= quota.value)
  }

  lemma OrderlyStays(dir: Disk, after: Disk, w: World, quota: Option<nat>, done: bool)
    requires Swept(dir, after, w, quota, done) && Orderly(dir, w, quota)
    ensures after == dir
  {
    hide Stale, Expired, Past, Weighed, EvictedFairly, Finished, SweptBy;
    var s :| SweptBy(dir, after, w, quota, done, s);
    OnlyEvicted(dir, after, w, quota, done, s);
    if s.evicted != {} {
      EvictionMeansOverQuota(dir, after, w, quota, done, s);
      WeightOfPart(Restrict(dir, Weighed(dir, w)), dir);
    }
  }

  /** In an orderly directory the first two phases find nothing. */
  lemma OnlyEvicted(dir: Disk, after: Disk, w: World, quota: Option<nat>, done: bool, s: Sweep)
    requires SweptBy(dir, after, w, quota, done, s) && Orderly(dir, w, quota)
    ensures s.gone == {} && dir - s.gone == dir && (s.evicted == {} ==> after == dir)
  {
    forall x | x in s.gone ensures false {
      FreshStays(dir, w, s.gone, x);
    }
    assert s.gone == {} && dir - s.gone == dir;
    hide Stale, EvictedFairly, Finished, Weighed;
    assert s.past == {};
  }

  /** A preview that was fresh goes only after its main file, which has a shorter name. */
  lemma {:induction false} FreshStays(dir: Disk, w: World, gone: set<Path>, x: Path)
    requires gone <= dir.Keys && x in gone
    requires forall y | y in gone :: !Stale(dir, w, y, dir[y].mtime) && Stale(dir - gone, w, y, dir[y].mtime)
    ensures false
    decreases |x.name|
  {
    var main := Path(x.place, Stem(x.name).value);
    assert Stale(dir - gone, w, x, dir[x].mtime) && main in gone;
    FreshStays(dir, w, gone, main);
  }
}
