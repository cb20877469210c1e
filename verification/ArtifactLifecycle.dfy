/** The plaintext export directory (src/backup_export.rs): cleanup before a build,
    the build into a temporary name, and the rename into place.  "Latest" is the
    greatest name, so everything rests on names ordering as times.

    Deletions are taken to succeed; the clock and the outcome of writing the file
    are inputs. */
module ArtifactLifecycle {
  import opened Basics
  import opened Order
  import opened Timestamps

  type Content = seq<string>

  const PREFIX := "plaintext-export-"
  const SUFFIX := ".jsonl"
  const TMP := "-tmp"

  predicate StartsWith(s: string, t: string) { |t| <= |s| && s[..|t|] == t }

  predicate EndsWith(s: string, t: string) { |t| <= |s| && s[|s| - |t|..] == t }

  predicate IsArtifact(name: string)
  {
    StartsWith(name, PREFIX) && EndsWith(name, SUFFIX) && !EndsWith(name, TMP)
  }

  function ArtifactName(secs: nat): string
  {
    PREFIX + FormatUtc(secs) + SUFFIX
  }

  function Artifacts(files: map<string, Content>): set<string>
  {
    set name | name in files && IsArtifact(name)
  }

  ghost predicate Newest(names: set<string>, name: string)
  {
    name in names && forall other | other in names :: other == name || Less(other, name)
  }

  /** What one build attempt does with its temporary file. */
  datatype Outcome =
    | Written(content: Content)      // built and renamed into place
    | Failed                         // the build or the rename failed; the partial file is removed
    | Killed(partial: Content)       // the process died and left the partial file
    | Interrupted(deletions: nat)    // the process died in the cleanup, after so many deletions

  /** One attempt: the clock is read once by the cleanup and once for the name. */
  datatype Attempt = Attempt(prepareAt: nat, stampAt: nat, outcome: Outcome)

  // ------------------------------------------------- what the operations mean

  function WithoutTemporaries(files: map<string, Content>): map<string, Content>
  {
    map name | name in files && !EndsWith(name, TMP) :: files[name]
  }

  /** No temporary files, and of the artifacts only the newest, unless it carries the
      very name the next build is about to use. */
  ghost predicate Prepared(before: map<string, Content>, after: map<string, Content>, candidate: string)
  {
    && (forall name :: name in after ==> name in before && after[name] == before[name])
    && forall name | name in before :: name in after <==>
         !EndsWith(name, TMP) && (IsArtifact(name) ==> Newest(Artifacts(before), name) && name != candidate)
  }

  function Land(clean: map<string, Content>, name: string, outcome: Outcome): map<string, Content>
  {
    match outcome
    case Written(content) => clean[name := content]
    case Failed => clean
    case Killed(partial) => clean[name + TMP := partial]
    case Interrupted(_) => clean
  }

  function Temporaries(files: map<string, Content>): set<string>
  {
    set name | name in files && EndsWith(name, TMP)
  }

  ghost function Outdated(names: set<string>, candidate: string): set<string>
  {
    set name | name in names && (!Newest(names, name) || name == candidate)
  }

  /** A cleanup cut off after `n` deletions has removed the temporaries `temps` and then,
      newest first, the artifacts `arts`. */
  ghost predicate CutAfter(before: map<string, Content>, after: map<string, Content>, candidate: string, n: nat,
                           temps: set<string>, arts: set<string>)
  {
    var due := Outdated(Artifacts(before), candidate);
    && after == before - temps - arts && temps <= Temporaries(before) && arts <= due
    && |temps| + |arts| <= n && (arts != {} ==> temps == Temporaries(before))
    && (|temps| + |arts| < n ==> temps == Temporaries(before) && arts == due)
    && forall x, y | x in arts && y in due - arts :: Less(y, x)
  }

  ghost predicate PartlyPrepared(before: map<string, Content>, after: map<string, Content>, candidate: string, n: nat)
  {
    exists temps, arts :: CutAfter(before, after, candidate, n, temps, arts)
  }

  ghost predicate Attempted(before: map<string, Content>, after: map<string, Content>, a: Attempt)
  {
    if a.outcome.Interrupted? then PartlyPrepared(before, after, ArtifactName(a.prepareAt), a.outcome.deletions)
    else exists clean :: Prepared(before, clean, ArtifactName(a.prepareAt))
                      && after == Land(clean, ArtifactName(a.stampAt), a.outcome)
  }

  // ------------------------------------------------------------ the operations

  class ExportDirectory {
    var files: map<string, Content>

    constructor ()
      ensures files == map[]
    {
      files := map[];
    }

    /** First half of the cleanup, over the entries in whatever order they are listed.
        `limit` is the number of deletions before the process dies, if it does. */
    method RemoveTemporaries(limit: Option<nat>)
      returns (names: set<string>, left: Option<nat>, alive: bool, ghost gone: set<string>)
      modifies this
      ensures files == old(files) - gone && gone <= Temporaries(old(files))
      ensures Spent(limit, left, gone) && (!alive ==> left == Some(0))
      ensures alive ==> names == Artifacts(old(files)) && gone == Temporaries(old(files))
    {
      hide IsArtifact, EndsWith, TempsSeen, ArtsSeen, Temporaries, Artifacts, Spent;
      names, left, alive, gone := {}, limit, true, {};
      var listed := files.Keys;
      ghost var before := files;
      assert before - {} == before;
      NoneSeen(before);
      NothingSpent(limit);
      while listed != {}
        invariant listed <= before.Keys && Spent(limit, left, gone)
        invariant files == before - gone && gone <= Temporaries(before)
        invariant gone == TempsSeen(before, listed) && names == ArtsSeen(before, listed)
        decreases |listed|
      {
        var name :| name in listed;
        OneMoreSeen(before, listed, name);
        if EndsWith(name, TMP) {
          if left == Some(0) {
            alive := false;
            return;
          }
          SpentNext(limit, left, gone, name);
          left := OneLess(left);
          files := files - {name};
          gone := gone + {name};
        } else if IsArtifact(name) {
          names := names + {name};
        }
        listed := listed - {name};
      }
      AllSeen(before);
    }

    /** Second half: newest first, everything goes but a first name that is not the
        candidate. */
    method KeepNewest(names: set<string>, candidate: string, limit: Option<nat>)
      returns (left: Option<nat>, alive: bool, ghost gone: set<string>)
      modifies this
      ensures files == old(files) - gone && gone <= Outdated(names, candidate)
      ensures Spent(limit, left, gone) && (!alive ==> left == Some(0))
      ensures alive ==> gone == Outdated(names, candidate)
      ensures forall x, y | x in gone && y in Outdated(names, candidate) - gone :: Less(y, x)
    {
      hide Outdated, Dropped, Less, Ascending, Spent;
      var ascending := Sorted(names);
      var index := |ascending|;
      left, alive, gone := limit, true, {};
      NothingSpent(limit);
      DroppedAllButNewest(ascending, candidate);
      assert files - {} == files;
      NoneDropped(ascending, candidate);
      while index > 0
        invariant 0 <= index <= |ascending| && Spent(limit, left, gone)
        invariant files == old(files) - gone && gone == Dropped(ascending, index, candidate)
        invariant gone <= Outdated(names, candidate)
      {
        DroppedNext(ascending, index - 1, candidate);
        DroppedFresh(ascending, index - 1, candidate);
        if index == |ascending| && ascending[index - 1] != candidate {
        } else {
          if left == Some(0) {
            alive := false;
            DroppedAreNewest(ascending, index, candidate);
            return;
          }
          SpentNext(limit, left, gone, ascending[index - 1]);
          left := OneLess(left);
          files := files - {ascending[index - 1]};
          gone := gone + {ascending[index - 1]};
        }
        index := index - 1;
      }
      DroppedAreNewest(ascending, 0, candidate);
    }

    /** The cleanup before a build. */
    method Prepare(candidate: string, limit: Option<nat>) returns (alive: bool)
      modifies this
      ensures limit.None? ==> alive
      ensures alive ==> Prepared(old(files), files, candidate)
      ensures limit.Some? ==> PartlyPrepared(old(files), files, candidate, limit.value)
    {
      hide IsArtifact, Less, EndsWith, Outdated;
      ghost var before := files;
      var names, left;
      ghost var temps, arts := {}, {};
      names, left, alive, temps := RemoveTemporaries(limit);
      if alive {
        left, alive, arts := KeepNewest(names, candidate, left);
      } else {
        assert files == before - temps - {};
      }
      if limit.Some? {
        assert CutAfter(before, files, candidate, limit.value, temps, arts);
      }
      if alive {
        WholeIsPrepared(before, files, candidate);
      }
    }

    method Build(a: Attempt) returns (built: bool)
      modifies this
      ensures Attempted(old(files), files, a)
      ensures built <==> a.outcome.Written?
    {
      hide ArtifactName, IsArtifact;
      var limit := if a.outcome.Interrupted? then Some(a.outcome.deletions) else None;
      var alive := Prepare(ArtifactName(a.prepareAt), limit);
      if a.outcome.Interrupted? {
        return false;
      }
      ghost var clean := files;
      var name := ArtifactName(a.stampAt);
      var tmp := name + TMP;
      assert tmp !in clean by { assert EndsWith(tmp, TMP); }
      built := false;
      match a.outcome {
        case Written(content) =>
          files := files[tmp := content];
          files := (files - {tmp})[name := files[tmp]];
          assert files == clean[name := content];
          built := true;
        case Failed =>
          files := files[tmp := []];
          files := files - {tmp};
          assert files == clean;
        case Killed(partial) =>
          files := files[tmp := partial];
      }
    }

    method Latest() returns (r: Option<string>)
      ensures r.None? <==> Artifacts(files) == {}
      ensures r.Some? ==> Newest(Artifacts(files), r.value)
    {
      var ascending := Sorted(Artifacts(files));
      if |ascending| == 0 {
        return None;
      }
      LastIsNewest(ascending, |ascending| - 1);
      r := Some(ascending[|ascending| - 1]);
    }
  }

  function OneLess(limit: Option<nat>): Option<nat>
  {
    if limit.Some? && limit.value > 0 then Some(limit.value - 1) else limit
  }

  /** The deletions so far, and those left until the process dies, if it does. */
  predicate Spent(limit: Option<nat>, left: Option<nat>, gone: set<string>)
  {
    (limit.None? && left.None?) || (limit.Some? && left.Some? && |gone| + left.value == limit.value)
  }

  lemma NothingSpent(limit: Option<nat>)
    ensures Spent(limit, limit, {})
  {
  }

  lemma SpentNext(limit: Option<nat>, left: Option<nat>, gone: set<string>, name: string)
    requires Spent(limit, left, gone) && name !in gone && left != Some(0)
    ensures Spent(limit, OneLess(left), gone + {name})
  {
  }

  lemma ArtifactIsNoTemporary(name: string)
    ensures IsArtifact(name) ==> !EndsWith(name, TMP)
  {
  }

  ghost function TempsSeen(before: map<string, Content>, listed: set<string>): set<string>
  {
    set name | name in before && name !in listed && EndsWith(name, TMP)
  }

  ghost function ArtsSeen(before: map<string, Content>, listed: set<string>): set<string>
  {
    set name | name in before && name !in listed && IsArtifact(name)
  }

  lemma NoneSeen(before: map<string, Content>)
    ensures TempsSeen(before, before.Keys) == {} && ArtsSeen(before, before.Keys) == {}
  {
  }

  lemma AllSeen(before: map<string, Content>)
    ensures TempsSeen(before, {}) == Temporaries(before) && ArtsSeen(before, {}) == Artifacts(before)
  {
  }

  lemma OneMoreSeen(before: map<string, Content>, listed: set<string>, name: string)
    requires name in listed && name in before
    ensures name !in TempsSeen(before, listed)
    ensures TempsSeen(before, listed - {name}) == TempsSeen(before, listed) + if EndsWith(name, TMP) then {name} else {}
    ensures ArtsSeen(before, listed - {name}) ==
              ArtsSeen(before, listed) + if !EndsWith(name, TMP) && IsArtifact(name) then {name} else {}
    ensures TempsSeen(before, listed - {name}) <= Temporaries(before)
  {
    ArtifactIsNoTemporary(name);
    hide IsArtifact, EndsWith;
  }

  lemma WholeIsPrepared(before: map<string, Content>, after: map<string, Content>, candidate: string)
    requires after == before - Temporaries(before) - Outdated(Artifacts(before), candidate)
    ensures Prepared(before, after, candidate)
  {
    hide Newest, EndsWith;
    forall name | name in before
      ensures name in after <==> !EndsWith(name, TMP) && (IsArtifact(name) ==> Newest(Artifacts(before), name) && name != candidate)
    {
      ArtifactIsNoTemporary(name);
    }
  }

  lemma DroppedFresh(s: seq<string>, from: nat, candidate: string)
    requires Ascending(s) && from < |s|
    ensures s[from] !in Dropped(s, from + 1, candidate)
  {
    AscendingDistinct(s);
    DroppedMember(s, from + 1, candidate, s[from]);
  }

  /** What has been dropped so far is newer than what will be. */
  lemma DroppedAreNewest(s: seq<string>, from: nat, candidate: string)
    requires Ascending(s) && from <= |s|
    ensures forall x, y | x in Dropped(s, from, candidate) && y in Dropped(s, 0, candidate) - Dropped(s, from, candidate) :: Less(y, x)
  {
    forall x, y | x in Dropped(s, from, candidate) && y in Dropped(s, 0, candidate) - Dropped(s, from, candidate) ensures Less(y, x) {
      DroppedMember(s, from, candidate, x);
      DroppedMember(s, from, candidate, y);
      DroppedMember(s, 0, candidate, y);
    }
  }

  lemma NoneDropped(s: seq<string>, candidate: string)
    ensures Dropped(s, |s|, candidate) == {}
  {
  }

  lemma {:induction false} DroppedNext(s: seq<string>, from: nat, candidate: string)
    requires from < |s|
    ensures Dropped(s, from, candidate) ==
              Dropped(s, from + 1, candidate) + if from == |s| - 1 && s[from] != candidate then {} else {s[from]}
    ensures Dropped(s, from, candidate) <= Dropped(s, 0, candidate)
    decreases from
  {
    if from > 0 {
      DroppedNext(s, from - 1, candidate);
    }
  }

  /** The names that the pass from the end down to `from` deletes. */
  ghost function Dropped(s: seq<string>, from: nat, candidate: string): set<string>
    requires from <= |s|
    decreases |s| - from
  {
    if from == |s| then {}
    else if from == |s| - 1 && s[from] != candidate then Dropped(s, from + 1, candidate)
    else Dropped(s, from + 1, candidate) + {s[from]}
  }

  lemma {:induction false} DroppedMember(s: seq<string>, from: nat, candidate: string, name: string)
    requires from <= |s|
    ensures name in Dropped(s, from, candidate)
       <==> exists i :: from <= i < |s| && s[i] == name && !(i == |s| - 1 && s[i] != candidate)
    decreases |s| - from
  {
    if from < |s| {
      DroppedMember(s, from + 1, candidate, name);
    }
  }

  lemma DroppedAllButNewest(s: seq<string>, candidate: string)
    requires Ascending(s)
    ensures Dropped(s, 0, candidate) == Outdated(Elements(s), candidate)
  {
    forall name
      ensures name in Dropped(s, 0, candidate)
         <==> name in Elements(s) && (!Newest(Elements(s), name) || name == candidate)
    {
      DroppedMember(s, 0, candidate, name);
      if name in Elements(s) {
        var i :| 0 <= i < |s| && s[i] == name;
        LastIsNewest(s, i);
        AscendingDistinct(s);
      }
    }
  }

  lemma LastIsNewest(s: seq<string>, i: nat)
    requires Ascending(s) && i < |s|
    ensures Newest(Elements(s), s[i]) <==> i == |s| - 1
  {
    if i == |s| - 1 {
      assert forall other | other in Elements(s) :: other == s[i] || Less(other, s[i]);
    } else {
      LessAsymmetric(s[i], s[|s| - 1]);
      AscendingDistinct(s);
      assert s[|s| - 1] in Elements(s);
    }
  }

  // ------------------------------------------------------- names and their order

  lemma NameIsArtifact(t: nat)
    ensures IsArtifact(ArtifactName(t)) && !IsArtifact(ArtifactName(t) + TMP)
  {
    hide FormatUtc;
    var name := ArtifactName(t);
    assert name[..|PREFIX|] == PREFIX && name[|name| - |SUFFIX|..] == SUFFIX;
    assert name[|name| - 1] == 'l' && name[|name| - |TMP|..][|TMP| - 1] == 'l';
    assert (name + TMP)[|name + TMP| - |TMP|..] == TMP;
  }

  lemma NameOrder(a: nat, b: nat)
    requires a < LIMIT && b < LIMIT
    ensures Less(ArtifactName(a), ArtifactName(b)) <==> a < b
    ensures ArtifactName(a) == ArtifactName(b) <==> a == b
  {
    hide FormatUtc, Less;
    FormatOrder(a, b);
    FormatLength(a);
    FormatLength(b);
    FramedOrder(FormatUtc(a), FormatUtc(b));
    if ArtifactName(a) == ArtifactName(b) {
      FormatInjective(a, b);
    }
  }

  /** A common prefix and suffix leave the order of equally long texts alone. */
  lemma FramedOrder(x: string, y: string)
    requires |x| == |y|
    ensures Less(PREFIX + x + SUFFIX, PREFIX + y + SUFFIX) <==> Less(x, y)
    ensures PREFIX + x + SUFFIX == PREFIX + y + SUFFIX <==> x == y
  {
    hide Less;
    var s, t := PREFIX + x + SUFFIX, PREFIX + y + SUFFIX;
    assert s == PREFIX + (x + SUFFIX) && t == PREFIX + (y + SUFFIX);
    LessIrreflexive(PREFIX);
    LessIrreflexive(SUFFIX);
    LessConcat(PREFIX, PREFIX, x + SUFFIX, y + SUFFIX);
    LessConcat(x, y, SUFFIX, SUFFIX);
    assert s[|PREFIX|..|PREFIX| + |x|] == x && t[|PREFIX|..|PREFIX| + |x|] == y;
  }

  // ------------------------------------------------------------- whole runs

  ghost predicate ForwardClock(attempts: seq<Attempt>)
  {
    && (forall i | 0 <= i < |attempts| :: attempts[i].prepareAt <= attempts[i].stampAt < LIMIT)
    && forall i, j | 0 <= i < j < |attempts| :: attempts[i].stampAt <= attempts[j].prepareAt
  }

  /** A run from the empty directory: successes, failures and kills in any order. */
  ghost predicate IsRun(dirs: seq<map<string, Content>>, attempts: seq<Attempt>)
  {
    && |dirs| == |attempts| + 1
    && dirs[0] == map[]
    && forall i | 0 <= i < |attempts| :: Attempted(dirs[i], dirs[i + 1], attempts[i])
  }

  ghost predicate Origin(name: string, content: Content, attempts: seq<Attempt>, upTo: nat, j: nat)
    requires upTo <= |attempts|
  {
    j < upTo && attempts[j].outcome == Written(content) && name == ArtifactName(attempts[j].stampAt)
  }

  ghost predicate Built(name: string, content: Content, attempts: seq<Attempt>, upTo: nat)
    requires upTo <= |attempts|
  {
    exists j: nat :: Origin(name, content, attempts, upTo, j)
  }

  /** Every artifact is the complete output of an earlier successful build. */
  ghost predicate AllFromBuilds(dir: map<string, Content>, attempts: seq<Attempt>, upTo: nat)
    requires upTo <= |attempts|
  {
    forall name | name in Artifacts(dir) :: Built(name, dir[name], attempts, upTo)
  }

  lemma AtMostOneNewest(names: set<string>, some: set<string>)
    requires some <= names && forall n | n in some :: Newest(names, n)
    ensures |some| <= 1
  {
    if a, b :| a in some && b in some && a != b {
      LessAsymmetric(a, b);
      assert false;
    }
    if some != {} {
      var a :| a in some;
      assert some == {a};
    }
  }

  /** Putting a newer name beside at most one older artifact. */
  lemma AddNewest(clean: map<string, Content>, name: string, content: Content)
    requires IsArtifact(name) && |Artifacts(clean)| <= 1
    requires forall n | n in Artifacts(clean) :: Less(n, name)
    ensures Artifacts(clean[name := content]) == Artifacts(clean) + {name}
    ensures |Artifacts(clean[name := content])| <= 2 && Newest(Artifacts(clean[name := content]), name)
    ensures name !in clean
  {
    LessIrreflexive(name);
    assert Artifacts(clean[name := content]) == Artifacts(clean) + {name};
  }

  lemma CleanFromBuilds(before: map<string, Content>, clean: map<string, Content>, candidate: string,
                        attempts: seq<Attempt>, i: nat)
    requires i < |attempts| && Prepared(before, clean, candidate) && AllFromBuilds(before, attempts, i)
    ensures AllFromBuilds(clean, attempts, i + 1) && |Artifacts(clean)| <= 1
  {
    AtMostOneNewest(Artifacts(before), Artifacts(clean));
    forall n | n in Artifacts(clean)
      ensures Built(n, clean[n], attempts, i + 1)
    {
      var j: nat :| Origin(n, before[n], attempts, i, j);
      assert Origin(n, clean[n], attempts, i + 1, j);
    }
  }

  lemma PartFromBuilds(before: map<string, Content>, after: map<string, Content>, attempts: seq<Attempt>, i: nat)
    requires i < |attempts| && AllFromBuilds(before, attempts, i)
    requires forall name :: name in after ==> name in before && after[name] == before[name]
    ensures AllFromBuilds(after, attempts, i + 1) && |Artifacts(after)| <= |Artifacts(before)|
  {
    hide IsArtifact, ArtifactName;
    assert Artifacts(before) == Artifacts(after) + (Artifacts(before) - Artifacts(after));
    forall n | n in Artifacts(after) ensures Built(n, after[n], attempts, i + 1) {
      var j: nat :| Origin(n, before[n], attempts, i, j);
      assert Origin(n, after[n], attempts, i + 1, j);
    }
  }

  lemma LandKeeps(clean: map<string, Content>, name: string, outcome: Outcome, attempts: seq<Attempt>, i: nat)
    requires i < |attempts| && AllFromBuilds(clean, attempts, i + 1) && |Artifacts(clean)| <= 1
    requires IsArtifact(name) && !IsArtifact(name + TMP)
    requires forall n | n in Artifacts(clean) :: Less(n, name)
    requires outcome.Written? ==> Built(name, outcome.content, attempts, i + 1)
    ensures AllFromBuilds(Land(clean, name, outcome), attempts, i + 1)
    ensures |Artifacts(Land(clean, name, outcome))| <= 2
    ensures outcome.Written? ==> Newest(Artifacts(Land(clean, name, outcome)), name)
  {
    if outcome.Written? {
      AddNewest(clean, name, outcome.content);
    } else {
      assert Artifacts(Land(clean, name, outcome)) == Artifacts(clean);
    }
  }

  /** One attempt keeps the directory in order. */
  lemma AttemptKeeps(before: map<string, Content>, after: map<string, Content>, attempts: seq<Attempt>, i: nat)
    requires ForwardClock(attempts) && i < |attempts| && Attempted(before, after, attempts[i])
    requires AllFromBuilds(before, attempts, i) && |Artifacts(before)| <= 2
    ensures AllFromBuilds(after, attempts, i + 1)
    ensures |Artifacts(after)| <= 2
    ensures attempts[i].outcome.Written? ==> Succeeded(before, after, attempts[i])
  {
    var a := attempts[i];
    if a.outcome.Interrupted? {
      var temps, arts :| CutAfter(before, after, ArtifactName(a.prepareAt), a.outcome.deletions, temps, arts);
      PartFromBuilds(before, after, attempts, i);
      return;
    }
    var clean :| Prepared(before, clean, ArtifactName(a.prepareAt))
              && after == Land(clean, ArtifactName(a.stampAt), a.outcome);
    CleanFromBuilds(before, clean, ArtifactName(a.prepareAt), attempts, i);
    CleanIsOlder(before, clean, attempts, i);
    NameIsArtifact(a.stampAt);
    if a.outcome.Written? {
      assert Origin(ArtifactName(a.stampAt), a.outcome.content, attempts, i + 1, i);
      NameIsFree(before, attempts, i);
    }
    LandKeeps(clean, ArtifactName(a.stampAt), a.outcome, attempts, i);
  }

  lemma NameIsFree(before: map<string, Content>, attempts: seq<Attempt>, i: nat)
    requires ForwardClock(attempts) && i < |attempts| && AllFromBuilds(before, attempts, i)
    ensures NothingOverwritten(before, attempts[i])
  {
    var a := attempts[i];
    forall clean | Prepared(before, clean, ArtifactName(a.prepareAt))
      ensures ArtifactName(a.stampAt) !in clean
    {
      NameIsArtifact(a.stampAt);
      CleanIsOlder(before, clean, attempts, i);
      LessIrreflexive(ArtifactName(a.stampAt));
    }
  }

  /** Whatever survives the cleanup is older than the name about to be used. */
  lemma CleanIsOlder(before: map<string, Content>, clean: map<string, Content>, attempts: seq<Attempt>, i: nat)
    requires ForwardClock(attempts) && i < |attempts|
    requires Prepared(before, clean, ArtifactName(attempts[i].prepareAt))
    requires AllFromBuilds(before, attempts, i)
    ensures forall n | n in Artifacts(clean) :: Less(n, ArtifactName(attempts[i].stampAt))
  {
    var a := attempts[i];
    forall n | n in Artifacts(clean)
      ensures Less(n, ArtifactName(a.stampAt))
    {
      var j: nat :| Origin(n, before[n], attempts, i, j);
      NameOrder(attempts[j].stampAt, a.prepareAt);
      NameOrder(attempts[j].stampAt, a.stampAt);
    }
  }

  /** The name of the build is free when the rename happens. */
  ghost predicate NothingOverwritten(before: map<string, Content>, a: Attempt)
  {
    forall clean :: Prepared(before, clean, ArtifactName(a.prepareAt)) ==> ArtifactName(a.stampAt) !in clean
  }

  /** What a successful attempt leaves: its own output, complete, under the newest name,
      which was free. */
  ghost predicate Succeeded(before: map<string, Content>, after: map<string, Content>, a: Attempt)
    requires a.outcome.Written?
  {
    && Newest(Artifacts(after), ArtifactName(a.stampAt))
    && after[ArtifactName(a.stampAt)] == a.outcome.content
    && NothingOverwritten(before, a)
  }

  /** Over every run: at most two artifacts, each the complete output of a successful
      build, no rename on top of an existing file, and after a success the newest name
      is that build's file. */
  lemma {:induction false} RunsKeepTheDirectory(dirs: seq<map<string, Content>>, attempts: seq<Attempt>, i: nat)
    requires IsRun(dirs, attempts) && ForwardClock(attempts) && i <= |attempts|
    ensures AllFromBuilds(dirs[i], attempts, i) && |Artifacts(dirs[i])| <= 2
    ensures i > 0 && attempts[i - 1].outcome.Written? ==> Succeeded(dirs[i - 1], dirs[i], attempts[i - 1])
  {
    if i > 0 {
      RunsKeepTheDirectory(dirs, attempts, i - 1);
      AttemptKeeps(dirs[i - 1], dirs[i], attempts, i - 1);
    } else {
      assert Artifacts(dirs[0]) == {};
    }
  }

  /** An attempt that comes to nothing loses the latest artifact exactly when that carries
      the second at which the cleanup read the clock and the cleanup got as far as the
      artifacts. */
  lemma LatestLostIff(before: map<string, Content>, after: map<string, Content>, a: Attempt, latest: string)
    requires Attempted(before, after, a) && !a.outcome.Written? && Newest(Artifacts(before), latest)
    ensures latest !in after <==>
              latest == ArtifactName(a.prepareAt) && (a.outcome.Interrupted? ==> a.outcome.deletions > |Temporaries(before)|)
    ensures latest in after ==> after[latest] == before[latest]
  {
    ArtifactIsNoTemporary(latest);
    if a.outcome.Interrupted? {
      LatestCutIff(before, after, ArtifactName(a.prepareAt), a.outcome.deletions, latest);
    } else {
      var clean :| Prepared(before, clean, ArtifactName(a.prepareAt))
                && after == Land(clean, ArtifactName(a.stampAt), a.outcome);
      var name := ArtifactName(a.stampAt) + TMP;
      assert EndsWith(name, TMP);
      hide ArtifactName;
    }
  }

  lemma LatestCutIff(before: map<string, Content>, after: map<string, Content>, candidate: string, n: nat, latest: string)
    requires PartlyPrepared(before, after, candidate, n) && Newest(Artifacts(before), latest) && !EndsWith(latest, TMP)
    ensures latest !in after <==> latest == candidate && n > |Temporaries(before)|
    ensures latest in after ==> after[latest] == before[latest]
  {
    hide EndsWith, IsArtifact;
    var temps, arts :| CutAfter(before, after, candidate, n, temps, arts);
    assert latest !in temps && (latest !in after <==> latest in arts);
    SubsetSize(temps, Temporaries(before));
    if latest in arts {
      assert |arts| > 0;
    } else if latest == candidate && n > |Temporaries(before)| {
      assert arts != {};
      var x :| x in arts;
      LessAsymmetric(latest, x);
    }
  }

  /** An attempt that ends by itself, well or not, leaves no temporary file, whatever it found;
      one that is killed while building leaves its own and no other. */
  lemma OnlyAKillLeavesATemporary(before: map<string, Content>, after: map<string, Content>, a: Attempt)
    requires Attempted(before, after, a) && !a.outcome.Interrupted?
    ensures a.outcome.Written? || a.outcome.Failed? ==> Temporaries(after) == {}
    ensures a.outcome.Killed?
      ==> Temporaries(after) == {ArtifactName(a.stampAt) + TMP} && after[ArtifactName(a.stampAt) + TMP] == a.outcome.partial
  {
    var name := ArtifactName(a.stampAt);
    NameIsArtifact(a.stampAt);
    assert !EndsWith(name, TMP) && EndsWith(name + TMP, TMP) by {
      assert (name + TMP)[|name + TMP| - |TMP|..] == TMP;
    }
    var clean :| Prepared(before, clean, ArtifactName(a.prepareAt)) && after == Land(clean, name, a.outcome);
    hide ArtifactName, EndsWith, IsArtifact, Newest;
    assert Temporaries(clean) == {};
  }
}
