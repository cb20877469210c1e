/** The last-known-good runtime layout (src/lkg.rs): three atomically replaced
    pointers over immutable published versions.

    The disk is one value; `Next` moves it by one durable step, with a crash possible
    between any two steps and with versions becoming corrupt at any time.  A class
    carries the operations as they run undisturbed.  Bundle contents, signatures and
    pointer time stamps are abstracted to the set of (version, policy) pairs that
    pass verification. */
module RuntimePointers {
  import opened Basics

  type Version = string

  /** The verification policy: the artifact check alone, or a trusted signing key too. */
  datatype Trust = Local | Production(keyId: string)

  datatype Disk = Disk(
    published: set<Version>,
    verifies: set<(Version, Trust)>,
    staged: Option<Version>,
    active: Option<Version>,
    lkg: Option<Version>)

  const EMPTY := Disk({}, {}, None, None, None)

  predicate VersionChar(c: char)
  {
    'a' <= c <= 'z' || 'A' <= c <= 'Z' || '0' <= c <= '9' || c == '.' || c == '_' || c == '-'
  }

  predicate ValidVersionId(v: Version)
  {
    v != "" && |v| <= 128 && v != "." && v != ".." && forall i | 0 <= i < |v| :: VersionChar(v[i])
  }

  // -------------------------------------------------------- one durable step

  /** Where an operation stands between two durable steps. */
  datatype Phase =
    | Idle
    | Published(v: Version)                        // stage: renamed into place, not yet pointed to
    | StagedVerified(v: Version, trust: Trust)     // activate: the staged version has verified
    | SavePrevious(v: Version, previous: Version)  // activate: the old active version has verified too
    | LkgSettled(v: Version)                       // activate: about to replace the active pointer
    | ActiveWritten(v: Version)                    // activate: about to remove the staged pointer
    | LkgVerified(v: Version)                      // rollback: about to replace the active pointer

  datatype Machine = Machine(disk: Disk, phase: Phase)

  datatype Event =
    | BeginStage(v: Version, bundle: set<Trust>, trust: Trust)  // bundle: the policies it passes
    | BeginActivate(trust: Trust)
    | BeginRollback(trust: Trust)
    | Continue
    | Crash                                        // also a failed write or a failed removal
    | Corrupt(lost: set<(Version, Trust)>)

  function Begin(d: Disk, e: Event): Machine
  {
    match e
    case BeginStage(v, bundle, trust) =>
      if ValidVersionId(v) && v !in d.published && trust in bundle
      then Machine(d.(published := d.published + {v},
                      verifies := d.verifies + set t | t in bundle :: (v, t)), Published(v))
      else Machine(d, Idle)
    case BeginActivate(trust) =>
      if d.staged.Some? && (d.staged.value, trust) in d.verifies
      then Machine(d, StagedVerified(d.staged.value, trust))
      else Machine(d, Idle)
    case BeginRollback(trust) =>
      if d.lkg.Some? && (d.lkg.value, trust) in d.verifies
      then Machine(d, LkgVerified(d.lkg.value))
      else Machine(d, Idle)
    case _ => Machine(d, Idle)
  }

  function Proceed(m: Machine): Machine
  {
    var d := m.disk;
    match m.phase
    case Idle => m
    case Published(v) => Machine(d.(staged := Some(v)), Idle)
    case StagedVerified(v, trust) =>
      if d.active.Some? && d.active.value != v && (d.active.value, trust) in d.verifies
      then Machine(d, SavePrevious(v, d.active.value))
      else Machine(d, LkgSettled(v))
    case SavePrevious(v, previous) => Machine(d.(lkg := Some(previous)), LkgSettled(v))
    case LkgSettled(v) => Machine(d.(active := Some(v)), ActiveWritten(v))
    case ActiveWritten(_) => Machine(d.(staged := None), Idle)
    case LkgVerified(v) => Machine(d.(active := Some(v)), Idle)
  }

  function Next(m: Machine, e: Event): Machine
  {
    match e
    case Continue => Proceed(m)
    case Crash => Machine(m.disk, Idle)
    case Corrupt(lost) => Machine(m.disk.(verifies := m.disk.verifies - lost), m.phase)
    case _ => if m.phase.Idle? then Begin(m.disk, e) else m
  }

  // ----------------------------------------------------------------- safety

  /** Some pointer names the version. */
  predicate Pointed(d: Disk, v: Version)
  {
    d.staged == Some(v) || d.active == Some(v) || d.lkg == Some(v)
  }

  /** What every reachable state keeps. */
  ghost predicate Safe(m: Machine)
  {
    var d := m.disk;
    && (forall v | v in d.published :: ValidVersionId(v))
    && (forall pair | pair in d.verifies :: pair.0 in d.published)
    && (d.staged.Some? ==> d.staged.value in d.published)
    && (d.active.Some? ==> d.active.value in d.published)
    && (d.lkg.Some? ==> d.lkg.value in d.published)
    && (d.staged.Some? ==> d.lkg != d.staged)
    && match m.phase
       case Idle => true
       case Published(v) => v in d.published && !Pointed(d, v)
       case StagedVerified(v, _) => d.staged == Some(v)
       case SavePrevious(v, previous) => d.staged == Some(v) && d.active == Some(previous) && previous != v
       case LkgSettled(v) => d.staged == Some(v)
       case ActiveWritten(v) => d.staged == Some(v) && d.active == Some(v)
       case LkgVerified(v) => d.lkg == Some(v)
  }

  lemma StepKeepsSafe(m: Machine, e: Event)
    requires Safe(m)
    ensures Safe(Next(m, e))
    ensures m.disk.published <= Next(m, e).disk.published
    ensures m.disk.active.Some? ==> Next(m, e).disk.active.Some?
    ensures m.disk.lkg.Some? ==> Next(m, e).disk.lkg.Some?
    ensures Next(m, e).disk.lkg != m.disk.lkg ==> Next(m, e).disk.lkg == m.disk.active
  {
  }

  /** A run from the empty layout. */
  ghost predicate IsRun(ms: seq<Machine>, es: seq<Event>)
  {
    && |ms| == |es| + 1
    && ms[0] == Machine(EMPTY, Idle)
    && forall i | 0 <= i < |es| :: ms[i + 1] == Next(ms[i], es[i])
  }

  /** Every state of every run is safe: pointers name published, well-formed versions
      and the staged version is never the last-known-good one. */
  lemma {:induction false} RunsAreSafe(ms: seq<Machine>, es: seq<Event>, i: nat)
    requires IsRun(ms, es) && i < |ms|
    ensures Safe(ms[i])
  {
    if i > 0 {
      RunsAreSafe(ms, es, i - 1);
      StepKeepsSafe(ms[i - 1], es[i - 1]);
    }
  }

  /** Once set, the active and last-known-good pointers stay set; versions stay published. */
  lemma {:induction false} PointersStaySet(ms: seq<Machine>, es: seq<Event>, i: nat, j: nat)
    requires IsRun(ms, es) && i <= j < |ms|
    ensures ms[i].disk.active.Some? ==> ms[j].disk.active.Some?
    ensures ms[i].disk.lkg.Some? ==> ms[j].disk.lkg.Some?
    ensures ms[i].disk.published <= ms[j].disk.published
    decreases j
  {
    if i < j {
      PointersStaySet(ms, es, i, j - 1);
      RunsAreSafe(ms, es, j - 1);
      StepKeepsSafe(ms[j - 1], es[j - 1]);
    }
  }

  /** Published, named by no pointer, and not about to be. */
  predicate Abandoned(m: Machine, v: Version)
  {
    v in m.disk.published && !Pointed(m.disk, v) && m.phase != Published(v)
  }

  lemma StepKeepsAbandoned(m: Machine, e: Event, v: Version)
    requires Safe(m) && Abandoned(m, v)
    ensures Abandoned(Next(m, e), v)
  {
  }

  /** A version whose staging stopped between publishing it and pointing to it is never
      staged, active or last-known-good in any later state of the run. */
  lemma {:induction false} CutOffStagingStaysOut(ms: seq<Machine>, es: seq<Event>, i: nat, j: nat)
    requires IsRun(ms, es) && i < j < |ms| && ms[i].phase.Published? && es[i].Crash?
    ensures Abandoned(ms[j], ms[i].phase.v)
    decreases j
  {
    RunsAreSafe(ms, es, j - 1);
    if i < j - 1 {
      CutOffStagingStaysOut(ms, es, i, j - 1);
      StepKeepsAbandoned(ms[j - 1], es[j - 1], ms[i].phase.v);
    }
  }

  /** After an activation has used up its staged pointer, rolling back would change
      something: the last-known-good version is not the active one. */
  lemma ActivationLeavesAWayBack(ms: seq<Machine>, es: seq<Event>, i: nat)
    requires IsRun(ms, es) && i < |es|
    requires ms[i].phase.ActiveWritten? && es[i].Continue?
    ensures var d := ms[i + 1].disk;
      d.staged.None? && d.active == Some(ms[i].phase.v) && d.lkg != d.active
  {
    RunsAreSafe(ms, es, i);
  }

  /** Whatever is last-known-good was active before. */
  lemma {:induction false} LkgWasActive(ms: seq<Machine>, es: seq<Event>, i: nat)
    requires IsRun(ms, es) && i < |ms| && ms[i].disk.lkg.Some?
    ensures exists j | 0 <= j < i :: ms[j].disk.active == ms[i].disk.lkg
  {
    RunsAreSafe(ms, es, i - 1);
    StepKeepsSafe(ms[i - 1], es[i - 1]);
    if ms[i].disk.lkg == ms[i - 1].disk.lkg {
      LkgWasActive(ms, es, i - 1);
    } else {
      assert ms[i - 1].disk.active == ms[i].disk.lkg;
    }
  }

  /** The operation under way is about to make `v` active. */
  predicate Promotes(phase: Phase, v: Version)
  {
    match phase
    case StagedVerified(w, _) => w == v
    case SavePrevious(w, _) => w == v
    case LkgSettled(w) => w == v
    case LkgVerified(w) => w == v
    case _ => false
  }

  /** `v` verified when the operation that is under way at `i` began, at `j`. */
  ghost predicate VerifiedSince(ms: seq<Machine>, es: seq<Event>, i: nat, v: Version, j: nat)
    requires i < |ms| && |ms| == |es| + 1
  {
    && j < i
    && ((es[j].BeginActivate? && (v, es[j].trust) in ms[j].disk.verifies)
        || (es[j].BeginRollback? && (v, es[j].trust) in ms[j].disk.verifies))
    && forall k | j < k <= i :: Promotes(ms[k].phase, v)
  }

  lemma {:induction false} PromotionWasVerified(ms: seq<Machine>, es: seq<Event>, i: nat, v: Version)
    returns (j: nat)
    requires IsRun(ms, es) && i < |ms| && Promotes(ms[i].phase, v)
    ensures VerifiedSince(ms, es, i, v, j)
  {
    assert i > 0;
    assert ms[i] == Next(ms[i - 1], es[i - 1]);
    if Promotes(ms[i - 1].phase, v) {
      j := PromotionWasVerified(ms, es, i - 1, v);
    } else {
      j := i - 1;
    }
  }

  /** In every run the active pointer moves only to a version that verified in the very
      operation that moves it, with no crash or other operation in between. */
  lemma ActiveMovesOnlyToVerified(ms: seq<Machine>, es: seq<Event>, i: nat) returns (j: nat)
    requires IsRun(ms, es) && i < |es| && ms[i + 1].disk.active != ms[i].disk.active
    ensures ms[i + 1].disk.active.Some?
    ensures VerifiedSince(ms, es, i, ms[i + 1].disk.active.value, j)
  {
    assert ms[i + 1] == Next(ms[i], es[i]);
    j := PromotionWasVerified(ms, es, i, ms[i].phase.v);
  }

  // --------------------------------------------- what an activation leaves behind

  predicate Activates(phase: Phase)
  {
    phase.StagedVerified? || phase.SavePrevious? || phase.LkgSettled? || phase.ActiveWritten?
  }

  /** The fallback an activation owes: the version active when it began, if that is another
      one and was seen to verify, and otherwise the fallback there was. */
  function Fallback(start: Disk, trust: Trust, seen: Disk): Option<Version>
  {
    if start.active.Some? && start.active != start.staged && (start.active.value, trust) in seen.verifies
    then start.active else start.lkg
  }

  /** The activation under way at `i` began at `j` and looked at the active version at `k`. */
  ghost predicate Traced(ms: seq<Machine>, es: seq<Event>, i: nat, j: nat, k: nat)
    requires i < |ms| && |ms| == |es| + 1
  {
    && j < k <= i && ms[j].phase.Idle? && es[j].BeginActivate? && ms[j].disk.staged.Some?
    && (forall n | j < n <= i :: Activates(ms[n].phase))
    && var was, d, trust := ms[j].disk, ms[i].disk, es[j].trust;
       && d.staged == was.staged
       && match ms[i].phase
          case StagedVerified(v, t) => t == trust && was.staged == Some(v) && d.active == was.active && d.lkg == was.lkg
          case SavePrevious(v, previous) =>
            && was.staged == Some(v) && d.active == was.active && d.lkg == was.lkg
            && was.active == Some(previous) && previous != v && (previous, trust) in ms[k].disk.verifies
          case LkgSettled(v) => was.staged == Some(v) && d.active == was.active && d.lkg == Fallback(was, trust, ms[k].disk)
          case ActiveWritten(v) => was.staged == Some(v) == d.active && d.lkg == Fallback(was, trust, ms[k].disk)
          case _ => true
  }

  lemma {:induction false} ActivationIsTraced(ms: seq<Machine>, es: seq<Event>, i: nat) returns (j: nat, k: nat)
    requires IsRun(ms, es) && i < |ms| && Activates(ms[i].phase)
    ensures Traced(ms, es, i, j, k)
  {
    assert i > 0;
    assert ms[i] == Next(ms[i - 1], es[i - 1]);
    if Activates(ms[i - 1].phase) {
      j, k := ActivationIsTraced(ms, es, i - 1);
      if ms[i - 1].phase.StagedVerified? {
        k := if es[i - 1].Continue? then i - 1 else i;
      }
    } else {
      j, k := i - 1, i;
    }
  }

  /** In every run, when the staged pointer goes, the activation that used it up began at some
      `j` and looked at the active version at some `k`: the staged version of `j` is now
      active, and the fallback is what was active at `j`, if that was another version and
      verified at `k`, and otherwise what it was. */
  lemma ActivationSavesPrevious(ms: seq<Machine>, es: seq<Event>, i: nat) returns (j: nat, k: nat)
    requires IsRun(ms, es) && i < |es| && ms[i].disk.staged.Some? && ms[i + 1].disk.staged.None?
    ensures j < k <= i && ms[j].phase.Idle? && es[j].BeginActivate?
    ensures forall n | j < n <= i :: !ms[n].phase.Idle?
    ensures ms[j].disk.staged.Some? && ms[i + 1].disk.active == ms[j].disk.staged
    ensures var previous := ms[j].disk.active;
      ms[i + 1].disk.lkg
      == if previous.Some? && previous != ms[j].disk.staged && (previous.value, es[j].trust) in ms[k].disk.verifies
         then previous else ms[j].disk.lkg
  {
    assert ms[i + 1] == Next(ms[i], es[i]);
    j, k := ActivationIsTraced(ms, es, i);
  }

  /** The fallback stays what it is until another activation begins. */
  lemma {:induction false} LkgStays(ms: seq<Machine>, es: seq<Event>, i: nat, m: nat)
    requires IsRun(ms, es) && i <= m < |ms| && !Activates(ms[i].phase)
    requires forall n | i <= n < m :: !es[n].BeginActivate?
    ensures ms[m].disk.lkg == ms[i].disk.lkg && !Activates(ms[m].phase)
    decreases m
  {
    if i < m {
      LkgStays(ms, es, i, m - 1);
      assert ms[m] == Next(ms[m - 1], es[m - 1]);
    }
  }

  /** A rollback undoes an activation: in every run, if the staged pointer went at `i` and no
      activation has begun since, a rollback at `m` that finds the fallback verifying makes
      the version active again that was active when that activation began. */
  lemma RollbackUndoesActivation(ms: seq<Machine>, es: seq<Event>, i: nat, m: nat) returns (j: nat, k: nat)
    requires IsRun(ms, es) && i < m && m + 1 < |es|
    requires ms[i].disk.staged.Some? && ms[i + 1].disk.staged.None?
    requires forall n | i < n < m :: !es[n].BeginActivate?
    requires ms[m].phase.Idle? && es[m].BeginRollback? && es[m + 1].Continue?
    ensures j < k <= i && ms[j].phase.Idle? && es[j].BeginActivate?
    ensures forall n | j < n <= i :: !ms[n].phase.Idle?
    ensures var previous := ms[j].disk.active;
      previous.Some? && previous != ms[j].disk.staged && (previous.value, es[j].trust) in ms[k].disk.verifies
      && (previous.value, es[m].trust) in ms[m].disk.verifies
      ==> ms[m + 2].disk.active == previous
  {
    j, k := ActivationSavesPrevious(ms, es, i);
    assert ms[i + 1] == Next(ms[i], es[i]);
    LkgStays(ms, es, i + 1, m);
    assert ms[m + 1] == Next(ms[m], es[m]);
    assert ms[m + 2] == Next(ms[m + 1], es[m + 1]);
  }

  // ----------------------------------------------- activation, start to finish

  /** The disk after an undisturbed activation. */
  function Activated(d: Disk, trust: Trust): Disk
  {
    if d.staged.None? || (d.staged.value, trust) !in d.verifies then d
    else
      var v := d.staged.value;
      var keep := d.active.None? || d.active.value == v || (d.active.value, trust) !in d.verifies;
      d.(staged := None, active := Some(v), lkg := if keep then d.lkg else d.active)
  }

  /** An activation stopped after `steps` steps: what a crash there leaves on disk. */
  function Interrupted(d: Disk, trust: Trust, steps: nat): Disk
  {
    ProceedBy(Begin(d, BeginActivate(trust)), steps).disk
  }

  function ProceedBy(m: Machine, steps: nat): Machine
  {
    if steps == 0 then m else Proceed(ProceedBy(m, steps - 1))
  }

  /** Four steps finish an activation, in exactly the state written above. */
  lemma ActivationFinishes(d: Disk, trust: Trust, steps: nat)
    requires steps >= 4
    ensures ProceedBy(Begin(d, BeginActivate(trust)), steps) == Machine(Activated(d, trust), Idle)
  {
    if steps > 4 {
      ActivationFinishes(d, trust, steps - 1);
    } else {
      var m := Begin(d, BeginActivate(trust));
      assert ProceedBy(m, 4) == Proceed(Proceed(Proceed(Proceed(m)))) by {
        assert ProceedBy(m, 1) == Proceed(m) && ProceedBy(m, 2) == Proceed(Proceed(m));
        assert ProceedBy(m, 3) == Proceed(Proceed(Proceed(m)));
      }
    }
  }

  datatype Error = InvalidLayout | BundleRejected | VersionExists | NotStaged | NoLkg
  datatype Answer = Ok(v: Version) | Err(error: Error)

  /** What an activation answers: the version it made active, or the active version when
      nothing is staged, provided that verifies. */
  function ActivationAnswer(d: Disk, trust: Trust): Answer
  {
    var v := if d.staged.Some? then d.staged else d.active;
    if v.Some? && (v.value, trust) in d.verifies then Ok(v.value) else Err(NotStaged)
  }

  /** Crash anywhere, run again: the pointers and the answer are those of the run that
      was never interrupted.  This holds from every disk whatsoever. */
  lemma ReplayCompletes(d: Disk, trust: Trust, steps: nat)
    ensures Activated(Interrupted(d, trust, steps), trust) == Activated(d, trust)
    ensures ActivationAnswer(Interrupted(d, trust, steps), trust) == ActivationAnswer(d, trust)
  {
    var m := Begin(d, BeginActivate(trust));
    if steps >= 4 {
      ActivationFinishes(d, trust, steps);
    } else if steps == 3 {
      assert ProceedBy(m, 3) == Proceed(Proceed(Proceed(m))) by {
        assert ProceedBy(m, 1) == Proceed(m) && ProceedBy(m, 2) == Proceed(Proceed(m));
      }
    } else if steps == 2 {
      assert ProceedBy(m, 2) == Proceed(Proceed(m)) by {
        assert ProceedBy(m, 1) == Proceed(m);
      }
    } else if steps == 1 {
      assert ProceedBy(m, 1) == Proceed(m);
    }
  }

  /** The disk after a series of activations, each cut short somewhere. */
  function InterruptedAll(d: Disk, trust: Trust, cuts: seq<nat>): Disk
    decreases |cuts|
  {
    if cuts == [] then d else InterruptedAll(Interrupted(d, trust, cuts[0]), trust, cuts[1..])
  }

  /** Any number of interrupted attempts and one that completes amount to one that
      was never interrupted. */
  lemma {:induction false} ReplaysComplete(d: Disk, trust: Trust, cuts: seq<nat>)
    ensures Activated(InterruptedAll(d, trust, cuts), trust) == Activated(d, trust)
    ensures ActivationAnswer(InterruptedAll(d, trust, cuts), trust) == ActivationAnswer(d, trust)
    decreases |cuts|
  {
    if cuts != [] {
      ReplaysComplete(Interrupted(d, trust, cuts[0]), trust, cuts[1..]);
      ReplayCompletes(d, trust, cuts[0]);
    }
  }

  // ------------------------------------------------- the operations, undisturbed

  class RuntimeLayout {
    var published: set<Version>
    var verifies: set<(Version, Trust)>
    var staged: Option<Version>
    var active: Option<Version>
    var lkg: Option<Version>

    function View(): Disk
      reads this
    {
      Disk(published, verifies, staged, active, lkg)
    }

    constructor ()
      ensures View() == EMPTY
    {
      published, verifies, staged, active, lkg := {}, {}, None, None, None;
    }

    method StageBundle(v: Version, bundle: set<Trust>, trust: Trust) returns (r: Answer)
      modifies this
      ensures View() == Proceed(Begin(old(View()), BeginStage(v, bundle, trust))).disk
      ensures r == if !ValidVersionId(v) then Err(InvalidLayout)
                   else if v in old(published) then Err(VersionExists)
                   else if trust !in bundle then Err(BundleRejected)
                   else Ok(v)
      ensures active == old(active) && lkg == old(lkg)
      ensures staged == if r.Ok? then Some(v) else old(staged)
      ensures published == if r.Ok? then old(published) + {v} else old(published)
      ensures forall w, t :: (w, t) in verifies <==> (w, t) in old(verifies) || (r.Ok? && w == v && t in bundle)
    {
      if !ValidVersionId(v) {
        return Err(InvalidLayout);
      }
      if v in published {
        return Err(VersionExists);
      }
      if trust !in bundle {
        return Err(BundleRejected);
      }
      published, verifies := published + {v}, verifies + set t | t in bundle :: (v, t);
      staged := Some(v);
      r := Ok(v);
    }

    method ActivateStaged(trust: Trust) returns (r: Answer)
      modifies this
      ensures View() == Activated(old(View()), trust)
      ensures r == ActivationAnswer(old(View()), trust)
      ensures published == old(published) && verifies == old(verifies)
      ensures old(staged).None? || (old(staged).value, trust) !in old(verifies)
        ==> staged == old(staged) && active == old(active) && lkg == old(lkg)
      ensures old(staged).Some? && (old(staged).value, trust) in old(verifies)
        ==> staged == None && active == old(staged) && r == Ok(old(staged).value)
            && lkg == if old(active).Some? && old(active) != old(staged)
                         && (old(active).value, trust) in old(verifies)
                      then old(active) else old(lkg)
      ensures old(staged).Some? && (old(staged).value, trust) !in old(verifies) ==> r == Err(NotStaged)
      ensures old(staged).None?
        ==> r == if old(active).Some? && (old(active).value, trust) in old(verifies)
                 then Ok(old(active).value) else Err(NotStaged)
    {
      if staged.None? {
        if active.None? || (active.value, trust) !in verifies {
          return Err(NotStaged);
        }
        return Ok(active.value);
      }
      var v := staged.value;
      if (v, trust) !in verifies {
        return Err(NotStaged);
      }
      if active.Some? && active.value != v {
        if (active.value, trust) in verifies {
          lkg := Some(active.value);
        }
      }
      active := Some(v);
      staged := None;
      r := Ok(active.value);
    }

    method RollbackToLkg(trust: Trust) returns (r: Answer)
      modifies this
      ensures View() == Proceed(Begin(old(View()), BeginRollback(trust))).disk
      ensures r == if lkg.Some? && (lkg.value, trust) in verifies then Ok(lkg.value) else Err(NoLkg)
      ensures published == old(published) && verifies == old(verifies)
      ensures staged == old(staged) && lkg == old(lkg)
      ensures active == if r.Ok? then old(lkg) else old(active)
    {
      if lkg.None? || (lkg.value, trust) !in verifies {
        return Err(NoLkg);
      }
      active := Some(lkg.value);
      r := Ok(active.value);
    }
  }
}
