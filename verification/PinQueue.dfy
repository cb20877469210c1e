/** The pinned messages of a conversation (src/store.rs): at most three, one for each
    target, the newest ones.

    A queue lists its entries in the order in which they were stored. */
module PinQueue {
  import opened Basics
  import opened ImportModel

  const CONVERSATION_PIN_LIMIT := 3

  datatype Entry = Entry(target: nat, pin: Pin)

  type Queue = seq<Entry>

  ghost predicate OnePerTarget(q: Queue)
  {
    forall i, j | 0 <= i < j < |q| :: q[i].target != q[j].target
  }

  // ------------------------------------------------------------ what an append does

  function Without(q: Queue, target: nat): Queue
  {
    if q == [] then []
    else
      var init, last := Without(q[..|q| - 1], target), q[|q| - 1];
      if last.target == target then init else init + [last]
  }

  lemma {:induction false} WithoutHas(q: Queue, target: nat)
    ensures forall e :: e in Without(q, target) <==> e in q && e.target != target
  {
    if q != [] {
      var init, last := q[..|q| - 1], q[|q| - 1];
      assert q == init + [last];
      WithoutHas(init, target);
    }
  }

  lemma {:induction false} WithoutIs(q: Queue, target: nat)
    requires OnePerTarget(q)
    ensures OnePerTarget(Without(q, target))
    ensures |Without(q, target)| == |q| - if Targets(q, target) then 1 else 0
  {
    if q != [] {
      var init, last := q[..|q| - 1], q[|q| - 1];
      assert q == init + [last];
      WithoutIs(init, target);
      WithoutHas(init, target);
    }
  }

  ghost predicate Targets(q: Queue, target: nat)
  {
    exists e :: e in q && e.target == target
  }

  /** The entry that goes first: the oldest pin, the earlier stored one among equals. */
  function Lowest(q: Queue): (i: nat)
    requires q != []
    ensures i < |q| && forall j | 0 <= j < |q| :: q[i].pin.pinnedAt <= q[j].pin.pinnedAt
    ensures forall j | 0 <= j < i :: q[i].pin.pinnedAt < q[j].pin.pinnedAt
  {
    var n := |q| - 1;
    if n == 0 then 0
    else
      var i := Lowest(q[..n]);
      if q[n].pin.pinnedAt < q[i].pin.pinnedAt then n else i
  }

  function Drop(q: Queue, i: nat): Queue
    requires i < |q|
  {
    q[..i] + q[i + 1..]
  }

  function Truncated(q: Queue): (r: Queue)
    ensures |r| <= CONVERSATION_PIN_LIMIT
    decreases |q|
  {
    if |q| <= CONVERSATION_PIN_LIMIT then q else Truncated(Drop(q, Lowest(q)))
  }

  /** The queue has a pin of the same target that is at least as new. */
  predicate Outdone(q: Queue, e: Entry)
  {
    exists f :: f in q && f.target == e.target && e.pin.pinnedAt <= f.pin.pinnedAt
  }

  /** A newer pin of the same target replaces the older one; an older one changes nothing. */
  function Appended(q: Queue, e: Entry): Queue
  {
    if Outdone(q, e) then Truncated(q) else Truncated(Without(q, e.target) + [e])
  }

  function Appends(log: seq<Entry>): Queue
  {
    if log == [] then [] else Appended(Appends(log[..|log| - 1]), log[|log| - 1])
  }

  lemma AppendsNext(log: seq<Entry>, x: Entry)
    ensures Appends(log + [x]) == Appended(Appends(log), x)
  {
    assert (log + [x])[..|log|] == log;
  }

  lemma NothingTruncated(q: Queue)
    requires |q| <= CONVERSATION_PIN_LIMIT
    ensures Truncated(q) == q
  {
  }

  // ------------------------------------------------------- what the queue stands for

  /** The queue speaks for `y`: it holds a pin of the same target at least as new, or is
      full of pins at least as new. */
  ghost predicate SpeaksFor(q: Queue, y: Entry)
  {
    Outdone(q, y) || (|q| == CONVERSATION_PIN_LIMIT && NoneOlder(q, y))
  }

  ghost predicate NoneOlder(q: Queue, y: Entry)
  {
    forall e | e in q :: y.pin.pinnedAt <= e.pin.pinnedAt
  }

  /** A queue that comes from the pins of `log`. */
  ghost predicate Represents(q: Queue, log: seq<Entry>)
  {
    && OnePerTarget(q) && |q| <= CONVERSATION_PIN_LIMIT
    && (forall e | e in q :: e in log)
    && forall y | y in log :: SpeaksFor(q, y)
  }

  /** One entry too many: the oldest, `z`, goes. */
  lemma FullDrop(q: Queue) returns (z: Entry)
    requires OnePerTarget(q) && |q| == CONVERSATION_PIN_LIMIT + 1
    ensures OnePerTarget(Truncated(q)) && |Truncated(q)| == CONVERSATION_PIN_LIMIT && z == q[Lowest(q)]
    ensures z in q && NoneOlder(Truncated(q), z) && z !in Truncated(q) && forall e :: e in q <==> e in Truncated(q) || e == z
  {
    var i := Lowest(q);
    var r := Drop(q, i);
    z := q[i];
    assert Truncated(q) == r;
    assert q == q[..i] + [z] + q[i + 1..];
    OldestGoes(q, i, r);
    hide Truncated, Lowest;
  }

  lemma OldestGoes(q: Queue, i: nat, r: Queue)
    requires i < |q| && OnePerTarget(q) && r == Drop(q, i)
    requires forall j | 0 <= j < |q| :: q[i].pin.pinnedAt <= q[j].pin.pinnedAt
    ensures OnePerTarget(r) && NoneOlder(r, q[i]) && q[i] !in r
  {
    forall e | e in r ensures q[i].pin.pinnedAt <= e.pin.pinnedAt && e != q[i] {
      var j :| 0 <= j < |q| && j != i && q[j] == e;
    }
  }

  /** What pushing a pin that is not outdone makes, before truncation. */
  lemma PushIs(q: Queue, x: Entry)
    requires OnePerTarget(q) && !Outdone(q, x)
    ensures var r := Without(q, x.target) + [x];
      && OnePerTarget(r) && |r| == |q| + 1 - (if Targets(q, x.target) then 1 else 0)
      && (forall e :: e in r <==> (e in q && e.target != x.target) || e == x)
      && Appended(q, x) == Truncated(r)
  {
    WithoutIs(q, x.target);
    WithoutHas(q, x.target);
    var w := Without(q, x.target);
    hide Without, Truncated;
    forall i, j | 0 <= i < j < |w + [x]| ensures (w + [x])[i].target != (w + [x])[j].target {
      assert (w + [x])[i] in w;
    }
  }

  /** Appending a pin keeps the queue representative. */
  lemma AppendRepresents(q: Queue, log: seq<Entry>, x: Entry)
    requires Represents(q, log)
    ensures Represents(Appended(q, x), log + [x])
  {
    hide SpeaksFor, OnePerTarget, Without, Truncated;
    if Outdone(q, x) {
      NothingTruncated(q);
      OlderChangesNothing(q, log, x);
    } else {
      PushIs(q, x);
      hide Outdone;
      PushRepresents(q, log, x, Without(q, x.target) + [x]);
    }
  }

  lemma OlderChangesNothing(q: Queue, log: seq<Entry>, x: Entry)
    requires Represents(q, log) && Outdone(q, x)
    ensures Represents(q, log + [x])
  {
    hide OnePerTarget, Outdone;
    assert SpeaksFor(q, x);
    hide SpeaksFor;
  }

  lemma PushRepresents(q: Queue, log: seq<Entry>, x: Entry, r: Queue)
    requires Represents(q, log) && !Outdone(q, x)
    requires OnePerTarget(r) && |r| == |q| + 1 - if Targets(q, x.target) then 1 else 0
    requires forall e :: e in r <==> (e in q && e.target != x.target) || e == x
    ensures Represents(Truncated(r), log + [x])
  {
    hide Truncated, SpeaksFor, NoneOlder, OnePerTarget, Outdone;
    forall e | e in r ensures e in log + [x] {
    }
    if |r| <= CONVERSATION_PIN_LIMIT {
      NothingTruncated(r);
      forall y | y in log + [x] ensures SpeaksFor(r, y) {
        PushSpeaks(q, log, x, r, y);
      }
    } else {
      var z := FullDrop(r);
      forall y | y in log + [x] ensures SpeaksFor(Truncated(r), y) {
        DropSpeaks(q, log, x, r, Truncated(r), z, y);
      }
    }
  }

  lemma PushSpeaks(q: Queue, log: seq<Entry>, x: Entry, r: Queue, y: Entry)
    requires Represents(q, log) && y in log + [x] && |r| <= CONVERSATION_PIN_LIMIT && !Outdone(q, x)
    requires forall e :: e in r <==> (e in q && e.target != x.target) || e == x
    requires |r| == |q| + 1 - if Targets(q, x.target) then 1 else 0
    ensures SpeaksFor(r, y)
  {
    if y != x {
      assert y in log && SpeaksFor(q, y);
      if e :| e in q && e.target == y.target && y.pin.pinnedAt <= e.pin.pinnedAt {
        if e.target == x.target {
          assert x in r && e.pin.pinnedAt < x.pin.pinnedAt;
        } else {
          assert e in r;
        }
      } else {
        var f :| f in q && f.target == x.target;
        assert f.pin.pinnedAt < x.pin.pinnedAt;
        assert NoneOlder(r, y);
      }
    } else {
      assert x in r;
    }
  }

  lemma DropSpeaks(q: Queue, log: seq<Entry>, x: Entry, r: Queue, t: Queue, z: Entry, y: Entry)
    requires Represents(q, log) && y in log + [x] && |t| == CONVERSATION_PIN_LIMIT && |r| == |t| + 1 && |r| <= |q| + 1
    requires |r| == |q| + 1 - if Targets(q, x.target) then 1 else 0
    requires forall e :: e in r <==> (e in q && e.target != x.target) || e == x
    requires z in r && z !in t && NoneOlder(t, z) && forall e :: e in r <==> e in t || e == z
    ensures SpeaksFor(t, y)
  {
    assert forall e | e in q :: e.target != x.target;
    if y == x {
      assert x in r;
      if x == z {
        assert NoneOlder(t, x);
      } else {
        assert x in t && Outdone(t, x);
      }
    } else {
      assert y in log && SpeaksFor(q, y);
      if e :| e in q && e.target == y.target && y.pin.pinnedAt <= e.pin.pinnedAt {
        assert e in r;
        if e == z {
          assert NoneOlder(t, y);
        } else {
          assert e in t && Outdone(t, y);
        }
      } else {
        forall e | e in t ensures y.pin.pinnedAt <= e.pin.pinnedAt {
          assert e in r;
        }
      }
    }
  }

  /** Whatever has been appended, the queue represents all of it. */
  lemma {:induction false} QueueRepresents(log: seq<Entry>)
    ensures Represents(Appends(log), log)
  {
    if log != [] {
      var init, last := log[..|log| - 1], log[|log| - 1];
      assert log == init + [last];
      QueueRepresents(init);
      AppendRepresents(Appends(init), init, last);
    }
  }

  // -------------------------------------------------------------- who may stay

  ghost function TargetSet(q: Queue): set<nat>
  {
    set e | e in q :: e.target
  }

  lemma {:induction false} TargetCount(q: Queue)
    requires OnePerTarget(q)
    ensures |TargetSet(q)| == |q|
  {
    if q != [] {
      var init, last := q[..|q| - 1], q[|q| - 1];
      assert q == init + [last];
      TargetCount(init);
      assert TargetSet(q) == TargetSet(init) + {last.target};
    }
  }

  /** The targets with a pin newer than `t`, and with one at least as new. */
  ghost function Newer(log: seq<Entry>, t: nat): set<nat>
  {
    set y | y in log && y.pin.pinnedAt > t :: y.target
  }

  ghost function AtLeast(log: seq<Entry>, t: nat): set<nat>
  {
    set y | y in log && y.pin.pinnedAt >= t :: y.target
  }

  /** The newest pin of its target, with fewer than three targets strictly newer. */
  ghost predicate Top(log: seq<Entry>, e: Entry)
  {
    var newer := Newer(log, e.pin.pinnedAt);
    e in log && e.target !in newer && |newer| < CONVERSATION_PIN_LIMIT
  }

  lemma SameEntry(q: Queue, e: Entry, f: Entry)
    requires OnePerTarget(q) && e in q && f in q && e.target == f.target
    ensures e == f
  {
    var i :| 0 <= i < |q| && q[i] == e;
    var j :| 0 <= j < |q| && q[j] == f;
  }

  /** A queue that holds `e` holds a newer pin of every target that has one. */
  lemma NewerIsHeld(q: Queue, log: seq<Entry>, e: Entry, y: Entry)
    requires Represents(q, log) && e in q && y in log && e.pin.pinnedAt < y.pin.pinnedAt
    ensures y.target in TargetSet(q) && y.target != e.target
  {
    assert SpeaksFor(q, y);
    var f :| f in q && f.target == y.target && y.pin.pinnedAt <= f.pin.pinnedAt;
    if f.target == e.target {
      SameEntry(q, e, f);
    }
  }

  /** Only pins at the top are ever in the queue. */
  lemma HeldIsTop(q: Queue, log: seq<Entry>, e: Entry)
    requires Represents(q, log) && e in q
    ensures Top(log, e)
  {
    var newer := Newer(log, e.pin.pinnedAt);
    forall target | target in newer ensures target in TargetSet(q) && target != e.target {
      var y :| y in log && y.pin.pinnedAt > e.pin.pinnedAt && y.target == target;
      NewerIsHeld(q, log, e, y);
    }
    TargetCount(q);
    hide Represents;
    assert e.target in TargetSet(q) && newer <= TargetSet(q) - {e.target};
    SubsetSize(newer, TargetSet(q) - {e.target});
  }

  // ----------------------------------------------------------------- who does stay

  /** The newest pin of its target, with at most three targets at least as new. */
  ghost predicate Unbeaten(log: seq<Entry>, e: Entry)
  {
    e.target !in Newer(log, e.pin.pinnedAt) && |AtLeast(log, e.pin.pinnedAt)| <= CONVERSATION_PIN_LIMIT
  }

  ghost predicate Within(q: Queue, log: seq<Entry>)
  {
    forall e | e in q :: e in log
  }

  /** An unbeaten pin is not the one to go. */
  lemma UnbeatenSurvives(r: Queue, log: seq<Entry>, e: Entry)
    requires OnePerTarget(r) && |r| <= CONVERSATION_PIN_LIMIT + 1 && Within(r, log) && e in r && Unbeaten(log, e)
    ensures e in Truncated(r)
  {
    if |r| <= CONVERSATION_PIN_LIMIT {
      NothingTruncated(r);
    } else {
      var z := FullDrop(r);
      if z == e {
        TargetCount(r);
        hide Truncated, OnePerTarget;
        assert TargetSet(r) <= AtLeast(log, e.pin.pinnedAt);
        SubsetSize(TargetSet(r), AtLeast(log, e.pin.pinnedAt));
      }
    }
  }

  lemma UnbeatenStays(q: Queue, x: Entry, log: seq<Entry>, e: Entry)
    requires OnePerTarget(q) && |q| <= CONVERSATION_PIN_LIMIT && Within(q, log) && x in log && e in q && Unbeaten(log, e)
    ensures e in Appended(q, x)
  {
    if Outdone(q, x) {
      NothingTruncated(q);
    } else {
      PushIs(q, x);
      var r := Without(q, x.target) + [x];
      hide Without, Truncated, OnePerTarget;
      assert e.target != x.target;
      UnbeatenSurvives(r, log, e);
    }
  }

  /** No other pin of the same target has the same time. */
  ghost predicate Sole(log: seq<Entry>, e: Entry)
  {
    forall f | f in log && f.target == e.target && f.pin.pinnedAt == e.pin.pinnedAt :: f == e
  }

  lemma UnbeatenArrives(q: Queue, log: seq<Entry>, e: Entry)
    requires OnePerTarget(q) && |q| <= CONVERSATION_PIN_LIMIT && Within(q, log)
    requires e in log && Unbeaten(log, e) && Sole(log, e)
    ensures e in Appended(q, e)
  {
    if f :| f in q && f.target == e.target && e.pin.pinnedAt <= f.pin.pinnedAt {
      NothingTruncated(q);
      assert f in log && f == e;
    } else {
      PushIs(q, e);
      hide Without, Truncated, OnePerTarget;
      UnbeatenSurvives(Without(q, e.target) + [e], log, e);
    }
  }

  lemma {:induction false} StaysThrough(log: seq<Entry>, head: seq<Entry>, tail: seq<Entry>, e: Entry)
    requires e in Appends(head) && Within(head + tail, log) && Unbeaten(log, e)
    ensures e in Appends(head + tail)
  {
    if tail == [] {
      assert head + tail == head;
    } else {
      var init, x := tail[..|tail| - 1], tail[|tail| - 1];
      assert head + tail == (head + init) + [x];
      hide Unbeaten, Appended;
      StaysThrough(log, head, init, e);
      AppendsNext(head + init, x);
      QueueRepresents(head + init);
      UnbeatenStays(Appends(head + init), x, log, e);
    }
  }

  // ----------------------------------------------------------- when the order shows

  ghost predicate SamePins(a: seq<Entry>, b: seq<Entry>)
  {
    forall e :: e in a <==> e in b
  }

  /** Every pin at the top is alone with its target and time, and at most three targets
      are at least as new as it. */
  ghost predicate Decided(log: seq<Entry>)
  {
    forall e | Top(log, e) :: |AtLeast(log, e.pin.pinnedAt)| <= CONVERSATION_PIN_LIMIT && Sole(log, e)
  }

  lemma TopIsHeld(log: seq<Entry>, e: Entry)
    requires Decided(log) && Top(log, e)
    ensures e in Appends(log)
  {
    var i :| 0 <= i < |log| && log[i] == e;
    var head, tail := log[..i], log[i + 1..];
    assert log == (head + [e]) + tail;
    QueueRepresents(head);
    AppendsNext(head, e);
    hide Appends, Appended;
    UnbeatenArrives(Appends(head), log, e);
    StaysThrough(log, head + [e], tail, e);
  }

  /** For decided pins the queue is their top. */
  lemma QueueIsTheTop(log: seq<Entry>, e: Entry)
    requires Decided(log)
    ensures e in Appends(log) <==> Top(log, e)
  {
    QueueRepresents(log);
    hide Appends, Represents, Decided, Top;
    if e in Appends(log) {
      HeldIsTop(Appends(log), log, e);
    }
    if Top(log, e) {
      TopIsHeld(log, e);
    }
  }

  lemma SameSets(a: seq<Entry>, b: seq<Entry>, t: nat)
    requires SamePins(a, b)
    ensures Newer(a, t) == Newer(b, t) && AtLeast(a, t) == AtLeast(b, t)
  {
  }

  lemma DecidedAlike(a: seq<Entry>, b: seq<Entry>)
    requires SamePins(a, b)
    ensures Decided(a) ==> Decided(b)
    ensures forall e :: Top(a, e) <==> Top(b, e)
  {
    forall e ensures Top(a, e) <==> Top(b, e) {
      SameSets(a, b, e.pin.pinnedAt);
    }
    if Decided(a) {
      forall e | Top(b, e) ensures |AtLeast(b, e.pin.pinnedAt)| <= CONVERSATION_PIN_LIMIT && Sole(b, e) {
        SameSets(a, b, e.pin.pinnedAt);
        assert Top(a, e);
      }
    }
  }

  /** Decided pins leave the same queue in whatever order, and however often, they are
      appended. */
  lemma QueueIgnoresOrder(a: seq<Entry>, b: seq<Entry>)
    requires Decided(a) && SamePins(a, b)
    ensures SamePins(Appends(a), Appends(b))
  {
    DecidedAlike(a, b);
    hide Appends, Decided, Top;
    forall e ensures e in Appends(a) <==> e in Appends(b) {
      QueueIsTheTop(a, e);
      QueueIsTheTop(b, e);
    }
  }

  // ---------------------------------------------------------- two pins of one target

  /** Of two pins of one target and time at the top, the one appended first stays. */
  lemma TwinsShow(a: seq<Entry>, e: Entry, f: Entry) returns (b: seq<Entry>)
    requires e in a && Unbeaten(a, e) && f in a && f != e && f.target == e.target && f.pin.pinnedAt == e.pin.pinnedAt
    ensures SamePins(a, b) && !SamePins(Appends(a), Appends(b))
  {
    FirstStays(a, e);
    FirstStays(a, f);
    QueueRepresents(a);
    if e in Appends(a) && f in Appends(a) {
      SameEntry(Appends(a), e, f);
    }
    hide Appends;
    b := if e in Appends(a) then [f] + a else [e] + a;
  }

  lemma FirstStays(a: seq<Entry>, e: Entry)
    requires e in a && Unbeaten(a, e)
    ensures SamePins(a, [e] + a) && e in Appends([e] + a)
  {
    assert Appends([]) == [] && [] + [e] == [e];
    AppendsNext([], e);
    assert Without([], e.target) == [] && Appended([], e) == [e];
    hide Appends, Appended;
    StaysThrough(a, [e], a, e);
  }

  // --------------------------------------------------------- too many at the cut

  function Only(log: seq<Entry>, target: nat): seq<Entry>
  {
    if log == [] then []
    else
      var init, last := Only(log[..|log| - 1], target), log[|log| - 1];
      if last.target == target then init + [last] else init
  }

  lemma {:induction false} OnlyHas(log: seq<Entry>, target: nat)
    ensures forall e :: e in Only(log, target) <==> e in log && e.target == target
  {
    if log != [] {
      var init, last := log[..|log| - 1], log[|log| - 1];
      assert log == init + [last];
      OnlyHas(init, target);
    }
  }

  /** The pins of `target` after all the others. */
  function LastOf(log: seq<Entry>, target: nat): seq<Entry>
  {
    Without(log, target) + Only(log, target)
  }

  lemma LastOfSame(log: seq<Entry>, target: nat)
    ensures SamePins(log, LastOf(log, target))
  {
    WithoutHas(log, target);
    OnlyHas(log, target);
  }

  /** Full, with nothing older than `t` and something of that very time. */
  ghost predicate Brimful(q: Queue, t: nat)
  {
    && OnePerTarget(q) && |q| == CONVERSATION_PIN_LIMIT
    && (forall e | e in q :: t <= e.pin.pinnedAt)
    && exists e :: e in q && e.pin.pinnedAt == t
  }

  /** A queue that represents three targets at least as new as `t`, of which fewer are
      newer, is brimful. */
  lemma IsBrimful(q: Queue, log: seq<Entry>, t: nat)
    requires Represents(q, log) && |AtLeast(log, t)| >= CONVERSATION_PIN_LIMIT && |Newer(log, t)| < CONVERSATION_PIN_LIMIT
    ensures Brimful(q, t)
  {
    TargetCount(q);
    if g :| g in q && g.pin.pinnedAt < t {
      forall target | target in AtLeast(log, t) ensures target in TargetSet(q) && target != g.target {
        var y :| y in log && y.pin.pinnedAt >= t && y.target == target;
        NewerIsHeld(q, log, g, y);
      }
      assert g.target in TargetSet(q) && AtLeast(log, t) <= TargetSet(q) - {g.target};
      SubsetSize(AtLeast(log, t), TargetSet(q) - {g.target});
    }
    ManyFill(q, log, t);
    if forall e | e in q :: e.pin.pinnedAt > t {
      assert TargetSet(q) <= Newer(log, t);
      SubsetSize(TargetSet(q), Newer(log, t));
    }
  }

  lemma ManyFill(q: Queue, log: seq<Entry>, t: nat)
    requires Represents(q, log) && |AtLeast(log, t)| >= CONVERSATION_PIN_LIMIT
    ensures |q| == CONVERSATION_PIN_LIMIT
  {
    if |q| < CONVERSATION_PIN_LIMIT {
      forall target | target in AtLeast(log, t) ensures target in TargetSet(q) {
        var y :| y in log && y.pin.pinnedAt >= t && y.target == target;
        assert SpeaksFor(q, y);
      }
      TargetCount(q);
      SubsetSize(AtLeast(log, t), TargetSet(q));
    }
  }

  /** A late pin of a new target at the cut pushes an earlier one out; an older one does
      not get in. */
  lemma LatePin(q: Queue, t: nat, z: Entry)
    requires Brimful(q, t) && z.pin.pinnedAt <= t
    ensures Brimful(Appended(q, z), t)
    ensures z.target in TargetSet(q) || z.pin.pinnedAt == t ==> z.target in TargetSet(Appended(q, z))
  {
    if z.target in TargetSet(q) {
      assert Outdone(q, z);
      NothingTruncated(q);
    } else {
      assert !Outdone(q, z);
      PushIs(q, z);
      NewTargetPush(q, z);
      LatePush(q, t, z, q + [z]);
    }
  }

  lemma NewTargetPush(q: Queue, x: Entry)
    requires forall e | e in q :: e.target != x.target
    ensures Without(q, x.target) == q && Appended(q, x) == Truncated(q + [x])
  {
    NothingWithout(q, x.target);
  }

  lemma {:induction false} NothingWithout(q: Queue, target: nat)
    requires forall e | e in q :: e.target != target
    ensures Without(q, target) == q
  {
    if q != [] {
      assert q == q[..|q| - 1] + [q[|q| - 1]];
      NothingWithout(q[..|q| - 1], target);
    }
  }

  lemma LatePush(q: Queue, t: nat, z: Entry, r: Queue)
    requires Brimful(q, t) && z.pin.pinnedAt <= t && r == q + [z] && OnePerTarget(r)
    ensures Brimful(Truncated(r), t) && (z.pin.pinnedAt == t ==> z in Truncated(r))
  {
    var gone := FullDrop(r);
    WhoGoes(q, t, z, r);
    assert forall e :: e in r <==> e in q || e == z;
    hide Truncated, Lowest, OnePerTarget;
    var e :| e in q && e.pin.pinnedAt == t;
    StaysBrimful(q, t, z, Truncated(r), gone, e);
  }

  lemma WhoGoes(q: Queue, t: nat, z: Entry, r: Queue)
    requires Brimful(q, t) && z.pin.pinnedAt <= t && r == q + [z] && OnePerTarget(r)
    ensures r[Lowest(r)] == z <==> z.pin.pinnedAt < t
  {
    var i := Lowest(r);
    var e :| e in q && e.pin.pinnedAt == t;
    var k :| 0 <= k < |q| && q[k] == e;
    assert r[k] == e && r[|q|] == z;
    hide Lowest;
    if i < |q| {
      assert r[i] == q[i] && q[i] in q;
    }
  }

  lemma StaysBrimful(q: Queue, t: nat, z: Entry, after: Queue, gone: Entry, e: Entry)
    requires Brimful(q, t) && z.pin.pinnedAt <= t && e in q && e.pin.pinnedAt == t && (gone == z <==> z.pin.pinnedAt < t)
    requires OnePerTarget(after) && |after| == CONVERSATION_PIN_LIMIT
    requires gone !in after && forall f :: f in q || f == z <==> f in after || f == gone
    ensures Brimful(after, t) && (z.pin.pinnedAt == t ==> z in after)
  {
    hide OnePerTarget;
    if z.pin.pinnedAt < t {
      assert e in after;
    } else {
      assert z in after;
    }
  }

  /** Once the others have filled the queue, the target appended last is in it. */
  lemma {:induction false} LastGetsIn(head: seq<Entry>, tail: seq<Entry>, t: nat, target: nat)
    requires Brimful(Appends(head), t)
    requires forall z | z in tail :: z.target == target && z.pin.pinnedAt <= t
    ensures Brimful(Appends(head + tail), t)
    ensures (exists z :: z in tail && z.pin.pinnedAt == t) ==> target in TargetSet(Appends(head + tail))
  {
    if tail == [] {
      assert head + tail == head;
    } else {
      var init, x := tail[..|tail| - 1], tail[|tail| - 1];
      assert tail == init + [x];
      assert head + tail == (head + init) + [x];
      hide Brimful, Appended;
      LastGetsIn(head, init, t, target);
      AppendsNext(head + init, x);
      LatePin(Appends(head + init), t, x);
    }
  }

  /** With more than three targets at least as new as a pin at the top, some target is left
      out that gets in when its pins come last. */
  lemma CutShows(a: seq<Entry>, e: Entry) returns (b: seq<Entry>)
    requires Top(a, e) && |AtLeast(a, e.pin.pinnedAt)| > CONVERSATION_PIN_LIMIT
    ensures SamePins(a, b) && !SamePins(Appends(a), Appends(b))
  {
    var t := e.pin.pinnedAt;
    var target := LeftOutAtTheCut(a, t);
    b := LastOf(a, target);
    LastOfSame(a, target);
    GetsInLast(a, t, target);
    hide Appends, LastOf;
    var g :| g in Appends(b) && g.target == target;
  }

  lemma LeftOutAtTheCut(a: seq<Entry>, t: nat) returns (target: nat)
    requires |AtLeast(a, t)| > CONVERSATION_PIN_LIMIT && |Newer(a, t)| < CONVERSATION_PIN_LIMIT
    ensures target in AtLeast(a, t) && target !in Newer(a, t) && target !in TargetSet(Appends(a))
  {
    QueueRepresents(a);
    var q := Appends(a);
    hide Appends;
    TargetCount(q);
    if AtLeast(a, t) <= TargetSet(q) {
      SubsetSize(AtLeast(a, t), TargetSet(q));
    }
    target :| target in AtLeast(a, t) && target !in TargetSet(q);
    IsBrimful(q, a, t);
    if target in Newer(a, t) {
      var y :| y in a && y.pin.pinnedAt > t && y.target == target;
      var g :| g in q && g.pin.pinnedAt == t;
      NewerIsHeld(q, a, g, y);
    }
  }

  lemma GetsInLast(a: seq<Entry>, t: nat, target: nat)
    requires |AtLeast(a, t)| > CONVERSATION_PIN_LIMIT && |Newer(a, t)| < CONVERSATION_PIN_LIMIT
    requires target in AtLeast(a, t) && target !in Newer(a, t)
    ensures target in TargetSet(Appends(LastOf(a, target)))
  {
    var others, own := Without(a, target), Only(a, target);
    WithoutHas(a, target);
    OnlyHas(a, target);
    QueueRepresents(others);
    hide Appends, Without, Only;
    assert AtLeast(others, t) == AtLeast(a, t) - {target};
    assert Newer(others, t) == Newer(a, t);
    IsBrimful(Appends(others), others, t);
    var x :| x in a && x.pin.pinnedAt >= t && x.target == target;
    assert x in own;
    forall z | z in own ensures z.target == target && z.pin.pinnedAt <= t {
      assert z.pin.pinnedAt > t ==> z.target in Newer(a, t);
    }
    LastGetsIn(others, own, t, target);
  }

  /** The queue is the same for every order and repetition of the pins if and only if they
      are decided. */
  lemma OrderIsImmaterialIff(a: seq<Entry>)
    ensures (forall b | SamePins(a, b) :: SamePins(Appends(a), Appends(b))) <==> Decided(a)
  {
    hide Appends, SamePins;
    if Decided(a) {
      forall b | SamePins(a, b) ensures SamePins(Appends(a), Appends(b)) {
        QueueIgnoresOrder(a, b);
      }
    } else {
      var e :| Top(a, e) && !(|AtLeast(a, e.pin.pinnedAt)| <= CONVERSATION_PIN_LIMIT && Sole(a, e));
      if |AtLeast(a, e.pin.pinnedAt)| > CONVERSATION_PIN_LIMIT {
        var b := CutShows(a, e);
      } else {
        var f :| f in a && f.target == e.target && f.pin.pinnedAt == e.pin.pinnedAt && f != e;
        var b := TwinsShow(a, e, f);
      }
    }
  }

  // -------------------------------------------------------------- a plain rerun

  lemma LowestIs(q: Queue, i: nat)
    requires i < |q| && (forall j | 0 <= j < |q| :: q[i].pin.pinnedAt <= q[j].pin.pinnedAt)
    requires forall j | 0 <= j < i :: q[i].pin.pinnedAt < q[j].pin.pinnedAt
    ensures Lowest(q) == i
  {
  }

  /** A pin of a new target for a full queue: the oldest goes. */
  lemma Bumps(log: seq<Entry>, q: Queue, x: Entry, i: nat)
    requires Appends(log) == q && |q| == CONVERSATION_PIN_LIMIT && forall e | e in q :: e.target != x.target
    requires i < 4 && (forall j | 0 <= j < 4 :: (q + [x])[i].pin.pinnedAt <= (q + [x])[j].pin.pinnedAt)
    requires forall j | 0 <= j < i :: (q + [x])[i].pin.pinnedAt < (q + [x])[j].pin.pinnedAt
    ensures Appends(log + [x]) == Drop(q + [x], i)
  {
    AppendsNext(log, x);
    NewTargetPush(q, x);
    LowestIs(q + [x], i);
    assert Truncated(Drop(q + [x], i)) == Drop(q + [x], i);
  }

  /** A pin of a new target for a queue with room. */
  lemma Joins(log: seq<Entry>, q: Queue, x: Entry)
    requires Appends(log) == q && |q| < CONVERSATION_PIN_LIMIT && forall e | e in q :: e.target != x.target
    ensures Appends(log + [x]) == q + [x]
  {
    AppendsNext(log, x);
    NewTargetPush(q, x);
    NothingTruncated(q + [x]);
  }

  /** Two newer and two older pins, all of different targets. */
  predicate TwoAndTwo(d: Entry, e: Entry, a: Entry, c: Entry)
  {
    && d.target != e.target && d.target != a.target && d.target != c.target
    && e.target != a.target && e.target != c.target && a.target != c.target
    && d.pin.pinnedAt == c.pin.pinnedAt > e.pin.pinnedAt == a.pin.pinnedAt
  }

  lemma ThreeJoin(d: Entry, e: Entry, a: Entry)
    requires d.target != e.target && d.target != a.target && e.target != a.target
    ensures Appends([d, e, a]) == [d, e, a]
  {
    hide Appends;
    NoPins();
    assert [] + [d] == [d] && [d] + [e] == [d, e] && [d, e] + [a] == [d, e, a];
    Joins([], [], d);
    Joins([d], [d], e);
    Joins([d, e], [d, e], a);
  }

  lemma ImportedOnce(d: Entry, e: Entry, a: Entry, c: Entry)
    requires TwoAndTwo(d, e, a, c)
    ensures Appends([d, e, a] + [e, c]) == [d, a, c]
  {
    hide Appends;
    var live := [d, e, a];
    ThreeJoin(d, e, a);
    Again(live, live, e);
    var r := live + [c];
    assert r == [d, e, a, c] && r[0] == d && r[1] == e && r[2] == a && r[3] == c;
    Bumps(live + [e], live, c, 1);
    assert live + [e, c] == (live + [e]) + [c];
    assert Drop(r, 1) == [d, a, c];
  }

  lemma ImportedTwice(d: Entry, e: Entry, a: Entry, c: Entry)
    requires TwoAndTwo(d, e, a, c)
    ensures Appends([d, e, a] + [e, c] + [e, c]) == [d, c, e]
  {
    hide Appends;
    var once, q := [d, e, a] + [e, c], [d, a, c];
    ImportedOnce(d, e, a, c);
    var r := q + [e];
    assert r == [d, a, c, e] && r[0] == d && r[1] == a && r[2] == c && r[3] == e;
    Bumps(once, q, e, 1);
    assert Drop(r, 1) == [d, c, e];
    Again(once + [e], [d, c, e], c);
    assert once + [e, c] == (once + [e]) + [c];
  }

  /** Three pins of the conversation, then an archive with two: importing it twice leaves
      another queue than importing it once. */
  lemma RerunChangesTheQueue() returns (live: seq<Entry>, archive: seq<Entry>)
    ensures Targets(Appends(live + archive), 1) && !Targets(Appends(live + archive + archive), 1)
  {
    hide Appends;
    var d, e, a, c := Entry(4, Pin(1, None)), Entry(5, Pin(0, None)), Entry(1, Pin(0, None)), Entry(3, Pin(1, None));
    live, archive := [d, e, a], [e, c];
    ImportedOnce(d, e, a, c);
    ImportedTwice(d, e, a, c);
    assert [d, a, c][1] == a;
  }

  /** Of four pins of one time, the one stored first goes. */
  lemma TiesFollowTheOrder(a: Entry, b: Entry, c: Entry, d: Entry)
    requires OnePerTarget([a, b, c, d]) && a.pin.pinnedAt == b.pin.pinnedAt == c.pin.pinnedAt == d.pin.pinnedAt
    ensures Appends([a, b, c, d]) == [b, c, d] && Appends([d, c, b, a]) == [c, b, a]
  {
    var all := [a, b, c, d];
    assert all[0] == a && all[1] == b && all[2] == c && all[3] == d;
    FourTied(a, b, c, d);
    FourTied(d, c, b, a);
  }

  lemma FourTied(a: Entry, b: Entry, c: Entry, d: Entry)
    requires a.target != b.target && a.target != c.target && b.target != c.target
    requires d.target != a.target && d.target != b.target && d.target != c.target
    requires a.pin.pinnedAt == b.pin.pinnedAt == c.pin.pinnedAt == d.pin.pinnedAt
    ensures Appends([a, b, c, d]) == [b, c, d]
  {
    hide Appends;
    ThreeJoin(a, b, c);
    var r := [a, b, c] + [d];
    assert r == [a, b, c, d] && r[0] == a && r[1] == b && r[2] == c && r[3] == d;
    Bumps([a, b, c], [a, b, c], d, 0);
    assert Drop(r, 0) == [b, c, d];
  }

  lemma NoPins()
    ensures Appends([]) == []
  {
  }

  lemma Again(log: seq<Entry>, q: Queue, x: Entry)
    requires Appends(log) == q && |q| <= CONVERSATION_PIN_LIMIT && x in q
    ensures Appends(log + [x]) == q
  {
    AppendsNext(log, x);
    assert Outdone(q, x);
    NothingTruncated(q);
  }
}
