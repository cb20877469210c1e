/** The tables of open chunk streams (src/media.rs and its twin in
    src/backup_export.rs): bounded per account, strictly sequential, expiring.

    The two tables differ in one branch, a file that has vanished: `vanishedEndsStream`
    tells which one is meant.  Handles, the clock and the state of the file at each
    read are inputs. */
module HandleTables {
  import opened Basics

  const CHUNK_BYTES := 262144
  const HANDLE_TTL := 300
  const MAX_HANDLES_PER_ACCOUNT := 8

  datatype Entry = Entry(account: string, message: string, path: string, size: nat, bytesRead: nat, expiresAt: nat)

  type Table = map<string, Entry>

  /** What a read finds under the entry's path. */
  datatype FileState = Present(content: Bytes) | Vanished | Unreadable

  datatype Op =
    | Open(account: string, message: string, path: string, size: nat, handle: string, now: nat)
    | Read(handle: string, offset: nat, now: nat, file: FileState)
    | Close(handle: string)
    | ClearAccount(account: string)
    | CloseForMessage(account: string, message: string)

  datatype Error = NotFound | NotSequential(expected: nat) | Exhausted | Io

  datatype Answer =
    | Opened(handle: string)
    | Chunk(data: Bytes, eof: bool)
    | Refused(error: Error)
    | Released(count: nat)

  // ----------------------------------------------------------- what one call does

  function Live(t: Table, now: nat): Table
  {
    map h | h in t && t[h].expiresAt > now :: t[h]
  }

  function Held(t: Table, account: string): set<string>
  {
    set h | h in t && t[h].account == account
  }

  /** The bytes of `content` from `offset`, at most `want` of them. */
  function Range(content: Bytes, offset: nat, want: nat): (data: Bytes)
    ensures |data| <= want
    ensures |data| < want ==> offset + |data| >= |content|
  {
    if offset >= |content| then [] else content[offset..Min(offset + want, |content|)]
  }

  function Advance(e: Entry, n: nat): Entry
  {
    e.(bytesRead := e.bytesRead + n)
  }

  function ReadAnswer(e: Entry, offset: nat, file: FileState, vanishedEndsStream: bool): Answer
    requires e.bytesRead <= e.size
  {
    if e.bytesRead != offset then Refused(NotSequential(e.bytesRead))
    else
      var want := Min(CHUNK_BYTES, e.size - e.bytesRead);
      match file
      case Present(content) =>
        var data := Range(content, offset, want);
        Chunk(data, |data| < want || e.bytesRead + |data| >= e.size)
      case Vanished =>
        if vanishedEndsStream then Chunk([], 0 < want || e.bytesRead >= e.size) else Refused(Io)
      case Unreadable => Refused(Io)
  }

  predicate WithinSizes(t: Table)
  {
    forall h | h in t :: t[h].bytesRead <= t[h].size
  }

  /** What every table of a run keeps. */
  ghost predicate Bounded(t: Table)
  {
    WithinSizes(t) && forall a :: |Held(t, a)| <= MAX_HANDLES_PER_ACCOUNT
  }

  function Apply(t: Table, op: Op, vanishedEndsStream: bool): (r: (Table, Answer))
    requires WithinSizes(t)
  {
    match op
    case Open(account, message, path, size, handle, now) =>
      var live := Live(t, now);
      if |Held(live, account)| >= MAX_HANDLES_PER_ACCOUNT then (live, Refused(Exhausted))
      else (live[handle := Entry(account, message, path, size, 0, now + HANDLE_TTL)], Opened(handle))
    case Read(handle, offset, now, file) =>
      var live := Live(t, now);
      if handle !in live then (live, Refused(NotFound))
      else
        var answer := ReadAnswer(live[handle], offset, file, vanishedEndsStream);
        (if answer.Chunk? then live[handle := Advance(live[handle], |answer.data|)] else live, answer)
    case Close(handle) => (t - {handle}, Released(if handle in t then 1 else 0))
    case ClearAccount(account) =>
      var gone := Held(t, account);
      (t - gone, Released(|gone|))
    case CloseForMessage(account, message) =>
      var gone := set h | h in t && t[h].account == account && t[h].message == message;
      (t - gone, Released(|gone|))
  }

  // ------------------------------------------------------------------ every run

  lemma FewerHeld(t: Table, u: Table, account: string)
    requires forall h | h in u :: h in t && u[h].account == t[h].account
    ensures |Held(u, account)| <= |Held(t, account)|
  {
    SubsetSize(Held(u, account), Held(t, account));
  }

  /** One call keeps sizes and ceilings, even if a handle is drawn twice. */
  lemma ApplyKeepsBounds(t: Table, op: Op, vanishedEndsStream: bool)
    requires Bounded(t)
    ensures Bounded(Apply(t, op, vanishedEndsStream).0)
  {
    hide Held;
    var u := Apply(t, op, vanishedEndsStream).0;
    forall a ensures |Held(u, a)| <= MAX_HANDLES_PER_ACCOUNT {
      if op.Open? {
        var live := Live(t, op.now);
        FewerHeld(t, live, a);
        if |Held(live, op.account)| < MAX_HANDLES_PER_ACCOUNT {
          OneMoreHeld(live, op.handle, u[op.handle], a);
        }
      } else {
        FewerHeld(t, u, a);
      }
    }
  }

  lemma OneMoreHeld(t: Table, handle: string, e: Entry, account: string)
    ensures |Held(t[handle := e], account)| <= |Held(t, account)| + if account == e.account then 1 else 0
  {
    var after := Held(t[handle := e], account);
    if account == e.account {
      assert after <= Held(t, account) + {handle};
      SubsetSize(after, Held(t, account) + {handle});
    } else {
      assert after <= Held(t, account);
      SubsetSize(after, Held(t, account));
    }
  }

  /** The table after a sequence of calls on an empty one. */
  function Run(ops: seq<Op>, v: bool): (t: Table)
    ensures Bounded(t)
  {
    if ops == [] then
      assert forall a :: Held(map[], a) == {};
      map[]
    else
      var t := Run(ops[..|ops| - 1], v);
      ApplyKeepsBounds(t, ops[|ops| - 1], v);
      Apply(t, ops[|ops| - 1], v).0
  }

  function LastAnswer(ops: seq<Op>, v: bool): Answer
    requires ops != []
  {
    Apply(Run(ops[..|ops| - 1], v), ops[|ops| - 1], v).1
  }

  /** The bytes handed out on handle `h` since it was last opened. */
  function Delivered(ops: seq<Op>, v: bool, h: string): Bytes
  {
    if ops == [] then []
    else
      var before, op, answer := Delivered(ops[..|ops| - 1], v, h), ops[|ops| - 1], LastAnswer(ops, v);
      if op.Open? && answer == Opened(h) then []
      else if op.Read? && op.handle == h && answer.Chunk? then before + answer.data
      else before
  }

  /** Every read of `h` that delivered since it was last opened found the same content. */
  ghost predicate Unchanged(ops: seq<Op>, v: bool, h: string, content: Bytes)
  {
    ops == [] || (
      var op, answer := ops[|ops| - 1], LastAnswer(ops, v);
      if op.Open? && answer == Opened(h) then true
      else (op.Read? && op.handle == h && answer.Chunk? ==> op.file == Present(content))
           && Unchanged(ops[..|ops| - 1], v, h, content))
  }

  predicate Opens(op: Op, answer: Answer, h: string) { op.Open? && answer == Opened(h) }

  predicate Delivers(op: Op, answer: Answer, h: string) { op.Read? && op.handle == h && answer.Chunk? }

  /** How one call moves one handle's entry. */
  lemma EntryStep(t: Table, op: Op, v: bool, h: string)
    requires WithinSizes(t) && h in Apply(t, op, v).0
    ensures var u, answer := Apply(t, op, v).0, Apply(t, op, v).1;
      && (Opens(op, answer, h) ==> u[h].bytesRead == 0)
      && (!Opens(op, answer, h) ==> h in t && u[h].size == t[h].size)
      && (!Opens(op, answer, h) && !Delivers(op, answer, h) ==> u[h].bytesRead == t[h].bytesRead)
      && (Delivers(op, answer, h) ==>
            && op.offset == t[h].bytesRead && u[h].bytesRead == op.offset + |answer.data| <= u[h].size
            && (op.file.Present? ==>
                  var want := Min(CHUNK_BYTES, u[h].size - op.offset);
                  answer == Chunk(Range(op.file.content, op.offset, want),
                                  |answer.data| < want || u[h].bytesRead >= u[h].size)))
  {
  }

  lemma PrefixGrows(before: Bytes, content: Bytes, want: nat)
    requires before <= content
    ensures before + Range(content, |before|, want) <= content
  {
  }

  /** On every interleaving: what has been delivered on a live handle is as long as its
      position, and for an unchanged file it is exactly the beginning of that file. */
  lemma {:induction false} StreamIsFilePrefix(ops: seq<Op>, v: bool, h: string, content: Bytes)
    requires h in Run(ops, v)
    ensures |Delivered(ops, v, h)| == Run(ops, v)[h].bytesRead <= Run(ops, v)[h].size
    ensures Unchanged(ops, v, h, content) ==> Delivered(ops, v, h) <= content
  {
    if ops != [] {
      var init, op, answer := ops[..|ops| - 1], ops[|ops| - 1], LastAnswer(ops, v);
      EntryStep(Run(init, v), op, v, h);
      hide Apply, Range;
      if !Opens(op, answer, h) {
        StreamIsFilePrefix(init, v, h, content);
        if Unchanged(ops, v, h, content) && Delivers(op, answer, h) {
          PrefixGrows(Delivered(init, v, h), content, Min(CHUNK_BYTES, Run(ops, v)[h].size - op.offset));
        }
      }
    }
  }

  // ------------------------------------------- the table, from the calls alone

  /** A later call ends the stream that `open` opened: it releases it, or it comes too late. */
  predicate Ends(op: Op, open: Op)
    requires open.Open?
  {
    match op
    case Open(_, _, _, _, _, now) => now >= open.now + HANDLE_TTL
    case Read(_, _, now, _) => now >= open.now + HANDLE_TTL
    case Close(handle) => handle == open.handle
    case ClearAccount(account) => account == open.account
    case CloseForMessage(account, message) => account == open.account && message == open.message
  }

  /** Call `i` is the last one answered by opening `h`, and no later call ended its stream. */
  ghost predicate LivesSince(ops: seq<Op>, v: bool, h: string, i: nat)
  {
    && i < |ops| && Opens(ops[i], LastAnswer(ops[..i + 1], v), h)
    && forall k | i < k < |ops| :: !Ends(ops[k], ops[i]) && !Opens(ops[k], LastAnswer(ops[..k + 1], v), h)
  }

  lemma LivesLonger(ops: seq<Op>, v: bool, h: string, i: nat)
    requires ops != [] && i < |ops| - 1
    ensures LivesSince(ops, v, h, i)
      <==> LivesSince(ops[..|ops| - 1], v, h, i) && !Ends(ops[|ops| - 1], ops[i])
           && !Opens(ops[|ops| - 1], LastAnswer(ops, v), h)
  {
    hide LastAnswer, Ends;
    var init := ops[..|ops| - 1];
    assert ops[..|ops|] == ops;
    forall k | 0 <= k < |init| ensures init[..k + 1] == ops[..k + 1] && init[k] == ops[k] {
    }
    if LivesSince(init, v, h, i) && !Ends(ops[|ops| - 1], ops[i]) && !Opens(ops[|ops| - 1], LastAnswer(ops, v), h) {
      forall k | i < k < |ops| ensures !Ends(ops[k], ops[i]) && !Opens(ops[k], LastAnswer(ops[..k + 1], v), h) {
        assert k < |init| ==> ops[k] == init[k] && ops[..k + 1] == init[..k + 1];
      }
    }
    if LivesSince(ops, v, h, i) {
      forall k | i < k < |init| ensures !Ends(init[k], init[i]) && !Opens(init[k], LastAnswer(init[..k + 1], v), h) {
        assert ops[k] == init[k] && ops[..k + 1] == init[..k + 1];
      }
    }
  }

  /** The entry that a stream opened by `open` has after `n` bytes. */
  function EntryOf(open: Op, n: nat): Entry
    requires open.Open?
  {
    Entry(open.account, open.message, open.path, open.size, n, open.now + HANDLE_TTL)
  }

  lemma StreamStep(t: Table, op: Op, v: bool, h: string, open: Op)
    requires WithinSizes(t) && open.Open? && open.handle == h && h in t && t[h] == EntryOf(open, t[h].bytesRead)
    requires !Opens(op, Apply(t, op, v).1, h)
    ensures var u := Apply(t, op, v).0;
      && (h in u <==> !Ends(op, open))
      && (h in u ==> u[h] == EntryOf(open, u[h].bytesRead))
  {
  }

  lemma OpeningStep(t: Table, op: Op, v: bool, h: string)
    requires WithinSizes(t)
    ensures Opens(op, Apply(t, op, v).1, h)
      ==> op.handle == h && h in Apply(t, op, v).0 && Apply(t, op, v).0[h] == EntryOf(op, 0)
    ensures h !in t && !Opens(op, Apply(t, op, v).1, h) ==> h !in Apply(t, op, v).0
  {
  }

  lemma {:induction false} EntryIsOpening(ops: seq<Op>, v: bool, h: string, i: nat)
    requires LivesSince(ops, v, h, i)
    ensures h in Run(ops, v) && ops[i].handle == h && Run(ops, v)[h] == EntryOf(ops[i], Run(ops, v)[h].bytesRead)
    decreases |ops|
  {
    hide EntryOf, Ends;
    var init, op := ops[..|ops| - 1], ops[|ops| - 1];
    if i == |ops| - 1 {
      assert ops[..i + 1] == ops;
      OpeningStep(Run(init, v), op, v, h);
    } else {
      LivesLonger(ops, v, h, i);
      EntryIsOpening(init, v, h, i);
      StreamStep(Run(init, v), op, v, h, ops[i]);
    }
  }

  lemma {:induction false} EntryHasOpening(ops: seq<Op>, v: bool, h: string) returns (i: nat)
    requires h in Run(ops, v)
    ensures LivesSince(ops, v, h, i)
    decreases |ops|
  {
    hide EntryOf, Ends;
    var init, op := ops[..|ops| - 1], ops[|ops| - 1];
    assert ops[..|ops|] == ops;
    if Opens(op, LastAnswer(ops, v), h) {
      i := |ops| - 1;
    } else {
      OpeningStep(Run(init, v), op, v, h);
      i := EntryHasOpening(init, v, h);
      EntryIsOpening(init, v, h, i);
      StreamStep(Run(init, v), op, v, h, ops[i]);
      LivesLonger(ops, v, h, i);
    }
  }

  /** After every run a handle is in the table exactly if some call opened its stream and none
      has ended it since, and the entry is made of what that call was given and of the number
      of bytes delivered since. */
  lemma TableIsHistory(ops: seq<Op>, v: bool, h: string)
    ensures h in Run(ops, v) <==> exists i: nat :: LivesSince(ops, v, h, i)
    ensures forall i: nat ::
      LivesSince(ops, v, h, i)
      ==> h in Run(ops, v) && ops[i].Open? && ops[i].handle == h
          && Run(ops, v)[h] == Entry(ops[i].account, ops[i].message, ops[i].path, ops[i].size,
                                     |Delivered(ops, v, h)|, ops[i].now + HANDLE_TTL)
  {
    hide Run, Delivered;
    if h in Run(ops, v) {
      StreamIsFilePrefix(ops, v, h, []);
      var i := EntryHasOpening(ops, v, h);
    }
    forall i: nat | LivesSince(ops, v, h, i)
      ensures h in Run(ops, v) && ops[i].Open? && ops[i].handle == h
      ensures Run(ops, v)[h] == EntryOf(ops[i], Run(ops, v)[h].bytesRead)
    {
      EntryIsOpening(ops, v, h, i);
    }
  }

  /** The account's streams that are still open at `now`, each by the call that opened it. */
  ghost function Streams(ops: seq<Op>, v: bool, account: string, now: nat): set<nat>
  {
    set i: nat | i < |ops| && ops[i].Open? && LivesSince(ops, v, ops[i].handle, i)
                 && ops[i].account == account && now < ops[i].now + HANDLE_TTL
  }

  lemma {:induction false} SameCount(a: set<nat>, b: set<string>, name: nat -> string)
    requires forall i | i in a :: name(i) in b
    requires forall i, j | i in a && j in a && name(i) == name(j) :: i == j
    requires forall h | h in b :: exists i :: i in a && name(i) == h
    ensures |a| == |b|
    decreases |a|
  {
    if a == {} {
      assert b == {};
    } else {
      var i :| i in a;
      forall h | h in b - {name(i)} ensures exists j :: j in a - {i} && name(j) == h {
        var j :| j in a && name(j) == h;
      }
      SameCount(a - {i}, b - {name(i)}, name);
    }
  }

  lemma OneOpening(ops: seq<Op>, v: bool, h: string, i: nat, j: nat)
    requires LivesSince(ops, v, h, i) && LivesSince(ops, v, h, j)
    ensures i == j
  {
    hide LastAnswer, Ends;
  }

  lemma StreamsAreHeld(ops: seq<Op>, v: bool, account: string, now: nat)
    ensures |Streams(ops, v, account, now)| == |Held(Live(Run(ops, v), now), account)|
  {
    hide Run, LivesSince, Delivered;
    var open, held := Streams(ops, v, account, now), Held(Live(Run(ops, v), now), account);
    var name := (i: nat) => if i < |ops| && ops[i].Open? then ops[i].handle else "";
    forall i | i in open ensures name(i) in held {
      TableIsHistory(ops, v, name(i));
    }
    forall i, j | i in open && j in open && name(i) == name(j) ensures i == j {
      OneOpening(ops, v, name(i), i, j);
    }
    forall h | h in held ensures exists i :: i in open && name(i) == h {
      TableIsHistory(ops, v, h);
      var i: nat :| LivesSince(ops, v, h, i);
      assert i in open && name(i) == h by { LivesInside(ops, v, h, i); }
    }
    SameCount(open, held, name);
  }

  lemma LivesInside(ops: seq<Op>, v: bool, h: string, i: nat)
    requires LivesSince(ops, v, h, i)
    ensures i < |ops|
  {
  }

  /** After every run an open is answered by its handle exactly if fewer than eight of the
      account's streams are still open, and is refused as exhausted otherwise. */
  lemma OpenedIffRoom(ops: seq<Op>, v: bool, open: Op)
    requires open.Open?
    ensures LastAnswer(ops + [open], v)
      == if |Streams(ops, v, open.account, open.now)| < MAX_HANDLES_PER_ACCOUNT
         then Opened(open.handle) else Refused(Exhausted)
  {
    hide Run, Streams;
    assert (ops + [open])[..|ops|] == ops;
    StreamsAreHeld(ops, v, open.account, open.now);
  }

  /** What a read of an open stream must be answered, when `next` bytes were delivered. */
  ghost predicate ReadOf(size: nat, next: nat, offset: nat, file: FileState, v: bool, answer: Answer)
  {
    if next > size then false
    else if offset != next then answer == Refused(NotSequential(next))
    else if file.Present? then
      && answer.Chunk?
      && var want := Min(CHUNK_BYTES, size - offset);
         && |answer.data| == (if offset < |file.content| then Min(want, |file.content| - offset) else 0)
         && (forall k | 0 <= k < |answer.data| :: answer.data[k] == file.content[offset + k])
         && (answer.eof <==> offset + |answer.data| == size || |answer.data| < want)
    else if file.Vanished? && v then answer == Chunk([], true)
    else answer == Refused(Io)
  }

  lemma ReadStep(t: Table, h: string, offset: nat, now: nat, file: FileState, v: bool)
    requires WithinSizes(t)
    ensures Apply(t, Read(h, offset, now, file), v).1 == Refused(NotFound) <==> h !in t || t[h].expiresAt <= now
    ensures h in t && t[h].expiresAt > now
      ==> ReadOf(t[h].size, t[h].bytesRead, offset, file, v, Apply(t, Read(h, offset, now, file), v).1)
  {
  }

  /** After every run a read finds its handle exactly if some call opened a stream under it that
      is still open; the offset must then be the number of bytes delivered; and a file that
      is there is answered by its next bytes, up to a chunk and up to the size given when the
      stream was opened, with the end marked when that size or the file's end is reached. */
  lemma ReadIsAnswered(ops: seq<Op>, v: bool, h: string, offset: nat, now: nat, file: FileState)
    ensures LastAnswer(ops + [Read(h, offset, now, file)], v) == Refused(NotFound)
      <==> !exists i: nat :: LivesSince(ops, v, h, i) && now < ops[i].now + HANDLE_TTL
    ensures forall i: nat ::
      LivesSince(ops, v, h, i) && now < ops[i].now + HANDLE_TTL
      ==> ReadOf(ops[i].size, |Delivered(ops, v, h)|, offset, file, v, LastAnswer(ops + [Read(h, offset, now, file)], v))
  {
    hide Run, Delivered, LivesSince, Apply, ReadOf;
    var all := ops + [Read(h, offset, now, file)];
    assert all[..|ops|] == ops;
    TableIsHistory(ops, v, h);
    ReadStep(Run(ops, v), h, offset, now, file, v);
  }

  /** End of stream on an unchanged file means that everything up to the size given when the
      stream was opened, or to the end of a shorter file, has been delivered. */
  lemma EndOfStreamIsWholeFile(ops: seq<Op>, v: bool, h: string, content: Bytes, i: nat)
    requires ops != [] && LivesSince(ops, v, h, i)
    requires Delivers(ops[|ops| - 1], LastAnswer(ops, v), h) && LastAnswer(ops, v).eof
    requires Unchanged(ops, v, h, content)
    ensures Delivered(ops, v, h) == content[..Min(ops[i].size, |content|)]
  {
    hide Apply, LivesSince, Delivered;
    TableIsHistory(ops, v, h);
    StreamIsFilePrefix(ops, v, h, content);
    EntryStep(Run(ops[..|ops| - 1], v), ops[|ops| - 1], v, h);
    assert Delivered(ops, v, h) == content[..|Delivered(ops, v, h)|];
  }

  /** A read is answered only at the first byte not yet delivered on its handle. */
  lemma ChunksAreContiguous(ops: seq<Op>, v: bool, h: string)
    requires ops != [] && Delivers(ops[|ops| - 1], LastAnswer(ops, v), h)
    ensures ops[|ops| - 1].offset == |Delivered(ops[..|ops| - 1], v, h)|
  {
    var init := ops[..|ops| - 1];
    assert h in Apply(Run(init, v), ops[|ops| - 1], v).0;
    EntryStep(Run(init, v), ops[|ops| - 1], v, h);
    hide Apply;
    StreamIsFilePrefix(init, v, h, []);
  }

  /** The call gives up the stream that `h` stands for. */
  predicate Releases(op: Op, h: string, e: Entry)
  {
    match op
    case Close(handle) => handle == h
    case ClearAccount(account) => e.account == account
    case CloseForMessage(account, message) => e.account == account && e.message == message
    case _ => false
  }

  predicate IsRelease(op: Op) { op.Close? || op.ClearAccount? || op.CloseForMessage? }

  /** A release gives up exactly the streams it names, counts them, and leaves every other
      stream where it was. */
  lemma ReleaseIsExact(t: Table, op: Op, v: bool)
    requires WithinSizes(t) && IsRelease(op)
    ensures var u := Apply(t, op, v).0;
      && (forall h | h in t :: h in u <==> !Releases(op, h, t[h]))
      && (forall h | h in u :: h in t && u[h] == t[h])
      && Apply(t, op, v).1 == Released(|t| - |u|)
  {
    ReleaseRemoves(t, op, v);
    CountWithout(t, Named(t, op));
    hide Apply;
  }

  function Named(t: Table, op: Op): set<string>
  {
    set h | h in t && Releases(op, h, t[h])
  }

  lemma ReleaseRemoves(t: Table, op: Op, v: bool)
    requires WithinSizes(t) && IsRelease(op)
    ensures Apply(t, op, v) == (t - Named(t, op), Released(|Named(t, op)|))
  {
    match op {
      case Close(handle) =>
        assert Named(t, op) == if handle in t then {handle} else {};
        assert t - {handle} == t - Named(t, op);
      case ClearAccount(account) => assert Named(t, op) == Held(t, account);
      case CloseForMessage(account, message) =>
        assert Named(t, op) == set h | h in t && t[h].account == account && t[h].message == message;
    }
  }

  lemma CountWithout(t: Table, gone: set<string>)
    requires gone <= t.Keys
    ensures |gone| == |t| - |t - gone|
  {
    assert t.Keys == (t - gone).Keys + gone;
  }

  predicate Reopens(op: Op, h: string) { op.Open? && op.handle == h }

  /** Nothing but opening it again brings a handle back. */
  lemma AbsentStaysAbsent(t: Table, op: Op, v: bool, h: string)
    requires WithinSizes(t) && h !in t && !Reopens(op, h)
    ensures h !in Apply(t, op, v).0
  {
  }

  lemma {:induction false} DeadStaysDead(ops: seq<Op>, more: seq<Op>, v: bool, h: string)
    requires h !in Run(ops, v) && forall i | 0 <= i < |more| :: !Reopens(more[i], h)
    ensures h !in Run(ops + more, v)
  {
    if more == [] {
      assert ops + more == ops;
    } else {
      var init := more[..|more| - 1];
      assert (ops + more)[..|ops + more| - 1] == ops + init;
      DeadStaysDead(ops, init, v, h);
      AbsentStaysAbsent(Run(ops + init, v), more[|more| - 1], v, h);
    }
  }

  /** Once closed, cleared with its account or burned with its message, a stream is never
      read again, whatever else happens, unless its handle is drawn anew. */
  lemma ReleasedStreamIsDead(ops: seq<Op>, release: Op, more: seq<Op>, v: bool, h: string, offset: nat, now: nat, file: FileState)
    requires h in Run(ops, v) && IsRelease(release) && Releases(release, h, Run(ops, v)[h])
    requires forall i | 0 <= i < |more| :: !Reopens(more[i], h)
    ensures LastAnswer(ops + [release] + more + [Read(h, offset, now, file)], v) == Refused(NotFound)
  {
    var before := ops + [release];
    assert before[..|before| - 1] == ops;
    ReleaseIsExact(Run(ops, v), release, v);
    DeadStaysDead(before, more, v, h);
    var all := before + more + [Read(h, offset, now, file)];
    assert all[..|all| - 1] == before + more;
  }

  lemma TimeIsKept(t: Table, op: Op, v: bool, h: string)
    requires WithinSizes(t) && h in Apply(t, op, v).0 && !Reopens(op, h)
    ensures h in t && Apply(t, op, v).0[h].expiresAt == t[h].expiresAt
  {
  }

  lemma {:induction false} TimeStays(ops: seq<Op>, more: seq<Op>, v: bool, h: string)
    requires h in Run(ops + more, v) && forall i | 0 <= i < |more| :: !Reopens(more[i], h)
    ensures h in Run(ops, v) && Run(ops + more, v)[h].expiresAt == Run(ops, v)[h].expiresAt
  {
    if more == [] {
      assert ops + more == ops;
    } else {
      var init := more[..|more| - 1];
      assert (ops + more)[..|ops + more| - 1] == ops + init;
      TimeIsKept(Run(ops + init, v), more[|more| - 1], v, h);
      hide Apply;
      TimeStays(ops, init, v, h);
    }
  }

  /** A stream is never read once its time has come, whatever has happened since it was
      opened and however often it was read, unless its handle is drawn anew. */
  lemma ExpiredStreamIsDead(ops: seq<Op>, open: Op, more: seq<Op>, v: bool, offset: nat, now: nat, file: FileState)
    requires open.Open? && LastAnswer(ops + [open], v) == Opened(open.handle) && open.now + HANDLE_TTL <= now
    requires forall i | 0 <= i < |more| :: !Reopens(more[i], open.handle)
    ensures LastAnswer(ops + [open] + more + [Read(open.handle, offset, now, file)], v) == Refused(NotFound)
  {
    var h, start := open.handle, ops + [open];
    assert start[..|start| - 1] == ops;
    assert Run(start, v)[h].expiresAt == open.now + HANDLE_TTL;
    var all := start + more + [Read(h, offset, now, file)];
    assert all[..|all| - 1] == start + more;
    if h in Run(start + more, v) {
      TimeStays(start, more, v, h);
    }
  }

  // --------------------------------------------------------------- the operations

  class HandleTable {
    var entries: Table
    const vanishedEndsStream: bool

    constructor (vanishedEndsStream: bool)
      ensures entries == map[] && this.vanishedEndsStream == vanishedEndsStream
    {
      entries := map[];
      this.vanishedEndsStream := vanishedEndsStream;
    }

    method SweepExpired(now: nat)
      modifies this
      ensures entries == Live(old(entries), now)
    {
      entries := map h | h in entries && entries[h].expiresAt > now :: entries[h];
    }

    method OpenHandle(account: string, message: string, path: string, size: nat, handle: string, now: nat)
      returns (answer: Answer)
      requires WithinSizes(entries)
      modifies this
      ensures (entries, answer) == Apply(old(entries), Open(account, message, path, size, handle, now), vanishedEndsStream)
      ensures var unexpired := set h | h in old(entries) && old(entries)[h].expiresAt > now;
        && answer == (if |set h | h in unexpired && old(entries)[h].account == account| < MAX_HANDLES_PER_ACCOUNT
                      then Opened(handle) else Refused(Exhausted))
        && entries.Keys == (if answer.Opened? then unexpired + {handle} else unexpired)
        && (answer.Opened? ==> entries[handle] == Entry(account, message, path, size, 0, now + HANDLE_TTL))
        && (forall h | h in unexpired && (answer.Opened? ==> h != handle) :: entries[h] == old(entries)[h])
    {
      SweepExpired(now);
      var live := |set h | h in entries && entries[h].account == account|;
      ghost var unexpired := set h | h in old(entries) && old(entries)[h].expiresAt > now;
      assert (set h | h in unexpired && old(entries)[h].account == account) == Held(entries, account);
      assert live == |Held(entries, account)|;
      if live >= MAX_HANDLES_PER_ACCOUNT {
        return Refused(Exhausted);
      }
      entries := entries[handle := Entry(account, message, path, size, 0, now + HANDLE_TTL)];
      answer := Opened(handle);
    }

    method ReadChunk(handle: string, offset: nat, now: nat, file: FileState, schedule: nat -> nat)
      returns (answer: Answer)
      requires WithinSizes(entries) && forall i: nat :: schedule(i) > 0
      modifies this
      ensures (entries, answer) == Apply(old(entries), Read(handle, offset, now, file), vanishedEndsStream)
    {
      SweepExpired(now);
      if handle !in entries {
        return Refused(NotFound);
      }
      var entry := entries[handle];
      if entry.bytesRead != offset {
        return Refused(NotSequential(entry.bytesRead));
      }
      var want := Min(CHUNK_BYTES, entry.size - entry.bytesRead);
      var data: Bytes := [];
      match file {
        case Present(content) => data := ReadExactRange(content, offset, want, schedule);
        case Vanished =>
          if !vanishedEndsStream {
            return Refused(Io);
          }
        case Unreadable => return Refused(Io);
      }
      var short := |data| < want;
      entry := entry.(bytesRead := entry.bytesRead + |data|);
      entries := entries[handle := entry];
      answer := Chunk(data, short || entry.bytesRead >= entry.size);
    }

    method CloseHandle(handle: string) returns (released: bool)
      modifies this
      ensures entries == old(entries) - {handle}
      ensures released <==> handle in old(entries)
    {
      released := handle in entries;
      entries := entries - {handle};
    }

    method Clear(account: string) returns (released: nat)
      requires WithinSizes(entries)
      modifies this
      ensures (entries, Released(released)) == Apply(old(entries), ClearAccount(account), vanishedEndsStream)
    {
      var gone := set h | h in entries && entries[h].account == account;
      released := |gone|;
      entries := entries - gone;
    }

    method CloseMessage(account: string, message: string) returns (released: nat)
      requires WithinSizes(entries)
      modifies this
      ensures (entries, Released(released)) == Apply(old(entries), CloseForMessage(account, message), vanishedEndsStream)
    {
      var gone := set h | h in entries && entries[h].account == account && entries[h].message == message;
      released := |gone|;
      entries := entries - gone;
    }
  }

  /** Fill one chunk by reads of whatever size, up to the end of the file. */
  method ReadExactRange(content: Bytes, offset: nat, want: nat, schedule: nat -> nat) returns (data: Bytes)
    requires forall i: nat :: schedule(i) > 0
    ensures data == Range(content, offset, want)
  {
    data := [];
    var call := 0;
    while |data| < want
      invariant |data| <= want
      invariant data == if offset >= |content| then [] else content[offset..Min(offset + |data|, |content|)]
      decreases want - |data|
    {
      var left := if offset + |data| >= |content| then 0 else |content| - offset - |data|;
      var n := Min(schedule(call), Min(want - |data|, left));
      if n == 0 {
        assert schedule(call) > 0;
        break;
      }
      data := data + content[offset + |data|..offset + |data| + n];
      call := call + 1;
    }
  }
}
