/** The import driver (src/history_import.rs): two passes over the archive, rows
    written in bounded batches with their pins, a cooperative abort between lines and
    a store that may fail at any write.

    `budget` is the number of store writes that still succeed, granted anew to every
    attempt; running out of it stands for a store failure at that point. */
module ImportDriver {
  import opened Basics
  import opened ImportModel
  import opened ImportRows

  const BATCH_MESSAGES := 256

  datatype Status = Completed | Cancelled | StoreFailed

  function PutRecipients(m: map<nat, Recipient>, batch: seq<(nat, Recipient)>): map<nat, Recipient>
  {
    if batch == [] then m
    else PutRecipients(m, batch[..|batch| - 1])[batch[|batch| - 1].0 := batch[|batch| - 1].1]
  }

  function PutChats(m: map<nat, Edge>, batch: seq<(nat, Edge)>): map<nat, Edge>
  {
    if batch == [] then m else PutChats(m, batch[..|batch| - 1])[batch[|batch| - 1].0 := batch[|batch| - 1].1]
  }

  lemma PutRecipientsSnoc(m: map<nat, Recipient>, batch: seq<(nat, Recipient)>, p: (nat, Recipient))
    ensures PutRecipients(m, batch + [p]) == PutRecipients(m, batch)[p.0 := p.1]
  {
    assert (batch + [p])[..|batch|] == batch;
  }

  lemma PutChatsSnoc(m: map<nat, Edge>, batch: seq<(nat, Edge)>, p: (nat, Edge))
    ensures PutChats(m, batch + [p]) == PutChats(m, batch)[p.0 := p.1]
  {
    assert (batch + [p])[..|batch|] == batch;
  }

  predicate Marks(pin: PendingPin, row: Row)
  {
    row.conversation == pin.conversation && row.sentAt == pin.sentAt
  }

  /** One of the inserts is the row that the pin points at. */
  ghost predicate PinHasRow(pin: PendingPin, inserts: seq<Insert>)
  {
    exists i :: 0 <= i < |inserts| && Marks(pin, inserts[i].row)
  }

  // ------------------------------------------------------- what reached the store

  datatype Write = Landed(batch: seq<Insert>) | Applied(pin: PendingPin)

  function Landings(writes: seq<Write>): seq<Insert>
  {
    if writes == [] then []
    else
      var init, last := Landings(writes[..|writes| - 1]), writes[|writes| - 1];
      if last.Landed? then init + last.batch else init
  }

  function PinsApplied(writes: seq<Write>): seq<PendingPin>
  {
    if writes == [] then []
    else
      var init, last := PinsApplied(writes[..|writes| - 1]), writes[|writes| - 1];
      if last.Applied? then init + [last.pin] else init
  }

  /** The batch that landed last. */
  function LastBatch(writes: seq<Write>): seq<Insert>
  {
    if writes == [] then []
    else if writes[|writes| - 1].Landed? then writes[|writes| - 1].batch
    else LastBatch(writes[..|writes| - 1])
  }

  ghost predicate PinFollows(writes: seq<Write>, k: nat)
    requires k < |writes|
  {
    writes[k].Applied? ==> PinHasRow(writes[k].pin, LastBatch(writes[..k]))
  }

  /** Every pin is applied after the batch that holds its row, and before any other batch. */
  ghost predicate PinsFollow(writes: seq<Write>)
  {
    forall k | 0 <= k < |writes| :: PinFollows(writes, k)
  }

  lemma WritesSnoc(writes: seq<Write>, w: Write)
    ensures Landings(writes + [w]) == if w.Landed? then Landings(writes) + w.batch else Landings(writes)
    ensures PinsApplied(writes + [w]) == if w.Applied? then PinsApplied(writes) + [w.pin] else PinsApplied(writes)
    ensures LastBatch(writes + [w]) == if w.Landed? then w.batch else LastBatch(writes)
    ensures PinsFollow(writes) && (w.Applied? ==> PinHasRow(w.pin, LastBatch(writes))) ==> PinsFollow(writes + [w])
  {
    hide PinHasRow;
    var next := writes + [w];
    assert next[..|writes|] == writes;
    if PinsFollow(writes) && (w.Applied? ==> PinHasRow(w.pin, LastBatch(writes))) {
      forall k | 0 <= k < |next| ensures PinFollows(next, k) {
        if k < |writes| {
          assert PinFollows(writes, k);
          assert next[..k] == writes[..k];
        }
      }
    }
  }

  /** The row side of a run: the store, what has landed in it, what is pending. */
  datatype Ledger = Ledger(
    rows: set<Row>, landed: seq<Insert>, batch: seq<Insert>,
    pinLog: seq<PendingPin>, pins: seq<PendingPin>, imported: nat, skippedMessages: nat, timers: nat)

  /** The books of an undisturbed run that started on `rows0` and `pinLog0` and has been
      asked for `d` so far: every insert has landed or is in the batch, every pin is
      applied or waits for a row of the batch, every insert that landed is counted as
      imported or as skipped. */
  ghost predicate Balanced(l: Ledger, rows0: set<Row>, pinLog0: seq<PendingPin>, d: Demand)
  {
    match l
    case Ledger(rows, landed, batch, pinLog, pins, imported, skippedMessages, timers) =>
      && rows == InsertAll(rows0, landed)
      && landed + batch == d.inserts
      && |pinLog0| <= |pinLog|
      && pinLog + pins == pinLog0 + d.pins
      && imported == NewCount(rows0, landed)
      && skippedMessages == d.skipped + |landed| - imported
      && (batch == [] ==> pins == [])
      && (forall p | p in pins :: PinHasRow(p, batch))
      && timers == d.timers
  }

  lemma Undisturbed(l: Ledger, rows0: set<Row>, pinLog0: seq<PendingPin>, d: Demand)
    requires Balanced(l, rows0, pinLog0, d)
    ensures l.rows == InsertAll(rows0, l.landed) && l.landed <= d.inserts
    ensures l.pinLog + l.pins == pinLog0 + d.pins && l.timers == d.timers
    ensures l.batch == [] ==> l.pins == []
  {
  }

  lemma PendingHaveRows(l: Ledger, rows0: set<Row>, pinLog0: seq<PendingPin>, d: Demand)
    requires Balanced(l, rows0, pinLog0, d)
    ensures forall p | p in l.pins :: PinHasRow(p, l.batch)
  {
  }

  lemma TimerSet(l: Ledger, rows0: set<Row>, pinLog0: seq<PendingPin>, d: Demand)
    requires Balanced(l, rows0, pinLog0, d)
    ensures Balanced(l.(timers := l.timers + 1), rows0, pinLog0, d.(timers := d.timers + 1))
  {
  }

  function Flushed(l: Ledger): Ledger
  {
    Ledger(InsertAll(l.rows, l.batch), l.landed + l.batch, [], l.pinLog + l.pins, [],
           l.imported + NewCount(l.rows, l.batch), l.skippedMessages + (|l.batch| - NewCount(l.rows, l.batch)), l.timers)
  }

  /** Flushing moves the batch and its pins over and keeps the books. */
  lemma FlushBalances(l: Ledger, rows0: set<Row>, pinLog0: seq<PendingPin>, d: Demand)
    requires Balanced(l, rows0, pinLog0, d)
    ensures Balanced(Flushed(l), rows0, pinLog0, d)
  {
    InsertAllConcat(rows0, l.landed, l.batch);
    assert Flushed(l).landed + [] == Flushed(l).landed;
    assert Flushed(l).pinLog + [] == l.pinLog + l.pins;
  }

  /** One more insert, with its pin if it has one. */
  lemma EnqueueBalances(l: Ledger, rows0: set<Row>, pinLog0: seq<PendingPin>, d: Demand, ins: Insert, pins: seq<PendingPin>)
    requires Balanced(l, rows0, pinLog0, d)
    requires forall p | p in pins :: Marks(p, ins.row)
    ensures Balanced(l.(batch := l.batch + [ins], pins := l.pins + pins), rows0, pinLog0, Plus(d, Demand([ins], 0, pins, 0)))
  {
    var batch := l.batch + [ins];
    assert batch[|l.batch|] == ins;
    forall p | p in l.pins + pins ensures PinHasRow(p, batch) {
      if p in l.pins {
        var i :| 0 <= i < |l.batch| && Marks(p, l.batch[i].row);
        assert batch[i] == l.batch[i];
      }
    }
    assert l.landed + batch == (l.landed + l.batch) + [ins];
    assert l.pinLog + (l.pins + pins) == (l.pinLog + l.pins) + pins;
    assert (pinLog0 + d.pins) + pins == pinLog0 + (d.pins + pins);
  }

  /** Chats are resolved once each, the unresolvable ones counted. */
  ghost predicate CacheRight(env: Env, st: Staging, convs: Conversations, cache: map<nat, Option<Chat>>, lost: nat)
  {
    (forall c | c in cache :: cache[c] == Resolve(env, st, convs, c)) && lost == |Unresolved(cache)|
  }

  class Importer {
    const env: Env

    // the store
    var rows: set<Row>
    var convs: Conversations
    var staging: Staging
    var pinLog: seq<PendingPin>
    var budget: nat

    // the run
    var cache: map<nat, Option<Chat>>
    var batch: seq<Insert>
    var pins: seq<PendingPin>
    var imported: nat
    var skippedLines: nat
    var skippedChats: nat
    var skippedMessages: nat

    // where the run began, and what it has written
    ghost var rows0: set<Row>
    ghost var convs0: Conversations
    ghost var pinLog0: seq<PendingPin>
    ghost var budget0: nat
    ghost var landed: seq<Insert>
    ghost var writes: seq<Write>
    ghost var timers: nat
    ghost var minted: nat
    ghost var named: set<nat>

    constructor (env: Env, rows: set<Row>, convs: Conversations)
      ensures this.env == env && this.rows == rows && this.convs == convs && pinLog == []
    {
      this.env, this.rows, this.convs, this.budget := env, rows, convs, 0;
      staging, pinLog := Staging(map[], map[]), [];
      cache, batch, pins := map[], [], [];
      imported, skippedLines, skippedChats, skippedMessages := 0, 0, 0, 0;
    }

    ghost function Books(): Ledger
      reads this`rows, this`landed, this`batch, this`pinLog, this`pins, this`imported, this`skippedMessages, this`timers
    {
      Ledger(rows, landed, batch, pinLog, pins, imported, skippedMessages, timers)
    }

    /** The writes so far make up what landed and was applied, every pin after its row, and
        the store has not been asked for more writes than they stand for. */
    ghost predicate Accounted()
      reads this`writes, this`landed, this`pinLog, this`pinLog0, this`budget, this`budget0, this`timers, this`minted
    {
      && Landings(writes) == landed && pinLog == pinLog0 + PinsApplied(writes) && PinsFollow(writes)
      && budget0 <= budget + |landed| + |pinLog| - |pinLog0| + timers + minted
    }

    /** The run is in order, having been asked for `d` so far. */
    ghost predicate InOrder(d: Demand)
      reads this`rows, this`landed, this`batch, this`pinLog, this`pins, this`imported, this`skippedMessages, this`timers
      reads this`rows0, this`pinLog0
    {
      Balanced(Books(), rows0, pinLog0, d)
    }

    /** After a failure: the store is the store at the start plus some first part of what
        was asked for. */
    ghost predicate CutShort(d: Demand)
      reads this`rows, this`rows0, this`landed, this`pinLog, this`pinLog0, this`timers
    {
      && rows == InsertAll(rows0, landed) && landed <= d.inserts
      && pinLog <= pinLog0 + d.pins && timers <= d.timers
    }

    /** One transaction: all rows of the batch or none. */
    method InsertHistoryBatch() returns (ok: bool, inserted: nat, duplicates: nat)
      modifies this`rows, this`budget
      ensures ok <==> old(budget) > 0
      ensures if ok then budget == old(budget) - 1 else budget == 0
      ensures !ok ==> rows == old(rows)
      ensures ok ==> rows == InsertAll(old(rows), batch) && inserted == NewCount(old(rows), batch)
      ensures inserted + duplicates == if ok then |batch| else 0
    {
      inserted, duplicates := 0, 0;
      if budget == 0 {
        return false, 0, 0;
      }
      budget := budget - 1;
      for i := 0 to |batch|
        invariant rows == InsertAll(old(rows), batch[..i]) && budget == old(budget) - 1
        invariant inserted == NewCount(old(rows), batch[..i]) && inserted + duplicates == i
      {
        assert batch[..i + 1][..i] == batch[..i];
        if IsDuplicate(rows, batch[i]) {
          duplicates := duplicates + 1;
        } else {
          rows := rows + {batch[i].row};
          inserted := inserted + 1;
        }
      }
      assert batch[..|batch|] == batch;
      ok := true;
    }

    /** Append the pending pins one store write at a time. */
    method ApplyPins() returns (ok: bool)
      requires Accounted() && forall p | p in pins :: PinHasRow(p, LastBatch(writes))
      modifies this`pinLog, this`pins, this`budget, this`writes
      ensures Accounted() && (!ok ==> budget == 0)
      ensures ok ==> pinLog == old(pinLog) + old(pins) && pins == []
      ensures pinLog <= old(pinLog) + old(pins)
    {
      hide Landings, PinsApplied, PinsFollow, LastBatch, PinHasRow;
      while pins != []
        invariant Accounted() && forall p | p in pins :: PinHasRow(p, LastBatch(writes))
        invariant pinLog + pins == old(pinLog) + old(pins)
        decreases |pins|
      {
        if budget == 0 {
          return false;
        }
        budget := budget - 1;
        WritesSnoc(writes, Applied(pins[0]));
        assert pinLog + pins == (pinLog + [pins[0]]) + pins[1..];
        assert pinLog0 + (PinsApplied(writes) + [pins[0]]) == (pinLog0 + PinsApplied(writes)) + [pins[0]];
        writes := writes + [Applied(pins[0])];
        pinLog, pins := pinLog + [pins[0]], pins[1..];
      }
      assert pinLog == pinLog + pins;
      ok := true;
    }

    /** Land the batch and count what was new. */
    method LandBatch() returns (ok: bool)
      requires Accounted() && batch != []
      modifies this`rows, this`budget, this`landed, this`imported, this`skippedMessages, this`writes
      ensures Accounted() && (!ok ==> budget == 0)
      ensures !ok ==> rows == old(rows) && landed == old(landed)
      ensures ok ==> rows == InsertAll(old(rows), batch) && landed == old(landed) + batch && LastBatch(writes) == batch
      ensures ok ==> imported == old(imported) + NewCount(old(rows), batch)
      ensures ok ==> skippedMessages == old(skippedMessages) + (|batch| - NewCount(old(rows), batch))
    {
      hide Landings, PinsApplied, PinsFollow, LastBatch, InsertAll, NewCount;
      var inserted, duplicates;
      ok, inserted, duplicates := InsertHistoryBatch();
      if ok {
        WritesSnoc(writes, Landed(batch));
        landed, writes := landed + batch, writes + [Landed(batch)];
        imported, skippedMessages := imported + inserted, skippedMessages + duplicates;
      }
    }

    /** Land the batch, then its pins. */
    method Flush() returns (ok: bool)
      requires Accounted() && forall p | p in pins :: PinHasRow(p, batch)
      modifies this`rows, this`budget, this`pinLog, this`pins, this`batch, this`landed, this`imported, this`skippedMessages, this`writes
      ensures Accounted() && (!ok ==> budget == 0)
      ensures ok ==> Books() == if old(batch) == [] then old(Books()) else Flushed(old(Books()))
      ensures pinLog <= old(pinLog) + old(pins)
      ensures ok || (rows == old(rows) && landed == old(landed))
        || (rows == InsertAll(old(rows), old(batch)) && landed == old(landed) + old(batch))
    {
      hide Accounted, LastBatch, PinHasRow, InsertAll, NewCount;
      if batch == [] {
        return true;
      }
      ok := LandBatch();
      if !ok {
        return;
      }
      ok := ApplyPins();
      if ok {
        batch := [];
      }
    }

    /** A flush of a run that is in order. */
    method FlushInOrder(ghost d: Demand) returns (ok: bool)
      requires InOrder(d) && Accounted()
      modifies this`rows, this`budget, this`pinLog, this`pins, this`batch, this`landed, this`imported, this`skippedMessages, this`writes, this`timers
      ensures ok ==> InOrder(d) && batch == [] && pins == []
      ensures !ok ==> CutShort(d)
      ensures Accounted() && (!ok ==> budget == 0)
    {
      hide Balanced, InsertAll, NewCount;
      ghost var before := Books();
      FlushBalances(before, rows0, pinLog0, d);
      Undisturbed(before, rows0, pinLog0, d);
      Undisturbed(Flushed(before), rows0, pinLog0, d);
      PendingHaveRows(before, rows0, pinLog0, d);
      ok := Flush();
    }

    /** Put one row, and its pin if it has one, on the batch; land the batch when full. */
    method Enqueue(ins: Insert, pin: seq<PendingPin>, ghost d: Demand) returns (ok: bool)
      requires InOrder(d) && Accounted() && |batch| < BATCH_MESSAGES
      requires forall p | p in pin :: Marks(p, ins.row)
      modifies this`rows, this`budget, this`pinLog, this`pins, this`batch, this`landed, this`imported, this`skippedMessages, this`writes, this`timers
      ensures ok ==> InOrder(Plus(d, Demand([ins], 0, pin, 0))) && |batch| < BATCH_MESSAGES
      ensures !ok ==> CutShort(Plus(d, Demand([ins], 0, pin, 0)))
      ensures Accounted() && (!ok ==> budget == 0)
    {
      hide Balanced;
      EnqueueBalances(Books(), rows0, pinLog0, d, ins, pin);
      batch, pins := batch + [ins], pins + pin;
      ok := true;
      if |batch| >= BATCH_MESSAGES {
        ok := FlushInOrder(Plus(d, Demand([ins], 0, pin, 0)));
      }
    }

    method Skip(ghost d: Demand)
      requires InOrder(d)
      modifies this`skippedMessages
      ensures InOrder(Plus(d, SKIP))
    {
      skippedMessages := skippedMessages + 1;
      PlusEmpty(d);
    }

    method HandleTimerChange(m: Message, chat: Chat, ghost d: Demand) returns (ok: bool)
      requires InOrder(d) && Accounted() && |batch| < BATCH_MESSAGES && m.dateSent.Some?
      modifies this`rows, this`budget, this`pinLog, this`pins, this`batch, this`landed, this`imported, this`skippedMessages, this`writes, this`timers
      ensures ok ==> InOrder(Plus(d, TimerFace(env, chat, m))) && |batch| < BATCH_MESSAGES
      ensures !ok ==> CutShort(Plus(d, TimerFace(env, chat, m)))
      ensures Accounted() && (!ok ==> budget == 0)
    {
      hide Balanced, DirectedRow, HashedSender;
      PlusEmpty(d);
      if !m.timerChange {
        return true;
      }
      Undisturbed(Books(), rows0, pinLog0, d);
      // the conversation's own timer is written first
      if budget == 0 {
        return false;
      }
      budget, timers := budget - 1, timers + 1;
      TimerSet(old(Books()), rows0, pinLog0, d);
      var sender := HashedSender(env, chat.kind, chat.peer);
      ok := Enqueue(Insert(DirectedRow(env, chat, "system", m.dateSent.value, sender), []), [], d.(timers := d.timers + 1));
    }

    method HandleGroupUpdate(m: Message, chat: Chat, ghost d: Demand) returns (ok: bool)
      requires InOrder(d) && Accounted() && |batch| < BATCH_MESSAGES && m.dateSent.Some?
      modifies this`rows, this`budget, this`pinLog, this`pins, this`batch, this`landed, this`imported, this`skippedMessages, this`writes, this`timers
      ensures ok ==> InOrder(Plus(d, GroupFace(env, staging, chat, m))) && |batch| < BATCH_MESSAGES
      ensures !ok ==> CutShort(Plus(d, GroupFace(env, staging, chat, m)))
      ensures Accounted() && (!ok ==> budget == 0)
    {
      hide Balanced, DirectedRow, HashedSender;
      PlusEmpty(d);
      ok := true;
      if !m.groupUpdate {
        return;
      }
      var sender, alternates: seq<string> := env.account, [];
      if m.direction != Some(Outgoing) {
        if m.authorId.None? || m.authorId.value !in staging.recipients {
          Skip(d);
          return;
        }
        var author := staging.recipients[m.authorId.value];
        var source := SourceOf(env, author);
        if source.None? {
          Skip(d);
          return;
        }
        var other := AlternateSourceOf(author);
        if other.Some? {
          alternates := [HashedSender(env, chat.kind, other.value)];
        }
        sender := HashedSender(env, chat.kind, source.value);
      }
      ok := Enqueue(Insert(DirectedRow(env, chat, "system", m.dateSent.value, sender), alternates), [], d);
    }

    method HandleSimpleUpdate(m: Message, chat: Chat, ghost d: Demand) returns (ok: bool)
      requires InOrder(d) && Accounted() && |batch| < BATCH_MESSAGES && m.dateSent.Some?
      modifies this`rows, this`budget, this`pinLog, this`pins, this`batch, this`landed, this`imported, this`skippedMessages, this`writes, this`timers
      ensures ok ==> InOrder(Plus(d, SimpleFace(env, staging, chat, m))) && |batch| < BATCH_MESSAGES
      ensures !ok ==> CutShort(Plus(d, SimpleFace(env, staging, chat, m)))
      ensures Accounted() && (!ok ==> budget == 0)
    {
      hide Balanced, FamilyRow, HashedSender;
      PlusEmpty(d);
      ok := true;
      if m.simpleUpdate.None? {
        return;
      }
      var sender := HashedSender(env, chat.kind, chat.peer);
      match m.simpleUpdate.value {
        case JoinedSignal =>
          ok := Enqueue(Insert(FamilyRow(env, chat, "joinedSignal", m.dateSent.value, sender), []), [], d);
        case ChangeNumber =>
          if m.authorId.Some? && m.authorId.value in staging.recipients {
            var source := SourceOf(env, staging.recipients[m.authorId.value]);
            if source.Some? {
              sender := HashedSender(env, chat.kind, source.value);
            }
          }
          ok := Enqueue(Insert(FamilyRow(env, chat, "changeNumber", m.dateSent.value, sender), []), [], d);
        case OtherUpdate =>
          Skip(d);
      }
    }

    method HandleFamily(face: Option<bool>, family: string, sentAt: nat, chat: Chat, ghost d: Demand) returns (ok: bool)
      requires InOrder(d) && Accounted() && |batch| < BATCH_MESSAGES
      modifies this`rows, this`budget, this`pinLog, this`pins, this`batch, this`landed, this`imported, this`skippedMessages, this`writes, this`timers
      ensures ok ==> InOrder(Plus(d, FamilyFace(env, chat, face, family, sentAt))) && |batch| < BATCH_MESSAGES
      ensures !ok ==> CutShort(Plus(d, FamilyFace(env, chat, face, family, sentAt)))
      ensures Accounted() && (!ok ==> budget == 0)
    {
      hide Balanced, FamilyRow, HashedSender;
      PlusEmpty(d);
      ok := true;
      if face.None? {
        return;
      }
      if !face.value {
        Skip(d);
        return;
      }
      var sender := HashedSender(env, chat.kind, chat.peer);
      ok := Enqueue(Insert(FamilyRow(env, chat, family, sentAt, sender), []), [], d);
    }

    method HandleTitleAndMerge(m: Message, chat: Chat, ghost d: Demand) returns (ok: bool)
      requires InOrder(d) && Accounted() && |batch| < BATCH_MESSAGES && m.dateSent.Some?
      modifies this`rows, this`budget, this`pinLog, this`pins, this`batch, this`landed, this`imported, this`skippedMessages, this`writes, this`timers
      ensures ok ==> InOrder(Plus(d, TitleAndMerge(env, chat, m))) && |batch| < BATCH_MESSAGES
      ensures !ok ==> CutShort(Plus(d, TitleAndMerge(env, chat, m)))
      ensures Accounted() && (!ok ==> budget == 0)
    {
      hide Balanced, FamilyFace;
      ghost var a := FamilyFace(env, chat, m.learnedProfile, "titleTransition", m.dateSent.value);
      ghost var b := FamilyFace(env, chat, m.threadMerge, "threadMerge", m.dateSent.value);
      InTwo(d, a, b);
      ok := HandleFamily(m.learnedProfile, "titleTransition", m.dateSent.value, chat, d);
      if ok {
        ok := HandleFamily(m.threadMerge, "threadMerge", m.dateSent.value, chat, Plus(d, a));
      }
    }

    method HandleUpdates(m: Message, chat: Chat, ghost d: Demand) returns (ok: bool)
      requires InOrder(d) && Accounted() && |batch| < BATCH_MESSAGES && m.dateSent.Some?
      modifies this`rows, this`budget, this`pinLog, this`pins, this`batch, this`landed, this`imported, this`skippedMessages, this`writes, this`timers
      ensures ok ==> InOrder(Plus(d, Plus(SimpleFace(env, staging, chat, m), TitleAndMerge(env, chat, m)))) && |batch| < BATCH_MESSAGES
      ensures !ok ==> CutShort(Plus(d, Plus(SimpleFace(env, staging, chat, m), TitleAndMerge(env, chat, m))))
      ensures Accounted() && (!ok ==> budget == 0)
    {
      hide Balanced, SimpleFace, TitleAndMerge;
      InTwo(d, SimpleFace(env, staging, chat, m), TitleAndMerge(env, chat, m));
      ok := HandleSimpleUpdate(m, chat, d);
      if ok {
        ok := HandleTitleAndMerge(m, chat, Plus(d, SimpleFace(env, staging, chat, m)));
      }
    }

    method HandleGroupAndUpdates(m: Message, chat: Chat, ghost d: Demand) returns (ok: bool)
      requires InOrder(d) && Accounted() && |batch| < BATCH_MESSAGES && m.dateSent.Some?
      modifies this`rows, this`budget, this`pinLog, this`pins, this`batch, this`landed, this`imported, this`skippedMessages, this`writes, this`timers
      ensures ok ==> InOrder(Plus(d, AfterTimer(env, staging, chat, m))) && |batch| < BATCH_MESSAGES
      ensures !ok ==> CutShort(Plus(d, AfterTimer(env, staging, chat, m)))
      ensures Accounted() && (!ok ==> budget == 0)
    {
      hide Balanced, GroupFace, SimpleFace, TitleAndMerge;
      InTwo(d, GroupFace(env, staging, chat, m), Plus(SimpleFace(env, staging, chat, m), TitleAndMerge(env, chat, m)));
      ok := HandleGroupUpdate(m, chat, d);
      if ok {
        ok := HandleUpdates(m, chat, Plus(d, GroupFace(env, staging, chat, m)));
      }
    }

    /** All the notice faces of one frame, in order. */
    method HandleNotice(m: Message, chat: Chat, ghost d: Demand) returns (ok: bool)
      requires InOrder(d) && Accounted() && |batch| < BATCH_MESSAGES && m.dateSent.Some?
      modifies this`rows, this`budget, this`pinLog, this`pins, this`batch, this`landed, this`imported, this`skippedMessages, this`writes, this`timers
      ensures ok ==> InOrder(Plus(d, Notice(env, staging, chat, m))) && |batch| < BATCH_MESSAGES
      ensures !ok ==> CutShort(Plus(d, Notice(env, staging, chat, m)))
      ensures Accounted() && (!ok ==> budget == 0)
    {
      hide Balanced, TimerFace, AfterTimer;
      InTwo(d, TimerFace(env, chat, m), AfterTimer(env, staging, chat, m));
      ok := HandleTimerChange(m, chat, d);
      if ok {
        ok := HandleGroupAndUpdates(m, chat, Plus(d, TimerFace(env, chat, m)));
      }
    }

    method HandleBubble(m: Message, chat: Chat, ghost d: Demand) returns (ok: bool)
      requires InOrder(d) && Accounted() && |batch| < BATCH_MESSAGES && m.dateSent.Some? && m.direction.Some?
      modifies this`rows, this`budget, this`pinLog, this`pins, this`batch, this`landed, this`imported, this`skippedMessages, this`writes, this`timers
      ensures ok ==> InOrder(Plus(d, Bubble(env, staging, chat, m))) && |batch| < BATCH_MESSAGES
      ensures !ok ==> CutShort(Plus(d, Bubble(env, staging, chat, m)))
      ensures Accounted() && (!ok ==> budget == 0)
    {
      hide Balanced, MessageId, HashedSender;
      ok := true;
      var sender, alternates: seq<string>, direction := env.account, [], "outgoing";
      if m.direction.value.Incoming? {
        direction := "incoming";
        if m.authorId.None? || m.authorId.value !in staging.recipients {
          Skip(d);
          return;
        }
        var author := staging.recipients[m.authorId.value];
        var source := SourceOf(env, author);
        if source.None? {
          Skip(d);
          return;
        }
        if author.aci.Some? {
          sender := author.aci.value;
          if author.e164.Some? {
            alternates := [HashedSender(env, chat.kind, author.e164.value)];
          }
          alternates := alternates + [HashedSender(env, chat.kind, author.aci.value)];
        } else {
          sender := HashedSender(env, chat.kind, source.value);
        }
      }
      if !m.hasContent {
        Skip(d);
        return;
      }
      var row := DirectedRow(env, chat, direction, m.dateSent.value, sender);
      var pin := if m.pin.Some? then [PendingPin(chat.conversation, m.dateSent.value, m.pin.value)] else [];
      ok := Enqueue(Insert(row, alternates), pin, d);
    }

    /** The conversation's id, minted on first use. */
    method EnsureConversation(key: ConversationKey) returns (ok: bool, id: string)
      requires Grown(env, convs0, convs) && Accounted()
      modifies this`convs, this`budget, this`minted
      ensures Grown(env, convs0, convs)
      ensures Accounted() && (!ok ==> budget == 0 && minted == old(minted)) && minted <= old(minted) + 1
      ensures ok ==> id == ConversationId(env, convs0, key)
    {
      hide Landings, PinsApplied, PinsFollow;
      if key !in convs {
        if budget == 0 {
          return false, "";
        }
        budget, minted := budget - 1, minted + 1;
        convs := convs[key := MintedId(env, key)];
      }
      return true, convs[key];
    }

    /** The timer of a chat frame, written when the chat is first met. */
    method SeedTimer() returns (ok: bool)
      requires Accounted()
      modifies this`budget, this`minted
      ensures Accounted() && (!ok ==> budget == 0) && minted == if ok then old(minted) + 1 else old(minted)
    {
      hide Landings, PinsApplied, PinsFollow;
      ok := budget > 0;
      if ok {
        budget, minted := budget - 1, minted + 1;
      }
    }

    /** Conversations have only been added, with at most two writes for each chat met: the
        conversation and its timer. */
    ghost predicate Minting()
      reads this`convs0, this`convs, this`named, this`minted
    {
      Grown(env, convs0, convs) && minted <= 2 * |named|
    }

    /** The chats met so far are resolved as they should be. */
    ghost predicate Resolving()
      reads this`staging, this`convs0, this`convs, this`cache, this`skippedChats, this`minted, this`named
    {
      CacheRight(env, staging, convs0, cache, skippedChats) && Minting() && named == cache.Keys
    }

    /** The chat's store identity; its conversation and timer are written. */
    method ResolveChat(chatId: nat) returns (ok: bool, chat: Option<Chat>)
      requires Grown(env, convs0, convs) && Accounted()
      modifies this`convs, this`budget, this`minted
      ensures Grown(env, convs0, convs) && Accounted() && (!ok ==> budget == 0)
      ensures minted <= old(minted) + 2
      ensures ok ==> chat == Resolve(env, staging, convs0, chatId)
    {
      hide Grown, ConversationId, Accounted;
      ok, chat := true, None;
      if chatId in staging.chats && staging.chats[chatId].recipient in staging.recipients {
        var identity := ChatIdentity(env, staging.recipients[staging.chats[chatId].recipient]);
        if identity.Some? {
          var id;
          ok, id := EnsureConversation(CanonicalKey(env, identity.value));
          if ok && staging.chats[chatId].timer.Some? {
            ok := SeedTimer();
          }
          chat := Some(Chat(id, identity.value.0, identity.value.1));
        }
      }
    }

    method Remember(chatId: nat, chat: Option<Chat>)
      modifies this`cache, this`skippedChats
      ensures cache == old(cache)[chatId := chat] && skippedChats == old(skippedChats) + Face(chat.None?)
    {
      if chat.None? {
        skippedChats := skippedChats + 1;
      }
      cache := cache[chatId := chat];
    }

    /** The chat's store identity, resolved once per run. */
    method ChatFor(chatId: nat) returns (ok: bool, chat: Option<Chat>)
      requires Resolving() && Accounted()
      modifies this`convs, this`budget, this`cache, this`skippedChats, this`minted, this`named
      ensures Accounted() && Minting() && (!ok ==> budget == 0)
      ensures named == old(named) + {chatId} && (ok ==> Resolving())
      ensures ok ==> chat == Resolve(env, staging, convs0, chatId)
    {
      hide Grown, Resolve, Accounted, CacheRight;
      if chatId in cache {
        CacheTells(env, staging, convs0, cache, skippedChats, chatId);
        return true, cache[chatId];
      }
      OneMoreNamed(cache, chatId);
      named := named + {chatId};
      ok, chat := ResolveChat(chatId);
      if ok {
        CachePut(env, staging, convs0, cache, skippedChats, chatId);
        KeysPut(cache, chatId, chat);
        Remember(chatId, chat);
      }
    }

    method HandleInChat(m: Message, chat: Chat, ghost d: Demand) returns (ok: bool)
      requires InOrder(d) && Accounted() && |batch| < BATCH_MESSAGES && WellFormed(m)
      modifies this`rows, this`budget, this`pinLog, this`pins, this`batch, this`landed, this`imported, this`skippedMessages, this`writes, this`timers
      ensures ok ==> InOrder(Plus(d, ChatDemand(env, staging, chat, m))) && |batch| < BATCH_MESSAGES
      ensures !ok ==> CutShort(Plus(d, ChatDemand(env, staging, chat, m)))
      ensures Accounted() && (!ok ==> budget == 0)
    {
      hide Balanced, Notice, Bubble;
      if m.direction.None? || StandingNotice(m) {
        ok := HandleNotice(m, chat, d);
      } else {
        ok := HandleBubble(m, chat, d);
      }
    }

    method HandleMessage(m: Message, ghost d: Demand) returns (ok: bool)
      requires InOrder(d) && Accounted() && |batch| < BATCH_MESSAGES
      requires Resolving()
      modifies this`convs, this`cache, this`skippedChats, this`minted, this`named
      modifies this`rows, this`budget, this`pinLog, this`pins, this`batch, this`landed, this`imported, this`skippedMessages, this`writes, this`timers
      ensures Accounted() && Minting() && (!ok ==> budget == 0)
      ensures ok ==> InOrder(Plus(d, MessageDemand(env, staging, convs0, m))) && |batch| < BATCH_MESSAGES
      ensures named == old(named) + NamedBy(MessageFrame(m)) && (ok ==> Resolving())
      ensures !ok ==> CutShort(Plus(d, MessageDemand(env, staging, convs0, m)))
    {
      hide InOrder, ChatDemand, Resolve, Accounted, CutShort, Minting, CacheRight;
      PlusEmpty(d);
      OrderIsCut(d);
      CutMore(d, MessageDemand(env, staging, convs0, m));
      if m.chatId.None? || m.dateSent.None? || (m.direction.None? && !m.timerChange && !StandingNotice(m)) {
        Skip(d);
        return true;
      }
      var chat;
      ok, chat := ChatFor(m.chatId.value);
      if ok && chat.Some? {
        ok := HandleInChat(m, chat.value, d);
      }
    }

    lemma OrderIsCut(d: Demand)
      requires InOrder(d)
      ensures CutShort(d) && Plus(d, NOTHING) == d
    {
      hide Balanced, InsertAll;
      Undisturbed(Books(), rows0, pinLog0, d);
      PlusEmpty(d);
    }

    lemma CutMore(d: Demand, more: Demand)
      requires CutShort(d)
      ensures CutShort(Plus(d, more))
    {
    }

    method HandleLine(f: Frame, ghost d: Demand) returns (ok: bool)
      requires InOrder(d) && Accounted() && |batch| < BATCH_MESSAGES
      requires Resolving()
      modifies this`convs, this`cache, this`skippedChats, this`skippedLines, this`minted, this`named
      modifies this`rows, this`budget, this`pinLog, this`pins, this`batch, this`landed, this`imported, this`skippedMessages, this`writes, this`timers
      ensures Accounted() && Minting() && (!ok ==> budget == 0)
      ensures ok ==> InOrder(Plus(d, FrameDemand(env, staging, convs0, f))) && |batch| < BATCH_MESSAGES
      ensures named == old(named) + NamedBy(f) && (ok ==> Resolving())
      ensures ok ==> skippedLines == old(skippedLines) + Face(IsJunk(f))
      ensures !ok ==> CutShort(Plus(d, FrameDemand(env, staging, convs0, f)))
    {
      hide InOrder, CutShort, Accounted, MessageDemand, Minting, CacheRight;
      ok := true;
      PlusEmpty(d);
      match f {
        case OverlongLine => skippedLines := skippedLines + 1;
        case BlankLine =>
        case UnparseableLine => skippedLines := skippedLines + 1;
        case RecipientFrame(_, _) =>
        case ChatFrame(_, _, _) =>
        case MessageFrame(m) =>
          ok := HandleMessage(m, d);
        case AdhocCall => Skip(d);
        case UnknownFrame => skippedLines := skippedLines + 1;
      }
    }

    /** The run after the frames `seen`, undisturbed so far. */
    ghost predicate Progress(seen: seq<Frame>)
      reads this
    {
      && InOrder(TotalDemand(env, staging, convs0, seen)) && |batch| < BATCH_MESSAGES
      && Accounted() && Resolving()
      && named == NamedChats(seen) && skippedLines == JunkCount(seen)
    }

    /** The writes granted since the start are covered by what `frames` ask for. */
    ghost predicate Covered(frames: seq<Frame>)
      reads this`budget, this`budget0, this`staging, this`convs0
    {
      budget0 <= budget + Asked(env, staging, convs0, frames)
    }

    lemma WritesAreCovered(frames: seq<Frame>)
      requires Accounted() && CutShort(TotalDemand(env, staging, convs0, frames))
      requires minted <= 2 * |named| && named <= NamedChats(frames)
      ensures Covered(frames)
    {
      hide TotalDemand, NamedChats, InsertAll, Landings, PinsApplied, PinsFollow;
      assert |pinLog| <= |pinLog0 + TotalDemand(env, staging, convs0, frames).pins|;
      SubsetSize(named, NamedChats(frames));
    }

    method Advance(f: Frame, ghost seen: seq<Frame>) returns (ok: bool)
      requires Progress(seen)
      modifies this`convs, this`cache, this`skippedChats, this`skippedLines, this`minted, this`named
      modifies this`rows, this`budget, this`pinLog, this`pins, this`batch, this`landed, this`imported, this`skippedMessages, this`writes, this`timers
      ensures Minting() && Accounted()
      ensures ok ==> Progress(seen + [f])
      ensures !ok ==> Stopped(seen + [f]) && budget == 0
    {
      hide InOrder, CutShort, FrameDemand, Minting, CacheRight, Accounted;
      Snoc(env, staging, convs0, seen, f);
      ok := HandleLine(f, TotalDemand(env, staging, convs0, seen));
    }

    /** A run that has come to an end somewhere among `frames`. */
    ghost predicate Stopped(frames: seq<Frame>)
      reads this
    {
      CutShort(TotalDemand(env, staging, convs0, frames)) && Minting() && named <= NamedChats(frames)
    }

    /** The final flush, and what the counters then say. */
    method Conclude(ghost frames: seq<Frame>) returns (ok: bool)
      requires Progress(frames)
      modifies this`rows, this`budget, this`pinLog, this`pins, this`batch, this`landed, this`imported, this`skippedMessages, this`writes, this`timers
      ensures Stopped(frames) && Accounted() && (!ok ==> budget == 0)
      ensures ok ==> InOrder(TotalDemand(env, staging, convs0, frames)) && batch == [] && pins == []
      ensures ok ==> skippedChats == |LostChats(env, staging, convs0, frames)|
    {
      hide Accounted, TotalDemand, NamedChats, Minting, CacheRight, InOrder, CutShort, LostChats;
      ghost var d := TotalDemand(env, staging, convs0, frames);
      LostAreCounted(env, staging, convs0, cache, skippedChats, frames);
      ok := FlushInOrder(d);
      if ok {
        OrderIsCut(d);
      }
    }

    /** Pass two.  The abort flag is looked at before every line and before the end. */
    method Run(frames: seq<Frame>, abortAt: nat) returns (status: Status)
      requires Progress([])
      modifies this`convs, this`cache, this`skippedChats, this`skippedLines, this`minted, this`named
      modifies this`rows, this`budget, this`pinLog, this`pins, this`batch, this`landed, this`imported, this`skippedMessages, this`writes, this`timers
      ensures Minting()
      ensures CutShort(TotalDemand(env, staging, convs0, frames)) && Accounted() && Covered(frames)
      ensures status.Completed? ==> InOrder(TotalDemand(env, staging, convs0, frames)) && batch == [] && pins == []
      ensures status.Completed? ==> skippedLines == JunkCount(frames)
      ensures status.Completed? ==> skippedChats == |LostChats(env, staging, convs0, frames)|
      ensures if status.StoreFailed? then budget == 0 else (status.Cancelled? <==> abortAt <= |frames|)
    {
      hide Progress, Stopped, CutShort, InOrder, Minting, Accounted, Covered, TotalDemand, JunkCount, LostChats;
      ghost var seen: seq<Frame> := [];
      for i := 0 to |frames|
        invariant seen == frames[..i] && Progress(seen) && abortAt >= i
      {
        PrefixSnoc(frames, i);
        if abortAt == i {
          StoppedHere(seen);
          Ended(seen, frames);
          return Cancelled;
        }
        var ok := Advance(frames[i], seen);
        if !ok {
          Ended(seen + [frames[i]], frames);
          return StoreFailed;
        }
        seen := seen + [frames[i]];
      }
      assert seen == frames;
      StoppedHere(frames);
      Ended(frames, frames);
      if abortAt == |frames| {
        return Cancelled;
      }
      var ok := Conclude(frames);
      Ended(frames, frames);
      status := if ok then Completed else StoreFailed;
    }

    lemma StoppedHere(seen: seq<Frame>)
      requires Progress(seen)
      ensures Stopped(seen) && Accounted() && Minting() && skippedLines == JunkCount(seen)
    {
      hide Balanced, Grown, CacheRight, Accounted;
      Undisturbed(Books(), rows0, pinLog0, TotalDemand(env, staging, convs0, seen));
    }

    lemma Ended(seen: seq<Frame>, frames: seq<Frame>)
      requires Stopped(seen) && seen <= frames && Accounted()
      ensures CutShort(TotalDemand(env, staging, convs0, frames)) && Covered(frames)
    {
      hide TotalDemand, InsertAll, NamedChats, Accounted, Covered, Grown;
      assert seen == frames[..|seen|];
      DemandPrefix(env, staging, convs0, frames, |seen|);
      WritesAreCovered(frames);
    }

    /** Pass one: stage recipients and chats in bounded batches, later entries replacing
        earlier ones. */
    method PassOne(frames: seq<Frame>, abortAt: nat) returns (status: Status)
      requires staging == Staging(map[], map[])
      modifies this`staging, this`budget
      ensures status.Completed? ==> staging == StageOf(frames)
      ensures if status.StoreFailed? then old(budget) < |frames| + 2 else (status.Cancelled? <==> abortAt <= |frames|)
      ensures status.Completed? ==> old(budget) <= budget + |frames| + 2
    {
      var recipients: seq<(nat, Recipient)>, chats: seq<(nat, Edge)> := [], [];
      for i := 0 to |frames|
        invariant Pending(staging, recipients, chats) == StageOf(frames[..i])
        invariant |recipients| < BATCH_MESSAGES && |chats| < BATCH_MESSAGES && abortAt >= i
        invariant old(budget) <= budget + i
      {
        hide StageOf, PutRecipients, PutChats;
        if abortAt == i {
          return Cancelled;
        }
        StageSnoc(frames, i);
        match frames[i] {
          case RecipientFrame(Some(id), r) =>
            PutRecipientsSnoc(staging.recipients, recipients, (id, r));
            recipients := recipients + [(id, r)];
            if |recipients| >= BATCH_MESSAGES {
              if budget == 0 {
                return StoreFailed;
              }
              budget := budget - 1;
              staging := staging.(recipients := PutRecipients(staging.recipients, recipients));
              recipients := [];
              PutNothing(staging);
            }
          case ChatFrame(Some(c), Some(r), timer) =>
            PutChatsSnoc(staging.chats, chats, (c, Edge(r, timer)));
            chats := chats + [(c, Edge(r, timer))];
            if |chats| >= BATCH_MESSAGES {
              if budget == 0 {
                return StoreFailed;
              }
              budget := budget - 1;
              staging := staging.(chats := PutChats(staging.chats, chats));
              chats := [];
              PutNothing(staging);
            }
          case _ =>
        }
      }
      assert frames[..|frames|] == frames;
      if abortAt == |frames| {
        return Cancelled;
      }
      if budget < 2 {
        return StoreFailed;
      }
      budget := budget - 2;
      staging := Pending(staging, recipients, chats);
      status := Completed;
    }

    method ClearCounters()
      modifies this`imported, this`skippedLines, this`skippedChats, this`skippedMessages
      ensures imported == 0 && skippedLines == 0 && skippedChats == 0 && skippedMessages == 0
    {
      imported, skippedLines, skippedChats, skippedMessages := 0, 0, 0, 0;
    }

    method ClearBuffers()
      modifies this`cache, this`batch, this`pins
      ensures cache == map[] && batch == [] && pins == []
    {
      cache, batch, pins := map[], [], [];
    }

    ghost method MarkStart()
      modifies this`rows0, this`convs0, this`pinLog0, this`budget0, this`landed, this`writes, this`timers, this`minted, this`named
      ensures rows0 == rows && convs0 == convs && pinLog0 == pinLog && budget0 == budget
      ensures landed == [] && writes == [] && timers == 0 && minted == 0 && named == {} && Accounted()
    {
      rows0, convs0, pinLog0, budget0 := rows, convs, pinLog, budget;
      landed, writes, timers, minted, named := [], [], 0, 0, {};
    }

    /** A fresh importer over the staged identities. */
    method BeginRun()
      modifies this`cache, this`batch, this`pins, this`imported, this`skippedLines, this`skippedChats, this`skippedMessages
      modifies this`rows0, this`convs0, this`pinLog0, this`budget0, this`landed, this`writes, this`timers, this`minted, this`named
      ensures Progress([]) && rows0 == rows && convs0 == convs && pinLog0 == pinLog && budget0 == budget
    {
      hide Balanced, TotalDemand, NamedChats, JunkCount, CacheRight, Grown, Accounted;
      ClearCounters();
      ClearBuffers();
      MarkStart();
      StartFacts(env, staging, convs);
      StartBalanced(rows, pinLog);
    }

    /** What holds of the store whatever became of a run: a first part of the wanted rows is
        there, and every pin was applied after the batch with its row. */
    ghost predicate LeftBehind(before: set<Row>, log: seq<PendingPin>, wanted: Demand)
      reads this`rows, this`pinLog, this`writes
    {
      && rows == InsertAll(before, Landings(writes)) && Landings(writes) <= wanted.inserts
      && pinLog == log + PinsApplied(writes) && PinsApplied(writes) <= wanted.pins && PinsFollow(writes)
    }

    /** Pass two from a fresh importer, and what it amounts to. */
    method PassTwo(frames: seq<Frame>, abortAt: nat) returns (status: Status)
      requires staging == StageOf(frames)
      modifies this
      ensures Grown(env, old(convs), convs)
      ensures LeftBehind(old(rows), old(pinLog), Wanted(env, old(convs), frames))
      ensures status.Completed? ==> Settled(frames, Wanted(env, old(convs), frames), old(rows), old(convs), old(pinLog))
      ensures if status.StoreFailed? then budget == 0 else (status.Cancelled? <==> abortAt <= |frames|)
      ensures old(budget) <= budget + Asked(env, StageOf(frames), old(convs), frames)
    {
      hide Progress, Balanced, StageOf, Grown, JunkCount, LostChats, TotalUnits, Landings, PinsApplied, PinsFollow, Asked, TotalDemand;
      BeginRun();
      status := Run(frames, abortAt);
      PrefixBehind(pinLog0, PinsApplied(writes), Wanted(env, convs0, frames).pins);
      if status.Completed? {
        DemandCoversUnits(env, staging, convs0, frames);
        SettledBooks(Books(), rows0, pinLog0, Wanted(env, convs0, frames));
        WantedPinsStored(env, convs0, frames, rows0);
      }
    }

    /** One import of one archive.  `plan` says how many writes the store grants, whether the
        abort flag is up at entry, and at which line of either pass it goes up. */
    method RunImport(frames: seq<Frame>, plan: Plan) returns (status: Status)
      modifies this
      ensures Grown(env, old(convs), convs)
      ensures LeftBehind(old(rows), old(pinLog), Wanted(env, old(convs), frames))
      ensures status.Completed? ==> Settled(frames, Wanted(env, old(convs), frames), old(rows), old(convs), old(pinLog))
      ensures plan.granted >= Enough(env, old(convs), frames) ==>
                && !status.StoreFailed?
                && (status.Cancelled? <==> plan.abortAtEntry || plan.abortFirst <= |frames| || plan.abortSecond <= |frames|)
      ensures status.Completed? ==>
                && Imported(env, old(convs), frames, old(rows), rows)
                && PinsLogged(env, old(convs), frames, old(pinLog), pinLog)
    {
      hide Imported, PinsLogged;
      hide StageOf, Wanted, JunkCount, LostChats, TotalUnits, Grown, Asked, Settled, LeftBehind;
      budget := plan.granted;
      MarkStart();
      NothingLeft(old(rows), old(pinLog), Wanted(env, convs, frames));
      StartFacts(env, staging, convs);
      if budget == 0 {
        return StoreFailed;
      }
      budget := budget - 1;
      if plan.abortAtEntry {
        return Cancelled;
      }
      if budget == 0 {
        return StoreFailed;
      }
      budget := budget - 1;
      staging := Staging(map[], map[]);
      ClearCounters();
      status := PassOne(frames, plan.abortFirst);
      if status.Completed? {
        status := PassTwo(frames, plan.abortSecond);
        if status.Completed? {
          SettledIsImported(frames, old(rows), old(convs), old(pinLog));
        }
      }
      ClearStage(status.Completed?);
      if status.Completed? {
        if budget == 0 {
          return StoreFailed;
        }
        budget := budget - 1;
      }
    }

    lemma SettledIsImported(frames: seq<Frame>, before: set<Row>, convsBefore: Conversations, log: seq<PendingPin>)
      requires Settled(frames, Wanted(env, convsBefore, frames), before, convsBefore, log)
      ensures Imported(env, convsBefore, frames, before, rows) && PinsLogged(env, convsBefore, frames, log, pinLog)
    {
      hide Imported, PinsLogged, TotalDemand, StageOf, InsertAll, NewCount, TotalUnits, JunkCount, LostChats, PinStored;
      InsertAllImports(env, convsBefore, frames, before);
      AllPinsLogged(env, convsBefore, frames, log);
    }

    method ClearStage(completed: bool)
      modifies this`staging
    {
      staging := if completed then staging.(chats := map[]) else Staging(map[], map[]);
    }

    lemma NothingLeft(before: set<Row>, log: seq<PendingPin>, wanted: Demand)
      requires writes == [] && rows == before && pinLog == log
      ensures LeftBehind(before, log, wanted)
    {
    }

    /** What a completed import leaves: all wanted rows, the counters as the archive's
        lines call for, every wanted pin applied, its own row offered and so in the store. */
    ghost predicate Settled(frames: seq<Frame>, wanted: Demand, before: set<Row>, convsBefore: Conversations, log: seq<PendingPin>)
      reads this`rows, this`imported, this`skippedMessages, this`skippedLines, this`skippedChats, this`pinLog
    {
      var st := StageOf(frames);
      && rows == InsertAll(before, wanted.inserts)
      && imported == NewCount(before, wanted.inserts)
      && imported + skippedMessages == TotalUnits(env, st, convsBefore, frames)
      && skippedLines == JunkCount(frames)
      && skippedChats == |LostChats(env, st, convsBefore, frames)|
      && pinLog == log + wanted.pins
      && forall p | p in wanted.pins :: PinStored(p, wanted.inserts, rows)
    }
  }

  lemma PrefixBehind(log: seq<PendingPin>, a: seq<PendingPin>, b: seq<PendingPin>)
    ensures log + a <= log + b ==> a <= b
  {
    if log + a <= log + b {
      assert a == (log + a)[|log|..] && b == (log + b)[|log|..];
    }
  }

  lemma SameBehind(log: seq<PendingPin>, a: seq<PendingPin>, b: seq<PendingPin>)
    requires log + a == log + b
    ensures a == b
  {
    assert a == (log + a)[|log|..] && b == (log + b)[|log|..];
  }

  /** How one attempt goes. */
  datatype Plan = Plan(granted: nat, abortAtEntry: bool, abortFirst: nat, abortSecond: nat)

  /** An upper bound on the store writes of pass two: rows, pins, timer changes, and for
      each chat its conversation and timer. */
  function Asked(env: Env, st: Staging, convs: Conversations, frames: seq<Frame>): nat
  {
    var d := TotalDemand(env, st, convs, frames);
    |d.inserts| + |d.pins| + d.timers + 2 * |NamedChats(frames)|
  }

  /** Enough writes for a whole import: both passes, the status row at either end, and
      clearing the stage. */
  function Enough(env: Env, convs: Conversations, frames: seq<Frame>): nat
  {
    Asked(env, StageOf(frames), convs, frames) + |frames| + 5
  }

  /** A row that the pin points at was offered, and is in the store under its own identity. */
  ghost predicate PinStored(pin: PendingPin, inserts: seq<Insert>, rows: set<Row>)
  {
    exists i :: 0 <= i < |inserts| && Marks(pin, inserts[i].row) && IsDuplicate(rows, inserts[i])
  }

  ghost predicate PinsHaveRows(d: Demand)
  {
    forall p | p in d.pins :: PinHasRow(p, d.inserts)
  }

  lemma BubblePinHasRow(env: Env, st: Staging, chat: Chat, m: Message)
    requires m.direction.Some? && m.dateSent.Some?
    ensures PinsHaveRows(Bubble(env, st, chat, m))
  {
    hide BubbleSender, MessageId;
    var d := Bubble(env, st, chat, m);
    forall p | p in d.pins ensures PinHasRow(p, d.inserts) {
      assert Marks(p, d.inserts[0].row);
    }
  }

  lemma FramePinsHaveRows(env: Env, st: Staging, convs: Conversations, f: Frame)
    ensures PinsHaveRows(FrameDemand(env, st, convs, f))
  {
    hide Resolve, Notice, Bubble;
    if f.MessageFrame? && WellFormed(f.message) && !IsNotice(f.message) {
      var chat := Resolve(env, st, convs, f.message.chatId.value);
      if chat.Some? {
        BubblePinHasRow(env, st, chat.value, f.message);
      }
    }
  }

  lemma {:induction false} AllPinsHaveRows(env: Env, st: Staging, convs: Conversations, frames: seq<Frame>)
    ensures PinsHaveRows(TotalDemand(env, st, convs, frames))
  {
    if frames != [] {
      var init, f := frames[..|frames| - 1], frames[|frames| - 1];
      AllPinsHaveRows(env, st, convs, init);
      FramePinsHaveRows(env, st, convs, f);
      hide FrameDemand, PinsHaveRows;
      PinsOfSum(TotalDemand(env, st, convs, init), FrameDemand(env, st, convs, f));
    }
  }

  lemma PinsOfSum(a: Demand, b: Demand)
    requires PinsHaveRows(a) && PinsHaveRows(b)
    ensures PinsHaveRows(Plus(a, b))
  {
    var inserts := Plus(a, b).inserts;
    forall p | p in Plus(a, b).pins ensures PinHasRow(p, inserts) {
      if p in a.pins {
        var i :| 0 <= i < |a.inserts| && Marks(p, a.inserts[i].row);
        assert inserts[i] == a.inserts[i];
      } else {
        var i :| 0 <= i < |b.inserts| && Marks(p, b.inserts[i].row);
        assert inserts[|a.inserts| + i] == b.inserts[i];
      }
    }
  }

  lemma WantedPinsStored(env: Env, convs: Conversations, frames: seq<Frame>, before: set<Row>)
    ensures var d := Wanted(env, convs, frames);
      forall p | p in d.pins :: PinStored(p, d.inserts, InsertAll(before, d.inserts))
  {
    hide StageOf, TotalDemand, InsertAll, IsDuplicate;
    var d := Wanted(env, convs, frames);
    AllPinsHaveRows(env, StageOf(frames), convs, frames);
    forall p | p in d.pins ensures PinStored(p, d.inserts, InsertAll(before, d.inserts)) {
      var i :| 0 <= i < |d.inserts| && Marks(p, d.inserts[i].row);
      OfferedIsStored(before, d.inserts, i);
    }
  }

  /** Everything an archive asks for. */
  function Wanted(env: Env, convs: Conversations, frames: seq<Frame>): Demand
  {
    TotalDemand(env, StageOf(frames), convs, frames)
  }

  /** Some first part of the inserts has reached the store, nothing else. */
  ghost predicate LandedPart(before: set<Row>, after: set<Row>, inserts: seq<Insert>)
  {
    exists n: nat :: n <= |inserts| && after == InsertAll(before, inserts[..n])
  }

  lemma NothingLanded(rows: set<Row>, inserts: seq<Insert>)
    ensures LandedPart(rows, rows, inserts)
  {
    assert inserts[..0] == [];
    assert rows == InsertAll(rows, inserts[..0]);
  }

  lemma SomeLanded(before: set<Row>, after: set<Row>, landed: seq<Insert>, inserts: seq<Insert>)
    requires after == InsertAll(before, landed) && landed <= inserts
    ensures LandedPart(before, after, inserts)
  {
    assert landed == inserts[..|landed|];
  }

  lemma StartFacts(env: Env, st: Staging, convs: Conversations)
    ensures Grown(env, convs, convs) && CacheRight(env, st, convs, map[], 0)
    ensures TotalDemand(env, st, convs, []) == NOTHING && NamedChats([]) == {} && JunkCount([]) == 0
  {
    assert Unresolved(map[]) == {};
  }

  lemma StartBalanced(rows: set<Row>, pinLog: seq<PendingPin>)
    ensures Balanced(Ledger(rows, [], [], pinLog, [], 0, 0, 0), rows, pinLog, NOTHING)
  {
  }

  lemma SettledBooks(l: Ledger, rows0: set<Row>, pinLog0: seq<PendingPin>, d: Demand)
    requires Balanced(l, rows0, pinLog0, d) && l.batch == [] && l.pins == []
    ensures l.rows == InsertAll(rows0, d.inserts) && l.imported == NewCount(rows0, d.inserts)
    ensures l.imported + l.skippedMessages == Size(d)
    ensures l.pinLog == pinLog0 + d.pins
  {
    assert l.landed == d.inserts;
    assert l.pinLog == pinLog0 + d.pins;
  }

  /** The staging with the pending batches applied. */
  function Pending(st: Staging, recipients: seq<(nat, Recipient)>, chats: seq<(nat, Edge)>): Staging
  {
    Staging(PutRecipients(st.recipients, recipients), PutChats(st.chats, chats))
  }

  lemma PutNothing(st: Staging)
    ensures PutRecipients(st.recipients, []) == st.recipients && PutChats(st.chats, []) == st.chats
  {
  }

  lemma StageSnoc(frames: seq<Frame>, i: nat)
    requires i < |frames|
    ensures StageOf(frames[..i + 1]) == StageFrame(StageOf(frames[..i]), frames[i])
  {
    assert frames[..i + 1][..i] == frames[..i];
  }

  lemma PrefixSnoc(frames: seq<Frame>, i: nat)
    requires i < |frames|
    ensures frames[..i + 1] == frames[..i] + [frames[i]]
  {
  }

  lemma Snoc(env: Env, st: Staging, convs: Conversations, seen: seq<Frame>, f: Frame)
    ensures TotalDemand(env, st, convs, seen + [f]) == Plus(TotalDemand(env, st, convs, seen), FrameDemand(env, st, convs, f))
    ensures NamedChats(seen + [f]) == NamedChats(seen) + NamedBy(f)
    ensures JunkCount(seen + [f]) == JunkCount(seen) + Face(IsJunk(f))
  {
    assert (seen + [f])[..|seen|] == seen;
  }

  lemma {:induction false} DemandPrefix(env: Env, st: Staging, convs: Conversations, frames: seq<Frame>, i: nat)
    requires i <= |frames|
    ensures var some, all := TotalDemand(env, st, convs, frames[..i]), TotalDemand(env, st, convs, frames);
      some.inserts <= all.inserts && some.pins <= all.pins && some.timers <= all.timers
    ensures NamedChats(frames[..i]) <= NamedChats(frames)
    decreases |frames|
  {
    if i == |frames| {
      assert frames[..i] == frames;
    } else {
      assert frames[..|frames| - 1][..i] == frames[..i];
      DemandPrefix(env, st, convs, frames[..|frames| - 1], i);
    }
  }

  ghost function Unresolved(cache: map<nat, Option<Chat>>): set<nat>
  {
    set c | c in cache && cache[c].None?
  }

  lemma UnresolvedPut(cache: map<nat, Option<Chat>>, id: nat, chat: Option<Chat>)
    requires id !in cache
    ensures |Unresolved(cache[id := chat])| == |Unresolved(cache)| + Face(chat.None?)
  {
    assert Unresolved(cache[id := chat]) == if chat.None? then Unresolved(cache) + {id} else Unresolved(cache);
  }

  lemma OneMoreNamed(cache: map<nat, Option<Chat>>, id: nat)
    requires id !in cache
    ensures |cache.Keys + {id}| == |cache.Keys| + 1
  {
  }

  lemma KeysPut(cache: map<nat, Option<Chat>>, id: nat, chat: Option<Chat>)
    ensures cache[id := chat].Keys == cache.Keys + {id}
  {
  }

  lemma LostAreCounted(env: Env, st: Staging, convs: Conversations, cache: map<nat, Option<Chat>>, lost: nat, frames: seq<Frame>)
    requires CacheRight(env, st, convs, cache, lost) && cache.Keys == NamedChats(frames)
    ensures lost == |LostChats(env, st, convs, frames)|
  {
    hide Resolve, NamedChats;
    assert Unresolved(cache) == LostChats(env, st, convs, frames);
  }

  lemma CacheTells(env: Env, st: Staging, convs: Conversations, cache: map<nat, Option<Chat>>, lost: nat, id: nat)
    requires CacheRight(env, st, convs, cache, lost) && id in cache
    ensures cache[id] == Resolve(env, st, convs, id) && cache.Keys == cache.Keys + {id}
  {
  }

  lemma CachePut(env: Env, st: Staging, convs: Conversations, cache: map<nat, Option<Chat>>, lost: nat, id: nat)
    requires CacheRight(env, st, convs, cache, lost) && id !in cache
    ensures var chat := Resolve(env, st, convs, id);
      CacheRight(env, st, convs, cache[id := chat], lost + Face(chat.None?))
  {
    hide Resolve;
    UnresolvedPut(cache, id, Resolve(env, st, convs, id));
    hide Unresolved;
  }

  lemma PlusEmpty(d: Demand)
    ensures Plus(d, NOTHING) == d
    ensures Plus(d, SKIP) == d.(skipped := d.skipped + 1)
  {
    assert d.inserts + [] == d.inserts && d.pins + [] == d.pins;
  }

  /** Two demands in a row are their sum, and the first part is a first part of it. */
  lemma InTwo(d: Demand, a: Demand, b: Demand)
    ensures Plus(Plus(d, a), b) == Plus(d, Plus(a, b))
    ensures Plus(d, a).inserts <= Plus(d, Plus(a, b)).inserts && Plus(d, a).pins <= Plus(d, Plus(a, b)).pins
    ensures Plus(d, a).timers <= Plus(d, Plus(a, b)).timers
  {
  }

  // ------------------------------------------------------------- convergence

  /** The longer of two first parts is what both together leave. */
  lemma PartAfterPart(rows: set<Row>, inserts: seq<Insert>, m: nat, n: nat)
    requires m <= |inserts| && n <= |inserts|
    ensures InsertAll(InsertAll(rows, inserts[..m]), inserts[..n]) == InsertAll(rows, inserts[..if m <= n then n else m])
  {
    hide InsertAll, IsDuplicate;
    if m <= n {
      assert inserts[..n][..m] == inserts[..m];
      PrefixThenAll(rows, inserts[..n], m);
    } else {
      assert inserts[..m] == inserts[..n] + inserts[n..m];
      var part := InsertAll(rows, inserts[..m]);
      forall i | 0 <= i < n ensures IsDuplicate(part, inserts[..n][i]) {
        OfferedIsStored(rows, inserts[..m], i);
        assert inserts[..m][i] == inserts[..n][i];
      }
      DuplicatesChangeNothing(part, inserts[..n]);
    }
  }

  lemma LandedMore(rows0: set<Row>, rows1: set<Row>, rows2: set<Row>, inserts: seq<Insert>)
    requires LandedPart(rows0, rows1, inserts) && LandedPart(rows1, rows2, inserts)
    ensures LandedPart(rows0, rows2, inserts)
  {
    hide InsertAll;
    var m: nat :| m <= |inserts| && rows1 == InsertAll(rows0, inserts[..m]);
    var n: nat :| n <= |inserts| && rows2 == InsertAll(rows1, inserts[..n]);
    PartAfterPart(rows0, inserts, m, n);
    var k := if m <= n then n else m;
    assert rows2 == InsertAll(rows0, inserts[..k]);
  }

  lemma LandedThenAll(rows0: set<Row>, rows1: set<Row>, inserts: seq<Insert>)
    requires LandedPart(rows0, rows1, inserts)
    ensures InsertAll(rows1, inserts) == InsertAll(rows0, inserts)
  {
    hide InsertAll;
    var m: nat :| m <= |inserts| && rows1 == InsertAll(rows0, inserts[..m]);
    PrefixThenAll(rows0, inserts, m);
  }

  lemma GrownMore(env: Env, a: Conversations, b: Conversations, c: Conversations)
    requires Grown(env, a, b) && Grown(env, b, c)
    ensures Grown(env, a, c)
  {
  }

  lemma LeftIsPart(importer: Importer, before: set<Row>, log: seq<PendingPin>, wanted: Demand)
    requires importer.LeftBehind(before, log, wanted)
    ensures LandedPart(before, importer.rows, wanted.inserts)
  {
    SomeLanded(before, importer.rows, Landings(importer.writes), wanted.inserts);
  }

  /** The log has grown by pins of the archive only. */
  ghost predicate PinsGrew(log0: seq<PendingPin>, log: seq<PendingPin>, pins: seq<PendingPin>)
  {
    log0 <= log && forall p | p in log[|log0|..] :: p in pins
  }

  /** Every pin of the archive has been appended since. */
  ghost predicate AllPinned(log0: seq<PendingPin>, log: seq<PendingPin>, pins: seq<PendingPin>)
  {
    log0 <= log && forall p | p in pins :: p in log[|log0|..]
  }

  lemma PinsGrewMore(log0: seq<PendingPin>, log: seq<PendingPin>, more: seq<PendingPin>, pins: seq<PendingPin>)
    requires PinsGrew(log0, log, pins) && more <= pins
    ensures PinsGrew(log0, log + more, pins) && (more == pins ==> AllPinned(log0, log + more, pins))
  {
    assert (log + more)[|log0|..] == log[|log0|..] + more;
  }

  lemma EnoughStable(env: Env, before: Conversations, after: Conversations, frames: seq<Frame>)
    requires Grown(env, before, after)
    ensures Wanted(env, after, frames) == Wanted(env, before, frames)
    ensures Enough(env, after, frames) == Enough(env, before, frames)
  {
    hide StageOf, TotalDemand, Grown, NamedChats;
    DemandStable(env, StageOf(frames), before, after, frames);
  }

  function LeftAlone(frames: seq<Frame>, granted: nat): Plan
  {
    Plan(granted, false, |frames| + 1, |frames| + 1)
  }

  /** Any number of attempts, each aborted anywhere or failing at any write, and then one
      that is left alone: given enough writes it completes, and whenever it completes the
      rows are those of a single import of the same archive into the first store. */
  method ImportWithRetries(importer: Importer, frames: seq<Frame>, attempts: seq<Plan>, granted: nat)
    returns (status: Status)
    modifies importer
    ensures Grown(importer.env, old(importer.convs), importer.convs)
    ensures LandedPart(old(importer.rows), importer.rows, Wanted(importer.env, old(importer.convs), frames).inserts)
    ensures PinsGrew(old(importer.pinLog), importer.pinLog, Wanted(importer.env, old(importer.convs), frames).pins)
    ensures granted >= Enough(importer.env, old(importer.convs), frames) ==> status.Completed?
    ensures status.Completed? ==>
      && importer.rows == InsertAll(old(importer.rows), Wanted(importer.env, old(importer.convs), frames).inserts)
      && AllPinned(old(importer.pinLog), importer.pinLog, Wanted(importer.env, old(importer.convs), frames).pins)
  {
    ghost var rows, convs, log := importer.rows, importer.convs, importer.pinLog;
    assert PinsGrew(log, log, Wanted(importer.env, convs, frames).pins);
    hide Grown, LandedPart, Wanted, InsertAll, Enough, PinsGrew, AllPinned;
    ghost var wanted := Wanted(importer.env, convs, frames).inserts;
    NothingLanded(rows, wanted);
    StartFacts(importer.env, importer.staging, convs);
    for i := 0 to |attempts|
      invariant Grown(importer.env, convs, importer.convs) && LandedPart(rows, importer.rows, wanted)
      invariant PinsGrew(log, importer.pinLog, Wanted(importer.env, convs, frames).pins)
    {
      status := Attempt(importer, frames, attempts[i], rows, convs, log);
    }
    status := Attempt(importer, frames, LeftAlone(frames, granted), rows, convs, log);
  }

  /** One attempt of several, seen from the store before the first one. */
  method Attempt(importer: Importer, frames: seq<Frame>, plan: Plan,
                 ghost rows: set<Row>, ghost convs: Conversations, ghost log: seq<PendingPin>)
    returns (status: Status)
    requires Grown(importer.env, convs, importer.convs)
    requires PinsGrew(log, importer.pinLog, Wanted(importer.env, convs, frames).pins)
    requires LandedPart(rows, importer.rows, Wanted(importer.env, convs, frames).inserts)
    modifies importer
    ensures Grown(importer.env, convs, importer.convs)
    ensures LandedPart(rows, importer.rows, Wanted(importer.env, convs, frames).inserts)
    ensures status.Completed? ==> importer.rows == InsertAll(rows, Wanted(importer.env, convs, frames).inserts)
    ensures PinsGrew(log, importer.pinLog, Wanted(importer.env, convs, frames).pins)
    ensures status.Completed? ==> AllPinned(log, importer.pinLog, Wanted(importer.env, convs, frames).pins)
    ensures plan.granted >= Enough(importer.env, convs, frames) && plan == LeftAlone(frames, plan.granted) ==> status.Completed?
  {
    hide Grown, LandedPart, StageOf, InsertAll, TotalDemand, NewCount, Wanted, Enough, TotalUnits, JunkCount, LostChats, Landings, PinsApplied, PinsFollow, PinStored, PinsGrew, AllPinned;
    EnoughStable(importer.env, convs, importer.convs, frames);
    ghost var rows1, convs1, log1 := importer.rows, importer.convs, importer.pinLog;
    status := importer.RunImport(frames, plan);
    GrownMore(importer.env, convs, convs1, importer.convs);
    LeftIsPart(importer, rows1, log1, Wanted(importer.env, convs, frames));
    PinsGrewMore(log, log1, PinsApplied(importer.writes), Wanted(importer.env, convs, frames).pins);
    LandedMore(rows, rows1, importer.rows, Wanted(importer.env, convs, frames).inserts);
    if status.Completed? {
      LandedThenAll(rows, rows1, Wanted(importer.env, convs, frames).inserts);
      SameBehind(log1, PinsApplied(importer.writes), Wanted(importer.env, convs, frames).pins);
    }
  }

  /** Importing the same archive again into its own result adds no row, imports nothing
      and skips exactly what the first import had imported or skipped. */
  method ImportTwice(importer: Importer, frames: seq<Frame>, granted: nat)
    returns (first: Status, second: Status, imported: nat, skipped: nat)
    modifies importer
    ensures granted >= Enough(importer.env, old(importer.convs), frames) ==> first.Completed? && second.Completed?
    ensures first.Completed? ==>
      && imported == NewCount(old(importer.rows), Wanted(importer.env, old(importer.convs), frames).inserts)
      && imported + skipped == TotalUnits(importer.env, StageOf(frames), old(importer.convs), frames)
    ensures first.Completed? && second.Completed? ==>
      && importer.imported == 0
      && importer.skippedMessages == imported + skipped
      && importer.rows == InsertAll(old(importer.rows), Wanted(importer.env, old(importer.convs), frames).inserts)
  {
    hide Grown, LandedPart, StageOf, InsertAll, TotalDemand, NewCount, TotalUnits, JunkCount, LostChats, Wanted, Enough, PinStored;
    ghost var rows, convs := importer.rows, importer.convs;
    first := importer.RunImport(frames, LeftAlone(frames, granted));
    imported, skipped := importer.imported, importer.skippedMessages;
    EnoughStable(importer.env, convs, importer.convs, frames);
    UnitsStable(importer.env, StageOf(frames), convs, importer.convs, frames);
    AllAgain(rows, Wanted(importer.env, convs, frames).inserts);
    second := importer.RunImport(frames, LeftAlone(frames, granted));
  }

  lemma UnitsStable(env: Env, st: Staging, before: Conversations, after: Conversations, frames: seq<Frame>)
    requires Grown(env, before, after)
    ensures TotalUnits(env, st, after, frames) == TotalUnits(env, st, before, frames)
  {
    hide TotalUnits, TotalDemand, Grown;
    DemandStable(env, st, before, after, frames);
    DemandCoversUnits(env, st, before, frames);
    DemandCoversUnits(env, st, after, frames);
  }
}
