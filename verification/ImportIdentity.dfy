/** What the identities of imported rows mean (src/history_import.rs, src/store.rs):
    which offered rows are left out as duplicates, and when a pin's row is in the store.

    Results that need message ids to be telling assume a hash that tells clean part lists
    apart, as module Identifiers shows of the program's hash, and texts without zero bytes. */
module ImportIdentity {
  import opened Basics
  import opened Identifiers
  import opened Timestamps
  import opened ImportModel
  import opened ImportDriver
  import PinQueue

  // ------------------------------------------------------------------ offered rows

  /** The parts an imported row's id is the hash of: a notice family names itself, any
      other row names its direction and its sender. */
  function IdParts(env: Env, r: Row, family: Option<string>): seq<string>
  {
    match family
    case None => ["signal-message-v2", env.account, r.conversation, r.direction, Decimal(r.sentAt), r.sender]
    case Some(f) => ["signal-message-v2", env.account, r.conversation, f, Decimal(r.sentAt)]
  }

  predicate RowDirection(d: string) { d == "incoming" || d == "outgoing" || d == "system" }

  ghost predicate IdentifiedBy(env: Env, r: Row, family: Option<string>)
  {
    && Clean(IdParts(env, r, family)) && r.id == env.hash(IdParts(env, r, family))
    && (family.None? ==> RowDirection(r.direction))
  }

  ghost predicate Identified(env: Env, r: Row)
  {
    exists family :: IdentifiedBy(env, r, family)
  }

  lemma {:induction false} DecimalInjective(a: nat, b: nat)
    requires Decimal(a) == Decimal(b)
    ensures a == b
  {
    var s, t := Decimal(a), Decimal(b);
    assert s[|s| - 1] == Digit(a % 10) && t[|t| - 1] == Digit(b % 10);
    if a < 10 || b < 10 {
      assert |s| == 1 && |t| == 1;
    } else {
      assert s[..|s| - 1] == Decimal(a / 10) && t[..|t| - 1] == Decimal(b / 10);
      DecimalInjective(a / 10, b / 10);
    }
  }

  lemma {:induction false} DecimalIsClean(n: nat)
    ensures NulFree(Decimal(n))
  {
    if n >= 10 {
      DecimalIsClean(n / 10);
    }
  }

  lemma SameIdSameMessage(env: Env, r: Row, s: Row)
    requires TellsApart(env.hash) && Identified(env, r) && Identified(env, s) && r.id == s.id
    ensures r.conversation == s.conversation && r.sentAt == s.sentAt
  {
    var f :| IdentifiedBy(env, r, f);
    var g :| IdentifiedBy(env, s, g);
    var a, b := IdParts(env, r, f), IdParts(env, s, g);
    assert a == b;
    assert a[2] == b[2] && a[4] == b[4];
    DecimalInjective(r.sentAt, s.sentAt);
  }

  // --------------------------------------------------------- every row is identified

  /** The texts that go into ids have no zero byte: hashes are hexadecimal, the account's
      id and the conversations' are random or hashes, ACIs have the shape of a UUID. */
  ghost predicate CleanTexts(env: Env, st: Staging, convs: Conversations)
  {
    && NulFree(env.account) && (forall parts :: NulFree(env.hash(parts)))
    && (forall key | key in convs :: NulFree(convs[key]))
    && forall id | id in st.recipients :: st.recipients[id].aci.Some? ==> NulFree(st.recipients[id].aci.value)
  }

  ghost predicate AllIdentified(env: Env, inserts: seq<Insert>)
  {
    forall i | 0 <= i < |inserts| :: Identified(env, inserts[i].row)
  }

  lemma DirectedIsIdentified(env: Env, chat: Chat, direction: string, sentAt: nat, sender: string)
    requires NulFree(env.account) && NulFree(chat.conversation) && NulFree(sender) && RowDirection(direction)
    ensures Identified(env, DirectedRow(env, chat, direction, sentAt, sender))
  {
    var r := DirectedRow(env, chat, direction, sentAt, sender);
    DecimalIsClean(sentAt);
    hide Decimal;
    assert IdentifiedBy(env, r, None);
  }

  lemma FamilyIsIdentified(env: Env, chat: Chat, family: string, sentAt: nat, sender: string)
    requires NulFree(env.account) && NulFree(chat.conversation) && NulFree(family)
    ensures Identified(env, FamilyRow(env, chat, family, sentAt, sender))
  {
    var r := FamilyRow(env, chat, family, sentAt, sender);
    DecimalIsClean(sentAt);
    hide Decimal;
    assert IdentifiedBy(env, r, Some(family));
  }

  lemma IdentifiedSum(env: Env, a: Demand, b: Demand)
    requires AllIdentified(env, a.inserts) && AllIdentified(env, b.inserts)
    ensures AllIdentified(env, Plus(a, b).inserts)
  {
    hide Identified;
  }

  lemma BubbleIdentified(env: Env, st: Staging, convs: Conversations, chat: Chat, m: Message)
    requires m.direction.Some? && m.dateSent.Some? && CleanTexts(env, st, convs) && NulFree(chat.conversation)
    ensures AllIdentified(env, Bubble(env, st, chat, m).inserts)
  {
    hide DirectedRow, Identified, NulFree;
    var sender := BubbleSender(env, st, chat, m);
    if sender.Some? {
      assert NulFree(sender.value.0);
      hide BubbleSender;
      var direction := if m.direction.value.Outgoing? then "outgoing" else "incoming";
      DirectedIsIdentified(env, chat, direction, m.dateSent.value, sender.value.0);
    }
  }

  lemma TimerAndGroupIdentified(env: Env, st: Staging, convs: Conversations, chat: Chat, m: Message)
    requires m.dateSent.Some? && CleanTexts(env, st, convs) && NulFree(chat.conversation)
    ensures AllIdentified(env, TimerFace(env, chat, m).inserts) && AllIdentified(env, GroupFace(env, st, chat, m).inserts)
  {
    hide DirectedRow, Identified, NulFree;
    var t := m.dateSent.value;
    DirectedIsIdentified(env, chat, "system", t, PeerSender(env, chat));
    DirectedIsIdentified(env, chat, "system", t, env.account);
    var author := Author(env, st, m);
    if author.Some? {
      DirectedIsIdentified(env, chat, "system", t, HashedSender(env, chat.kind, SourceOf(env, author.value).value));
    }
  }

  lemma FamiliesIdentified(env: Env, st: Staging, convs: Conversations, chat: Chat, m: Message)
    requires m.dateSent.Some? && CleanTexts(env, st, convs) && NulFree(chat.conversation)
    ensures AllIdentified(env, SimpleFace(env, st, chat, m).inserts) && AllIdentified(env, TitleAndMerge(env, chat, m).inserts)
  {
    hide FamilyRow, HashedSender, Identified;
    var t, peer := m.dateSent.value, PeerSender(env, chat);
    FamilyIsIdentified(env, chat, "joinedSignal", t, peer);
    FamilyIsIdentified(env, chat, "changeNumber", t, peer);
    var author := Author(env, st, m);
    if author.Some? {
      FamilyIsIdentified(env, chat, "changeNumber", t, HashedSender(env, chat.kind, SourceOf(env, author.value).value));
    }
    FamilyIsIdentified(env, chat, "titleTransition", t, peer);
    FamilyIsIdentified(env, chat, "threadMerge", t, peer);
  }

  lemma NoticeIdentified(env: Env, st: Staging, convs: Conversations, chat: Chat, m: Message)
    requires m.dateSent.Some? && CleanTexts(env, st, convs) && NulFree(chat.conversation)
    ensures AllIdentified(env, Notice(env, st, chat, m).inserts)
  {
    hide AllIdentified, TimerFace, GroupFace, SimpleFace, TitleAndMerge, CleanTexts, NulFree;
    TimerAndGroupIdentified(env, st, convs, chat, m);
    FamiliesIdentified(env, st, convs, chat, m);
    IdentifiedSum(env, SimpleFace(env, st, chat, m), TitleAndMerge(env, chat, m));
    IdentifiedSum(env, GroupFace(env, st, chat, m), Plus(SimpleFace(env, st, chat, m), TitleAndMerge(env, chat, m)));
    IdentifiedSum(env, TimerFace(env, chat, m), AfterTimer(env, st, chat, m));
  }

  lemma ConversationIsClean(env: Env, st: Staging, convs: Conversations, chatId: nat)
    requires CleanTexts(env, st, convs) && Resolve(env, st, convs, chatId).Some?
    ensures NulFree(Resolve(env, st, convs, chatId).value.conversation)
  {
    hide NulFree;
  }

  lemma FrameIdentified(env: Env, st: Staging, convs: Conversations, f: Frame)
    requires CleanTexts(env, st, convs)
    ensures AllIdentified(env, FrameDemand(env, st, convs, f).inserts)
  {
    hide Resolve, Notice, Bubble, Identified, CleanTexts, NulFree;
    if f.MessageFrame? && WellFormed(f.message) {
      var chat := Resolve(env, st, convs, f.message.chatId.value);
      if chat.Some? {
        ConversationIsClean(env, st, convs, f.message.chatId.value);
        NoticeIdentified(env, st, convs, chat.value, f.message);
        if f.message.direction.Some? {
          BubbleIdentified(env, st, convs, chat.value, f.message);
        }
      }
    }
  }

  lemma {:induction false} WantedIdentified(env: Env, st: Staging, convs: Conversations, frames: seq<Frame>)
    requires CleanTexts(env, st, convs)
    ensures AllIdentified(env, TotalDemand(env, st, convs, frames).inserts)
  {
    hide AllIdentified, FrameDemand, CleanTexts;
    if frames == [] {
      NothingIdentified(env);
    } else {
      var init, f := frames[..|frames| - 1], frames[|frames| - 1];
      WantedIdentified(env, st, convs, init);
      FrameIdentified(env, st, convs, f);
      IdentifiedSum(env, TotalDemand(env, st, convs, init), FrameDemand(env, st, convs, f));
    }
  }

  lemma NothingIdentified(env: Env)
    ensures AllIdentified(env, [])
  {
  }

  // ------------------------------------------------------- when a pin's row is stored

  ghost predicate HasMarked(rows: set<Row>, p: PendingPin)
  {
    exists r :: r in rows && Marks(p, r)
  }

  ghost predicate IdTaken(rows: set<Row>, id: string)
  {
    exists r :: r in rows && r.id == id
  }

  /** Some row that the pin points at is offered under an id the store does not have. */
  ghost predicate OfferedFree(before: set<Row>, inserts: seq<Insert>, p: PendingPin)
  {
    exists i :: 0 <= i < |inserts| && Marks(p, inserts[i].row) && !IdTaken(before, inserts[i].row.id)
  }

  /** A row of the pin's conversation and time is in the store after the import if and only
      if one was there before, or one is offered under an id that the store did not have. */
  lemma PinRowStoredIff(env: Env, before: set<Row>, inserts: seq<Insert>, p: PendingPin)
    requires TellsApart(env.hash) && AllIdentified(env, inserts)
    ensures HasMarked(InsertAll(before, inserts), p) <==> HasMarked(before, p) || OfferedFree(before, inserts, p)
  {
    hide TellsApart, Identified, InsertAll, IsDuplicate;
    var after := InsertAll(before, inserts);
    assert inserts[..|inserts|] == inserts;
    if r :| r in after && Marks(p, r) {
      StoredRows(before, inserts, |inserts|, r);
      if r !in before {
        var j :| 0 <= j < |inserts| && Fresh(before, inserts, j) && inserts[j].row == r;
        FreshIdIsFree(before, inserts, j);
      }
    }
    if HasMarked(before, p) {
      var r :| r in before && Marks(p, r);
      StoredRows(before, inserts, |inserts|, r);
    }
    if i :| 0 <= i < |inserts| && Marks(p, inserts[i].row) && !IdTaken(before, inserts[i].row.id) {
      FreeIsStored(env, before, inserts, p, i);
    }
  }

  lemma FreshIdIsFree(before: set<Row>, inserts: seq<Insert>, j: nat)
    requires j < |inserts| && Fresh(before, inserts, j)
    ensures !IdTaken(before, inserts[j].row.id)
  {
    RowsOnlyGrow(before, inserts[..j]);
    if r :| r in before && r.id == inserts[j].row.id {
      assert Clash(r, inserts[j]);
    }
  }

  lemma FreeIsStored(env: Env, before: set<Row>, inserts: seq<Insert>, p: PendingPin, i: nat)
    requires TellsApart(env.hash) && AllIdentified(env, inserts)
    requires i < |inserts| && Marks(p, inserts[i].row) && !IdTaken(before, inserts[i].row.id)
    ensures HasMarked(InsertAll(before, inserts), p)
  {
    OfferedIsStored(before, inserts, i);
    hide TellsApart, Identified, InsertAll, Fresh;
    var s :| s in InsertAll(before, inserts) && Clash(s, inserts[i]);
    if s.id == inserts[i].row.id {
      assert inserts[..|inserts|] == inserts;
      StoredRows(before, inserts, |inserts|, s);
      var j :| 0 <= j < |inserts| && inserts[j].row == s;
      SameIdSameMessage(env, s, inserts[i].row);
    }
    assert Marks(p, s);
  }

  // ------------------------------------------------------- the ids the program mints

  /** How a message row gets its id: received, sent or imported (src/service.rs,
      src/history_import.rs, src/store.rs). */
  datatype Mint =
    | MessageMint(conversation: string, direction: string, sentAt: nat, sender: string)
    | FamilyMint(conversation: string, family: string, sentAt: nat)
    | SentMint(conversation: string, request: string)
    | WordMint(conversation: string, kind: string, word: string, sentAt: nat)
    | StoryMint(sentAt: nat)

  function MintParts(env: Env, m: Mint): seq<string>
  {
    match m
    case MessageMint(c, d, t, s) => ["signal-message-v2", env.account, c, d, Decimal(t), s]
    case FamilyMint(c, f, t) => ["signal-message-v2", env.account, c, f, Decimal(t)]
    case SentMint(c, r) => [env.account, c, "outgoing", r]
    case WordMint(c, k, w, t) => ["signal-message-v2", env.account, c, k, w, Decimal(t)]
    case StoryMint(t) => ["signal-story-sync", env.account, Decimal(t)]
  }

  /** Session resets, identity changes and message requests name themselves. */
  predicate WordKind(k: string) { k == "sessionReset" || k == "identityChanged" || k == "mrr" }

  /** `r` has an id of this making and, if that names a conversation and a time, is still
      the message of that conversation and time. */
  ghost predicate MintedAs(env: Env, r: Row, m: Mint)
  {
    && Clean(MintParts(env, m)) && r.id == env.hash(MintParts(env, m)) && (m.WordMint? ==> WordKind(m.kind))
    && (m.MessageMint? || m.FamilyMint? ==> m.conversation == r.conversation && m.sentAt == r.sentAt)
  }

  ghost predicate Minted(env: Env, r: Row)
  {
    exists m :: MintedAs(env, r, m)
  }

  /** Of all the ids the program makes, only those of the same conversation and time are
      ids of an imported row. */
  lemma MintTells(env: Env, r: Row, m: Mint, s: Row)
    requires TellsApart(env.hash) && MintedAs(env, r, m) && Identified(env, s) && r.id == s.id
    ensures r.conversation == s.conversation && r.sentAt == s.sentAt
  {
    var f :| IdentifiedBy(env, s, f);
    var a, b := MintParts(env, m), IdParts(env, s, f);
    assert a == b && |a| == |b| && |a| >= 5;
    assert a[2] == b[2] && a[3] == b[3] && a[4] == b[4];
    if !m.WordMint? {
      DecimalInjective(m.sentAt, s.sentAt);
    }
  }

  /** In a store of rows that the program made and has not moved to another conversation,
      every pin of a completed import has a row of its conversation and time. */
  lemma PinnedRowIsStored(env: Env, convs: Conversations, frames: seq<Frame>, before: set<Row>, p: PendingPin)
    requires TellsApart(env.hash) && CleanTexts(env, StageOf(frames), convs) && forall r | r in before :: Minted(env, r)
    requires p in Wanted(env, convs, frames).pins
    ensures HasMarked(InsertAll(before, Wanted(env, convs, frames).inserts), p)
  {
    var inserts := Wanted(env, convs, frames).inserts;
    AllPinsHaveRows(env, StageOf(frames), convs, frames);
    WantedIdentified(env, StageOf(frames), convs, frames);
    hide StageOf, TotalDemand, InsertAll, Identified, TellsApart, CleanTexts;
    var i :| 0 <= i < |inserts| && Marks(p, inserts[i].row);
    PinRowStoredIff(env, before, inserts, p);
    if r :| r in before && r.id == inserts[i].row.id {
      var m :| MintedAs(env, r, m);
      MintTells(env, r, m, inserts[i].row);
      assert Marks(p, r);
    }
  }

  /** A row that a merge moved to another conversation keeps its id.  Where the archive
      offers that row again in the old conversation, it is left out, and the pin points at
      nothing. */
  lemma MovedRowLosesItsPin(env: Env, elsewhere: string)
    returns (frames: seq<Frame>, before: set<Row>, p: PendingPin)
    requires env.signalAccount != "+1" && elsewhere != env.hash([env.account, "direct", "+1"])
    ensures |before| == 1 && p in Wanted(env, map[], frames).pins
    ensures !HasMarked(InsertAll(before, Wanted(env, map[], frames).inserts), p)
  {
    hide Wanted, MessageId, InsertAll, HasMarked;
    var alice := Recipient(ContactRecipient, None, Some("+1"), None);
    var m := Message(Some(1), Some(7), Some(Outgoing), false, false, None, None, None, None, true, Some(Pin(9, None)));
    frames := [RecipientFrame(Some(1), alice), ChatFrame(Some(1), Some(1), None), MessageFrame(m)];
    var chat := Chat(env.hash([env.account, "direct", "+1"]), Direct, "+1");
    var row := DirectedRow(env, chat, "outgoing", 7, env.account);
    p := PendingPin(chat.conversation, 7, Pin(9, None));
    before := {row.(conversation := elsewhere)};
    OneMessageArchive(env, alice, m, frames, chat, row, p);
    MovedIsDuplicate(row, elsewhere, p);
  }

  lemma MovedIsDuplicate(row: Row, elsewhere: string, p: PendingPin)
    requires elsewhere != p.conversation
    ensures var before := {row.(conversation := elsewhere)};
      InsertAll(before, [Insert(row, [])]) == before && !HasMarked(before, p)
  {
    var before, ins := {row.(conversation := elsewhere)}, Insert(row, []);
    assert Clash(row.(conversation := elsewhere), ins);
    assert [ins][..0] == [] && InsertAll(before, []) == before;
  }

  lemma OneMessageArchive(env: Env, alice: Recipient, m: Message, frames: seq<Frame>, chat: Chat, row: Row, p: PendingPin)
    requires env.signalAccount != "+1" && alice == Recipient(ContactRecipient, None, Some("+1"), None)
    requires m == Message(Some(1), Some(7), Some(Outgoing), false, false, None, None, None, None, true, Some(Pin(9, None)))
    requires frames == [RecipientFrame(Some(1), alice), ChatFrame(Some(1), Some(1), None), MessageFrame(m)]
    requires chat == Chat(env.hash([env.account, "direct", "+1"]), Direct, "+1")
    requires row == DirectedRow(env, chat, "outgoing", 7, env.account) && p == PendingPin(chat.conversation, 7, Pin(9, None))
    ensures Wanted(env, map[], frames).inserts == [Insert(row, [])] && Wanted(env, map[], frames).pins == [p]
  {
    StageOfThree(frames);
    var st := StageOf(frames);
    assert st.recipients == map[1 := alice] && st.chats == map[1 := Edge(1, None)];
    hide StageOf, StageFrame;
    OutgoingDemand(env, alice, m, st, chat);
    DemandOfThree(env, st, frames);
    hide FrameDemand, TotalDemand, DirectedRow;
  }

  lemma StageOfThree(frames: seq<Frame>)
    requires |frames| == 3
    ensures StageOf(frames) == StageFrame(StageFrame(StageFrame(Staging(map[], map[]), frames[0]), frames[1]), frames[2])
  {
    hide StageFrame;
    var two, one := frames[..2], frames[..1];
    assert two[..1] == one && one[..0] == [] && two[1] == frames[1] && one[0] == frames[0];
    assert StageOf(one) == StageFrame(StageOf([]), frames[0]);
    assert StageOf(two) == StageFrame(StageOf(one), frames[1]);
  }

  lemma DemandOfThree(env: Env, st: Staging, frames: seq<Frame>)
    requires |frames| == 3 && frames[0].RecipientFrame? && frames[1].ChatFrame?
    ensures TotalDemand(env, st, map[], frames) == FrameDemand(env, st, map[], frames[2])
  {
    assert FrameDemand(env, st, map[], frames[0]) == NOTHING && FrameDemand(env, st, map[], frames[1]) == NOTHING;
    hide FrameDemand, TotalDemand;
    assert frames == [] + [frames[0]] + [frames[1]] + [frames[2]];
    StartFacts(env, st, map[]);
    PlusEmpty(NOTHING);
    Snoc(env, st, map[], [], frames[0]);
    Snoc(env, st, map[], [] + [frames[0]], frames[1]);
    Snoc(env, st, map[], [] + [frames[0]] + [frames[1]], frames[2]);
    EmptyPlus(FrameDemand(env, st, map[], frames[2]));
  }

  lemma EmptyPlus(d: Demand)
    ensures Plus(NOTHING, d) == d
  {
    assert [] + d.inserts == d.inserts && [] + d.pins == d.pins;
  }

  lemma OutgoingDemand(env: Env, alice: Recipient, m: Message, st: Staging, chat: Chat)
    requires env.signalAccount != "+1" && alice == Recipient(ContactRecipient, None, Some("+1"), None)
    requires m == Message(Some(1), Some(7), Some(Outgoing), false, false, None, None, None, None, true, Some(Pin(9, None)))
    requires st == Staging(map[1 := alice], map[1 := Edge(1, None)])
    requires chat == Chat(env.hash([env.account, "direct", "+1"]), Direct, "+1")
    ensures FrameDemand(env, st, map[], MessageFrame(m)) ==
              Demand([Insert(DirectedRow(env, chat, "outgoing", 7, env.account), [])], 0, [PendingPin(chat.conversation, 7, Pin(9, None))], 0)
  {
    hide DirectedRow;
    assert Resolve(env, st, map[], 1) == Some(chat);
    hide Resolve;
  }

  // ------------------------------------------------------------- pins converge too

  /** The pins of one conversation, as its queue sees them. */
  function PinsOf(log: seq<PendingPin>, conversation: string): seq<PinQueue.Entry>
  {
    if log == [] then []
    else
      var init, last := PinsOf(log[..|log| - 1], conversation), log[|log| - 1];
      if last.conversation == conversation then init + [PinQueue.Entry(last.sentAt, last.pin)] else init
  }

  lemma {:induction false} PinsOfHas(log: seq<PendingPin>, conversation: string, e: PinQueue.Entry)
    ensures e in PinsOf(log, conversation) <==> PendingPin(conversation, e.target, e.pin) in log
  {
    if log != [] {
      var init, last := log[..|log| - 1], log[|log| - 1];
      assert log == init + [last];
      PinsOfHas(init, conversation, e);
    }
  }

  /** After any attempts and a completed one, every conversation's queue of pinned messages
      is that of a single import, if its pins are decided. */
  lemma PinsConverge(log0: seq<PendingPin>, log: seq<PendingPin>, pins: seq<PendingPin>, conversation: string)
    requires PinsGrew(log0, log, pins) && AllPinned(log0, log, pins)
    requires PinQueue.Decided(PinsOf(log0 + pins, conversation))
    ensures PinQueue.SamePins(PinQueue.Appends(PinsOf(log, conversation)), PinQueue.Appends(PinsOf(log0 + pins, conversation)))
  {
    hide PinQueue.Appends, PinQueue.Decided;
    assert log == log0 + log[|log0|..];
    forall e ensures e in PinsOf(log, conversation) <==> e in PinsOf(log0 + pins, conversation) {
      PinsOfHas(log, conversation, e);
      PinsOfHas(log0 + pins, conversation, e);
    }
    PinQueue.QueueIgnoresOrder(PinsOf(log0 + pins, conversation), PinsOf(log, conversation));
  }

  // --------------------------------------------------------------- rows left out

  /** The insert is stored when its turn comes. */
  ghost predicate Fresh(rows: set<Row>, inserts: seq<Insert>, i: nat)
    requires i < |inserts|
  {
    !IsDuplicate(InsertAll(rows, inserts[..i]), inserts[i])
  }

  lemma {:induction false} StoredRows(rows: set<Row>, inserts: seq<Insert>, n: nat, r: Row)
    requires n <= |inserts|
    ensures r in InsertAll(rows, inserts[..n]) <==> r in rows || exists j :: 0 <= j < n && Fresh(rows, inserts, j) && inserts[j].row == r
  {
    hide IsDuplicate;
    if n > 0 {
      StoredRows(rows, inserts, n - 1, r);
      assert inserts[..n][..n - 1] == inserts[..n - 1];
      assert InsertAll(rows, inserts[..n]) == InsertOne(InsertAll(rows, inserts[..n - 1]), inserts[n - 1]);
      if Fresh(rows, inserts, n - 1) && inserts[n - 1].row == r {
        assert r in InsertAll(rows, inserts[..n]);
      }
    }
  }

  /** An offered row is left out exactly if the store had it before, or an earlier row of
      the same offer that was stored clashes with it. */
  lemma LeftOutIff(rows: set<Row>, inserts: seq<Insert>, i: nat)
    requires i < |inserts|
    ensures !Fresh(rows, inserts, i) <==>
              IsDuplicate(rows, inserts[i]) || exists j :: 0 <= j < i && Fresh(rows, inserts, j) && Clash(inserts[j].row, inserts[i])
  {
    hide Clash, InsertAll;
    var here := InsertAll(rows, inserts[..i]);
    if r :| r in here && Clash(r, inserts[i]) {
      hide Fresh;
      StoredRows(rows, inserts, i, r);
    }
    if r :| r in rows && Clash(r, inserts[i]) {
      StoredRows(rows, inserts, i, r);
    }
    if j :| 0 <= j < i && Fresh(rows, inserts, j) && Clash(inserts[j].row, inserts[i]) {
      StoredRows(rows, inserts, i, inserts[j].row);
    }
  }

  /** A notice row of one chat and time: of a family, or the timer's and the group's kind. */
  function NoticeRow(env: Env, chat: Chat, family: Option<string>, sentAt: nat, sender: string): Row
  {
    match family
    case None => DirectedRow(env, chat, "system", sentAt, sender)
    case Some(f) => FamilyRow(env, chat, f, sentAt, sender)
  }

  /** Two notices of one chat and time keep each other out exactly when their senders
      agree, although every family has an id of its own. */
  lemma NoticesClashIff(env: Env, chat: Chat, sentAt: nat, f: Option<string>, sender: string,
                        g: Option<string>, other: string, alternates: seq<string>)
    requires TellsApart(env.hash) && NulFree(env.account) && NulFree(chat.conversation) && NulFree(sender) && NulFree(other)
    requires (f.Some? ==> NulFree(f.value)) && (g.Some? ==> NulFree(g.value)) && (f != g || f.None?)
    ensures Clash(NoticeRow(env, chat, f, sentAt, sender), Insert(NoticeRow(env, chat, g, sentAt, other), alternates))
            <==> sender == other || sender in alternates
  {
    var r, s := NoticeRow(env, chat, f, sentAt, sender), NoticeRow(env, chat, g, sentAt, other);
    if r.id == s.id {
      DecimalIsClean(sentAt);
      var a, b := IdParts(env, r, f), IdParts(env, s, g);
      hide Decimal;
      assert Clean(a) && Clean(b) && env.hash(a) == env.hash(b);
      assert a == b;
      assert |a| == |b| && a[3] == b[3];
      if f.None? {
        assert a[5] == b[5];
      }
    }
  }

  /** Rows of one conversation, direction, time and sender: at most one of them is stored. */
  lemma OnlyOneLands(rows: set<Row>, inserts: seq<Insert>, i: nat, j: nat)
    requires i < j < |inserts| && Clash(inserts[i].row, inserts[j]) && Fresh(rows, inserts, i)
    ensures !Fresh(rows, inserts, j)
  {
    LeftOutIff(rows, inserts, j);
  }

  /** The row is a notice of the chat and time with the peer as its sender. */
  predicate PeerNotice(env: Env, chat: Chat, sentAt: nat, r: Row)
  {
    r.conversation == chat.conversation && r.direction == "system" && r.sentAt == sentAt && r.sender == PeerSender(env, chat)
  }

  /** Of all the rows of one frame that have the peer as their sender at most one is
      stored, whatever the store holds. */
  lemma PeerNoticesCollapse(env: Env, st: Staging, chat: Chat, m: Message, rows: set<Row>, i: nat, j: nat)
    requires m.dateSent.Some? && i < j < |Notice(env, st, chat, m).inserts|
    requires PeerNotice(env, chat, m.dateSent.value, Notice(env, st, chat, m).inserts[i].row)
    requires PeerNotice(env, chat, m.dateSent.value, Notice(env, st, chat, m).inserts[j].row)
    ensures !(Fresh(rows, Notice(env, st, chat, m).inserts, i) && Fresh(rows, Notice(env, st, chat, m).inserts, j))
  {
    hide Notice, Fresh;
    var inserts := Notice(env, st, chat, m).inserts;
    if Fresh(rows, inserts, i) {
      OnlyOneLands(rows, inserts, i, j);
    }
  }

  /** Such rows are those of a timer change and of a joined notice, whatever stands between
      them, and those of a title transition and of a thread merge. */
  lemma PeerNoticesAre(env: Env, st: Staging, chat: Chat, m: Message) returns (i: nat, j: nat)
    requires m.dateSent.Some?
    requires (m.timerChange && m.simpleUpdate == Some(JoinedSignal)) || (m.learnedProfile == Some(true) && m.threadMerge == Some(true))
    ensures i < j < |Notice(env, st, chat, m).inserts|
    ensures PeerNotice(env, chat, m.dateSent.value, Notice(env, st, chat, m).inserts[i].row)
    ensures PeerNotice(env, chat, m.dateSent.value, Notice(env, st, chat, m).inserts[j].row)
  {
    hide PeerNotice, TimerFace, GroupFace, SimpleFace, TitleAndMerge;
    FacesArePeer(env, st, chat, m);
    var a, b, c, d := TimerFace(env, chat, m).inserts, GroupFace(env, st, chat, m).inserts,
                      SimpleFace(env, st, chat, m).inserts, TitleAndMerge(env, chat, m).inserts;
    var all := Notice(env, st, chat, m).inserts;
    assert all == a + (b + (c + d));
    hide Notice;
    if m.timerChange && m.simpleUpdate == Some(JoinedSignal) {
      i, j := 0, |a| + |b|;
      assert all[i] == a[0] && all[j] == c[0];
    } else {
      i, j := |a| + |b| + |c|, |a| + |b| + |c| + 1;
      assert all[i] == d[0] && all[j] == d[1];
    }
  }

  lemma FacesArePeer(env: Env, st: Staging, chat: Chat, m: Message)
    requires m.dateSent.Some?
    ensures m.timerChange ==>
              |TimerFace(env, chat, m).inserts| == 1 && PeerNotice(env, chat, m.dateSent.value, TimerFace(env, chat, m).inserts[0].row)
    ensures m.simpleUpdate == Some(JoinedSignal) ==>
              |SimpleFace(env, st, chat, m).inserts| == 1 && PeerNotice(env, chat, m.dateSent.value, SimpleFace(env, st, chat, m).inserts[0].row)
    ensures m.learnedProfile == Some(true) && m.threadMerge == Some(true) ==>
              var d := TitleAndMerge(env, chat, m).inserts;
              |d| == 2 && PeerNotice(env, chat, m.dateSent.value, d[0].row) && PeerNotice(env, chat, m.dateSent.value, d[1].row)
  {
    hide HashedSender, MessageId;
  }
}
