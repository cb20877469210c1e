/** What a history archive means (src/history_import.rs, src/store.rs): frames, the
    identities they stage, the rows they call for, and the store's duplicate rule.
    The driver in module ImportDriver is proved against these definitions.

    Parsing is abstracted to the frame datatypes below; `hash` stands for
    `stable_hash_id` and nothing is assumed of it. */
module ImportModel {
  import opened Basics
  import opened Timestamps

  datatype RecipientKind = GroupRecipient | SelfRecipient | ContactRecipient | OtherRecipient

  datatype Recipient = Recipient(
    kind: RecipientKind, aci: Option<string>, e164: Option<string>, masterKey: Option<string>)

  datatype Direction = Incoming | Outgoing

  datatype SimpleUpdate = JoinedSignal | ChangeNumber | OtherUpdate

  datatype Pin = Pin(pinnedAt: nat, expiresAt: Option<nat>)

  /** One message frame: `dateSent` is present only when positive, the notice faces say
      whether they carry usable material, `hasContent` whether anything in the frame
      makes a bubble, `pin` is a well-formed pin. */
  datatype Message = Message(
    chatId: Option<nat>,
    dateSent: Option<nat>,
    direction: Option<Direction>,
    timerChange: bool,
    groupUpdate: bool,
    simpleUpdate: Option<SimpleUpdate>,
    learnedProfile: Option<bool>,
    threadMerge: Option<bool>,
    authorId: Option<nat>,
    hasContent: bool,
    pin: Option<Pin>)

  datatype Frame =
    | OverlongLine
    | BlankLine
    | UnparseableLine
    | UnknownFrame
    | RecipientFrame(id: Option<nat>, recipient: Recipient)
    | ChatFrame(chat: Option<nat>, recipientId: Option<nat>, timer: Option<nat>)
    | AdhocCall
    | MessageFrame(message: Message)

  datatype ConversationKind = Direct | Group

  function KindText(kind: ConversationKind): string
  {
    match kind case Direct => "direct" case Group => "group"
  }

  type ConversationKey = (ConversationKind, string)

  datatype Env = Env(account: string, signalAccount: string, selfAci: Option<string>, hash: seq<string> -> string)

  // ------------------------------------------------------------- identities

  /** Whom a chat is with, and the disappearing timer that its frame states. */
  datatype Edge = Edge(recipient: nat, timer: Option<nat>)

  datatype Staging = Staging(recipients: map<nat, Recipient>, chats: map<nat, Edge>)

  /** Staging one frame; a later frame for the same id replaces an earlier one. */
  function StageFrame(st: Staging, f: Frame): Staging
  {
    match f
    case RecipientFrame(Some(id), r) => st.(recipients := st.recipients[id := r])
    case ChatFrame(Some(c), Some(r), timer) => st.(chats := st.chats[c := Edge(r, timer)])
    case _ => st
  }

  function StageOf(frames: seq<Frame>): Staging
  {
    if frames == [] then Staging(map[], map[])
    else StageFrame(StageOf(frames[..|frames| - 1]), frames[|frames| - 1])
  }

  function OrElse<T>(a: Option<T>, b: Option<T>): Option<T>
  {
    if a.Some? then a else b
  }

  /** The number when known, else the ACI; the account's own number for the self chat. */
  function SourceOf(env: Env, r: Recipient): Option<string>
  {
    if r.kind.SelfRecipient? then Some(env.signalAccount) else OrElse(r.e164, r.aci)
  }

  function AlternateSourceOf(r: Recipient): Option<string>
  {
    if r.kind.SelfRecipient? || r.e164.Some? then r.aci else None
  }

  function ChatIdentity(env: Env, r: Recipient): Option<ConversationKey>
  {
    match r.kind
    case GroupRecipient => if r.masterKey.Some? && r.masterKey.value != "" then Some((Group, r.masterKey.value)) else None
    case SelfRecipient => Some((Direct, env.signalAccount))
    case ContactRecipient =>
      var peer := OrElse(r.e164, r.aci);
      if peer.Some? then Some((Direct, peer.value)) else None
    case OtherRecipient => None
  }

  /** A direct chat with the account's own number lives under the account's ACI. */
  function CanonicalKey(env: Env, key: ConversationKey): ConversationKey
  {
    if key.0.Direct? && key.1 == env.signalAccount && env.selfAci.Some? && env.selfAci.value != key.1
    then (Direct, env.selfAci.value) else key
  }

  function MintedId(env: Env, key: ConversationKey): string
  {
    env.hash([env.account, KindText(key.0), key.1])
  }

  type Conversations = map<ConversationKey, string>

  function ConversationId(env: Env, convs: Conversations, key: ConversationKey): string
  {
    if key in convs then convs[key] else MintedId(env, key)
  }

  datatype Chat = Chat(conversation: string, kind: ConversationKind, peer: string)

  function Resolve(env: Env, st: Staging, convs: Conversations, chatId: nat): Option<Chat>
  {
    if chatId !in st.chats || st.chats[chatId].recipient !in st.recipients then None
    else
      var key := ChatIdentity(env, st.recipients[st.chats[chatId].recipient]);
      if key.None? then None
      else Some(Chat(ConversationId(env, convs, CanonicalKey(env, key.value)), key.value.0, key.value.1))
  }

  // -------------------------------------------------------------- rows

  datatype Row = Row(id: string, conversation: string, direction: string, sentAt: nat, sender: string)

  /** A row to write, with the other sender spellings under which it may already exist. */
  datatype Insert = Insert(row: Row, alternates: seq<string>)

  datatype PendingPin = PendingPin(conversation: string, sentAt: nat, pin: Pin)

  /** What one frame asks for: rows, counted skips, pins, and writes of a conversation's timer. */
  datatype Demand = Demand(inserts: seq<Insert>, skipped: nat, pins: seq<PendingPin>, timers: nat)

  const NOTHING := Demand([], 0, [], 0)
  const SKIP := Demand([], 1, [], 0)

  function Face(present: bool): nat { if present then 1 else 0 }

  /** Rows called for plus skips counted. */
  function Size(d: Demand): nat { |d.inserts| + d.skipped }

  function Plus(a: Demand, b: Demand): (d: Demand)
    ensures Size(d) == Size(a) + Size(b)
  {
    Demand(a.inserts + b.inserts, a.skipped + b.skipped, a.pins + b.pins, a.timers + b.timers)
  }

  function Author(env: Env, st: Staging, m: Message): Option<Recipient>
  {
    if m.authorId.Some? && m.authorId.value in st.recipients
       && SourceOf(env, st.recipients[m.authorId.value]).Some?
    then Some(st.recipients[m.authorId.value]) else None
  }

  function HashedSender(env: Env, kind: ConversationKind, source: string): string
  {
    env.hash([env.account, KindText(kind), source])
  }

  function MessageId(env: Env, chat: Chat, direction: string, sentAt: nat, sender: string): string
  {
    env.hash(["signal-message-v2", env.account, chat.conversation, direction, Decimal(sentAt), sender])
  }

  function DirectedRow(env: Env, chat: Chat, direction: string, sentAt: nat, sender: string): Row
  {
    Row(MessageId(env, chat, direction, sentAt, sender), chat.conversation, direction, sentAt, sender)
  }

  /** A system notice of a family of its own, identified without its sender. */
  function FamilyRow(env: Env, chat: Chat, family: string, sentAt: nat, sender: string): Row
  {
    Row(env.hash(["signal-message-v2", env.account, chat.conversation, family, Decimal(sentAt)]),
        chat.conversation, "system", sentAt, sender)
  }

  function PeerSender(env: Env, chat: Chat): string
  {
    HashedSender(env, chat.kind, chat.peer)
  }

  function OneRow(row: Row, alternates: seq<string>): Demand
  {
    Demand([Insert(row, alternates)], 0, [], 0)
  }

  function BubbleSender(env: Env, st: Staging, chat: Chat, m: Message): Option<(string, seq<string>)>
    requires m.direction.Some?
  {
    if m.direction.value.Outgoing? then Some((env.account, []))
    else
      var author := Author(env, st, m);
      if author.None? then None
      else if author.value.aci.Some? then
        var aci := author.value.aci.value;
        var byNumber := if author.value.e164.Some? then [HashedSender(env, chat.kind, author.value.e164.value)] else [];
        Some((aci, byNumber + [HashedSender(env, chat.kind, aci)]))
      else Some((HashedSender(env, chat.kind, SourceOf(env, author.value).value), []))
  }

  function Bubble(env: Env, st: Staging, chat: Chat, m: Message): (d: Demand)
    requires m.direction.Some? && m.dateSent.Some?
    ensures Size(d) == 1
  {
    var sender := BubbleSender(env, st, chat, m);
    if sender.None? || !m.hasContent then SKIP
    else
      var direction := if m.direction.value.Outgoing? then "outgoing" else "incoming";
      var row := DirectedRow(env, chat, direction, m.dateSent.value, sender.value.0);
      Demand([Insert(row, sender.value.1)], 0,
             if m.pin.Some? then [PendingPin(chat.conversation, m.dateSent.value, m.pin.value)] else [], 0)
  }

  function TimerFace(env: Env, chat: Chat, m: Message): (d: Demand)
    requires m.dateSent.Some?
    ensures Size(d) == Face(m.timerChange) && d.pins == []
  {
    if !m.timerChange then NOTHING
    else OneRow(DirectedRow(env, chat, "system", m.dateSent.value, PeerSender(env, chat)), []).(timers := 1)
  }

  function GroupFace(env: Env, st: Staging, chat: Chat, m: Message): (d: Demand)
    requires m.dateSent.Some?
    ensures Size(d) == Face(m.groupUpdate) && d.pins == []
  {
    if !m.groupUpdate then NOTHING
    else if m.direction == Some(Outgoing) then OneRow(DirectedRow(env, chat, "system", m.dateSent.value, env.account), [])
    else
      var author := Author(env, st, m);
      if author.None? then SKIP
      else
        var sender := HashedSender(env, chat.kind, SourceOf(env, author.value).value);
        var other := AlternateSourceOf(author.value);
        OneRow(DirectedRow(env, chat, "system", m.dateSent.value, sender),
               if other.Some? then [HashedSender(env, chat.kind, other.value)] else [])
  }

  function SimpleFace(env: Env, st: Staging, chat: Chat, m: Message): (d: Demand)
    requires m.dateSent.Some?
    ensures Size(d) == Face(m.simpleUpdate.Some?) && d.pins == []
  {
    match m.simpleUpdate
    case None => NOTHING
    case Some(JoinedSignal) => OneRow(FamilyRow(env, chat, "joinedSignal", m.dateSent.value, PeerSender(env, chat)), [])
    case Some(ChangeNumber) =>
      var author := Author(env, st, m);
      var sender := if author.Some? then HashedSender(env, chat.kind, SourceOf(env, author.value).value)
                    else PeerSender(env, chat);
      OneRow(FamilyRow(env, chat, "changeNumber", m.dateSent.value, sender), [])
    case Some(OtherUpdate) => SKIP
  }

  function FamilyFace(env: Env, chat: Chat, face: Option<bool>, family: string, sentAt: nat): (d: Demand)
    ensures Size(d) == Face(face.Some?) && d.pins == []
  {
    match face
    case None => NOTHING
    case Some(usable) => if usable then OneRow(FamilyRow(env, chat, family, sentAt, PeerSender(env, chat)), []) else SKIP
  }

  /** A face other than the timer makes the frame a notice whatever its direction. */
  predicate StandingNotice(m: Message)
  {
    m.groupUpdate || m.simpleUpdate.Some? || m.learnedProfile.Some? || m.threadMerge.Some?
  }

  predicate WellFormed(m: Message)
  {
    m.chatId.Some? && m.dateSent.Some? && (m.direction.Some? || m.timerChange || StandingNotice(m))
  }

  predicate IsNotice(m: Message)
  {
    m.direction.None? || StandingNotice(m)
  }

  function TitleAndMerge(env: Env, chat: Chat, m: Message): (d: Demand)
    requires m.dateSent.Some?
    ensures Size(d) == Face(m.learnedProfile.Some?) + Face(m.threadMerge.Some?) && d.pins == []
  {
    Plus(FamilyFace(env, chat, m.learnedProfile, "titleTransition", m.dateSent.value),
         FamilyFace(env, chat, m.threadMerge, "threadMerge", m.dateSent.value))
  }

  function AfterTimer(env: Env, st: Staging, chat: Chat, m: Message): (d: Demand)
    requires m.dateSent.Some?
    ensures Size(d) == Face(m.groupUpdate) + Face(m.simpleUpdate.Some?)
                       + Face(m.learnedProfile.Some?) + Face(m.threadMerge.Some?)
    ensures d.pins == []
  {
    Plus(GroupFace(env, st, chat, m), Plus(SimpleFace(env, st, chat, m), TitleAndMerge(env, chat, m)))
  }

  function Notice(env: Env, st: Staging, chat: Chat, m: Message): (d: Demand)
    requires m.dateSent.Some?
    ensures Size(d) == Face(m.timerChange) + Face(m.groupUpdate) + Face(m.simpleUpdate.Some?)
                       + Face(m.learnedProfile.Some?) + Face(m.threadMerge.Some?)
    ensures d.pins == []
  {
    Plus(TimerFace(env, chat, m), AfterTimer(env, st, chat, m))
  }

  function ChatDemand(env: Env, st: Staging, chat: Chat, m: Message): Demand
    requires WellFormed(m)
  {
    if IsNotice(m) then Notice(env, st, chat, m) else Bubble(env, st, chat, m)
  }

  function MessageDemand(env: Env, st: Staging, convs: Conversations, m: Message): Demand
  {
    if !WellFormed(m) then SKIP
    else
      var chat := Resolve(env, st, convs, m.chatId.value);
      if chat.None? then NOTHING else ChatDemand(env, st, chat.value, m)
  }

  function FrameDemand(env: Env, st: Staging, convs: Conversations, f: Frame): Demand
  {
    match f
    case AdhocCall => SKIP
    case MessageFrame(m) => MessageDemand(env, st, convs, m)
    case _ => NOTHING
  }

  function TotalDemand(env: Env, st: Staging, convs: Conversations, frames: seq<Frame>): Demand
  {
    if frames == [] then NOTHING
    else Plus(TotalDemand(env, st, convs, frames[..|frames| - 1]), FrameDemand(env, st, convs, frames[|frames| - 1]))
  }

  // ---------------------------------------------------- conversations only grow

  /** `after` has the entries of `before` and, beyond them, only freshly minted ones. */
  ghost predicate Grown(env: Env, before: Conversations, after: Conversations)
  {
    && (forall key | key in before :: key in after && after[key] == before[key])
    && (forall key | key in after && key !in before :: after[key] == MintedId(env, key))
  }

  /** Minting conversations never changes how a chat resolves. */
  lemma ResolveStable(env: Env, st: Staging, before: Conversations, after: Conversations, chatId: nat)
    requires Grown(env, before, after)
    ensures Resolve(env, st, after, chatId) == Resolve(env, st, before, chatId)
  {
  }

  lemma {:induction false} DemandStable(env: Env, st: Staging, before: Conversations, after: Conversations, frames: seq<Frame>)
    requires Grown(env, before, after)
    ensures TotalDemand(env, st, after, frames) == TotalDemand(env, st, before, frames)
  {
    if frames != [] {
      var f := frames[|frames| - 1];
      DemandStable(env, st, before, after, frames[..|frames| - 1]);
      if f.MessageFrame? && f.message.chatId.Some? {
        ResolveStable(env, st, before, after, f.message.chatId.value);
      }
    }
  }

  // -------------------------------------------------------- the store's rows

  /** The same id, or the same message under one of the insert's spellings. */
  predicate Clash(r: Row, ins: Insert)
  {
    || r.id == ins.row.id
    || (r.conversation == ins.row.conversation && r.direction == ins.row.direction && r.sentAt == ins.row.sentAt
        && (r.sender == ins.row.sender || r.sender in ins.alternates))
  }

  /** Already stored. */
  predicate IsDuplicate(rows: set<Row>, ins: Insert)
  {
    exists r | r in rows :: Clash(r, ins)
  }

  function InsertOne(rows: set<Row>, ins: Insert): set<Row>
  {
    if IsDuplicate(rows, ins) then rows else rows + {ins.row}
  }

  function InsertAll(rows: set<Row>, inserts: seq<Insert>): set<Row>
  {
    if inserts == [] then rows
    else InsertOne(InsertAll(rows, inserts[..|inserts| - 1]), inserts[|inserts| - 1])
  }

  /** How many of the inserts are not duplicates when their turn comes. */
  function NewCount(rows: set<Row>, inserts: seq<Insert>): (n: nat)
    ensures n <= |inserts|
  {
    if inserts == [] then 0
    else
      var init := inserts[..|inserts| - 1];
      NewCount(rows, init) + Face(!IsDuplicate(InsertAll(rows, init), inserts[|inserts| - 1]))
  }

  lemma {:induction false} InsertAllConcat(rows: set<Row>, a: seq<Insert>, b: seq<Insert>)
    ensures InsertAll(rows, a + b) == InsertAll(InsertAll(rows, a), b)
    ensures NewCount(rows, a + b) == NewCount(rows, a) + NewCount(InsertAll(rows, a), b)
  {
    if b == [] {
      assert a + b == a;
    } else {
      assert (a + b)[..|a + b| - 1] == a + b[..|b| - 1];
      InsertAllConcat(rows, a, b[..|b| - 1]);
    }
  }

  lemma {:induction false} RowsOnlyGrow(rows: set<Row>, inserts: seq<Insert>)
    ensures rows <= InsertAll(rows, inserts)
  {
    if inserts != [] {
      RowsOnlyGrow(rows, inserts[..|inserts| - 1]);
    }
  }

  /** Whatever has been offered once is a duplicate from then on. */
  lemma {:induction false} OfferedIsStored(rows: set<Row>, inserts: seq<Insert>, i: nat)
    requires i < |inserts|
    ensures IsDuplicate(InsertAll(rows, inserts), inserts[i])
  {
    var init := inserts[..|inserts| - 1];
    if i < |init| {
      OfferedIsStored(rows, init, i);
    } else {
      var before, after := InsertAll(rows, init), InsertAll(rows, inserts);
      if !IsDuplicate(before, inserts[i]) {
        assert inserts[i].row in after;
      }
    }
  }

  lemma {:induction false} DuplicatesChangeNothing(rows: set<Row>, inserts: seq<Insert>)
    requires forall i | 0 <= i < |inserts| :: IsDuplicate(rows, inserts[i])
    ensures InsertAll(rows, inserts) == rows && NewCount(rows, inserts) == 0
  {
    if inserts != [] {
      DuplicatesChangeNothing(rows, inserts[..|inserts| - 1]);
    }
  }

  /** Offering a prefix first and then everything is the same as offering everything. */
  lemma PrefixThenAll(rows: set<Row>, inserts: seq<Insert>, n: nat)
    requires n <= |inserts|
    ensures InsertAll(InsertAll(rows, inserts[..n]), inserts) == InsertAll(rows, inserts)
  {
    var part := InsertAll(rows, inserts[..n]);
    assert inserts == inserts[..n] + inserts[n..];
    forall i | 0 <= i < n ensures IsDuplicate(part, inserts[..n][i]) {
      OfferedIsStored(rows, inserts[..n], i);
    }
    DuplicatesChangeNothing(part, inserts[..n]);
    InsertAllConcat(part, inserts[..n], inserts[n..]);
    InsertAllConcat(rows, inserts[..n], inserts[n..]);
  }

  /** Offering everything a second time changes nothing and finds nothing new. */
  lemma AllAgain(rows: set<Row>, inserts: seq<Insert>)
    ensures InsertAll(InsertAll(rows, inserts), inserts) == InsertAll(rows, inserts)
    ensures NewCount(InsertAll(rows, inserts), inserts) == 0
  {
    var all := InsertAll(rows, inserts);
    forall i | 0 <= i < |inserts| ensures IsDuplicate(all, inserts[i]) {
      OfferedIsStored(rows, inserts, i);
    }
    DuplicatesChangeNothing(all, inserts);
  }

  // ------------------------------------------------------------- accounting

  /** What a frame must show up as, read off the frame alone: one unit for a call record,
      a malformed message or a bubble, one for every face of a notice, and none when the
      chat does not resolve. */
  function Units(env: Env, st: Staging, convs: Conversations, f: Frame): nat
  {
    match f
    case AdhocCall => 1
    case MessageFrame(m) =>
      if !WellFormed(m) then 1
      else if Resolve(env, st, convs, m.chatId.value).None? then 0
      else if IsNotice(m) then
        Face(m.timerChange) + Face(m.groupUpdate) + Face(m.simpleUpdate.Some?)
        + Face(m.learnedProfile.Some?) + Face(m.threadMerge.Some?)
      else 1
    case _ => 0
  }

  function TotalUnits(env: Env, st: Staging, convs: Conversations, frames: seq<Frame>): nat
  {
    if frames == [] then 0
    else TotalUnits(env, st, convs, frames[..|frames| - 1]) + Units(env, st, convs, frames[|frames| - 1])
  }

  predicate IsJunk(f: Frame)
  {
    f.OverlongLine? || f.UnparseableLine? || f.UnknownFrame?
  }

  function JunkCount(frames: seq<Frame>): nat
  {
    if frames == [] then 0
    else JunkCount(frames[..|frames| - 1]) + Face(IsJunk(frames[|frames| - 1]))
  }

  function NamedBy(f: Frame): set<nat>
  {
    if f.MessageFrame? && WellFormed(f.message) then {f.message.chatId.value} else {}
  }

  /** The chats that well-formed messages name. */
  function NamedChats(frames: seq<Frame>): set<nat>
  {
    if frames == [] then {} else NamedChats(frames[..|frames| - 1]) + NamedBy(frames[|frames| - 1])
  }

  function LostChats(env: Env, st: Staging, convs: Conversations, frames: seq<Frame>): set<nat>
  {
    set c | c in NamedChats(frames) && Resolve(env, st, convs, c).None?
  }

  lemma FrameCoversUnits(env: Env, st: Staging, convs: Conversations, f: Frame)
    ensures Size(FrameDemand(env, st, convs, f)) == Units(env, st, convs, f)
  {
  }

  /** Every unit becomes a row to write or a counted skip. */
  lemma {:induction false} DemandCoversUnits(env: Env, st: Staging, convs: Conversations, frames: seq<Frame>)
    ensures Size(TotalDemand(env, st, convs, frames)) == TotalUnits(env, st, convs, frames)
  {
    if frames != [] {
      DemandCoversUnits(env, st, convs, frames[..|frames| - 1]);
      FrameCoversUnits(env, st, convs, frames[|frames| - 1]);
    }
  }
}
