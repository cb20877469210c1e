/** Which rows an archive asks for, told from its frames and from the recipients they stage
    and not from the driver's ladder of functions (src/history_import.rs). */
module ImportRows {
  import opened Basics
  import opened Timestamps
  import opened ImportModel

  // ------------------------------------------------------------- what is staged

  /** The last recipient frame with this id says `r`. */
  ghost predicate LastRecipient(frames: seq<Frame>, id: nat, r: Recipient)
  {
    exists i ::
      && 0 <= i < |frames| && frames[i] == RecipientFrame(Some(id), r)
      && forall j | i < j < |frames| :: !(frames[j].RecipientFrame? && frames[j].id == Some(id))
  }

  /** The last chat frame with this id that names a recipient says `e`. */
  ghost predicate LastChat(frames: seq<Frame>, chat: nat, e: Edge)
  {
    exists i ::
      && 0 <= i < |frames| && frames[i] == ChatFrame(Some(chat), Some(e.recipient), e.timer)
      && forall j | i < j < |frames| ::
           !(frames[j].ChatFrame? && frames[j].chat == Some(chat) && frames[j].recipientId.Some?)
  }

  /** Staging keeps the last frame of every id. */
  lemma {:induction false} StagedIsLast(frames: seq<Frame>, id: nat, r: Recipient, e: Edge)
    ensures id in StageOf(frames).recipients && StageOf(frames).recipients[id] == r <==> LastRecipient(frames, id, r)
    ensures id in StageOf(frames).chats && StageOf(frames).chats[id] == e <==> LastChat(frames, id, e)
  {
    if frames != [] {
      var init, last := frames[..|frames| - 1], frames[|frames| - 1];
      assert frames == init + [last];
      StagedIsLast(init, id, r, e);
      RecipientSnoc(init, last, id, r);
      ChatSnoc(init, last, id, e);
      hide LastRecipient, LastChat;
    }
  }

  lemma RecipientSnoc(init: seq<Frame>, last: Frame, id: nat, r: Recipient)
    ensures LastRecipient(init + [last], id, r)
      <==> if last.RecipientFrame? && last.id == Some(id) then last.recipient == r else LastRecipient(init, id, r)
  {
    var frames := init + [last];
    assert frames[|init|] == last;
    if !(last.RecipientFrame? && last.id == Some(id)) && LastRecipient(init, id, r) {
      var i :| 0 <= i < |init| && init[i] == RecipientFrame(Some(id), r)
               && forall j | i < j < |init| :: !(init[j].RecipientFrame? && init[j].id == Some(id));
      assert frames[i] == init[i];
    }
    if LastRecipient(frames, id, r) {
      var i :| 0 <= i < |frames| && frames[i] == RecipientFrame(Some(id), r)
               && forall j | i < j < |frames| :: !(frames[j].RecipientFrame? && frames[j].id == Some(id));
      if i < |init| {
        assert init[i] == frames[i];
        assert forall j | i < j < |init| :: init[j] == frames[j];
      }
    }
  }

  lemma ChatSnoc(init: seq<Frame>, last: Frame, id: nat, e: Edge)
    ensures LastChat(init + [last], id, e)
      <==> if last.ChatFrame? && last.chat == Some(id) && last.recipientId.Some?
           then Edge(last.recipientId.value, last.timer) == e else LastChat(init, id, e)
  {
    var frames := init + [last];
    assert frames[|init|] == last;
    if !(last.ChatFrame? && last.chat == Some(id) && last.recipientId.Some?) && LastChat(init, id, e) {
      var i :| 0 <= i < |init| && init[i] == ChatFrame(Some(id), Some(e.recipient), e.timer)
               && forall j | i < j < |init| :: !(init[j].ChatFrame? && init[j].chat == Some(id) && init[j].recipientId.Some?);
      assert frames[i] == init[i];
    }
    if LastChat(frames, id, e) {
      var i :| 0 <= i < |frames| && frames[i] == ChatFrame(Some(id), Some(e.recipient), e.timer)
               && forall j | i < j < |frames| :: !(frames[j].ChatFrame? && frames[j].chat == Some(id) && frames[j].recipientId.Some?);
      if i < |init| {
        assert init[i] == frames[i];
        assert forall j | i < j < |init| :: init[j] == frames[j];
      }
    }
  }

  // -------------------------------------------------------------- where a chat is

  /** The number when there is one, else the ACI. */
  predicate NumberFirst(r: Recipient, s: string)
  {
    if r.e164.Some? then s == r.e164.value else r.aci == Some(s)
  }

  function Namespace(kind: ConversationKind): string { if kind.Direct? then "direct" else "group" }

  /** How the store spells a peer. */
  function Hashed(env: Env, kind: ConversationKind, s: string): string
  {
    env.hash([env.account, Namespace(kind), s])
  }

  /** The stored conversation with the peer, or the one that would be made for it; notes to
      oneself are kept under the account's ACI when that is known. */
  predicate KeptIn(env: Env, convs: Conversations, chat: Chat)
  {
    var peer := if chat.kind.Direct? && chat.peer == env.signalAccount && env.selfAci.Some?
                then env.selfAci.value else chat.peer;
    chat.conversation == if (chat.kind, peer) in convs then convs[(chat.kind, peer)] else Hashed(env, chat.kind, peer)
  }

  /** The chat is with its recipient: a group by its master key, oneself by the account's own
      number, a contact by number before ACI. */
  ghost predicate Located(env: Env, st: Staging, convs: Conversations, chatId: nat, chat: Chat)
  {
    && chatId in st.chats && st.chats[chatId].recipient in st.recipients
    && KeptIn(env, convs, chat)
    && var r := st.recipients[st.chats[chatId].recipient];
       match r.kind
       case GroupRecipient => chat.kind == Group && chat.peer != "" && r.masterKey == Some(chat.peer)
       case SelfRecipient => chat.kind == Direct && chat.peer == env.signalAccount
       case ContactRecipient => chat.kind == Direct && NumberFirst(r, chat.peer)
       case OtherRecipient => false
  }

  lemma ResolvedIsLocated(env: Env, st: Staging, convs: Conversations, chatId: nat, chat: Chat)
    ensures Resolve(env, st, convs, chatId) == Some(chat) <==> Located(env, st, convs, chatId, chat)
  {
  }

  // ------------------------------------------------------------- what a frame asks

  /** The kinds of rows a message frame can ask for, in the order they are written. */
  datatype Shape = Said | TimerMoved | GroupChanged | Joined | NumberChanged | Retitled | ThreadsMerged

  function Rank(s: Shape): nat
  {
    match s
    case Said => 0 case TimerMoved => 1 case GroupChanged => 2 case Joined => 3
    case NumberChanged => 4 case Retitled => 5 case ThreadsMerged => 6
  }

  /** The frame carries a notice other than a timer change. */
  predicate Notifies(m: Message)
  {
    m.groupUpdate || m.simpleUpdate.Some? || m.learnedProfile.Some? || m.threadMerge.Some?
  }

  predicate Usable(m: Message)
  {
    m.chatId.Some? && m.dateSent.Some? && (m.direction.Some? || m.timerChange || Notifies(m))
  }

  /** The author is staged and goes by `source`: oneself by the account's own number, anyone
      else by number before ACI. */
  ghost predicate NamedAs(env: Env, st: Staging, m: Message, r: Recipient, source: string)
  {
    && m.authorId.Some? && m.authorId.value in st.recipients && st.recipients[m.authorId.value] == r
    && if r.kind.SelfRecipient? then source == env.signalAccount else NumberFirst(r, source)
  }

  /** A row of this direction and sender, at the frame's time, identified by all of that. */
  predicate Directed(env: Env, chat: Chat, m: Message, row: Row, direction: string, sender: string)
    requires m.dateSent.Some?
  {
    && row.conversation == chat.conversation && row.direction == direction
    && row.sentAt == m.dateSent.value && row.sender == sender
    && row.id == env.hash(["signal-message-v2", env.account, chat.conversation, direction, Decimal(row.sentAt), sender])
  }

  /** A system row at the frame's time, identified by its family and not by its sender. */
  predicate OfFamily(env: Env, chat: Chat, m: Message, ins: Insert, family: string, sender: string)
    requires m.dateSent.Some?
  {
    && ins.alternates == []
    && ins.row.conversation == chat.conversation && ins.row.direction == "system"
    && ins.row.sentAt == m.dateSent.value && ins.row.sender == sender
    && ins.row.id == env.hash(["signal-message-v2", env.account, chat.conversation, family, Decimal(ins.row.sentAt)])
  }

  function OneIf(o: Option<string>, env: Env, kind: ConversationKind): seq<string>
  {
    if o.Some? then [Hashed(env, kind, o.value)] else []
  }

  /** A message received: the sender is the author's ACI as it stands, and may be stored under
      the hash of the number or of the ACI; without an ACI it is the hash of the source. */
  predicate Received(env: Env, chat: Chat, m: Message, ins: Insert, r: Recipient, source: string)
    requires m.dateSent.Some?
  {
    if r.aci.Some? then
      && Directed(env, chat, m, ins.row, "incoming", r.aci.value)
      && ins.alternates == OneIf(r.e164, env, chat.kind) + [Hashed(env, chat.kind, r.aci.value)]
    else Directed(env, chat, m, ins.row, "incoming", Hashed(env, chat.kind, source)) && ins.alternates == []
  }

  /** A group change by a named author, which may be stored under the ACI instead. */
  predicate Changed(env: Env, chat: Chat, m: Message, ins: Insert, r: Recipient, source: string)
    requires m.dateSent.Some?
  {
    && Directed(env, chat, m, ins.row, "system", Hashed(env, chat.kind, source))
    && ins.alternates == if r.kind.SelfRecipient? || r.e164.Some? then OneIf(r.aci, env, chat.kind) else []
  }

  /** What the frame asks for in its chat, shape by shape. */
  ghost predicate Asks(env: Env, st: Staging, chat: Chat, m: Message, shape: Shape, ins: Insert)
    requires m.dateSent.Some?
  {
    match shape
    case Said =>
      && m.direction.Some? && !Notifies(m) && m.hasContent
      && if m.direction.value.Outgoing? then Directed(env, chat, m, ins.row, "outgoing", env.account) && ins.alternates == []
         else exists r, source :: NamedAs(env, st, m, r, source) && Received(env, chat, m, ins, r, source)
    case TimerMoved =>
      && m.timerChange && (m.direction.None? || Notifies(m))
      && Directed(env, chat, m, ins.row, "system", Hashed(env, chat.kind, chat.peer)) && ins.alternates == []
    case GroupChanged =>
      && m.groupUpdate
      && if m.direction == Some(Outgoing) then Directed(env, chat, m, ins.row, "system", env.account) && ins.alternates == []
         else exists r, source :: NamedAs(env, st, m, r, source) && Changed(env, chat, m, ins, r, source)
    case Joined =>
      m.simpleUpdate == Some(JoinedSignal) && OfFamily(env, chat, m, ins, "joinedSignal", Hashed(env, chat.kind, chat.peer))
    case NumberChanged =>
      && m.simpleUpdate == Some(ChangeNumber)
      && ((exists r, source :: NamedAs(env, st, m, r, source)
                               && OfFamily(env, chat, m, ins, "changeNumber", Hashed(env, chat.kind, source)))
          || ((forall r, source :: !NamedAs(env, st, m, r, source))
              && OfFamily(env, chat, m, ins, "changeNumber", Hashed(env, chat.kind, chat.peer))))
    case Retitled =>
      m.learnedProfile == Some(true) && OfFamily(env, chat, m, ins, "titleTransition", Hashed(env, chat.kind, chat.peer))
    case ThreadsMerged =>
      m.threadMerge == Some(true) && OfFamily(env, chat, m, ins, "threadMerge", Hashed(env, chat.kind, chat.peer))
  }

  /** The frame asks for this row: it is a usable message in a chat that can be located. */
  ghost predicate Owes(env: Env, st: Staging, convs: Conversations, f: Frame, shape: Shape, ins: Insert)
  {
    && f.MessageFrame? && Usable(f.message)
    && exists chat :: Located(env, st, convs, f.message.chatId.value, chat) && Asks(env, st, chat, f.message, shape, ins)
  }

  // -------------------------------------------------- each face gives what is asked

  /** At most one row, and exactly the one that is asked for. */
  ghost predicate Gives(env: Env, st: Staging, chat: Chat, m: Message, shape: Shape, inserts: seq<Insert>)
    requires m.dateSent.Some?
  {
    |inserts| <= 1 && forall ins :: Asks(env, st, chat, m, shape, ins) <==> inserts == [ins]
  }

  lemma AuthorIsNamed(env: Env, st: Staging, m: Message)
    ensures forall r, source ::
      NamedAs(env, st, m, r, source)
      <==> Author(env, st, m) == Some(r) && SourceOf(env, r) == Some(source)
  {
  }

  lemma DirectedIs(env: Env, chat: Chat, m: Message, row: Row, direction: string, sender: string)
    requires m.dateSent.Some?
    ensures Directed(env, chat, m, row, direction, sender)
      <==> row == DirectedRow(env, chat, direction, m.dateSent.value, sender)
  {
    hide Decimal;
  }

  lemma OfFamilyIs(env: Env, chat: Chat, m: Message, ins: Insert, family: string, sender: string)
    requires m.dateSent.Some?
    ensures OfFamily(env, chat, m, ins, family, sender)
      <==> ins == Insert(FamilyRow(env, chat, family, m.dateSent.value, sender), [])
  {
    hide Decimal;
  }

  lemma HashedIs(env: Env, kind: ConversationKind, s: string)
    ensures Hashed(env, kind, s) == HashedSender(env, kind, s)
  {
  }

  lemma SaidIsGiven(env: Env, st: Staging, chat: Chat, m: Message)
    requires m.dateSent.Some? && m.direction.Some? && !Notifies(m)
    ensures Gives(env, st, chat, m, Said, Bubble(env, st, chat, m).inserts)
  {
    AuthorIsNamed(env, st, m);
    hide NamedAs, Directed, DirectedRow, Hashed, HashedSender, Author, SourceOf;
    forall ins ensures Asks(env, st, chat, m, Said, ins) <==> Bubble(env, st, chat, m).inserts == [ins] {
      if m.direction.value.Outgoing? {
        DirectedIs(env, chat, m, ins.row, "outgoing", env.account);
      } else {
        ReceivedIs(env, st, chat, m, ins);
      }
    }
  }

  lemma ReceivedIs(env: Env, st: Staging, chat: Chat, m: Message, ins: Insert)
    requires m.dateSent.Some? && m.direction == Some(Incoming)
    ensures (exists r, source :: NamedAs(env, st, m, r, source) && Received(env, chat, m, ins, r, source))
      <==> BubbleSender(env, st, chat, m).Some?
           && ins == Insert(DirectedRow(env, chat, "incoming", m.dateSent.value, BubbleSender(env, st, chat, m).value.0),
                            BubbleSender(env, st, chat, m).value.1)
  {
    AuthorIsNamed(env, st, m);
    hide NamedAs, Directed, DirectedRow, Hashed, HashedSender, SourceOf;
    var author := Author(env, st, m);
    if author.Some? {
      var r, source := author.value, SourceOf(env, author.value).value;
      assert NamedAs(env, st, m, r, source);
      forall s ensures Hashed(env, chat.kind, s) == HashedSender(env, chat.kind, s) {
        HashedIs(env, chat.kind, s);
      }
      DirectedIs(env, chat, m, ins.row, "incoming", if r.aci.Some? then r.aci.value else Hashed(env, chat.kind, source));
    }
  }

  lemma TimerIsGiven(env: Env, st: Staging, chat: Chat, m: Message)
    requires m.dateSent.Some? && (m.direction.None? || Notifies(m))
    ensures Gives(env, st, chat, m, TimerMoved, TimerFace(env, chat, m).inserts)
  {
    hide Directed, DirectedRow, Hashed, HashedSender;
    HashedIs(env, chat.kind, chat.peer);
    forall ins ensures Asks(env, st, chat, m, TimerMoved, ins) <==> TimerFace(env, chat, m).inserts == [ins] {
      DirectedIs(env, chat, m, ins.row, "system", Hashed(env, chat.kind, chat.peer));
    }
  }

  lemma GroupIsGiven(env: Env, st: Staging, chat: Chat, m: Message)
    requires m.dateSent.Some?
    ensures Gives(env, st, chat, m, GroupChanged, GroupFace(env, st, chat, m).inserts)
  {
    AuthorIsNamed(env, st, m);
    hide NamedAs, Directed, DirectedRow, Hashed, HashedSender, SourceOf, Changed;
    forall ins ensures Asks(env, st, chat, m, GroupChanged, ins) <==> GroupFace(env, st, chat, m).inserts == [ins] {
      DirectedIs(env, chat, m, ins.row, "system", env.account);
      var author := Author(env, st, m);
      if author.Some? {
        assert NamedAs(env, st, m, author.value, SourceOf(env, author.value).value);
        ChangedIs(env, chat, m, ins, author.value, SourceOf(env, author.value).value);
      }
    }
  }

  lemma ChangedIs(env: Env, chat: Chat, m: Message, ins: Insert, r: Recipient, source: string)
    requires m.dateSent.Some?
    ensures Changed(env, chat, m, ins, r, source)
      <==> ins.row == DirectedRow(env, chat, "system", m.dateSent.value, HashedSender(env, chat.kind, source))
           && ins.alternates == var other := AlternateSourceOf(r);
                                if other.Some? then [HashedSender(env, chat.kind, other.value)] else []
  {
    hide Directed, DirectedRow, Hashed, HashedSender;
    HashedIs(env, chat.kind, source);
    if r.aci.Some? {
      HashedIs(env, chat.kind, r.aci.value);
    }
    DirectedIs(env, chat, m, ins.row, "system", Hashed(env, chat.kind, source));
  }

  lemma SimpleIsGiven(env: Env, st: Staging, chat: Chat, m: Message) returns (joined: seq<Insert>, changed: seq<Insert>)
    requires m.dateSent.Some?
    ensures SimpleFace(env, st, chat, m).inserts == joined + changed
    ensures Gives(env, st, chat, m, Joined, joined) && Gives(env, st, chat, m, NumberChanged, changed)
  {
    var inserts := SimpleFace(env, st, chat, m).inserts;
    joined := if m.simpleUpdate == Some(JoinedSignal) then inserts else [];
    changed := if m.simpleUpdate == Some(ChangeNumber) then inserts else [];
    JoinedIsGiven(env, st, chat, m);
    NumberIsGiven(env, st, chat, m);
    hide Gives, FamilyRow, PeerSender, HashedSender, Author, SourceOf;
    assert [] + inserts == inserts && inserts + [] == inserts;
  }

  lemma JoinedIsGiven(env: Env, st: Staging, chat: Chat, m: Message)
    requires m.dateSent.Some?
    ensures Gives(env, st, chat, m, Joined, if m.simpleUpdate == Some(JoinedSignal) then SimpleFace(env, st, chat, m).inserts else [])
  {
    hide OfFamily, FamilyRow, Hashed, HashedSender, Author, SourceOf;
    HashedIs(env, chat.kind, chat.peer);
    forall ins
      ensures OfFamily(env, chat, m, ins, "joinedSignal", Hashed(env, chat.kind, chat.peer))
        <==> ins == Insert(FamilyRow(env, chat, "joinedSignal", m.dateSent.value, PeerSender(env, chat)), [])
    {
      OfFamilyIs(env, chat, m, ins, "joinedSignal", Hashed(env, chat.kind, chat.peer));
    }
  }

  lemma NumberIsGiven(env: Env, st: Staging, chat: Chat, m: Message)
    requires m.dateSent.Some?
    ensures Gives(env, st, chat, m, NumberChanged, if m.simpleUpdate == Some(ChangeNumber) then SimpleFace(env, st, chat, m).inserts else [])
  {
    AuthorIsNamed(env, st, m);
    hide NamedAs, OfFamily, FamilyRow, Hashed, HashedSender, SourceOf;
    var author := Author(env, st, m);
    var inserts := if m.simpleUpdate == Some(ChangeNumber) then SimpleFace(env, st, chat, m).inserts else [];
    forall ins ensures Asks(env, st, chat, m, NumberChanged, ins) <==> inserts == [ins] {
      if author.Some? {
        var source := SourceOf(env, author.value).value;
        assert NamedAs(env, st, m, author.value, source);
        HashedIs(env, chat.kind, source);
        OfFamilyIs(env, chat, m, ins, "changeNumber", Hashed(env, chat.kind, source));
      } else {
        HashedIs(env, chat.kind, chat.peer);
        OfFamilyIs(env, chat, m, ins, "changeNumber", Hashed(env, chat.kind, chat.peer));
      }
    }
  }

  lemma FamiliesAreGiven(env: Env, st: Staging, chat: Chat, m: Message)
    requires m.dateSent.Some?
    ensures Gives(env, st, chat, m, Retitled, FamilyFace(env, chat, m.learnedProfile, "titleTransition", m.dateSent.value).inserts)
    ensures Gives(env, st, chat, m, ThreadsMerged, FamilyFace(env, chat, m.threadMerge, "threadMerge", m.dateSent.value).inserts)
  {
    hide OfFamily, FamilyRow, Hashed, HashedSender;
    HashedIs(env, chat.kind, chat.peer);
    forall ins
      ensures OfFamily(env, chat, m, ins, "titleTransition", Hashed(env, chat.kind, chat.peer))
        <==> ins == Insert(FamilyRow(env, chat, "titleTransition", m.dateSent.value, PeerSender(env, chat)), [])
      ensures OfFamily(env, chat, m, ins, "threadMerge", Hashed(env, chat.kind, chat.peer))
        <==> ins == Insert(FamilyRow(env, chat, "threadMerge", m.dateSent.value, PeerSender(env, chat)), [])
    {
      OfFamilyIs(env, chat, m, ins, "titleTransition", Hashed(env, chat.kind, chat.peer));
      OfFamilyIs(env, chat, m, ins, "threadMerge", Hashed(env, chat.kind, chat.peer));
    }
  }

  // ------------------------------------------------------ one frame, all its shapes

  /** `inserts` are the rows asked for by the shapes of rank below `n`, one for each of
      `shapes`, in the order of their ranks. */
  ghost predicate Covers(env: Env, st: Staging, chat: Chat, m: Message, n: nat, shapes: seq<Shape>, inserts: seq<Insert>)
    requires m.dateSent.Some?
  {
    && |shapes| == |inserts|
    && (forall i, j | 0 <= i < j < |shapes| :: Rank(shapes[i]) < Rank(shapes[j]))
    && (forall i | 0 <= i < |shapes| :: Rank(shapes[i]) < n && Asks(env, st, chat, m, shapes[i], inserts[i]))
    && forall shape, ins | Rank(shape) < n && Asks(env, st, chat, m, shape, ins) :: exists i :: AskedAt(shapes, inserts, i, shape, ins)
  }

  predicate AskedAt(shapes: seq<Shape>, inserts: seq<Insert>, i: int, shape: Shape, ins: Insert)
  {
    0 <= i < |shapes| && i < |inserts| && shapes[i] == shape && inserts[i] == ins
  }

  lemma CoversMore(env: Env, st: Staging, chat: Chat, m: Message, shapes: seq<Shape>, inserts: seq<Insert>, shape: Shape, more: seq<Insert>)
    requires m.dateSent.Some? && Covers(env, st, chat, m, Rank(shape), shapes, inserts) && Gives(env, st, chat, m, shape, more)
    ensures Covers(env, st, chat, m, Rank(shape) + 1, shapes + (if more == [] then [] else [shape]), inserts + more)
  {
    hide Asks;
    var shapes', inserts' := shapes + (if more == [] then [] else [shape]), inserts + more;
    if more != [] {
      assert more == [more[0]];
    }
    forall s, ins | Rank(s) < Rank(shape) + 1 && Asks(env, st, chat, m, s, ins)
      ensures exists i :: AskedAt(shapes', inserts', i, s, ins)
    {
      if Rank(s) < Rank(shape) {
        var i :| AskedAt(shapes, inserts, i, s, ins);
        assert AskedAt(shapes', inserts', i, s, ins);
      } else {
        assert s == shape && more == [ins];
        assert AskedAt(shapes', inserts', |shapes|, s, ins);
      }
    }
  }

  lemma NothingCovered(env: Env, st: Staging, chat: Chat, m: Message)
    requires m.dateSent.Some?
    ensures Covers(env, st, chat, m, 0, [], [])
  {
  }

  /** The rows of the seven shapes, one after the other. */
  lemma PartsAreGiven(env: Env, st: Staging, chat: Chat, m: Message)
    returns (a: seq<Insert>, b: seq<Insert>, c: seq<Insert>, d: seq<Insert>, e: seq<Insert>, f: seq<Insert>, g: seq<Insert>)
    requires WellFormed(m)
    ensures ChatDemand(env, st, chat, m).inserts == a + b + c + d + e + f + g
    ensures Gives(env, st, chat, m, Said, a) && Gives(env, st, chat, m, TimerMoved, b) && Gives(env, st, chat, m, GroupChanged, c)
    ensures Gives(env, st, chat, m, Joined, d) && Gives(env, st, chat, m, NumberChanged, e)
    ensures Gives(env, st, chat, m, Retitled, f) && Gives(env, st, chat, m, ThreadsMerged, g)
  {
    hide Gives, Asks, TimerFace, GroupFace, SimpleFace, FamilyFace, Bubble, Notice;
    a, b := [], [];
    c := GroupFace(env, st, chat, m).inserts;
    GroupIsGiven(env, st, chat, m);
    d, e := SimpleIsGiven(env, st, chat, m);
    f := FamilyFace(env, chat, m.learnedProfile, "titleTransition", m.dateSent.value).inserts;
    g := FamilyFace(env, chat, m.threadMerge, "threadMerge", m.dateSent.value).inserts;
    FamiliesAreGiven(env, st, chat, m);
    if IsNotice(m) {
      b := TimerFace(env, chat, m).inserts;
      TimerIsGiven(env, st, chat, m);
      NotSaid(env, st, chat, m);
      NoticeInParts(env, st, chat, m);
      Regroup(b, c, d, e, f, g);
    } else {
      a := Bubble(env, st, chat, m).inserts;
      SaidIsGiven(env, st, chat, m);
      NoTimer(env, st, chat, m);
      assert c == [] && d + e == [] && f == [] && g == [];
      Alone(a);
    }
  }

  lemma Regroup(b: seq<Insert>, c: seq<Insert>, d: seq<Insert>, e: seq<Insert>, f: seq<Insert>, g: seq<Insert>)
    ensures [] + b + c + d + e + f + g == b + (c + ((d + e) + (f + g)))
  {
  }

  lemma Alone(a: seq<Insert>)
    ensures a + [] + [] + [] + [] + [] + [] == a
  {
  }

  lemma NoticeInParts(env: Env, st: Staging, chat: Chat, m: Message)
    requires m.dateSent.Some?
    ensures Notice(env, st, chat, m).inserts
      == TimerFace(env, chat, m).inserts + (GroupFace(env, st, chat, m).inserts + (SimpleFace(env, st, chat, m).inserts
         + (FamilyFace(env, chat, m.learnedProfile, "titleTransition", m.dateSent.value).inserts
            + FamilyFace(env, chat, m.threadMerge, "threadMerge", m.dateSent.value).inserts)))
  {
    hide TimerFace, GroupFace, SimpleFace, FamilyFace;
  }

  lemma NotSaid(env: Env, st: Staging, chat: Chat, m: Message)
    requires m.dateSent.Some? && IsNotice(m)
    ensures Gives(env, st, chat, m, Said, [])
  {
  }

  lemma NoTimer(env: Env, st: Staging, chat: Chat, m: Message)
    requires m.dateSent.Some? && !IsNotice(m)
    ensures Gives(env, st, chat, m, TimerMoved, [])
  {
  }

  /** A well-formed frame in its chat asks for exactly these rows. */
  lemma ChatAsks(env: Env, st: Staging, chat: Chat, m: Message) returns (shapes: seq<Shape>)
    requires WellFormed(m)
    ensures Covers(env, st, chat, m, 7, shapes, ChatDemand(env, st, chat, m).inserts)
  {
    hide Gives, Asks, Covers, ChatDemand;
    var a, b, c, d, e, f, g := PartsAreGiven(env, st, chat, m);
    NothingCovered(env, st, chat, m);
    CoversMore(env, st, chat, m, [], [], Said, a);
    assert [] + a == a;
    shapes := [] + (if a == [] then [] else [Said]);
    CoversMore(env, st, chat, m, shapes, a, TimerMoved, b);
    shapes := shapes + (if b == [] then [] else [TimerMoved]);
    CoversMore(env, st, chat, m, shapes, a + b, GroupChanged, c);
    shapes := shapes + (if c == [] then [] else [GroupChanged]);
    CoversMore(env, st, chat, m, shapes, a + b + c, Joined, d);
    shapes := shapes + (if d == [] then [] else [Joined]);
    CoversMore(env, st, chat, m, shapes, a + b + c + d, NumberChanged, e);
    shapes := shapes + (if e == [] then [] else [NumberChanged]);
    CoversMore(env, st, chat, m, shapes, a + b + c + d + e, Retitled, f);
    shapes := shapes + (if f == [] then [] else [Retitled]);
    CoversMore(env, st, chat, m, shapes, a + b + c + d + e + f, ThreadsMerged, g);
    shapes := shapes + (if g == [] then [] else [ThreadsMerged]);
  }

  /** Every frame, of any archive and whatever is staged, asks for exactly the rows that are
      owed: one for each of `shapes`, in order, and no row is owed that it does not ask for. */
  lemma FrameAsks(env: Env, st: Staging, convs: Conversations, f: Frame) returns (shapes: seq<Shape>)
    ensures |shapes| == |FrameDemand(env, st, convs, f).inserts|
    ensures forall i, j | 0 <= i < j < |shapes| :: Rank(shapes[i]) < Rank(shapes[j])
    ensures forall i | 0 <= i < |shapes| :: Owes(env, st, convs, f, shapes[i], FrameDemand(env, st, convs, f).inserts[i])
    ensures forall shape, ins | Owes(env, st, convs, f, shape, ins) ::
      exists i :: AskedAt(shapes, FrameDemand(env, st, convs, f).inserts, i, shape, ins)
  {
    hide Asks, Located, ChatDemand, Resolve;
    shapes := [];
    if f.MessageFrame? && WellFormed(f.message) {
      var m := f.message;
      forall chat ensures Resolve(env, st, convs, m.chatId.value) == Some(chat) <==> Located(env, st, convs, m.chatId.value, chat) {
        ResolvedIsLocated(env, st, convs, m.chatId.value, chat);
      }
      var found := Resolve(env, st, convs, m.chatId.value);
      if found.Some? {
        shapes := ChatAsks(env, st, found.value, m);
        AllRanked();
      }
    }
  }

  lemma AllRanked()
    ensures forall s :: Rank(s) < 7
  {
  }

  /** A usable frame that is no notice, in a chat that can be located, is one row if it has
      content and is one's own or by a named author, and one counted skip otherwise.  The row
      has the frame's direction and time, the chat's conversation, and for sender the account,
      the author's ACI, or the hash of the author's number. */
  lemma MessageIsOneRow(env: Env, st: Staging, convs: Conversations, m: Message, chat: Chat) returns (ins: Insert)
    requires Usable(m) && m.direction.Some? && !Notifies(m) && Located(env, st, convs, m.chatId.value, chat)
    ensures var d := FrameDemand(env, st, convs, MessageFrame(m)); var incoming := m.direction.value.Incoming?;
      if m.hasContent && (incoming ==> exists r, source :: NamedAs(env, st, m, r, source)) then
        && d.inserts == [ins] && d.skipped == 0
        && ins.row.direction == (if incoming then "incoming" else "outgoing")
        && ins.row.sentAt == m.dateSent.value && ins.row.conversation == chat.conversation
        && (!incoming ==> ins.row.sender == env.account && ins.alternates == [])
        && (incoming ==> exists r, source :: NamedAs(env, st, m, r, source) && Received(env, chat, m, ins, r, source))
      else d.inserts == [] && d.skipped == 1
  {
    ResolvedIsLocated(env, st, convs, m.chatId.value, chat);
    hide Located, Resolve, NamedAs, Received, Bubble;
    SaidIsGiven(env, st, chat, m);
    var inserts := Bubble(env, st, chat, m).inserts;
    assert FrameDemand(env, st, convs, MessageFrame(m)) == Bubble(env, st, chat, m);
    if inserts == [] {
      ins := Insert(Row("", "", "", 0, ""), []);
      if m.hasContent && (m.direction.value.Incoming? ==> exists r, source :: NamedAs(env, st, m, r, source)) {
        WouldBeAsked(env, st, chat, m);
      }
    } else {
      ins := inserts[0];
      assert inserts == [ins];
      assert Asks(env, st, chat, m, Said, ins);
      if m.direction.value.Incoming? {
        ReceivedIsIncoming(env, st, chat, m, ins);
      }
    }
  }

  lemma ReceivedIsIncoming(env: Env, st: Staging, chat: Chat, m: Message, ins: Insert)
    requires m.dateSent.Some?
    requires exists r, source :: NamedAs(env, st, m, r, source) && Received(env, chat, m, ins, r, source)
    ensures ins.row.direction == "incoming" && ins.row.sentAt == m.dateSent.value && ins.row.conversation == chat.conversation
  {
    hide NamedAs, Hashed, Decimal;
  }

  lemma WouldBeAsked(env: Env, st: Staging, chat: Chat, m: Message)
    requires m.dateSent.Some? && m.direction.Some? && !Notifies(m) && m.hasContent
    requires m.direction.value.Incoming? ==> exists r, source :: NamedAs(env, st, m, r, source)
    ensures exists ins :: Asks(env, st, chat, m, Said, ins)
  {
    hide NamedAs, Hashed, Decimal;
    if m.direction.value.Outgoing? {
      var row := DirectedRow(env, chat, "outgoing", m.dateSent.value, env.account);
      assert Asks(env, st, chat, m, Said, Insert(row, []));
    } else {
      var r, source :| NamedAs(env, st, m, r, source);
      var sender := if r.aci.Some? then r.aci.value else Hashed(env, chat.kind, source);
      var alternates := if r.aci.Some? then OneIf(r.e164, env, chat.kind) + [Hashed(env, chat.kind, r.aci.value)] else [];
      var ins := Insert(DirectedRow(env, chat, "incoming", m.dateSent.value, sender), alternates);
      assert Received(env, chat, m, ins, r, source);
      assert Asks(env, st, chat, m, Said, ins);
    }
  }

  // ------------------------------------------------------------ what a frame loses

  ghost predicate Unnamed(env: Env, st: Staging, m: Message)
  {
    forall r, source :: !NamedAs(env, st, m, r, source)
  }

  ghost predicate Nowhere(env: Env, st: Staging, convs: Conversations, m: Message)
    requires m.chatId.Some?
  {
    forall chat :: !Located(env, st, convs, m.chatId.value, chat)
  }

  /** What is counted as skipped: a call record, an unusable message, a message without content
      or author, a group change by nobody named, an update of another kind, and title or
      merge notices without material. */
  ghost function Lost(env: Env, st: Staging, convs: Conversations, f: Frame): nat
  {
    match f
    case AdhocCall => 1
    case MessageFrame(m) =>
      if !Usable(m) then 1
      else if Nowhere(env, st, convs, m) then 0
      else if m.direction.None? || Notifies(m) then
        Face(m.groupUpdate && m.direction != Some(Outgoing) && Unnamed(env, st, m))
        + Face(m.simpleUpdate == Some(OtherUpdate)) + Face(m.learnedProfile == Some(false)) + Face(m.threadMerge == Some(false))
      else Face(!m.hasContent || (m.direction == Some(Incoming) && Unnamed(env, st, m)))
    case _ => 0
  }

  lemma UnnamedIs(env: Env, st: Staging, m: Message)
    ensures Unnamed(env, st, m) <==> Author(env, st, m).None?
  {
    AuthorIsNamed(env, st, m);
    hide NamedAs, SourceOf;
    var author := Author(env, st, m);
    if author.Some? {
      assert NamedAs(env, st, m, author.value, SourceOf(env, author.value).value);
    }
  }

  lemma NowhereIs(env: Env, st: Staging, convs: Conversations, m: Message)
    requires m.chatId.Some?
    ensures Nowhere(env, st, convs, m) <==> Resolve(env, st, convs, m.chatId.value).None?
  {
    hide Resolve, Located;
    forall chat ensures Resolve(env, st, convs, m.chatId.value) == Some(chat) <==> Located(env, st, convs, m.chatId.value, chat) {
      ResolvedIsLocated(env, st, convs, m.chatId.value, chat);
    }
    var found := Resolve(env, st, convs, m.chatId.value);
    if found.Some? {
      assert Located(env, st, convs, m.chatId.value, found.value);
    }
  }

  lemma GroupSkips(env: Env, st: Staging, chat: Chat, m: Message)
    requires m.dateSent.Some?
    ensures GroupFace(env, st, chat, m).skipped == Face(m.groupUpdate && m.direction != Some(Outgoing) && Author(env, st, m).None?)
  {
    hide DirectedRow, HashedSender, Author, SourceOf;
  }

  lemma FamilySkips(env: Env, chat: Chat, face: Option<bool>, family: string, sentAt: nat)
    ensures FamilyFace(env, chat, face, family, sentAt).skipped == Face(face == Some(false))
  {
    hide FamilyRow, HashedSender;
  }

  lemma SimpleSkips(env: Env, st: Staging, chat: Chat, m: Message)
    requires m.dateSent.Some?
    ensures SimpleFace(env, st, chat, m).skipped == Face(m.simpleUpdate == Some(OtherUpdate)) && TimerFace(env, chat, m).skipped == 0
  {
    hide DirectedRow, FamilyRow, HashedSender, Author, SourceOf;
  }

  lemma NoticeSkips(env: Env, st: Staging, chat: Chat, m: Message)
    requires m.dateSent.Some?
    ensures Notice(env, st, chat, m).skipped
      == Face(m.groupUpdate && m.direction != Some(Outgoing) && Author(env, st, m).None?)
         + Face(m.simpleUpdate == Some(OtherUpdate)) + Face(m.learnedProfile == Some(false)) + Face(m.threadMerge == Some(false))
  {
    hide TimerFace, GroupFace, SimpleFace, FamilyFace, Author, Size;
    GroupSkips(env, st, chat, m);
    SimpleSkips(env, st, chat, m);
    FamilySkips(env, chat, m.learnedProfile, "titleTransition", m.dateSent.value);
    FamilySkips(env, chat, m.threadMerge, "threadMerge", m.dateSent.value);
  }

  lemma BubbleSkips(env: Env, st: Staging, chat: Chat, m: Message)
    requires m.dateSent.Some? && m.direction.Some?
    ensures Bubble(env, st, chat, m).skipped
      == Face(!m.hasContent || (m.direction == Some(Incoming) && Author(env, st, m).None?))
  {
    hide DirectedRow, HashedSender, Author, SourceOf;
  }

  lemma SkipsAreLost(env: Env, st: Staging, convs: Conversations, f: Frame)
    ensures FrameDemand(env, st, convs, f).skipped == Lost(env, st, convs, f)
  {
    hide Resolve, Nowhere, Unnamed, Author, Notice, Bubble;
    if f.MessageFrame? && WellFormed(f.message) {
      var m := f.message;
      NowhereIs(env, st, convs, m);
      UnnamedIs(env, st, m);
      var found := Resolve(env, st, convs, m.chatId.value);
      if found.Some? {
        NoticeSkips(env, st, found.value, m);
        if m.direction.Some? {
          BubbleSkips(env, st, found.value, m);
        }
      }
    }
  }

  // ------------------------------------------------------------ the whole archive

  /** Some frame of the archive asks for this row. */
  ghost predicate OwedBy(env: Env, convs: Conversations, frames: seq<Frame>, ins: Insert)
  {
    exists f, shape :: f in frames && Owes(env, StageOf(frames), convs, f, shape, ins)
  }

  lemma FrameAsksIff(env: Env, st: Staging, convs: Conversations, f: Frame, ins: Insert)
    ensures ins in FrameDemand(env, st, convs, f).inserts <==> exists shape :: Owes(env, st, convs, f, shape, ins)
  {
    hide Owes, FrameDemand;
    var shapes := FrameAsks(env, st, convs, f);
    var inserts := FrameDemand(env, st, convs, f).inserts;
    if ins in inserts {
      var i :| 0 <= i < |inserts| && inserts[i] == ins;
      assert Owes(env, st, convs, f, shapes[i], ins);
    }
    if shape :| Owes(env, st, convs, f, shape, ins) {
      var i :| AskedAt(shapes, inserts, i, shape, ins);
    }
  }

  lemma {:induction false} FramesAsk(env: Env, st: Staging, convs: Conversations, frames: seq<Frame>, ins: Insert)
    ensures ins in TotalDemand(env, st, convs, frames).inserts
      <==> exists f, shape :: f in frames && Owes(env, st, convs, f, shape, ins)
  {
    hide Owes, FrameDemand;
    if frames != [] {
      var init, last := frames[..|frames| - 1], frames[|frames| - 1];
      assert frames == init + [last];
      FramesAsk(env, st, convs, init, ins);
      FrameAsksIff(env, st, convs, last, ins);
    }
  }

  /** The frame pins the message it asks for. */
  ghost predicate Pins(env: Env, st: Staging, convs: Conversations, f: Frame, p: PendingPin)
  {
    exists ins ::
      && Owes(env, st, convs, f, Said, ins) && f.message.pin == Some(p.pin)
      && p.conversation == ins.row.conversation && p.sentAt == ins.row.sentAt
  }

  lemma FramePins(env: Env, st: Staging, convs: Conversations, f: Frame, p: PendingPin)
    ensures p in FrameDemand(env, st, convs, f).pins <==> Pins(env, st, convs, f, p)
  {
    var d := FrameDemand(env, st, convs, f);
    var shapes := FrameAsks(env, st, convs, f);
    if f.MessageFrame? && WellFormed(f.message) && Resolve(env, st, convs, f.message.chatId.value).Some? {
      var chat, m := Resolve(env, st, convs, f.message.chatId.value).value, f.message;
      if IsNotice(m) {
        forall ins ensures !Owes(env, st, convs, f, Said, ins) {
          NoticeIsNotSaid(env, st, convs, m, ins);
        }
      } else {
        BubblePins(env, st, convs, chat, m, p);
      }
    } else {
      hide Owes, FrameDemand;
      assert d.pins == [];
    }
  }

  lemma NoticeIsNotSaid(env: Env, st: Staging, convs: Conversations, m: Message, ins: Insert)
    requires IsNotice(m)
    ensures !Owes(env, st, convs, MessageFrame(m), Said, ins)
  {
  }

  lemma BubblePins(env: Env, st: Staging, convs: Conversations, chat: Chat, m: Message, p: PendingPin)
    requires WellFormed(m) && !IsNotice(m) && Resolve(env, st, convs, m.chatId.value) == Some(chat)
    ensures p in Bubble(env, st, chat, m).pins <==> Pins(env, st, convs, MessageFrame(m), p)
  {
    forall c ensures Located(env, st, convs, m.chatId.value, c) <==> c == chat {
      ResolvedIsLocated(env, st, convs, m.chatId.value, c);
    }
    SaidIsGiven(env, st, chat, m);
    hide Located, Resolve, Asks, BubbleSender, MessageId;
    var inserts := Bubble(env, st, chat, m).inserts;
    forall ins ensures Owes(env, st, convs, MessageFrame(m), Said, ins) <==> inserts == [ins] {
    }
    if inserts != [] {
      assert inserts == [inserts[0]];
      assert Owes(env, st, convs, MessageFrame(m), Said, inserts[0]);
    }
  }

  /** The pins an archive asks for are those of the messages it asks for. */
  lemma {:induction false} FramesPin(env: Env, st: Staging, convs: Conversations, frames: seq<Frame>, p: PendingPin)
    ensures p in TotalDemand(env, st, convs, frames).pins <==> exists f :: f in frames && Pins(env, st, convs, f, p)
  {
    hide Pins, FrameDemand;
    if frames != [] {
      var init, last := frames[..|frames| - 1], frames[|frames| - 1];
      assert frames == init + [last];
      FramesPin(env, st, convs, init, p);
      FramePins(env, st, convs, last, p);
    }
  }

  /** The pin log has grown by the pins of the archive's messages and by no others. */
  ghost predicate PinsLogged(env: Env, convs: Conversations, frames: seq<Frame>, before: seq<PendingPin>, after: seq<PendingPin>)
  {
    && before <= after
    && forall p :: p in after[|before|..] <==> exists f :: f in frames && Pins(env, StageOf(frames), convs, f, p)
  }

  lemma AllPinsLogged(env: Env, convs: Conversations, frames: seq<Frame>, before: seq<PendingPin>)
    ensures PinsLogged(env, convs, frames, before, before + TotalDemand(env, StageOf(frames), convs, frames).pins)
  {
    hide TotalDemand, StageOf, Pins;
    var pins := TotalDemand(env, StageOf(frames), convs, frames).pins;
    assert (before + pins)[|before|..] == pins;
    forall p ensures p in pins <==> exists f :: f in frames && Pins(env, StageOf(frames), convs, f, p) {
      FramesPin(env, StageOf(frames), convs, frames, p);
    }
  }

  /** The stored row is the message that is asked for: it has its id, or its conversation,
      direction and time and one of the sender's spellings. */
  predicate SameMessage(row: Row, ins: Insert)
  {
    || row.id == ins.row.id
    || (row.conversation == ins.row.conversation && row.direction == ins.row.direction && row.sentAt == ins.row.sentAt
        && (row.sender == ins.row.sender || row.sender in ins.alternates))
  }

  /** The store after an import: nothing is gone, whatever is new is asked for by some frame,
      and whatever a frame asks for is there, as its own row unless another one is the same
      message. */
  ghost predicate Imported(env: Env, convs: Conversations, frames: seq<Frame>, before: set<Row>, after: set<Row>)
  {
    && before <= after
    && (forall row | row in after && row !in before :: exists ins :: OwedBy(env, convs, frames, ins) && row == ins.row)
    && forall ins | OwedBy(env, convs, frames, ins) :: exists row :: row in after && SameMessage(row, ins)
  }

  lemma {:induction false} InsertedIsOffered(rows: set<Row>, inserts: seq<Insert>, row: Row)
    requires row in InsertAll(rows, inserts) && row !in rows
    ensures exists ins :: ins in inserts && row == ins.row
  {
    var init, last := inserts[..|inserts| - 1], inserts[|inserts| - 1];
    assert inserts == init + [last];
    if row in InsertAll(rows, init) {
      InsertedIsOffered(rows, init, row);
    } else {
      assert row == last.row;
    }
  }

  lemma InsertAllImports(env: Env, convs: Conversations, frames: seq<Frame>, before: set<Row>)
    ensures Imported(env, convs, frames, before, InsertAll(before, TotalDemand(env, StageOf(frames), convs, frames).inserts))
  {
    hide InsertAll, TotalDemand, StageOf, Owes;
    var inserts := TotalDemand(env, StageOf(frames), convs, frames).inserts;
    var after := InsertAll(before, inserts);
    RowsOnlyGrow(before, inserts);
    forall ins ensures ins in inserts <==> OwedBy(env, convs, frames, ins) {
      FramesAsk(env, StageOf(frames), convs, frames, ins);
    }
    forall row | row in after && row !in before ensures exists ins :: OwedBy(env, convs, frames, ins) && row == ins.row {
      InsertedIsOffered(before, inserts, row);
    }
    forall ins | OwedBy(env, convs, frames, ins) ensures exists row :: row in after && SameMessage(row, ins) {
      var i :| 0 <= i < |inserts| && inserts[i] == ins;
      OfferedIsStored(before, inserts, i);
      var row :| row in after && Clash(row, ins);
      assert SameMessage(row, ins);
    }
  }

  /** A row that is asked for is stored as it is, unless the store held the same message or
      another row that is asked for is the same message. */
  lemma AskedIsStored(env: Env, convs: Conversations, frames: seq<Frame>, before: set<Row>, after: set<Row>, ins: Insert)
    requires Imported(env, convs, frames, before, after) && OwedBy(env, convs, frames, ins)
    requires forall row | row in before :: !SameMessage(row, ins)
    requires forall other | OwedBy(env, convs, frames, other) && SameMessage(other.row, ins) :: other.row == ins.row
    ensures ins.row in after && ins.row !in before
  {
    hide OwedBy;
    var row :| row in after && SameMessage(row, ins);
    assert row !in before;
    var other :| OwedBy(env, convs, frames, other) && row == other.row;
    assert SameMessage(ins.row, ins);
  }
}
