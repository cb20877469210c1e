/** The line stream of an export (src/backup_export.rs): the capped writer, the lines
    that come before the messages, and what makes a stream referentially closed. */
module Artifact {
  import opened Basics
  import opened Order
  import opened Contacts
  import opened Projection

  const MAX_ARTIFACT_LINE_BYTES := 1_048_576
  const MAX_ARTIFACT_TOTAL_BYTES := 2_147_483_648
  const MAX_ARTIFACT_LINES := 4_000_000
  const MAX_ARTIFACT_BODY_BYTES := 131_072

  /** `R` is what a message line shows of a stored row. */
  datatype Line<R> =
    | AccountLine(name: Option<string>)
    | ContactLine(id: nat, aci: Option<string>, e164: Option<string>, givenName: Option<string>)
    | GroupLine(group: nat, masterKey: string)
    | ChatLine(chat: nat, recipient: nat)
    | Item(inChat: nat, author: nat, content: R)
    | AllChatFolder

  datatype Cap = LineBytes | ArtifactBytes | LineCount | BodyBytes

  // ------------------------------------------------------- what rows have in common

  datatype Direction = Incoming | Outgoing | SystemDirection

  datatype Status = Sent | Delivered | Read | SystemStatus | RemoteDeleted | OtherStatus

  /** System rows, tombstones and outgoing rows never confirmed carry no history. */
  predicate Gated(direction: Direction, status: Status, adminDeleted: bool)
  {
    || status == SystemStatus || direction == SystemDirection || status == RemoteDeleted || adminDeleted
    || (direction == Outgoing && status !in {Sent, Delivered, Read})
  }

  /** Something that was said, still stands and, if one's own, is known to have been sent. */
  predicate History(direction: Direction, status: Status, adminDeleted: bool)
  {
    && direction != SystemDirection && status != SystemStatus && status != RemoteDeleted && !adminDeleted
    && (direction == Outgoing ==> status == Sent || status == Delivered || status == Read)
  }

  /** What a build left out, by cause. */
  datatype Counters = Counters(
    reactions: nat, edits: nat, quotes: nat, attachments: nat, viewOnce: nat, stickers: nat,
    skeletonChats: nat, bodyTruncated: nat, rows: nat)

  const NONE := Counters(0, 0, 0, 0, 0, 0, 0, 0, 0)

  function One(b: bool): nat { if b then 1 else 0 }

  // ----------------------------------------------------------------- the writer

  function Total<R(!new)>(lines: seq<Line<R>>, size: Line<R> -> nat): nat
  {
    if lines == [] then 0 else Total(lines[..|lines| - 1], size) + size(lines[|lines| - 1])
  }

  /** The stream is within the three caps of an artifact. */
  ghost predicate Fits<R(!new)>(lines: seq<Line<R>>, size: Line<R> -> nat)
  {
    && (forall l | l in lines :: size(l) <= MAX_ARTIFACT_LINE_BYTES)
    && Total(lines, size) <= MAX_ARTIFACT_TOTAL_BYTES
    && |lines| <= MAX_ARTIFACT_LINES
  }

  lemma FitsSnoc<R(!new)>(lines: seq<Line<R>>, l: Line<R>, size: Line<R> -> nat)
    ensures Fits(lines + [l], size) <==>
              Fits(lines, size) && size(l) <= MAX_ARTIFACT_LINE_BYTES
              && Total(lines, size) + size(l) <= MAX_ARTIFACT_TOTAL_BYTES && |lines| < MAX_ARTIFACT_LINES
    ensures Total(lines + [l], size) == Total(lines, size) + size(l)
  {
    assert (lines + [l])[..|lines|] == lines;
    assert forall x :: x in lines + [l] <==> x in lines || x == l;
  }

  lemma {:induction false} FitsPrefix<R(!new)>(lines: seq<Line<R>>, more: seq<Line<R>>, size: Line<R> -> nat)
    requires Fits(lines + more, size)
    ensures Fits(lines, size)
  {
    if more == [] {
      assert lines + more == lines;
    } else {
      var init, last := more[..|more| - 1], more[|more| - 1];
      assert lines + more == (lines + init) + [last];
      FitsSnoc(lines + init, last, size);
      FitsPrefix(lines, init, size);
    }
  }

  /** The cap that keeps a line out of a stream, in the order the caps are looked at. */
  function Refusal<R(!new)>(lines: seq<Line<R>>, l: Line<R>, size: Line<R> -> nat): Option<Cap>
  {
    if size(l) > MAX_ARTIFACT_LINE_BYTES then Some(LineBytes)
    else if Total(lines, size) + size(l) > MAX_ARTIFACT_TOTAL_BYTES then Some(ArtifactBytes)
    else if |lines| + 1 > MAX_ARTIFACT_LINES then Some(LineCount)
    else None
  }

  ghost predicate RefusedAt<R(!new)>(lines: seq<Line<R>>, size: Line<R> -> nat, cap: Cap, n: nat)
  {
    n < |lines| && Fits(lines[..n], size) && Refusal(lines[..n], lines[n], size) == Some(cap)
  }

  /** `cap` is what the first line that does not fit violates. */
  ghost predicate Blamed<R(!new)>(lines: seq<Line<R>>, size: Line<R> -> nat, cap: Cap)
  {
    exists n: nat :: RefusedAt(lines, size, cap, n)
  }

  lemma BlamedHere<R(!new)>(lines: seq<Line<R>>, l: Line<R>, size: Line<R> -> nat, cap: Cap)
    requires Fits(lines, size) && Refusal(lines, l, size) == Some(cap)
    ensures Blamed(lines + [l], size, cap)
  {
    hide Fits, Refusal;
    assert (lines + [l])[..|lines|] == lines;
    assert RefusedAt(lines + [l], size, cap, |lines|);
  }

  lemma BlamedMore<R(!new)>(lines: seq<Line<R>>, more: seq<Line<R>>, size: Line<R> -> nat, cap: Cap)
    requires Blamed(lines, size, cap)
    ensures Blamed(lines + more, size, cap)
  {
    hide Fits, Refusal;
    var n: nat :| RefusedAt(lines, size, cap, n);
    assert (lines + more)[..n] == lines[..n];
    assert RefusedAt(lines + more, size, cap, n);
  }

  lemma BlamedLonger<R(!new)>(lines: seq<Line<R>>, some: seq<Line<R>>, all: seq<Line<R>>, size: Line<R> -> nat, cap: Cap)
    requires some <= all && Blamed(lines + some, size, cap)
    ensures Blamed(lines + all, size, cap)
  {
    hide Blamed;
    assert lines + all == (lines + some) + all[|some|..];
    BlamedMore(lines + some, all[|some|..], size, cap);
  }

  lemma FitsShorter<R(!new)>(lines: seq<Line<R>>, some: seq<Line<R>>, all: seq<Line<R>>, size: Line<R> -> nat)
    requires some <= all && Fits(lines + all, size)
    ensures Fits(lines + some, size)
  {
    assert lines + all == (lines + some) + all[|some|..];
    FitsPrefix(lines + some, all[|some|..], size);
  }

  lemma PrefixOfConcat<R(!new)>(some: seq<Line<R>>, init: seq<Line<R>>, more: seq<Line<R>>)
    requires some <= init
    ensures some <= init + more
  {
  }

  class ArtifactWriter<R(!new)> {
    var lines: seq<Line<R>>
    var totalBytes: nat
    var count: nat
    const size: Line<R> -> nat

    ghost predicate Valid()
      reads this
    {
      totalBytes == Total(lines, size) && count == |lines| && Fits(lines, size)
    }

    constructor (size: Line<R> -> nat)
      ensures Valid() && lines == [] && this.size == size
    {
      lines, totalBytes, count, this.size := [], 0, 0, size;
    }

    method WriteLine(line: Line<R>) returns (error: Option<Cap>)
      requires Valid()
      modifies this
      ensures error.None? <==> Fits(old(lines) + [line], size)
      ensures error == Refusal(old(lines), line, size)
      ensures error.None? ==> Valid() && lines == old(lines) + [line]
      ensures error.Some? ==> lines == old(lines) && Blamed(old(lines) + [line], size, error.value) && !error.value.BodyBytes?
    {
      FitsSnoc(lines, line, size);
      if Refusal(lines, line, size).Some? {
        BlamedHere(lines, line, size, Refusal(lines, line, size).value);
      }
      hide Fits, Total, Blamed;
      var bytes := size(line);
      if bytes > MAX_ARTIFACT_LINE_BYTES {
        return Some(LineBytes);
      }
      totalBytes := totalBytes + bytes;
      count := count + 1;
      if totalBytes > MAX_ARTIFACT_TOTAL_BYTES {
        return Some(ArtifactBytes);
      }
      if count > MAX_ARTIFACT_LINES {
        return Some(LineCount);
      }
      lines := lines + [line];
      error := None;
    }

    method WriteLines(batch: seq<Line<R>>) returns (error: Option<Cap>)
      requires Valid()
      modifies this
      ensures error.None? <==> Fits(old(lines) + batch, size)
      ensures error.None? ==> Valid() && lines == old(lines) + batch
      ensures error.Some? ==> Blamed(old(lines) + batch, size, error.value) && !error.value.BodyBytes?
    {
      hide Fits, Total, Blamed, Refusal;
      assert lines + batch[..0] == lines;
      for i := 0 to |batch|
        invariant Valid() && lines == old(lines) + batch[..i]
      {
        assert old(lines) + batch[..i + 1] == lines + [batch[i]];
        assert old(lines) + batch == (lines + [batch[i]]) + batch[i + 1..];
        if Fits(old(lines) + batch, size) {
          FitsPrefix(lines + [batch[i]], batch[i + 1..], size);
        }
        error := WriteLine(batch[i]);
        if error.Some? {
          BlamedMore(old(lines) + batch[..i + 1], batch[i + 1..], size, error.value);
          return;
        }
      }
      assert batch[..|batch|] == batch;
      error := None;
    }
  }

  // ------------------------------------------------------------ account to chats

  function Position(s: seq<string>, x: string): (i: nat)
    requires x in s
    ensures i < |s| && s[i] == x
  {
    if s[0] == x then 0 else 1 + Position(s[1..], x)
  }

  /** Every chat's contact or group is there to be referred to. */
  ghost predicate Resolvable(p: Projected)
  {
    && (forall i | 0 <= i < |p.order| :: p.order[i] in p.book && p.book[p.order[i]].id == i + 1)
    && (forall k | k in p.book :: k in p.order)
    && forall i | 0 <= i < |p.chats| :: Known(p, p.chats[i].recipient)
  }

  predicate Known(p: Projected, to: Recipient)
  {
    match to
    case NoteToSelf => true
    case ToContact(key) => key in p.book
    case ToGroup(masterKey) => masterKey in p.groups
  }

  lemma ProjectedIsResolvable(p: Projected, ctx: Context, rows: seq<PeerRow>, cs: seq<Conversation>)
    requires Projects(p, ctx, rows, cs)
    ensures Resolvable(p)
  {
    hide Merge, SendersAre, Ascending, ChatsOf;
    forall i | 0 <= i < |p.chats| ensures Known(p, p.chats[i].recipient) {
      ChatsAreKnown(p, ctx, rows, cs, p.chats[i]);
    }
    forall k | k in p.book ensures k in p.order {
      assert k in Elements(p.order);
    }
  }

  /** Contact `author` has a spelling that hashes to `sender`, and no later contact has one. */
  ghost predicate Writes(p: Projected, hash: (string, string) -> string, sender: string, author: nat)
  {
    exists j ::
      && Owner(p.book, p.order, hash, j, sender) && p.book[p.order[j]].id == author
      && forall i | j < i < |p.order| :: !Owner(p.book, p.order, hash, i, sender)
  }

  /** The sender map knows exactly the hashes of spellings, and names the contact. */
  lemma SenderIsWriter(p: Projected, hash: (string, string) -> string, sender: string, author: nat)
    requires Resolvable(p) && SendersAre(p.senders, p.book, p.order, hash, |p.order|)
    ensures sender in p.senders && p.senders[sender] == author <==> Writes(p, hash, sender, author)
  {
    hide Known;
    if sender in p.senders && p.senders[sender] == author {
      var j := author - 1;
      assert Owner(p.book, p.order, hash, j, sender) && p.book[p.order[j]].id == author;
      forall i | j < i < |p.order| ensures !Owner(p.book, p.order, hash, i, sender) {
      }
    }
    if j :| Owner(p.book, p.order, hash, j, sender) && p.book[p.order[j]].id == author
            && forall i | j < i < |p.order| :: !Owner(p.book, p.order, hash, i, sender) {
      assert sender in p.senders && j < p.senders[sender];
      assert Owner(p.book, p.order, hash, p.senders[sender] - 1, sender);
    }
  }

  /** The sender map is that of the projection. */
  ghost predicate Mapped(p: Projected, hash: (string, string) -> string)
  {
    Resolvable(p) && SendersAre(p.senders, p.book, p.order, hash, |p.order|)
  }

  lemma KnownSender(p: Projected, hash: (string, string) -> string, sender: string)
    requires Mapped(p, hash)
    ensures sender in p.senders ==> Writes(p, hash, sender, p.senders[sender])
    ensures forall author :: Writes(p, hash, sender, author) ==> sender in p.senders && p.senders[sender] == author
  {
    hide Resolvable, SendersAre, Writes;
    forall author ensures sender in p.senders && p.senders[sender] == author <==> Writes(p, hash, sender, author) {
      SenderIsWriter(p, hash, sender, author);
    }
  }

  lemma ProjectedIsMapped(p: Projected, ctx: Context, rows: seq<PeerRow>, cs: seq<Conversation>)
    requires Projects(p, ctx, rows, cs) && Resolvable(p)
    ensures Mapped(p, ctx.hash)
  {
    hide Resolvable, SendersAre, Merge, ChatsOf;
  }

  function ContactLineOf<R>(e: Entry): Line<R>
  {
    ContactLine(e.id, e.aci, e.e164, e.name)
  }

  function RecipientId(p: Projected, to: Recipient): nat
    requires Known(p, to)
  {
    match to
    case NoteToSelf => 0
    case ToContact(key) => p.book[key].id
    case ToGroup(masterKey) => Position(p.groups, masterKey) + 1
  }

  function ContactLines<R>(p: Projected): seq<Line<R>>
    requires Resolvable(p)
  {
    seq(|p.order|, i requires 0 <= i < |p.order| => ContactLineOf(p.book[p.order[i]]))
  }

  function GroupLines<R>(p: Projected): seq<Line<R>>
  {
    seq(|p.groups|, i requires 0 <= i < |p.groups| => GroupLine(i + 1, p.groups[i]))
  }

  function ChatLines<R>(p: Projected): seq<Line<R>>
    requires Resolvable(p)
  {
    seq(|p.chats|, i requires 0 <= i < |p.chats| => ChatLine(i + 1, RecipientId(p, p.chats[i].recipient)))
  }

  /** Everything before the first message. */
  function Header<R>(p: Projected, name: Option<string>): seq<Line<R>>
    requires Resolvable(p)
  {
    [AccountLine(name)] + ContactLines(p) + GroupLines(p) + ChatLines(p)
  }

  lemma RefusedInPart<R(!new)>(lines: seq<Line<R>>, more: seq<Line<R>>, size: Line<R> -> nat, cap: Cap)
    requires !Fits(lines, size)
    ensures !Fits(lines + more, size) && (Blamed(lines, size, cap) ==> Blamed(lines + more, size, cap))
  {
    hide Fits, Blamed;
    if Fits(lines + more, size) {
      FitsPrefix(lines, more, size);
    }
    if Blamed(lines, size, cap) {
      BlamedMore(lines, more, size, cap);
    }
  }

  method WriteHeader<R(!new)>(w: ArtifactWriter<R>, p: Projected, name: Option<string>) returns (error: Option<Cap>)
    requires w.Valid() && w.lines == [] && Resolvable(p)
    modifies w
    ensures error.None? <==> Fits(Header(p, name), w.size)
    ensures error.None? ==> w.Valid() && w.lines == Header(p, name)
    ensures error.Some? ==> Blamed(Header(p, name), w.size, error.value) && !error.value.BodyBytes?
  {
    ghost var a: seq<Line<R>>, cs: seq<Line<R>>, gs: seq<Line<R>>, ts: seq<Line<R>> :=
      [AccountLine(name)], ContactLines(p), GroupLines(p), ChatLines(p);
    assert Header(p, name) == a + cs + gs + ts && [] + a == a;
    hide Fits, Total, ContactLines, GroupLines, ChatLines, Header, Resolvable, Blamed, Refusal;
    error := w.WriteLine(AccountLine(name));
    if error.Some? {
      RefusedInPart(a, cs, w.size, error.value);
      RefusedInPart(a + cs, gs, w.size, error.value);
      RefusedInPart(a + cs + gs, ts, w.size, error.value);
      return;
    }
    error := w.WriteLines(ContactLines(p));
    if error.Some? {
      RefusedInPart(a + cs, gs, w.size, error.value);
      RefusedInPart(a + cs + gs, ts, w.size, error.value);
      return;
    }
    error := w.WriteLines(GroupLines(p));
    if error.Some? {
      RefusedInPart(a + cs + gs, ts, w.size, error.value);
      return;
    }
    error := w.WriteLines(ChatLines(p));
  }

  // ------------------------------------------------------------- referential closure

  /** The ids 1, 2, ..., `n` on the lines from line `from` on, and nowhere else. */
  function IdAt(i: nat, from: nat, n: nat): Option<nat>
  {
    if from <= i < from + n then Some(i - from + 1) else None
  }

  function ContactId<R>(l: Line<R>): Option<nat> { if l.ContactLine? then Some(l.id) else None }

  function GroupId<R>(l: Line<R>): Option<nat> { if l.GroupLine? then Some(l.group) else None }

  function ChatId<R>(l: Line<R>): Option<nat> { if l.ChatLine? then Some(l.chat) else None }

  /** The recipient of a chat line: oneself, or the id on an earlier line of the right kind. */
  ghost predicate RecipientDeclared<R(!new)>(lines: seq<Line<R>>, p: Projected, i: nat)
    requires i < |lines| && lines[i].ChatLine?
  {
    && 1 <= lines[i].chat <= |p.chats|
    && match p.chats[lines[i].chat - 1].recipient
       case NoteToSelf => lines[i].recipient == 0
       case ToContact(key) =>
         key in p.book && exists j :: 0 <= j < i && lines[j] == ContactLineOf(p.book[key]) && lines[j].id == lines[i].recipient
       case ToGroup(masterKey) =>
         exists j :: 0 <= j < i && lines[j] == GroupLine(lines[i].recipient, masterKey)
  }

  /** Some earlier contact line has the id `author` and a spelling hashing to `sender`. */
  ghost predicate AuthorDeclared<R(!new)>(lines: seq<Line<R>>, p: Projected, hash: (string, string) -> string, author: nat, sender: string, i: nat)
    requires i <= |lines|
  {
    exists j, k ::
      && 0 <= j < i && k in p.book && lines[j] == ContactLineOf(p.book[k])
      && p.book[k].id == author && Hashes(p.book[k].forms, hash, sender)
  }

  /** An item names an earlier chat, and its author is oneself or an earlier contact that
      has a spelling hashing to the sender of the row. */
  ghost predicate ItemDeclared<R(!new)>(lines: seq<Line<R>>, p: Projected, hash: (string, string) -> string, sender: R -> Option<string>, i: nat)
    requires i < |lines| && lines[i].Item?
  {
    && (exists j :: 0 <= j < i && ChatId(lines[j]) == Some(lines[i].inChat))
    && match sender(lines[i].content)
       case None => lines[i].author == 0
       case Some(s) => AuthorDeclared(lines, p, hash, lines[i].author, s, i)
  }

  /** What closure asks of line `i`: contact, group and chat lines, and they alone, are
      numbered in a row from 1, and every reference is to an earlier line. */
  ghost predicate InPlace<R(!new)>(lines: seq<Line<R>>, p: Projected, hash: (string, string) -> string, sender: R -> Option<string>, i: nat)
    requires i < |lines|
  {
    var n, g, c := |p.order|, |p.groups|, |p.chats|;
    && ContactId(lines[i]) == IdAt(i, 1, n)
    && GroupId(lines[i]) == IdAt(i, 1 + n, g)
    && ChatId(lines[i]) == IdAt(i, 1 + n + g, c)
    && (lines[i].ChatLine? ==> RecipientDeclared(lines, p, i))
    && (lines[i].Item? ==> ItemDeclared(lines, p, hash, sender, i))
  }

  /** `sender` gives the sender of an incoming row, nothing for an outgoing one. */
  ghost predicate Closed<R(!new)>(lines: seq<Line<R>>, p: Projected, hash: (string, string) -> string, sender: R -> Option<string>)
  {
    forall i | 0 <= i < |lines| :: InPlace(lines, p, hash, sender, i)
  }

  /** A line after the header, as both exports make them. */
  predicate Addressed<R>(l: Line<R>, p: Projected, sender: R -> Option<string>)
  {
    || l.AllChatFolder?
    || (l.Item? && 1 <= l.inChat <= |p.chats|
        && match sender(l.content)
           case None => l.author == 0
           case Some(s) => s in p.senders && l.author == p.senders[s])
  }

  lemma HeaderAt<R>(p: Projected, name: Option<string>, i: nat)
    requires Resolvable(p) && i < |Header<R>(p, name)|
    ensures var n, g, c, l := |p.order|, |p.groups|, |p.chats|, Header<R>(p, name)[i];
      && |Header<R>(p, name)| == 1 + n + g + c
      && (i == 0 ==> l == AccountLine(name))
      && (1 <= i <= n ==> l == ContactLineOf(p.book[p.order[i - 1]]))
      && (n < i <= n + g ==> l == GroupLine(i - n, p.groups[i - 1 - n]))
      && (n + g < i ==> l == ChatLine(i - n - g, RecipientId(p, p.chats[i - 1 - n - g].recipient)))
  {
  }

  /** A resolvable projection followed by addressed lines is closed. */
  lemma StreamIsClosed<R(!new)>(p: Projected, name: Option<string>, body: seq<Line<R>>,
                                hash: (string, string) -> string, sender: R -> Option<string>)
    requires Resolvable(p) && SendersAre(p.senders, p.book, p.order, hash, |p.order|)
    requires forall l | l in body :: Addressed(l, p, sender)
    ensures Closed(Header(p, name) + body, p, hash, sender)
  {
    hide Header, Addressed, Resolvable, SendersAre, InPlace;
    var lines := Header(p, name) + body;
    forall i | 0 <= i < |lines| ensures InPlace(lines, p, hash, sender, i) {
      if i < |Header<R>(p, name)| {
        HeaderLineInPlace(p, name, body, hash, sender, i);
      } else {
        assert lines[i] == body[i - |Header<R>(p, name)|];
        BodyLineInPlace(p, name, body, hash, sender, i);
      }
    }
  }

  lemma HeaderLineInPlace<R(!new)>(p: Projected, name: Option<string>, body: seq<Line<R>>,
                                   hash: (string, string) -> string, sender: R -> Option<string>, i: nat)
    requires Resolvable(p) && i < |Header<R>(p, name)|
    ensures InPlace(Header(p, name) + body, p, hash, sender, i)
  {
    hide Header;
    var header := Header<R>(p, name);
    var lines, n, g := header + body, |p.order|, |p.groups|;
    HeaderAt<R>(p, name, i);
    assert lines[i] == header[i];
    if lines[i].ChatLine? {
      var to := p.chats[lines[i].chat - 1].recipient;
      match to {
        case NoteToSelf =>
        case ToContact(key) =>
          var j := Position(p.order, key) + 1;
          HeaderAt<R>(p, name, j);
          assert lines[j] == ContactLineOf(p.book[key]);
        case ToGroup(masterKey) =>
          var j := Position(p.groups, masterKey) + 1 + n;
          HeaderAt<R>(p, name, j);
          assert lines[j] == GroupLine(lines[i].recipient, masterKey);
      }
    }
  }

  /** Whatever the sender map knows has its contact line in the header. */
  lemma SenderIsDeclared<R(!new)>(p: Projected, name: Option<string>, body: seq<Line<R>>,
                                  hash: (string, string) -> string, s: string, i: nat)
    requires Resolvable(p) && SendersAre(p.senders, p.book, p.order, hash, |p.order|) && s in p.senders
    requires |Header<R>(p, name)| <= i <= |Header<R>(p, name) + body|
    ensures AuthorDeclared(Header(p, name) + body, p, hash, p.senders[s], s, i)
  {
    var header, a := Header<R>(p, name), p.senders[s];
    assert |header| == 1 + |p.order| + |p.groups| + |p.chats|;
    hide Header;
    assert Owner(p.book, p.order, hash, a - 1, s);
    HeaderAt<R>(p, name, a);
    assert (header + body)[a] == ContactLineOf(p.book[p.order[a - 1]]);
  }

  lemma BodyLineInPlace<R(!new)>(p: Projected, name: Option<string>, body: seq<Line<R>>,
                                 hash: (string, string) -> string, sender: R -> Option<string>, i: nat)
    requires Resolvable(p) && SendersAre(p.senders, p.book, p.order, hash, |p.order|)
    requires |Header<R>(p, name)| <= i < |Header<R>(p, name) + body| && Addressed((Header(p, name) + body)[i], p, sender)
    ensures InPlace(Header(p, name) + body, p, hash, sender, i)
  {
    var header := Header<R>(p, name);
    var lines, n, g, c := header + body, |p.order|, |p.groups|, |p.chats|;
    assert |header| == 1 + n + g + c;
    hide Header;
    if lines[i].Item? {
      var j := n + g + lines[i].inChat;
      HeaderAt<R>(p, name, j);
      assert ChatId(lines[j]) == Some(lines[i].inChat);
      match sender(lines[i].content) {
        case None =>
        case Some(s) =>
          SenderIsDeclared(p, name, body, hash, s, i);
      }
    }
  }

  // ------------------------------------------------------------ what the lines tell

  /** The elements that `keep` accepts, in their order. */
  ghost function Picked<R(!new)>(rows: seq<R>, keep: R -> bool): seq<R>
  {
    if rows == [] then []
    else Picked(rows[..|rows| - 1], keep) + if keep(rows[|rows| - 1]) then [rows[|rows| - 1]] else []
  }

  lemma {:induction false} PickedConcat<R(!new)>(some: seq<R>, more: seq<R>, keep: R -> bool)
    ensures Picked(some + more, keep) == Picked(some, keep) + Picked(more, keep)
  {
    if more == [] {
      assert some + more == some;
    } else {
      assert (some + more)[..|some + more| - 1] == some + more[..|more| - 1];
      PickedConcat(some, more[..|more| - 1], keep);
    }
  }

  /** What the message lines of a stream hold, in stream order. */
  ghost function Told<R(!new)>(lines: seq<Line<R>>): seq<R>
  {
    if lines == [] then []
    else Told(lines[..|lines| - 1]) + if lines[|lines| - 1].Item? then [lines[|lines| - 1].content] else []
  }

  lemma ToldOne<R(!new)>(l: Line<R>)
    ensures Told([l]) == if l.Item? then [l.content] else []
  {
    assert [l][..0] == [];
  }

  lemma {:induction false} ToldConcat<R(!new)>(some: seq<Line<R>>, more: seq<Line<R>>)
    ensures Told(some + more) == Told(some) + Told(more)
  {
    if more == [] {
      assert some + more == some;
    } else {
      assert (some + more)[..|some + more| - 1] == some + more[..|more| - 1];
      ToldConcat(some, more[..|more| - 1]);
    }
  }

  lemma {:induction false} NoItemsToldNothing<R(!new)>(lines: seq<Line<R>>)
    requires forall l | l in lines :: !l.Item?
    ensures Told(lines) == []
  {
    if lines != [] {
      NoItemsToldNothing(lines[..|lines| - 1]);
    }
  }

  lemma OnlyItemsTell<R(!new)>(header: seq<Line<R>>, items: seq<Line<R>>, folder: seq<Line<R>>)
    requires forall l | l in header :: !l.Item?
    requires forall l | l in folder :: !l.Item?
    ensures Told(header + (items + folder)) == Told(items)
    ensures forall l: Line<R> | l.Item? :: l in header + (items + folder) <==> l in items
  {
    hide Told;
    NoItemsToldNothing(header);
    NoItemsToldNothing(folder);
    ToldConcat(items, folder);
    ToldConcat(header, items + folder);
    assert [] + (Told(items) + []) == Told(items);
  }

  lemma HeaderHasNoItem<R(!new)>(p: Projected, name: Option<string>, l: Line<R>)
    requires Resolvable(p) && l in Header<R>(p, name)
    ensures !l.Item?
  {
    var i :| 0 <= i < |Header<R>(p, name)| && Header<R>(p, name)[i] == l;
    HeaderAt<R>(p, name, i);
  }
}
