/** The collection pass both exports share (src/backup_export.rs): cached contact rows,
    group rosters and conversations become contacts, groups and chats. */
module Projection {
  import opened Basics
  import opened Order
  import opened Contacts

  /** The linked account, the stored pairs of an ACI and the peer key it was observed
      under, the address parsers and the identifier hash. */
  datatype Context = Context(
    account: string,
    pairs: seq<(string, string)>,
    parseAci: string -> Option<string>,
    parseE164: string -> Option<string>,
    parseGroup: string -> Option<string>,
    hash: (string, string) -> string)

  datatype Member = Member(id: Option<string>, uuid: Option<string>)

  datatype PeerRow =
    | ContactRow(peer: string, title: string)
    | GroupRow(peer: string, members: seq<Member>)
    | OtherRow

  datatype Kind = Direct | Grouped | OtherKind

  datatype Conversation = Conversation(id: string, kind: Kind, peer: string, title: string)

  datatype Recipient = NoteToSelf | ToContact(key: string) | ToGroup(masterKey: string)

  datatype Chat = Chat(conversation: string, recipient: Recipient)

  // -------------------------------------------------------------------- identities

  /** The pairs collected as they come: the ACI is the key, a later pair replaces an
      earlier one. */
  function AciTable(pairs: seq<(string, string)>): map<string, string>
  {
    if pairs == [] then map[]
    else AciTable(pairs[..|pairs| - 1])[pairs[|pairs| - 1].0 := pairs[|pairs| - 1].1]
  }

  function PeerIdentity(ctx: Context, peer: string): Identity
  {
    var aci, table := ctx.parseAci(peer), AciTable(ctx.pairs);
    Identity(
      if aci.None? && peer in table then Some(table[peer]) else aci,
      ctx.parseE164(peer))
  }

  // -------------------------------------------------- when the ACI table is any help

  /** The last pair whose ACI is spelled like `peer` holds `aci` as its peer key. */
  ghost predicate ListedBackwards(pairs: seq<(string, string)>, peer: string, aci: string)
  {
    exists i :: 0 <= i < |pairs| && pairs[i] == (peer, aci) && forall j | i < j < |pairs| :: pairs[j].0 != peer
  }

  lemma {:induction false} TableHolds(pairs: seq<(string, string)>, peer: string, aci: string)
    ensures peer in AciTable(pairs) && AciTable(pairs)[peer] == aci <==> ListedBackwards(pairs, peer, aci)
    ensures peer in AciTable(pairs) <==> exists i :: 0 <= i < |pairs| && pairs[i].0 == peer
  {
    if pairs != [] {
      var n := |pairs| - 1;
      var init := pairs[..n];
      TableHolds(init, peer, aci);
      if pairs[n].0 == peer {
        if pairs[n].1 == aci {
          assert pairs[n] == (peer, aci);
        }
      } else {
        if i :| 0 <= i < n && init[i] == (peer, aci) && forall j | i < j < n :: init[j].0 != peer {
          assert pairs[i] == (peer, aci) && forall j | i < j < |pairs| :: pairs[j].0 != peer;
        }
        if i :| 0 <= i < |pairs| && pairs[i] == (peer, aci) && forall j | i < j < |pairs| :: pairs[j].0 != peer {
          assert init[i] == (peer, aci) && forall j | i < j < n :: init[j].0 != peer;
        }
        if i :| 0 <= i < n && init[i].0 == peer {
          assert pairs[i].0 == peer;
        }
        if i :| 0 <= i < |pairs| && pairs[i].0 == peer {
          assert init[i].0 == peer;
        }
      }
    }
  }

  /** An ACI, recorded for a peer or not, is found for it exactly when the peer key itself parses to it,
      or parses to none and some pair names the two the wrong way round. */
  lemma RecordedAciFoundIff(ctx: Context, peer: string, aci: string)
    ensures PeerIdentity(ctx, peer).aci == Some(aci) <==>
              ctx.parseAci(peer) == Some(aci) || (ctx.parseAci(peer).None? && ListedBackwards(ctx.pairs, peer, aci))
  {
    hide AciTable, ListedBackwards;
    TableHolds(ctx.pairs, peer, aci);
  }

  /** When every stored ACI parses as one, the table never contributes anything: a peer's
      identity is what its own key says. */
  lemma TableIsNoHelp(ctx: Context, peer: string)
    requires forall i | 0 <= i < |ctx.pairs| :: ctx.parseAci(ctx.pairs[i].0).Some?
    ensures PeerIdentity(ctx, peer) == Identity(ctx.parseAci(peer), ctx.parseE164(peer))
  {
    hide AciTable;
    TableHolds(ctx.pairs, peer, "");
  }

  function FirstParsed(parse: string -> Option<string>, forms: seq<string>): (r: Option<string>)
    ensures r.Some? <==> exists f :: f in forms && parse(f).Some?
  {
    if forms == [] then None
    else if parse(forms[0]).Some? then parse(forms[0])
    else FirstParsed(parse, forms[1..])
  }

  /** A roster member's two spellings make one identity. */
  function RosterIdentity(ctx: Context, m: Member): Identity
  {
    var base :=
      if m.uuid.Some? && m.uuid.value != "" then m.uuid.value
      else if m.id.Some? then m.id.value else "";
    var forms, identity := OneOf(m.id) + OneOf(m.uuid), PeerIdentity(ctx, base);
    Identity(FirstOf(identity.aci, FirstParsed(ctx.parseAci, forms)),
             FirstOf(identity.e164, FirstParsed(ctx.parseE164, forms)))
  }

  function MemberObservations(ctx: Context, m: Member): seq<Observation>
  {
    var forms := OneOf(m.id) + OneOf(m.uuid);
    if forms == [] || ctx.account in forms then [] else [Observation(RosterIdentity(ctx, m), None, forms)]
  }

  function RosterObservations(ctx: Context, members: seq<Member>): seq<Observation>
  {
    if members == [] then []
    else RosterObservations(ctx, members[..|members| - 1]) + MemberObservations(ctx, members[|members| - 1])
  }

  function PeerObservations(ctx: Context, peer: string, title: string): seq<Observation>
  {
    if peer == ctx.account then [] else [Observation(PeerIdentity(ctx, peer), Some(title), [peer])]
  }

  function RowObservations(ctx: Context, row: PeerRow): seq<Observation>
  {
    match row
    case ContactRow(peer, title) => PeerObservations(ctx, peer, title)
    case GroupRow(peer, members) => if ctx.parseGroup(peer).Some? then RosterObservations(ctx, members) else []
    case OtherRow => []
  }

  function RowsObservations(ctx: Context, rows: seq<PeerRow>): seq<Observation>
  {
    if rows == [] then [] else RowsObservations(ctx, rows[..|rows| - 1]) + RowObservations(ctx, rows[|rows| - 1])
  }

  function ConversationObservations(ctx: Context, c: Conversation): seq<Observation>
  {
    if c.kind == Direct then PeerObservations(ctx, c.peer, c.title) else []
  }

  function ConversationsObservations(ctx: Context, cs: seq<Conversation>): seq<Observation>
  {
    if cs == [] then []
    else ConversationsObservations(ctx, cs[..|cs| - 1]) + ConversationObservations(ctx, cs[|cs| - 1])
  }

  /** Everything the two passes feed to the contact merge, in order. */
  function Observations(ctx: Context, rows: seq<PeerRow>, cs: seq<Conversation>): seq<Observation>
  {
    RowsObservations(ctx, rows) + ConversationsObservations(ctx, cs)
  }

  // ----------------------------------------------------------------- groups and chats

  function RowGroups(ctx: Context, rows: seq<PeerRow>): set<string>
  {
    set r | r in rows && r.GroupRow? && ctx.parseGroup(r.peer).Some? :: ctx.parseGroup(r.peer).value
  }

  function ConversationGroups(ctx: Context, cs: seq<Conversation>): set<string>
  {
    set c | c in cs && c.kind == Grouped && ctx.parseGroup(c.peer).Some? :: ctx.parseGroup(c.peer).value
  }

  function RecipientOf(ctx: Context, c: Conversation): Option<Recipient>
  {
    match c.kind
    case Direct =>
      if c.peer == ctx.account then Some(NoteToSelf)
      else
        var key := Key(PeerIdentity(ctx, c.peer));
        if key.Some? then Some(ToContact(key.value)) else None
    case Grouped =>
      var masterKey := ctx.parseGroup(c.peer);
      if masterKey.Some? then Some(ToGroup(masterKey.value)) else None
    case OtherKind => None
  }

  function ChatsOf(ctx: Context, cs: seq<Conversation>): seq<Chat>
  {
    if cs == [] then []
    else
      var init, last := ChatsOf(ctx, cs[..|cs| - 1]), cs[|cs| - 1];
      var to := RecipientOf(ctx, last);
      if to.Some? then init + [Chat(last.id, to.value)] else init
  }

  /** Peers and conversations that no contact or group can stand for. */
  function RowSkeletons(ctx: Context, rows: seq<PeerRow>): nat
  {
    if rows == [] then 0
    else
      var last := rows[|rows| - 1];
      var lost :=
        || (last.ContactRow? && last.peer != ctx.account && Key(PeerIdentity(ctx, last.peer)).None?)
        || (last.GroupRow? && ctx.parseGroup(last.peer).None?);
      RowSkeletons(ctx, rows[..|rows| - 1]) + if lost then 1 else 0
  }

  function ConversationSkeletons(ctx: Context, cs: seq<Conversation>): nat
  {
    if cs == [] then 0
    else
      var last := cs[|cs| - 1];
      ConversationSkeletons(ctx, cs[..|cs| - 1]) + if last.kind != OtherKind && RecipientOf(ctx, last).None? then 1 else 0
  }

  // ------------------------------------------------------------------- the collector

  class Collector {
    var book: Book
    var groups: set<string>
    var chats: seq<Chat>
    var skeletons: nat

    constructor ()
      ensures book == map[] && groups == {} && chats == [] && skeletons == 0
    {
      book, groups, chats, skeletons := map[], {}, [], 0;
    }

    method RecordRosterMembers(ctx: Context, members: seq<Member>, ghost log: seq<Observation>)
      requires book == Merge(log)
      modifies this`book
      ensures book == Merge(log + RosterObservations(ctx, members))
    {
      hide Merge, Recorded, RosterIdentity, RosterObservations;
      RosterEnds(ctx, members);
      assert log + [] == log;
      for i := 0 to |members|
        invariant book == Merge(log + RosterObservations(ctx, members[..i]))
      {
        var m := members[i];
        RosterNext(ctx, members, i, log);
        if m.id.None? && m.uuid.None? {
          continue;
        }
        var forms := OneOf(m.id) + OneOf(m.uuid);
        if ctx.account in forms {
          continue;
        }
        var key;
        book, key := RecordContact(book, Observation(RosterIdentity(ctx, m), None, forms));
      }
    }

    method TakeContactRows(ctx: Context, rows: seq<PeerRow>)
      requires book == map[] && groups == {} && skeletons == 0
      modifies this`book, this`groups, this`skeletons
      ensures book == Merge(RowsObservations(ctx, rows))
      ensures groups == RowGroups(ctx, rows) && skeletons == RowSkeletons(ctx, rows)
    {
      hide Merge, Recorded, PeerIdentity, RowsObservations, RowGroups, RowSkeletons, RosterObservations, Key;
      RowEnds(ctx, rows);
      for i := 0 to |rows|
        invariant book == Merge(RowsObservations(ctx, rows[..i]))
        invariant groups == RowGroups(ctx, rows[..i]) && skeletons == RowSkeletons(ctx, rows[..i])
      {
        RowNext(ctx, rows, i);
        match rows[i] {
          case ContactRow(peer, title) =>
            if peer == ctx.account {
              continue;
            }
            var key;
            book, key := RecordContact(book, Observation(PeerIdentity(ctx, peer), Some(title), [peer]));
            if key.None? {
              skeletons := skeletons + 1;
            }
          case GroupRow(peer, members) =>
            var masterKey := ctx.parseGroup(peer);
            if masterKey.Some? {
              groups := groups + {masterKey.value};
              RecordRosterMembers(ctx, members, RowsObservations(ctx, rows[..i]));
            } else {
              skeletons := skeletons + 1;
            }
          case OtherRow =>
        }
      }
    }

    method TakeConversations(ctx: Context, cs: seq<Conversation>, ghost log: seq<Observation>)
      requires book == Merge(log) && chats == []
      modifies this
      ensures book == Merge(log + ConversationsObservations(ctx, cs)) && chats == ChatsOf(ctx, cs)
      ensures groups == old(groups) + ConversationGroups(ctx, cs)
      ensures skeletons == old(skeletons) + ConversationSkeletons(ctx, cs)
    {
      hide Merge, Recorded, PeerIdentity, ConversationsObservations, ConversationGroups, ConversationSkeletons, ChatsOf, Key;
      ConversationEnds(ctx, cs);
      assert log + [] == log;
      for i := 0 to |cs|
        invariant book == Merge(log + ConversationsObservations(ctx, cs[..i])) && chats == ChatsOf(ctx, cs[..i])
        invariant groups == old(groups) + ConversationGroups(ctx, cs[..i])
        invariant skeletons == old(skeletons) + ConversationSkeletons(ctx, cs[..i])
      {
        ConversationNext(ctx, cs, i, log);
        var c := cs[i];
        var recipient := NoteToSelf;
        match c.kind {
          case Direct =>
            if c.peer != ctx.account {
              var key;
              book, key := RecordContact(book, Observation(PeerIdentity(ctx, c.peer), Some(c.title), [c.peer]));
              if key.None? {
                skeletons := skeletons + 1;
                continue;
              }
              recipient := ToContact(key.value);
            }
          case Grouped =>
            var masterKey := ctx.parseGroup(c.peer);
            if masterKey.None? {
              skeletons := skeletons + 1;
              continue;
            }
            groups := groups + {masterKey.value};
            recipient := ToGroup(masterKey.value);
          case OtherKind => continue;
        }
        chats := chats + [Chat(c.id, recipient)];
      }
    }
  }

  lemma MergeNext(log: seq<Observation>, o: Observation)
    ensures Merge(log + [o]) == Recorded(Merge(log), o)
  {
    assert (log + [o])[..|log|] == log;
  }

  lemma RosterEnds(ctx: Context, members: seq<Member>)
    ensures RosterObservations(ctx, members[..0]) == [] && members[..|members|] == members
  {
  }

  lemma RosterNext(ctx: Context, members: seq<Member>, i: nat, log: seq<Observation>)
    requires i < |members|
    ensures var now, next := log + RosterObservations(ctx, members[..i]), log + RosterObservations(ctx, members[..i + 1]);
      var more := MemberObservations(ctx, members[i]);
      Merge(next) == if more == [] then Merge(now) else Recorded(Merge(now), more[0])
  {
    var now, more := log + RosterObservations(ctx, members[..i]), MemberObservations(ctx, members[i]);
    hide Merge, Recorded;
    assert members[..i + 1][..i] == members[..i];
    assert log + RosterObservations(ctx, members[..i + 1]) == now + more;
    if more == [] {
      assert now + more == now;
    } else {
      MergeNext(now, more[0]);
    }
  }

  lemma RowEnds(ctx: Context, rows: seq<PeerRow>)
    ensures Merge(RowsObservations(ctx, rows[..0])) == map[] && rows[..|rows|] == rows
    ensures RowGroups(ctx, rows[..0]) == {} && RowSkeletons(ctx, rows[..0]) == 0
  {
  }

  lemma RowNext(ctx: Context, rows: seq<PeerRow>, i: nat)
    requires i < |rows|
    ensures var log, row := RowsObservations(ctx, rows[..i]), rows[i];
      && Merge(RowsObservations(ctx, rows[..i + 1])) == Merge(log + RowObservations(ctx, row))
      && (row.ContactRow? && row.peer != ctx.account ==>
            Merge(log + RowObservations(ctx, row))
            == Recorded(Merge(log), Observation(PeerIdentity(ctx, row.peer), Some(row.title), [row.peer])))
      && (RowObservations(ctx, row) == [] ==> Merge(log + RowObservations(ctx, row)) == Merge(log))
    ensures RowGroups(ctx, rows[..i + 1]) == RowGroups(ctx, rows[..i]) +
              if rows[i].GroupRow? && ctx.parseGroup(rows[i].peer).Some? then {ctx.parseGroup(rows[i].peer).value} else {}
    ensures RowSkeletons(ctx, rows[..i + 1]) == RowSkeletons(ctx, rows[..i]) +
              (if rows[i].ContactRow? && rows[i].peer != ctx.account && Key(PeerIdentity(ctx, rows[i].peer)).None? then 1 else 0) +
              if rows[i].GroupRow? && ctx.parseGroup(rows[i].peer).None? then 1 else 0
  {
    hide Merge, Recorded, PeerIdentity, RosterObservations;
    var log, row := RowsObservations(ctx, rows[..i]), rows[i];
    assert rows[..i + 1] == rows[..i] + [row];
    assert rows[..i + 1][..i] == rows[..i];
    if RowObservations(ctx, row) == [] {
      assert log + RowObservations(ctx, row) == log;
    }
    if row.ContactRow? && row.peer != ctx.account {
      MergeNext(log, Observation(PeerIdentity(ctx, row.peer), Some(row.title), [row.peer]));
    }
  }

  lemma ConversationEnds(ctx: Context, cs: seq<Conversation>)
    ensures ConversationsObservations(ctx, cs[..0]) == [] && ChatsOf(ctx, cs[..0]) == [] && cs[..|cs|] == cs
    ensures ConversationGroups(ctx, cs[..0]) == {} && ConversationSkeletons(ctx, cs[..0]) == 0
  {
  }

  lemma ConversationNext(ctx: Context, cs: seq<Conversation>, i: nat, log: seq<Observation>)
    requires i < |cs|
    ensures var now, next := log + ConversationsObservations(ctx, cs[..i]), log + ConversationsObservations(ctx, cs[..i + 1]);
      Merge(next) ==
        if cs[i].kind == Direct && cs[i].peer != ctx.account
        then Recorded(Merge(now), Observation(PeerIdentity(ctx, cs[i].peer), Some(cs[i].title), [cs[i].peer]))
        else Merge(now)
    ensures ConversationGroups(ctx, cs[..i + 1]) == ConversationGroups(ctx, cs[..i]) +
              if cs[i].kind == Grouped && ctx.parseGroup(cs[i].peer).Some? then {ctx.parseGroup(cs[i].peer).value} else {}
    ensures ConversationSkeletons(ctx, cs[..i + 1]) == ConversationSkeletons(ctx, cs[..i]) +
              if cs[i].kind != OtherKind && RecipientOf(ctx, cs[i]).None? then 1 else 0
    ensures ChatsOf(ctx, cs[..i + 1]) == ChatsOf(ctx, cs[..i]) +
              if RecipientOf(ctx, cs[i]).Some? then [Chat(cs[i].id, RecipientOf(ctx, cs[i]).value)] else []
  {
    hide Merge, Recorded, PeerIdentity, Key;
    var now, more := log + ConversationsObservations(ctx, cs[..i]), ConversationObservations(ctx, cs[i]);
    assert cs[..i + 1] == cs[..i] + [cs[i]];
    assert cs[..i + 1][..i] == cs[..i];
    assert log + ConversationsObservations(ctx, cs[..i + 1]) == now + more;
    if more == [] {
      assert now + more == now;
    } else {
      MergeNext(now, more[0]);
    }
  }

  // -------------------------------------------------------------------- the outcome

  /** Contacts with their ids, groups and chats in id order, and the sender map. */
  datatype Projected = Projected(
    book: Book, order: seq<string>, groups: seq<string>, chats: seq<Chat>, senders: map<string, nat>)

  ghost predicate Projects(p: Projected, ctx: Context, rows: seq<PeerRow>, cs: seq<Conversation>)
  {
    && Numbered(Merge(Observations(ctx, rows, cs)), p.book, p.order)
    && Ascending(p.groups) && Elements(p.groups) == RowGroups(ctx, rows) + ConversationGroups(ctx, cs)
    && p.chats == ChatsOf(ctx, cs)
    && SendersAre(p.senders, p.book, p.order, ctx.hash, |p.order|)
  }

  method Project(ctx: Context, rows: seq<PeerRow>, cs: seq<Conversation>) returns (p: Projected, skeletons: nat)
    ensures Projects(p, ctx, rows, cs)
    ensures skeletons == RowSkeletons(ctx, rows) + ConversationSkeletons(ctx, cs)
  {
    hide Merge, Ascending, RowGroups, ConversationGroups, ChatsOf, SendersAre, RowSkeletons, ConversationSkeletons;
    var c := new Collector();
    c.TakeContactRows(ctx, rows);
    c.TakeConversations(ctx, cs, RowsObservations(ctx, rows));
    var book, order := AllocateIds(c.book);
    var senders := SenderMap(book, order, ctx.hash);
    p := Projected(book, order, Sorted(c.groups), c.chats, senders);
    skeletons := c.skeletons;
  }

  lemma {:induction false} RowObserved(ctx: Context, rows: seq<PeerRow>, o: Observation)
    ensures o in RowsObservations(ctx, rows) <==> exists r :: r in rows && o in RowObservations(ctx, r)
  {
    if rows != [] {
      var init, last := rows[..|rows| - 1], rows[|rows| - 1];
      assert rows == init + [last];
      RowObserved(ctx, init, o);
    }
  }

  /** The order in which cached rows are read shows nowhere in the outcome, except in
      which display name and number came first. */
  lemma RowOrderIsImmaterial(p: Projected, q: Projected, ctx: Context, rows: seq<PeerRow>, other: seq<PeerRow>, cs: seq<Conversation>)
    requires multiset(rows) == multiset(other) && Projects(p, ctx, rows, cs) && Projects(q, ctx, other, cs)
    ensures SameFaces(p.book, q.book) && forall k | k in p.book :: p.book[k].id == q.book[k].id
    ensures p.order == q.order && p.groups == q.groups && p.chats == q.chats && p.senders == q.senders
  {
    hide Merge, RowObservations, SendersAre, Numbered, Ascending;
    var obs, obs' := Observations(ctx, rows, cs), Observations(ctx, other, cs);
    assert forall r :: r in rows <==> r in multiset(rows);
    assert forall r :: r in other <==> r in multiset(other);
    forall o ensures o in obs <==> o in obs' {
      RowObserved(ctx, rows, o);
      RowObserved(ctx, other, o);
    }
    ProjectionIgnoresOrder(obs, obs', p.book, p.order, p.senders, q.book, q.order, q.senders, ctx.hash);
    assert RowGroups(ctx, rows) == RowGroups(ctx, other);
    AscendingUnique(p.groups, q.groups);
  }

  lemma {:induction false} ChatsHaveConversations(ctx: Context, cs: seq<Conversation>, chat: Chat)
    requires chat in ChatsOf(ctx, cs)
    ensures exists c :: c in cs && RecipientOf(ctx, c) == Some(chat.recipient)
  {
    var init, last := cs[..|cs| - 1], cs[|cs| - 1];
    assert cs == init + [last];
    if chat in ChatsOf(ctx, init) {
      ChatsHaveConversations(ctx, init, chat);
    } else {
      assert RecipientOf(ctx, last) == Some(chat.recipient);
    }
  }

  lemma {:induction false} ConversationObserved(ctx: Context, cs: seq<Conversation>, o: Observation)
    ensures o in ConversationsObservations(ctx, cs) <==> exists c :: c in cs && o in ConversationObservations(ctx, c)
  {
    if cs != [] {
      var init, last := cs[..|cs| - 1], cs[|cs| - 1];
      assert cs == init + [last];
      ConversationObserved(ctx, init, o);
    }
  }

  lemma {:induction false} MemberObserved(ctx: Context, members: seq<Member>, o: Observation)
    ensures o in RosterObservations(ctx, members) <==> exists m :: m in members && o in MemberObservations(ctx, m)
  {
    hide MemberObservations;
    if members != [] {
      var init, last := members[..|members| - 1], members[|members| - 1];
      assert members == init + [last];
      MemberObserved(ctx, init, o);
    }
  }

  /** A peer other than the account, seen under a title. */
  predicate SeenPeer(ctx: Context, peer: string, title: string, o: Observation)
  {
    peer != ctx.account && o == Observation(PeerIdentity(ctx, peer), Some(title), [peer])
  }

  /** A group member other than the account, seen under one or both of its spellings. */
  predicate SeenMember(ctx: Context, m: Member, o: Observation)
  {
    && (m.id.Some? || m.uuid.Some?) && m.id != Some(ctx.account) && m.uuid != Some(ctx.account)
    && o.identity == RosterIdentity(ctx, m) && o.name.None?
    && o.spellings == (if m.id.Some? then [m.id.value] else []) + (if m.uuid.Some? then [m.uuid.value] else [])
  }

  /** A member known by an ACI and a number is one identity with both. */
  lemma MemberIsOneIdentity(ctx: Context, m: Member, aci: string, number: string)
    requires m.uuid.Some? && m.uuid.value != "" && ctx.parseAci(m.uuid.value) == Some(aci) && ctx.parseE164(m.uuid.value).None?
    requires m.id.Some? && ctx.parseE164(m.id.value) == Some(number)
    ensures RosterIdentity(ctx, m) == Identity(Some(aci), Some(number))
  {
    var forms := OneOf(m.id) + OneOf(m.uuid);
    assert forms[0] == m.id.value;
  }

  /** The observation is of a cached contact, of a member of a cached group with a master key,
      or of the peer of a direct conversation. */
  ghost predicate Seen(ctx: Context, rows: seq<PeerRow>, cs: seq<Conversation>, o: Observation)
  {
    || (exists r :: r in rows && r.ContactRow? && SeenPeer(ctx, r.peer, r.title, o))
    || (exists r, m :: r in rows && r.GroupRow? && ctx.parseGroup(r.peer).Some? && m in r.members && SeenMember(ctx, m, o))
    || (exists c :: c in cs && c.kind == Direct && SeenPeer(ctx, c.peer, c.title, o))
  }

  lemma RowSeen(ctx: Context, row: PeerRow, o: Observation)
    ensures o in RowObservations(ctx, row)
      <==> (row.ContactRow? && SeenPeer(ctx, row.peer, row.title, o))
           || (row.GroupRow? && ctx.parseGroup(row.peer).Some? && exists m :: m in row.members && SeenMember(ctx, m, o))
  {
    hide PeerIdentity, RosterIdentity;
    if row.GroupRow? {
      MemberObserved(ctx, row.members, o);
      forall m ensures o in MemberObservations(ctx, m) <==> SeenMember(ctx, m, o) {
      }
    }
  }

  /** Both passes together observe exactly that. */
  lemma ObservedIsSeen(ctx: Context, rows: seq<PeerRow>, cs: seq<Conversation>, o: Observation)
    ensures o in Observations(ctx, rows, cs) <==> Seen(ctx, rows, cs, o)
  {
    hide RowObservations, RowsObservations, ConversationsObservations, PeerIdentity, SeenMember;
    RowObserved(ctx, rows, o);
    ConversationObserved(ctx, cs, o);
    forall row ensures o in RowObservations(ctx, row)
                       <==> (row.ContactRow? && SeenPeer(ctx, row.peer, row.title, o))
                            || (row.GroupRow? && ctx.parseGroup(row.peer).Some? && exists m :: m in row.members && SeenMember(ctx, m, o)) {
      RowSeen(ctx, row, o);
    }
  }

  /** The contacts are those seen, and a contact's spellings are those it was seen under. */
  lemma ContactsAreSeen(p: Projected, ctx: Context, rows: seq<PeerRow>, cs: seq<Conversation>, k: string, f: string)
    requires Projects(p, ctx, rows, cs)
    ensures k in p.book <==> exists o :: Seen(ctx, rows, cs, o) && Keyed(o, k)
    ensures k in p.book ==> (f in p.book[k].forms <==> f != "" && exists o :: Seen(ctx, rows, cs, o) && Keyed(o, k) && Offers(o, f))
  {
    hide Merge, SendersAre, Ascending, Observations, Seen, Keyed, Offers;
    var obs := Observations(ctx, rows, cs);
    forall o ensures o in obs <==> Seen(ctx, rows, cs, o) {
      ObservedIsSeen(ctx, rows, cs, o);
    }
    MergeHolds(obs, k);
    if k in p.book {
      SameForms(p, obs, k);
      assert f in Elements(Merge(obs)[k].forms) <==> f in Merge(obs)[k].forms;
    }
  }

  lemma SameForms(p: Projected, obs: seq<Observation>, k: string)
    requires Numbered(Merge(obs), p.book, p.order) && k in p.book
    ensures k in Merge(obs) && p.book[k].forms == Merge(obs)[k].forms
  {
    hide Merge, Ascending;
    assert k in Elements(p.order);
  }

  // -------------------------------------------------------------------- skeletons

  /** A cached peer that is not the account and has neither ACI nor number, or a cached group
      without a master key. */
  predicate Faceless(ctx: Context, row: PeerRow)
  {
    match row
    case ContactRow(peer, _) => peer != ctx.account && PeerIdentity(ctx, peer) == Identity(None, None)
    case GroupRow(peer, _) => ctx.parseGroup(peer).None?
    case OtherRow => false
  }

  /** A direct or group conversation that has nowhere to go. */
  ghost predicate Stranded(ctx: Context, c: Conversation)
  {
    c.kind != OtherKind && forall to :: !Addresses(ctx, c, to)
  }

  ghost function FacelessRows(ctx: Context, rows: seq<PeerRow>): set<nat>
  {
    set i: nat | i < |rows| && Faceless(ctx, rows[i])
  }

  ghost function StrandedChats(ctx: Context, cs: seq<Conversation>): set<nat>
  {
    set i: nat | i < |cs| && Stranded(ctx, cs[i])
  }

  /** The skeleton counts are the numbers of such rows and conversations. */
  lemma {:induction false} RowSkeletonsAre(ctx: Context, rows: seq<PeerRow>)
    ensures RowSkeletons(ctx, rows) == |FacelessRows(ctx, rows)|
  {
    hide PeerIdentity;
    if rows == [] {
      assert FacelessRows(ctx, rows) == {};
    } else {
      var init, n := rows[..|rows| - 1], |rows| - 1;
      RowSkeletonsAre(ctx, init);
      assert FacelessRows(ctx, rows) == FacelessRows(ctx, init) + if Faceless(ctx, rows[n]) then {n} else {};
    }
  }

  lemma {:induction false} ConversationSkeletonsAre(ctx: Context, cs: seq<Conversation>)
    ensures ConversationSkeletons(ctx, cs) == |StrandedChats(ctx, cs)|
  {
    hide RecipientOf, Addresses;
    if cs == [] {
      assert StrandedChats(ctx, cs) == {};
    } else {
      var init, n := cs[..|cs| - 1], |cs| - 1;
      ConversationSkeletonsAre(ctx, init);
      forall to ensures RecipientOf(ctx, cs[n]) == Some(to) <==> Addresses(ctx, cs[n], to) {
        RecipientAddresses(ctx, cs[n], to);
      }
      assert RecipientOf(ctx, cs[n]).Some? ==> Addresses(ctx, cs[n], RecipientOf(ctx, cs[n]).value);
      assert StrandedChats(ctx, cs) == StrandedChats(ctx, init) + if Stranded(ctx, cs[n]) then {n} else {};
    }
  }

  // --------------------------------------------------------------- chats, one by one

  /** Where a conversation's chat goes: to oneself, to the peer's contact, to the group. */
  predicate Addresses(ctx: Context, c: Conversation, to: Recipient)
  {
    match c.kind
    case Direct =>
      if c.peer == ctx.account then to == NoteToSelf
      else
        var who := PeerIdentity(ctx, c.peer);
        if who.aci.Some? then to == ToContact("aci:" + who.aci.value)
        else who.e164.Some? && to == ToContact("e164:" + who.e164.value)
    case Grouped => to.ToGroup? && ctx.parseGroup(c.peer) == Some(to.masterKey)
    case OtherKind => false
  }

  lemma RecipientAddresses(ctx: Context, c: Conversation, to: Recipient)
    ensures RecipientOf(ctx, c) == Some(to) <==> Addresses(ctx, c, to)
  {
    hide PeerIdentity;
  }

  /** Chats are, in order, the conversations that have somewhere to go: `at` names them. */
  lemma {:induction false} ChatsAreConversations(ctx: Context, cs: seq<Conversation>) returns (at: seq<nat>)
    ensures |at| == |ChatsOf(ctx, cs)|
    ensures forall i | 0 <= i < |at| :: at[i] < |cs| && ChatsOf(ctx, cs)[i].conversation == cs[at[i]].id
                                        && Addresses(ctx, cs[at[i]], ChatsOf(ctx, cs)[i].recipient)
    ensures forall i, j | 0 <= i < j < |at| :: at[i] < at[j]
    ensures forall n, to | 0 <= n < |cs| && Addresses(ctx, cs[n], to) :: n in at
  {
    hide RecipientOf, Addresses;
    at := [];
    if cs != [] {
      var init, last := cs[..|cs| - 1], cs[|cs| - 1];
      at := ChatsAreConversations(ctx, init);
      forall to ensures RecipientOf(ctx, last) == Some(to) <==> Addresses(ctx, last, to) {
        RecipientAddresses(ctx, last, to);
      }
      if RecipientOf(ctx, last).Some? {
        assert Addresses(ctx, last, RecipientOf(ctx, last).value);
        at := at + [|init|];
      }
      forall n, to | 0 <= n < |cs| && Addresses(ctx, cs[n], to) ensures n in at {
        if n < |init| {
          assert Addresses(ctx, init[n], to);
        } else {
          assert at[|at| - 1] == n;
        }
      }
    }
  }

  /** No chat names a contact or a group that the projection does not have. */
  lemma ChatsAreKnown(p: Projected, ctx: Context, rows: seq<PeerRow>, cs: seq<Conversation>, chat: Chat)
    requires Projects(p, ctx, rows, cs) && chat in p.chats
    ensures chat.recipient.ToContact? ==> chat.recipient.key in p.book
    ensures chat.recipient.ToGroup? ==> chat.recipient.masterKey in p.groups
  {
    hide Merge, SendersAre, PeerIdentity, Key, Ascending;
    ChatsHaveConversations(ctx, cs, chat);
    var c :| c in cs && RecipientOf(ctx, c) == Some(chat.recipient);
    match chat.recipient {
      case NoteToSelf =>
      case ToContact(key) =>
        var o := Observation(PeerIdentity(ctx, c.peer), Some(c.title), [c.peer]);
        assert o in ConversationObservations(ctx, c) && Keyed(o, key);
        ConversationObserved(ctx, cs, o);
        MergeHolds(Observations(ctx, rows, cs), key);
      case ToGroup(masterKey) =>
        assert masterKey in Elements(p.groups);
    }
  }

  // ------------------------------------------------------- one peer, two contacts

  /** A peer cached under its number, whose ACI is on record, and a group roster that
      lists the same peer with number and ACI: the export makes two contacts of it. */
  lemma RecordedPeerBecomesTwo(ctx: Context, number: string, uuid: string, aci: string, title: string, group: string)
    requires ctx.pairs == [(uuid, number)] && uuid != number && number != "" && uuid != ""
    requires ctx.account != number && ctx.account != uuid
    requires ctx.parseAci(number).None? && ctx.parseE164(number) == Some(number)
    requires ctx.parseAci(uuid) == Some(aci) && ctx.parseE164(uuid).None? && ctx.parseGroup(group).Some?
    ensures var rows := [ContactRow(number, title), GroupRow(group, [Member(Some(number), Some(uuid))])];
      var book := Merge(Observations(ctx, rows, []));
      "aci:" + aci in book && "e164:" + number in book && "aci:" + aci != "e164:" + number
  {
    var m := Member(Some(number), Some(uuid));
    var rows := [ContactRow(number, title), GroupRow(group, [m])];
    TableIsNoHelp(ctx, number);
    TableIsNoHelp(ctx, uuid);
    hide PeerIdentity;
    var byNumber := Observation(PeerIdentity(ctx, number), Some(title), [number]);
    assert RosterIdentity(ctx, m).aci == Some(aci);
    var byUuid := Observation(RosterIdentity(ctx, m), None, [number, uuid]);
    assert OneOf(m.id) + OneOf(m.uuid) == [number, uuid];
    hide RosterIdentity;
    assert MemberObservations(ctx, m) == [byUuid];
    assert [m][..0] == [] && RosterObservations(ctx, [m]) == [byUuid];
    assert rows[..1] == [rows[0]] && [rows[0]][..0] == [];
    RowObserved(ctx, rows, byNumber);
    RowObserved(ctx, rows, byUuid);
    assert byNumber in RowObservations(ctx, rows[0]) && byUuid in RowObservations(ctx, rows[1]);
    assert rows[0] in rows && rows[1] in rows;
    hide RowsObservations, RowObservations, Merge, Spellings;
    assert Keyed(byNumber, "e164:" + number) && Keyed(byUuid, "aci:" + aci);
    MergeHolds(Observations(ctx, rows, []), "aci:" + aci);
    MergeHolds(Observations(ctx, rows, []), "e164:" + number);
    assert ("aci:" + aci)[0] == 'a' && ("e164:" + number)[0] == 'e';
  }

  /** With the pair the other way round the number leads to the ACI, and both rows are
      observations of one contact. */
  lemma SwappedPairKeepsOne(ctx: Context, number: string, uuid: string, aci: string)
    requires ctx.pairs == [(number, aci)] && uuid != "" && uuid != number
    requires ctx.parseAci(number).None? && ctx.parseAci(uuid) == Some(aci)
    ensures Key(PeerIdentity(ctx, number)) == Key(RosterIdentity(ctx, Member(Some(number), Some(uuid)))) == Some("aci:" + aci)
  {
    assert ctx.pairs[..0] == [];
    assert AciTable(ctx.pairs) == map[number := aci];
  }

  /** Such a peer exists. */
  lemma SomePeerBecomesTwo() returns (ctx: Context, rows: seq<PeerRow>, book: Book)
    ensures book == Merge(Observations(ctx, rows, []))
    ensures ctx.pairs == [("0f", "+1555")] && "aci:0f" in book && "e164:+1555" in book
  {
    hide Merge, Observations;
    ctx := Context("+1", [("0f", "+1555")], x => if x == "0f" then Some("0f") else None,
                   x => if x == "+1555" then Some("+1555") else None, x => Some(x), (n, f) => n + f);
    rows := [ContactRow("+1555", "t"), GroupRow("g", [Member(Some("+1555"), Some("0f"))])];
    book := Merge(Observations(ctx, rows, []));
    assert "aci:" + "0f" == "aci:0f" && "e164:" + "+1555" == "e164:+1555";
    RecordedPeerBecomesTwo(ctx, "+1555", "0f", "0f", "t", "g");
  }
}
