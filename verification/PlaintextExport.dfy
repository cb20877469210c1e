/** The plaintext export (src/backup_export.rs): message lines with their reactions, and
    what is counted for rows and reactions that reach no line.

    Stored JSON columns arrive parsed or marked as broken. */
module PlaintextExport {
  import opened Basics
  import opened Contacts
  import opened Projection
  import opened Artifact

  const MAX_REACTION_ROWS := 250_000

  datatype Column = Absent | Broken | Parsed(value: string)

  datatype Row = Row(
    id: string, direction: Direction, status: Status, adminDeleted: bool, viewOnce: bool,
    sender: string, sentAt: nat, body: string, bodyTruncated: bool,
    quote: Column, quoteTarget: Option<string>, sticker: Column, attachments: Column)

  datatype Reaction = Reaction(target: nat, actor: string, emoji: string, updatedAt: nat, removed: bool)

  /** A reaction on a line; an author the projection never met is left off. */
  datatype Shown = Shown(reaction: Reaction, author: Option<nat>)

  datatype Message = Message(row: Row, reactions: seq<Shown>)

  type PlainLine = Line<Message>

  /** What the rows of one chat are read against: the sender map, the store's own
      account id and the reactions read for the chat. */
  datatype View = View(senders: map<string, nat>, self: string, page: seq<Reaction>)

  // ------------------------------------------------------------------------ one row

  datatype Fate = Written(author: nat) | Skipped | TooLong

  predicate HasText(row: Row)
  {
    row.body != "" && !row.bodyTruncated
  }

  predicate Contentless(row: Row)
  {
    !HasText(row) && !row.quote.Parsed? && row.quoteTarget.None? && !row.sticker.Parsed? && !row.attachments.Parsed?
  }

  predicate Authored(row: Row, senders: map<string, nat>)
  {
    row.direction == Outgoing || row.sender in senders
  }

  function FateOf(row: Row, senders: map<string, nat>): Fate
  {
    if Gated(row.direction, row.status, row.adminDeleted) || !Authored(row, senders) then Skipped
    else if HasText(row) && |row.body| > MAX_ARTIFACT_BODY_BYTES then TooLong
    else if Contentless(row) then Skipped
    else Written(if row.direction == Outgoing then 0 else senders[row.sender])
  }

  function SenderOf(m: Message): Option<string>
  {
    if m.row.direction == Outgoing then None else Some(m.row.sender)
  }

  /** What an authored row loses on its line. */
  function Featured(c: Counters, row: Row): Counters
  {
    c.(bodyTruncated := c.bodyTruncated + One(row.bodyTruncated && row.body != ""),
       quotes := c.quotes + One(row.quote.Broken?), stickers := c.stickers + One(row.sticker.Broken?),
       attachments := c.attachments + One(!row.attachments.Absent?))
  }

  function CountRow(c: Counters, row: Row, senders: map<string, nat>): Counters
  {
    var open := !Gated(row.direction, row.status, row.adminDeleted);
    (if open && Authored(row, senders) then Featured(c, row) else c).(
      viewOnce := c.viewOnce + One(open && row.viewOnce), rows := c.rows + One(FateOf(row, senders).Skipped?))
  }

  // ------------------------------------------------------------------------ reactions

  function For(page: seq<Reaction>, time: nat): seq<Reaction>
  {
    if page == [] then []
    else
      var init, last := For(page[..|page| - 1], time), page[|page| - 1];
      if last.target == time then init + [last] else init
  }

  method GroupByTarget(page: seq<Reaction>) returns (groups: map<nat, seq<Reaction>>)
    ensures forall t :: (if t in groups then groups[t] else []) == For(page, t)
  {
    groups := map[];
    for i := 0 to |page|
      invariant forall t :: (if t in groups then groups[t] else []) == For(page[..i], t)
    {
      assert page[..i + 1][..i] == page[..i];
      var t := page[i].target;
      groups := groups[t := (if t in groups then groups[t] else []) + [page[i]]];
    }
    assert page[..|page|] == page;
  }

  function Author(v: View, actor: string): Option<nat>
  {
    if actor == v.self then Some(0)
    else if actor in v.senders then Some(v.senders[actor])
    else None
  }

  function ShownOf(v: View, list: seq<Reaction>): seq<Shown>
  {
    seq(|list|, i requires 0 <= i < |list| => Shown(list[i], Author(v, list[i].actor)))
  }

  function LineOf(chat: nat, row: Row, v: View): seq<PlainLine>
  {
    var fate := FateOf(row, v.senders);
    if fate.Written? then [Item(chat, fate.author, Message(row, ShownOf(v, For(v.page, row.sentAt))))] else []
  }

  /** How many reactions a row puts on its line. */
  function Hits(row: Row, v: View): nat
  {
    if FateOf(row, v.senders).Written? then |For(v.page, row.sentAt)| else 0
  }

  // -------------------------------------------------------------- the rows of one chat

  function Lines(chat: nat, rows: seq<Row>, v: View): seq<PlainLine>
  {
    if rows == [] then [] else Lines(chat, rows[..|rows| - 1], v) + LineOf(chat, rows[|rows| - 1], v)
  }

  function Tally(c: Counters, rows: seq<Row>, v: View): Counters
  {
    if rows == [] then c else CountRow(Tally(c, rows[..|rows| - 1], v), rows[|rows| - 1], v.senders)
  }

  /** How many reactions the rows put on lines. */
  function AllHits(rows: seq<Row>, v: View): nat
  {
    if rows == [] then 0 else AllHits(rows[..|rows| - 1], v) + Hits(rows[|rows| - 1], v)
  }

  predicate NoneTooLong(rows: seq<Row>, v: View)
  {
    forall r | r in rows :: !FateOf(r, v.senders).TooLong?
  }

  /** Reactions on a stretch of lines. */
  function OnLines(lines: seq<PlainLine>): nat
  {
    if lines == [] then 0
    else
      var last := lines[|lines| - 1];
      OnLines(lines[..|lines| - 1]) + if last.Item? then |last.content.reactions| else 0
  }

  lemma {:induction false} OnLinesConcat(a: seq<PlainLine>, b: seq<PlainLine>)
    ensures OnLines(a + b) == OnLines(a) + OnLines(b)
  {
    if b == [] {
      assert a + b == a;
    } else {
      OnLinesConcat(a, b[..|b| - 1]);
      assert (a + b)[..|a + b| - 1] == a + b[..|b| - 1];
    }
  }

  /** Every row is a message line or a skipped row, and the running count of reactions is
      the number of them on the lines. */
  lemma {:induction false} RowsAreAccounted(c: Counters, chat: nat, rows: seq<Row>, v: View)
    requires NoneTooLong(rows, v)
    ensures c.rows + |rows| == |Lines(chat, rows, v)| + Tally(c, rows, v).rows
    ensures OnLines(Lines(chat, rows, v)) == AllHits(rows, v)
  {
    if rows != [] {
      var init, last := rows[..|rows| - 1], rows[|rows| - 1];
      assert rows == init + [last];
      RowsAreAccounted(c, chat, init, v);
      RowAddsUp(Tally(c, init, v), chat, last, v);
      hide FateOf, LineOf, Hits, CountRow, OnLines;
      OnLinesConcat(Lines(chat, init, v), LineOf(chat, last, v));
    }
  }

  lemma RowAddsUp(c: Counters, chat: nat, row: Row, v: View)
    requires !FateOf(row, v.senders).TooLong?
    ensures c.rows + 1 == |LineOf(chat, row, v)| + CountRow(c, row, v.senders).rows
    ensures OnLines(LineOf(chat, row, v)) == Hits(row, v)
  {
    hide For;
    var lines := LineOf(chat, row, v);
    if lines != [] {
      assert lines[..0] == [];
    }
  }

  // ----------------------------------------------- reactions and lines of a chat agree

  function Times(rows: seq<Row>, v: View): set<nat>
  {
    set r | r in rows && FateOf(r, v.senders).Written? :: r.sentAt
  }

  /** Reactions read whose target time is not the time of a line. */
  function Orphans(page: seq<Reaction>, times: set<nat>): nat
  {
    if page == [] then 0 else Orphans(page[..|page| - 1], times) + One(page[|page| - 1].target !in times)
  }

  /** How many lines a time has. */
  function Copies(rows: seq<Row>, v: View, time: nat): nat
  {
    if rows == [] then 0
    else
      var last := rows[|rows| - 1];
      Copies(rows[..|rows| - 1], v, time) + One(FateOf(last, v.senders).Written? && last.sentAt == time)
  }

  /** Two different rows that reach a line have this time. */
  ghost predicate Shared(rows: seq<Row>, v: View, time: nat)
  {
    exists i, j :: 0 <= i < j < |rows| && LineAt(rows, v, i, time) && LineAt(rows, v, j, time)
  }

  predicate LineAt(rows: seq<Row>, v: View, i: nat, time: nat)
    requires i < |rows|
  {
    FateOf(rows[i], v.senders).Written? && rows[i].sentAt == time
  }

  /** Reactions shown more than once, counted beyond the first time. */
  function Extra(page: seq<Reaction>, rows: seq<Row>, v: View): nat
  {
    if page == [] then 0
    else Extra(page[..|page| - 1], rows, v) + Monus(Copies(rows, v, page[|page| - 1].target), 1)
  }

  function Monus(a: nat, b: nat): nat { if a >= b then a - b else 0 }

  /** The reactions shown, counted by reaction. */
  function Showings(page: seq<Reaction>, rows: seq<Row>, v: View): nat
  {
    if page == [] then 0
    else Showings(page[..|page| - 1], rows, v) + Copies(rows, v, page[|page| - 1].target)
  }

  lemma {:induction false} ShowingsSnoc(page: seq<Reaction>, init: seq<Row>, last: Row, v: View)
    ensures Showings(page, init + [last], v) ==
              Showings(page, init, v) + if FateOf(last, v.senders).Written? then |For(page, last.sentAt)| else 0
  {
    hide FateOf;
    if page != [] {
      assert (init + [last])[..|init|] == init;
      ShowingsSnoc(page[..|page| - 1], init, last, v);
    }
  }

  lemma {:induction false} NothingShown(page: seq<Reaction>, v: View)
    ensures Showings(page, [], v) == 0
  {
    if page != [] {
      NothingShown(page[..|page| - 1], v);
    }
  }

  /** Counting line by line and counting reaction by reaction agree. */
  lemma {:induction false} HitsAreShowings(rows: seq<Row>, v: View)
    ensures AllHits(rows, v) == Showings(v.page, rows, v)
  {
    if rows == [] {
      NothingShown(v.page, v);
    } else {
      var init, last := rows[..|rows| - 1], rows[|rows| - 1];
      assert rows == init + [last];
      hide FateOf, For, Showings;
      HitsAreShowings(init, v);
      ShowingsSnoc(v.page, init, last, v);
    }
  }

  lemma {:induction false} CopiesAre(rows: seq<Row>, v: View, time: nat)
    ensures Copies(rows, v, time) >= 1 <==> time in Times(rows, v)
    ensures Copies(rows, v, time) >= 2 <==> Shared(rows, v, time)
  {
    hide FateOf;
    if rows != [] {
      var init, last := rows[..|rows| - 1], rows[|rows| - 1];
      assert rows == init + [last];
      hide Shared, Times;
      CopiesAre(init, v, time);
      TimesSplit(init, last, v, time);
      SharedSplits(init, last, v, time);
    }
  }

  lemma TimesSplit(init: seq<Row>, last: Row, v: View, time: nat)
    ensures time in Times(init + [last], v) <==> time in Times(init, v) || LineAt([last], v, 0, time)
  {
    hide FateOf;
    assert forall r :: r in init + [last] <==> r in init || r == last;
  }

  lemma SharedSplits(init: seq<Row>, last: Row, v: View, time: nat)
    ensures Shared(init + [last], v, time) <==>
              Shared(init, v, time) || (time in Times(init, v) && LineAt([last], v, 0, time))
  {
    hide FateOf;
    var rows, n := init + [last], |init|;
    assert forall i | 0 <= i < n :: LineAt(rows, v, i, time) <==> LineAt(init, v, i, time);
    assert LineAt(rows, v, n, time) <==> LineAt([last], v, 0, time);
    if i, j :| 0 <= i < j < |rows| && LineAt(rows, v, i, time) && LineAt(rows, v, j, time) {
      assert LineAt(init, v, i, time);
      assert init[i] in init;
      if j < n {
        assert LineAt(init, v, j, time);
      }
    }
    if time in Times(init, v) && LineAt([last], v, 0, time) {
      var r :| r in init && FateOf(r, v.senders).Written? && r.sentAt == time;
      var i :| 0 <= i < n && init[i] == r;
      assert LineAt(rows, v, i, time) && LineAt(rows, v, n, time);
    }
    if i, j :| 0 <= i < j < n && LineAt(init, v, i, time) && LineAt(init, v, j, time) {
      assert LineAt(rows, v, i, time) && LineAt(rows, v, j, time);
    }
  }

  /** Every reaction read is shown once, is shown again, or is an orphan. */
  lemma {:induction false} ReactionsSplit(page: seq<Reaction>, rows: seq<Row>, v: View)
    ensures Showings(page, rows, v) + Orphans(page, Times(rows, v)) == |page| + Extra(page, rows, v)
  {
    if page != [] {
      hide Copies, Times, Shared;
      ReactionsSplit(page[..|page| - 1], rows, v);
      CopiesAre(rows, v, page[|page| - 1].target);
    }
  }

  /** Some reaction read is for a time that two lines share. */
  ghost predicate Doubled(page: seq<Reaction>, rows: seq<Row>, v: View)
  {
    exists r :: r in page && Shared(rows, v, r.target)
  }

  lemma {:induction false} ExtraIff(page: seq<Reaction>, rows: seq<Row>, v: View)
    ensures Extra(page, rows, v) == 0 <==> !Doubled(page, rows, v)
  {
    if page != [] {
      hide Copies, Shared;
      var init, last := page[..|page| - 1], page[|page| - 1];
      assert page == init + [last];
      ExtraIff(init, rows, v);
      CopiesAre(rows, v, last.target);
    }
  }

  /** No two rows that reach a line have the same time. */
  ghost predicate DistinctTimes(rows: seq<Row>, v: View)
  {
    forall time :: !Shared(rows, v, time)
  }

  // -------------------------------------------------------------------- one whole chat

  /** The store hands out at most the first `MAX_REACTION_ROWS` reactions of a chat. */
  function Page(all: seq<Reaction>): seq<Reaction>
  {
    if |all| > MAX_REACTION_ROWS then all[..MAX_REACTION_ROWS] else all
  }

  /** The counters after one chat with the stored reactions `all`. */
  function ChatTally(c: Counters, rows: seq<Row>, all: seq<Reaction>, v: View): Counters
  {
    var d := Tally(c.(reactions := c.reactions + Monus(|all|, |v.page|)), rows, v);
    d.(reactions := d.reactions + Monus(|v.page|, AllHits(rows, v)))
  }

  lemma {:induction false} TallyKeepsReactions(c: Counters, rows: seq<Row>, v: View)
    ensures Tally(c, rows, v).reactions == c.reactions && Tally(c, rows, v).skeletonChats == c.skeletonChats
  {
    if rows != [] {
      TallyKeepsReactions(c, rows[..|rows| - 1], v);
    }
  }

  /** What a chat adds to the skipped reactions. */
  function Skips(c: Counters, rows: seq<Row>, all: seq<Reaction>, v: View): int
  {
    ChatTally(c, rows, all, v).reactions - c.reactions
  }

  /** The skip count of a chat is what was not read plus the orphans beyond the extra
      showings: the code subtracts one count from the other and stops at zero. */
  lemma SkipsAre(c: Counters, rows: seq<Row>, all: seq<Reaction>, v: View)
    ensures Skips(c, rows, all, v) == Monus(|all|, |v.page|) + Monus(Orphans(v.page, Times(rows, v)), Extra(v.page, rows, v))
  {
    hide Tally, AllHits, Orphans, Extra, Showings, Times;
    TallyKeepsReactions(c.(reactions := c.reactions + Monus(|all|, |v.page|)), rows, v);
    HitsAreShowings(rows, v);
    ReactionsSplit(v.page, rows, v);
  }

  /** The skip count of a chat is the number of reactions not read or without a line if
      and only if no reaction read is for a time two lines share, or all have a line. */
  lemma SkipsAreOrphansIff(c: Counters, rows: seq<Row>, all: seq<Reaction>, v: View)
    ensures Skips(c, rows, all, v) == Monus(|all|, |v.page|) + Orphans(v.page, Times(rows, v))
            <==> !Doubled(v.page, rows, v) || Orphans(v.page, Times(rows, v)) == 0
  {
    hide Skips, Doubled, Orphans, Extra, Times;
    SkipsAre(c, rows, all, v);
    ExtraIff(v.page, rows, v);
  }

  /** For one chat: reactions shown and reactions skipped add up to the reactions stored,
      plus the extra showings that no orphan makes up for. */
  lemma ChatReactionsAddUp(c: Counters, chat: nat, rows: seq<Row>, all: seq<Reaction>, v: View)
    requires v.page == Page(all) && NoneTooLong(rows, v)
    ensures OnLines(Lines(chat, rows, v)) + Skips(c, rows, all, v)
         == |all| + Monus(Extra(v.page, rows, v), Orphans(v.page, Times(rows, v)))
  {
    hide Lines, Tally, AllHits, NoneTooLong, Orphans, Extra, Showings, Times, Skips;
    RowsAreAccounted(c, chat, rows, v);
    SkipsAre(c, rows, all, v);
    HitsAreShowings(rows, v);
    ReactionsSplit(v.page, rows, v);
  }

  /** A chat with two lines of one time: the one reaction to it is shown twice, so that
      more is accounted for than is stored. */
  lemma TwinTimesBreakConservation(v: View, row: Row, twin: Row, r: Reaction)
    requires v.page == [r] && row.id != twin.id && row.sentAt == twin.sentAt == r.target
    requires FateOf(row, v.senders).Written? && FateOf(twin, v.senders).Written?
    ensures OnLines(Lines(1, [row, twin], v)) + Skips(NONE, [row, twin], [r], v) == 2
  {
    TwinHits(v, row, twin);
    assert For([r], r.target) == [r] by {
      assert [r][..0] == [];
    }
    hide Lines, AllHits, FateOf, For;
    RowsAreAccounted(NONE, 1, [row, twin], v);
    hide Tally;
    TallyKeepsReactions(NONE, [row, twin], v);
  }

  lemma TwinHits(v: View, row: Row, twin: Row)
    ensures AllHits([row, twin], v) == Hits(row, v) + Hits(twin, v)
  {
    hide Hits;
    assert [row, twin][..1] == [row] && [row][..0] == [];
    assert AllHits([row], v) == Hits(row, v);
  }

  /** Such a chat: two outgoing texts of one time, and one reaction to it. */
  lemma ConservationFails() returns (v: View, rows: seq<Row>, all: seq<Reaction>)
    ensures v.page == Page(all) && NoneTooLong(rows, v) && |rows| == 2 && rows[0].id != rows[1].id
    ensures OnLines(Lines(1, rows, v)) + Skips(NONE, rows, all, v) != |all|
  {
    var r := Reaction(7, "actor", "+", 8, false);
    var row := Row("a", Outgoing, Sent, false, false, "", 7, "text", false, Absent, None, Absent, Absent);
    var twin := row.(id := "b", body := "another");
    v, rows, all := View(map[], "self", [r]), [row, twin], [r];
    TwinTimesBreakConservation(v, row, twin, r);
  }

  /** With a second reaction, to a message that is gone, the sum comes out right and yet
      the reaction without a line is not counted. */
  lemma OrphanGoesUncounted(v: View, row: Row, twin: Row, r: Reaction, orphan: Reaction)
    requires v.page == [r, orphan] && row.id != twin.id && row.sentAt == twin.sentAt == r.target != orphan.target
    requires FateOf(row, v.senders).Written? && FateOf(twin, v.senders).Written?
    ensures Skips(NONE, [row, twin], [r, orphan], v) == 0 && Orphans(v.page, Times([row, twin], v)) == 1
  {
    var rows := [row, twin];
    assert v.page[..1] == [r] && [r][..0] == [];
    assert rows[0] in rows && r.target in Times(rows, v) && orphan.target !in Times(rows, v);
    hide FateOf, Times;
    assert Orphans([r], Times(rows, v)) == 0;
    assert Shared(rows, v, r.target) by {
      assert LineAt(rows, v, 0, r.target) && LineAt(rows, v, 1, r.target);
    }
    CopiesAre(rows, v, r.target);
    CopiesAre(rows, v, orphan.target);
    hide Copies;
    assert Extra([r], rows, v) >= 1;
    SkipsAre(NONE, rows, [r, orphan], v);
  }

  // ------------------------------------------------ rows, by their own fields alone

  /** What can be said of a row, from its fields and from the contacts. */
  datatype Aspect = Exported | NoHistory | Foreign | Empty | Cut | OnceOnly | StickerLost | QuoteLost | WithFiles

  /** Whole text, a quote that parses or has its target, a sticker or attachments that parse. */
  predicate Filled(row: Row)
  {
    || (row.body != "" && !row.bodyTruncated)
    || row.quote.Parsed? || row.quoteTarget.Some? || row.sticker.Parsed? || row.attachments.Parsed?
  }

  /** The row is history and `author` wrote it. */
  ghost predicate By(row: Row, p: Projected, hash: (string, string) -> string, author: nat)
  {
    && History(row.direction, row.status, row.adminDeleted)
    && if row.direction == Outgoing then author == 0 else Writes(p, hash, row.sender, author)
  }

  ghost predicate HasAuthor(row: Row, p: Projected, hash: (string, string) -> string)
  {
    exists author :: By(row, p, hash, author)
  }

  ghost predicate Shows(row: Row, p: Projected, hash: (string, string) -> string, a: Aspect)
  {
    var history, authored := History(row.direction, row.status, row.adminDeleted), HasAuthor(row, p, hash);
    match a
    case Exported => authored && Filled(row)
    case NoHistory => !history
    case Foreign => history && !authored
    case Empty => authored && !Filled(row)
    case Cut => authored && row.bodyTruncated && row.body != ""
    case OnceOnly => history && row.viewOnce
    case StickerLost => authored && row.sticker.Broken?
    case QuoteLost => authored && row.quote.Broken?
    case WithFiles => authored && !row.attachments.Absent?
  }

  ghost function Showing(p: Projected, hash: (string, string) -> string, a: Aspect): Row -> bool
  {
    (row: Row) => Shows(row, p, hash, a)
  }

  lemma AuthorIs(row: Row, p: Projected, hash: (string, string) -> string)
    requires Mapped(p, hash)
    ensures HasAuthor(row, p, hash) <==> History(row.direction, row.status, row.adminDeleted) && Authored(row, p.senders)
    ensures forall author ::
      By(row, p, hash, author)
      <==> HasAuthor(row, p, hash) && author == if row.direction == Outgoing then 0 else p.senders[row.sender]
  {
    hide Mapped, Writes;
    KnownSender(p, hash, row.sender);
    if History(row.direction, row.status, row.adminDeleted) && Authored(row, p.senders) {
      assert By(row, p, hash, if row.direction == Outgoing then 0 else p.senders[row.sender]);
    }
  }

  /** The gates of one row decide by what can be said of it. */
  lemma FateIs(row: Row, p: Projected, hash: (string, string) -> string)
    requires Mapped(p, hash) && !FateOf(row, p.senders).TooLong?
    ensures forall author :: FateOf(row, p.senders) == Written(author) <==> By(row, p, hash, author) && Filled(row)
    ensures FateOf(row, p.senders).Written? <==> Shows(row, p, hash, Exported)
    ensures One(FateOf(row, p.senders) == Skipped)
      == One(Shows(row, p, hash, NoHistory)) + One(Shows(row, p, hash, Foreign)) + One(Shows(row, p, hash, Empty))
  {
    hide Mapped, By, HasAuthor;
    AuthorIs(row, p, hash);
  }

  /** Oneself, the contact whose spelling hashes to the actor, or nobody known. */
  ghost predicate Signed(x: Shown, self: string, p: Projected, hash: (string, string) -> string)
  {
    if x.reaction.actor == self then x.author == Some(0)
    else match x.author
         case Some(a) => Writes(p, hash, x.reaction.actor, a)
         case None => forall a :: !Writes(p, hash, x.reaction.actor, a)
  }

  /** The message carries the reactions read for its time, in order, each signed. */
  ghost predicate Reacted(m: Message, self: string, page: seq<Reaction>, p: Projected, hash: (string, string) -> string)
  {
    && |m.reactions| == |For(page, m.row.sentAt)|
    && forall i | 0 <= i < |m.reactions| ::
         m.reactions[i].reaction == For(page, m.row.sentAt)[i] && Signed(m.reactions[i], self, p, hash)
  }

  lemma SignedIs(x: Shown, v: View, p: Projected, hash: (string, string) -> string)
    requires Mapped(p, hash) && v.senders == p.senders
    ensures Signed(x, v.self, p, hash) <==> x.author == Author(v, x.reaction.actor)
  {
    hide Mapped, Writes;
    KnownSender(p, hash, x.reaction.actor);
  }

  lemma ReactedIs(m: Message, v: View, p: Projected, hash: (string, string) -> string)
    requires Mapped(p, hash) && v.senders == p.senders
    ensures Reacted(m, v.self, v.page, p, hash) <==> m.reactions == ShownOf(v, For(v.page, m.row.sentAt))
  {
    hide Mapped, For, Signed, Author;
    forall i | 0 <= i < |m.reactions|
      ensures Signed(m.reactions[i], v.self, p, hash) <==> m.reactions[i].author == Author(v, m.reactions[i].reaction.actor)
    {
      SignedIs(m.reactions[i], v, p, hash);
    }
  }

  /** Grouping by time loses, adds and changes nothing. */
  lemma {:induction false} ForIsExact(page: seq<Reaction>, time: nat, r: Reaction)
    ensures multiset(For(page, time))[r] == if r.target == time then multiset(page)[r] else 0
  {
    if page != [] {
      assert page == page[..|page| - 1] + [page[|page| - 1]];
      ForIsExact(page[..|page| - 1], time, r);
    }
  }

  /** The message lines tell these rows, one each and in this order. */
  ghost predicate TellRows(lines: seq<PlainLine>, rows: seq<Row>)
  {
    |Told(lines)| == |rows| && forall i | 0 <= i < |rows| :: Told(lines)[i].row == rows[i]
  }

  lemma TellConcat(a: seq<PlainLine>, rows: seq<Row>, b: seq<PlainLine>, more: seq<Row>)
    requires TellRows(a, rows) && TellRows(b, more)
    ensures TellRows(a + b, rows + more)
  {
    hide Told;
    ToldConcat(a, b);
  }

  ghost predicate LineOwed(p: Projected, hash: (string, string) -> string, rows: seq<Row>, self: string, page: seq<Reaction>, author: nat, m: Message)
  {
    m.row in rows && By(m.row, p, hash, author) && Filled(m.row) && Reacted(m, self, page, p, hash)
  }

  lemma OneLine(p: Projected, hash: (string, string) -> string, chat: nat, row: Row, v: View)
    requires Mapped(p, hash) && v.senders == p.senders && !FateOf(row, v.senders).TooLong?
    ensures TellRows(LineOf(chat, row, v), Picked([row], Showing(p, hash, Exported)))
    ensures forall k, author, m ::
      Item(k, author, m) in LineOf(chat, row, v) <==> k == chat && LineOwed(p, hash, [row], v.self, v.page, author, m)
  {
    FateIs(row, p, hash);
    forall m: Message ensures Reacted(m, v.self, v.page, p, hash) <==> m.reactions == ShownOf(v, For(v.page, m.row.sentAt)) {
      ReactedIs(m, v, p, hash);
    }
    hide Mapped, FateOf, Reacted, ShownOf, For, By, Shows, Filled;
    PickedOne(row, p, hash, Exported);
    hide Picked;
    var lines := LineOf(chat, row, v);
    if lines != [] {
      ToldOne(lines[0]);
    }
  }

  lemma PickedOne(row: Row, p: Projected, hash: (string, string) -> string, a: Aspect)
    ensures Picked([row], Showing(p, hash, a)) == if Shows(row, p, hash, a) then [row] else []
  {
    hide Shows;
    assert [row][..0] == [];
  }

  /** One chat: its lines tell exactly the exported rows, each under its author and with the
      reactions read for its time. */
  lemma {:induction false} LinesTell(p: Projected, hash: (string, string) -> string, chat: nat, rows: seq<Row>, v: View)
    requires Mapped(p, hash) && v.senders == p.senders && NoneTooLong(rows, v)
    ensures TellRows(Lines(chat, rows, v), Picked(rows, Showing(p, hash, Exported)))
    ensures forall k, author, m ::
      Item(k, author, m) in Lines(chat, rows, v) <==> k == chat && LineOwed(p, hash, rows, v.self, v.page, author, m)
  {
    hide Mapped, FateOf, Reacted, By, Filled, TellRows, LineOf;
    if rows == [] {
      TellNothing(p, hash);
    } else {
      var init, last := rows[..|rows| - 1], rows[|rows| - 1];
      assert rows == init + [last];
      LinesTell(p, hash, chat, init, v);
      OneLine(p, hash, chat, last, v);
      PickedConcat(init, [last], Showing(p, hash, Exported));
      hide Picked;
      TellConcat(Lines(chat, init, v), Picked(init, Showing(p, hash, Exported)), LineOf(chat, last, v), Picked([last], Showing(p, hash, Exported)));
    }
  }

  lemma TellNothing(p: Projected, hash: (string, string) -> string)
    ensures TellRows([], Picked([], Showing(p, hash, Exported)))
  {
  }

  /** Each counter has grown by the number of rows with its cause. */
  ghost predicate Counted(c: Counters, d: Counters, rows: seq<Row>, p: Projected, hash: (string, string) -> string)
  {
    && d.rows == c.rows + |Picked(rows, Showing(p, hash, NoHistory))| + |Picked(rows, Showing(p, hash, Foreign))| + |Picked(rows, Showing(p, hash, Empty))|
    && d.bodyTruncated == c.bodyTruncated + |Picked(rows, Showing(p, hash, Cut))|
    && d.viewOnce == c.viewOnce + |Picked(rows, Showing(p, hash, OnceOnly))|
    && d.stickers == c.stickers + |Picked(rows, Showing(p, hash, StickerLost))|
    && d.quotes == c.quotes + |Picked(rows, Showing(p, hash, QuoteLost))|
    && d.attachments == c.attachments + |Picked(rows, Showing(p, hash, WithFiles))|
  }

  lemma OneCounted(c: Counters, row: Row, p: Projected, hash: (string, string) -> string)
    requires Mapped(p, hash) && !FateOf(row, p.senders).TooLong?
    ensures var d := CountRow(c, row, p.senders);
      && d.rows == c.rows + One(Shows(row, p, hash, NoHistory)) + One(Shows(row, p, hash, Foreign)) + One(Shows(row, p, hash, Empty))
      && d.bodyTruncated == c.bodyTruncated + One(Shows(row, p, hash, Cut))
      && d.viewOnce == c.viewOnce + One(Shows(row, p, hash, OnceOnly))
      && d.stickers == c.stickers + One(Shows(row, p, hash, StickerLost))
      && d.quotes == c.quotes + One(Shows(row, p, hash, QuoteLost))
      && d.attachments == c.attachments + One(Shows(row, p, hash, WithFiles))
  {
    FateIs(row, p, hash);
    AuthorIs(row, p, hash);
    hide Mapped, FateOf, By, HasAuthor, Filled, Authored;
  }

  lemma {:induction false} TallyCounts(c: Counters, rows: seq<Row>, v: View, p: Projected, hash: (string, string) -> string)
    requires Mapped(p, hash) && v.senders == p.senders && NoneTooLong(rows, v)
    ensures Counted(c, Tally(c, rows, v), rows, p, hash)
  {
    hide Mapped, Shows, FateOf, CountRow;
    if rows != [] {
      var init, last := rows[..|rows| - 1], rows[|rows| - 1];
      assert rows == init + [last];
      TallyCounts(c, init, v, p, hash);
      OneCounted(Tally(c, init, v), last, p, hash);
    }
  }

  lemma NothingCounted(c: Counters, p: Projected, hash: (string, string) -> string)
    ensures Counted(c, c, [], p, hash)
  {
  }

  lemma CountedConcat(c: Counters, d: Counters, e: Counters, some: seq<Row>, more: seq<Row>, p: Projected, hash: (string, string) -> string)
    requires Counted(c, d, some, p, hash) && Counted(d, e, more, p, hash)
    ensures Counted(c, e, some + more, p, hash)
  {
    hide Picked;
    forall a: Aspect ensures |Picked(some + more, Showing(p, hash, a))| == |Picked(some, Showing(p, hash, a))| + |Picked(more, Showing(p, hash, a))| {
      PickedConcat(some, more, Showing(p, hash, a));
    }
  }

  /** Row counts do not look at the number of reactions. */
  lemma CountedIgnoresReactions(c: Counters, c': Counters, d: Counters, d': Counters, rows: seq<Row>, p: Projected, hash: (string, string) -> string)
    requires c' == c.(reactions := c'.reactions, skeletonChats := c'.skeletonChats)
    requires d' == d.(reactions := d'.reactions) && Counted(c', d, rows, p, hash)
    ensures Counted(c, d', rows, p, hash)
  {
    hide Picked;
  }

  method CountFeatures(row: Row, c: Counters) returns (d: Counters)
    ensures d == Featured(c, row).(bodyTruncated := c.bodyTruncated)
  {
    d := c;
    if row.quote.Broken? {
      d := d.(quotes := d.quotes + 1);
    }
    if row.sticker.Broken? {
      d := d.(stickers := d.stickers + 1);
    }
    if !row.attachments.Absent? {
      d := d.(attachments := d.attachments + 1);
    }
  }

  /** The gates and counters of one row, in the order they are consulted. */
  method Weigh(row: Row, senders: map<string, nat>, c: Counters) returns (d: Counters, fate: Fate)
    ensures fate == FateOf(row, senders)
    ensures !fate.TooLong? ==> d == CountRow(c, row, senders)
  {
    d := c;
    if row.status == SystemStatus || row.direction == SystemDirection || row.status == RemoteDeleted || row.adminDeleted {
      return d.(rows := d.rows + 1), Skipped;
    }
    if row.direction == Outgoing && row.status !in {Sent, Delivered, Read} {
      return d.(rows := d.rows + 1), Skipped;
    }
    if row.viewOnce {
      d := d.(viewOnce := d.viewOnce + 1);
    }
    var author := 0;
    if row.direction != Outgoing {
      if row.sender !in senders {
        return d.(rows := d.rows + 1), Skipped;
      }
      author := senders[row.sender];
    }
    if row.bodyTruncated && row.body != "" {
      d := d.(bodyTruncated := d.bodyTruncated + 1);
    }
    if HasText(row) && |row.body| > MAX_ARTIFACT_BODY_BYTES {
      return d, TooLong;
    }
    d := CountFeatures(row, d);
    if Contentless(row) {
      return d.(rows := d.rows + 1), Skipped;
    }
    fate := Written(author);
  }

  /** The grouped reactions are looked up by time. */
  ghost predicate Grouped(groups: map<nat, seq<Reaction>>, page: seq<Reaction>)
  {
    forall t :: (if t in groups then groups[t] else []) == For(page, t)
  }

  method WriteMessage(w: ArtifactWriter<Message>, chat: nat, row: Row, groups: map<nat, seq<Reaction>>, v: View,
                      projected: nat, c: Counters)
    returns (d: Counters, sum: nat, error: Option<Cap>)
    requires w.Valid() && Grouped(groups, v.page)
    modifies w
    ensures error.None? <==> !FateOf(row, v.senders).TooLong? && Fits(old(w.lines) + LineOf(chat, row, v), w.size)
    ensures error.None? ==>
              && w.Valid() && w.lines == old(w.lines) + LineOf(chat, row, v)
              && d == CountRow(c, row, v.senders) && sum == projected + Hits(row, v)
    ensures error.Some? ==> if error.value.BodyBytes? then FateOf(row, v.senders).TooLong?
                            else Blamed(old(w.lines) + LineOf(chat, row, v), w.size, error.value)
  {
    hide Fits, Total, FateOf, CountRow, For, Blamed, Refusal;
    assert w.lines + [] == w.lines;
    var fate;
    d, fate := Weigh(row, v.senders, c);
    sum, error := projected, None;
    if fate.TooLong? {
      error := Some(BodyBytes);
    } else if fate.Written? {
      var list := if row.sentAt in groups then groups[row.sentAt] else [];
      assert list == For(v.page, row.sentAt);
      sum := sum + |list|;
      error := w.WriteLine(Item(chat, fate.author, Message(row, ShownOf(v, list))));
    }
  }

  lemma RowEnds(c: Counters, chat: nat, rows: seq<Row>, v: View)
    ensures Tally(c, rows[..0], v) == c && Lines(chat, rows[..0], v) == [] && rows[..|rows|] == rows
    ensures NoneTooLong(rows[..0], v) && AllHits(rows[..0], v) == 0
  {
  }

  lemma RowNext(c: Counters, chat: nat, rows: seq<Row>, v: View, i: nat)
    requires i < |rows|
    ensures Tally(c, rows[..i + 1], v) == CountRow(Tally(c, rows[..i], v), rows[i], v.senders)
    ensures Lines(chat, rows[..i + 1], v) == Lines(chat, rows[..i], v) + LineOf(chat, rows[i], v)
    ensures AllHits(rows[..i + 1], v) == AllHits(rows[..i], v) + Hits(rows[i], v)
    ensures NoneTooLong(rows[..i + 1], v) <==> NoneTooLong(rows[..i], v) && !FateOf(rows[i], v.senders).TooLong?
  {
    hide CountRow, FateOf, LineOf, Hits;
    assert rows[..i + 1] == rows[..i] + [rows[i]];
    assert rows[..i + 1][..i] == rows[..i];
  }

  lemma {:induction false} LinesPrefix(chat: nat, rows: seq<Row>, v: View, i: nat)
    requires i <= |rows|
    ensures Lines(chat, rows[..i], v) <= Lines(chat, rows, v)
    decreases |rows| - i
  {
    if i < |rows| {
      RowNext(NONE, chat, rows, v, i);
      hide Lines, LineOf;
      LinesPrefix(chat, rows, v, i + 1);
    } else {
      assert rows[..i] == rows;
    }
  }

  method WriteRows(w: ArtifactWriter<Message>, chat: nat, rows: seq<Row>, groups: map<nat, seq<Reaction>>, v: View, c: Counters)
    returns (d: Counters, projected: nat, error: Option<Cap>)
    requires w.Valid() && Grouped(groups, v.page)
    modifies w
    ensures error.None? <==> NoneTooLong(rows, v) && Fits(old(w.lines) + Lines(chat, rows, v), w.size)
    ensures error.None? ==>
              && w.Valid() && w.lines == old(w.lines) + Lines(chat, rows, v)
              && d == Tally(c, rows, v) && projected == AllHits(rows, v)
    ensures error.Some? ==> if error.value.BodyBytes? then !NoneTooLong(rows, v)
                            else Blamed(old(w.lines) + Lines(chat, rows, v), w.size, error.value)
  {
    hide Fits, Total, Lines, LineOf, Tally, CountRow, FateOf, AllHits, Hits, Grouped, Blamed;
    d, projected, error := c, 0, None;
    RowEnds(c, chat, rows, v);
    assert old(w.lines) + [] == w.lines;
    for i := 0 to |rows|
      invariant w.Valid() && w.lines == old(w.lines) + Lines(chat, rows[..i], v)
      invariant d == Tally(c, rows[..i], v) && projected == AllHits(rows[..i], v)
      invariant error.None? && NoneTooLong(rows[..i], v)
    {
      RowNext(c, chat, rows, v, i);
      assert old(w.lines) + Lines(chat, rows[..i + 1], v) == w.lines + LineOf(chat, rows[i], v);
      if Fits(old(w.lines) + Lines(chat, rows, v), w.size) {
        LinesPrefix(chat, rows, v, i + 1);
        FitsShorter(old(w.lines), Lines(chat, rows[..i + 1], v), Lines(chat, rows, v), w.size);
      }
      d, projected, error := WriteMessage(w, chat, rows[i], groups, v, projected, d);
      if error.Some? {
        if !error.value.BodyBytes? {
          LinesPrefix(chat, rows, v, i + 1);
          BlamedLonger(old(w.lines), Lines(chat, rows[..i + 1], v), Lines(chat, rows, v), w.size, error.value);
        }
        return;
      }
    }
  }

  method WriteChat(w: ArtifactWriter<Message>, chat: nat, rows: seq<Row>, all: seq<Reaction>, v: View, c: Counters)
    returns (d: Counters, error: Option<Cap>)
    requires w.Valid() && v.page == Page(all)
    modifies w
    ensures error.None? <==> NoneTooLong(rows, v) && Fits(old(w.lines) + Lines(chat, rows, v), w.size)
    ensures error.None? ==> w.Valid() && w.lines == old(w.lines) + Lines(chat, rows, v) && d == ChatTally(c, rows, all, v)
    ensures error.Some? ==> if error.value.BodyBytes? then !NoneTooLong(rows, v)
                            else Blamed(old(w.lines) + Lines(chat, rows, v), w.size, error.value)
  {
    hide Fits, Total, Lines, Tally, AllHits, NoneTooLong, Blamed;
    var truncated := |all| > MAX_REACTION_ROWS;
    d := c;
    if truncated {
      d := d.(reactions := d.reactions + Monus(|all|, |v.page|));
    }
    var groups := GroupByTarget(v.page);
    var projected;
    d, projected, error := WriteRows(w, chat, rows, groups, v, d);
    d := d.(reactions := d.reactions + Monus(|v.page|, projected));
  }

  // ------------------------------------------------------------------- all the chats

  /** The stored content an export reads, by conversation. */
  datatype Store = Store(self: string, rows: string -> seq<Row>, reactions: string -> seq<Reaction>)

  function RowsAt(p: Projected, s: Store, i: nat): seq<Row>
    requires i < |p.chats|
  {
    s.rows(p.chats[i].conversation)
  }

  function ReactionsAt(p: Projected, s: Store, i: nat): seq<Reaction>
    requires i < |p.chats|
  {
    s.reactions(p.chats[i].conversation)
  }

  function ViewAt(p: Projected, s: Store, i: nat): View
    requires i < |p.chats|
  {
    View(p.senders, s.self, Page(ReactionsAt(p, s, i)))
  }

  function LinesAt(p: Projected, s: Store, i: nat): seq<PlainLine>
    requires i < |p.chats|
  {
    Lines(i + 1, RowsAt(p, s, i), ViewAt(p, s, i))
  }

  function TallyAt(c: Counters, p: Projected, s: Store, i: nat): Counters
    requires i < |p.chats|
  {
    ChatTally(c, RowsAt(p, s, i), ReactionsAt(p, s, i), ViewAt(p, s, i))
  }

  predicate ShortAt(p: Projected, s: Store, i: nat)
    requires i < |p.chats|
  {
    NoneTooLong(RowsAt(p, s, i), ViewAt(p, s, i))
  }

  /** The message lines of the first `k` chats. */
  function AllLines(p: Projected, s: Store, k: nat): seq<PlainLine>
    requires k <= |p.chats|
  {
    if k == 0 then [] else AllLines(p, s, k - 1) + LinesAt(p, s, k - 1)
  }

  function AllTally(c: Counters, p: Projected, s: Store, k: nat): Counters
    requires k <= |p.chats|
  {
    if k == 0 then c
    else TallyAt(AllTally(c, p, s, k - 1), p, s, k - 1)
  }

  function AllRows(p: Projected, s: Store, k: nat): nat
    requires k <= |p.chats|
  {
    if k == 0 then 0 else AllRows(p, s, k - 1) + |RowsAt(p, s, k - 1)|
  }

  function AllReactions(p: Projected, s: Store, k: nat): nat
    requires k <= |p.chats|
  {
    if k == 0 then 0 else AllReactions(p, s, k - 1) + |ReactionsAt(p, s, k - 1)|
  }

  ghost predicate AllShort(p: Projected, s: Store, k: nat)
    requires k <= |p.chats|
  {
    forall i | 0 <= i < k :: ShortAt(p, s, i)
  }

  /** The reactions of chat `i` that reach no line: not read, or for a time no line has. */
  function LostAt(p: Projected, s: Store, i: nat): nat
    requires i < |p.chats|
  {
    var v := ViewAt(p, s, i);
    Monus(|ReactionsAt(p, s, i)|, |v.page|) + Orphans(v.page, Times(RowsAt(p, s, i), v))
  }

  function AllLost(p: Projected, s: Store, k: nat): nat
    requires k <= |p.chats|
  {
    if k == 0 then 0 else AllLost(p, s, k - 1) + LostAt(p, s, k - 1)
  }

  /** In chat `i` no reaction read is for a time two lines share, or every one has a line. */
  ghost predicate Telling(p: Projected, s: Store, i: nat)
    requires i < |p.chats|
  {
    var rows, v := RowsAt(p, s, i), ViewAt(p, s, i);
    !Doubled(v.page, rows, v) || Orphans(v.page, Times(rows, v)) == 0
  }

  /** In chat `i` the extra showings are at most as many as the orphans. */
  predicate MadeUp(p: Projected, s: Store, i: nat)
    requires i < |p.chats|
  {
    var rows, v := RowsAt(p, s, i), ViewAt(p, s, i);
    Extra(v.page, rows, v) <= Orphans(v.page, Times(rows, v))
  }

  /** The extra showings of chat `i` that no orphan makes up for. */
  function ExcessAt(p: Projected, s: Store, i: nat): nat
    requires i < |p.chats|
  {
    var rows, v := RowsAt(p, s, i), ViewAt(p, s, i);
    Monus(Extra(v.page, rows, v), Orphans(v.page, Times(rows, v)))
  }

  function AllExcess(p: Projected, s: Store, k: nat): nat
    requires k <= |p.chats|
  {
    if k == 0 then 0 else AllExcess(p, s, k - 1) + ExcessAt(p, s, k - 1)
  }

  lemma {:induction false} AllRowsAreAccounted(c: Counters, p: Projected, s: Store, k: nat)
    requires k <= |p.chats| && AllShort(p, s, k)
    ensures c.rows + AllRows(p, s, k) == |AllLines(p, s, k)| + AllTally(c, p, s, k).rows
    ensures AllTally(c, p, s, k).skeletonChats == c.skeletonChats
  {
    hide LinesAt, TallyAt, RowsAt, ShortAt;
    if k > 0 {
      RowsAddUpAt(AllTally(c, p, s, k - 1), p, s, k - 1);
      AllRowsAreAccounted(c, p, s, k - 1);
    }
  }

  lemma RowsAddUpAt(c: Counters, p: Projected, s: Store, i: nat)
    requires i < |p.chats| && ShortAt(p, s, i)
    ensures c.rows + |RowsAt(p, s, i)| == |LinesAt(p, s, i)| + TallyAt(c, p, s, i).rows
    ensures TallyAt(c, p, s, i).skeletonChats == c.skeletonChats
  {
    ChatRowsAddUp(c, i + 1, RowsAt(p, s, i), ReactionsAt(p, s, i), ViewAt(p, s, i));
  }

  lemma ChatRowsAddUp(c: Counters, chat: nat, rows: seq<Row>, all: seq<Reaction>, v: View)
    requires NoneTooLong(rows, v)
    ensures c.rows + |rows| == |Lines(chat, rows, v)| + ChatTally(c, rows, all, v).rows
    ensures ChatTally(c, rows, all, v).skeletonChats == c.skeletonChats
  {
    hide Lines, Tally, NoneTooLong;
    var c' := c.(reactions := c.reactions + Monus(|all|, |v.page|));
    RowsAreAccounted(c', chat, rows, v);
    TallyKeepsReactions(c', rows, v);
  }

  lemma {:induction false} ReactionsAddUp(c: Counters, p: Projected, s: Store, k: nat)
    requires k <= |p.chats| && AllShort(p, s, k)
    ensures OnLines(AllLines(p, s, k)) + AllTally(c, p, s, k).reactions == c.reactions + AllReactions(p, s, k) + AllExcess(p, s, k)
  {
    hide LinesAt, TallyAt, ReactionsAt, ShortAt, ExcessAt;
    if k > 0 {
      hide OnLines;
      ReactionsAddUpAt(AllTally(c, p, s, k - 1), p, s, k - 1);
      ReactionsAddUp(c, p, s, k - 1);
      OnLinesConcat(AllLines(p, s, k - 1), LinesAt(p, s, k - 1));
    }
  }

  lemma ReactionsAddUpAt(c: Counters, p: Projected, s: Store, i: nat)
    requires i < |p.chats| && ShortAt(p, s, i)
    ensures OnLines(LinesAt(p, s, i)) + TallyAt(c, p, s, i).reactions == c.reactions + |ReactionsAt(p, s, i)| + ExcessAt(p, s, i)
  {
    hide Lines, ChatTally, NoneTooLong, OnLines, Extra, Orphans, Times, Page, Monus;
    ChatReactionsAddUp(c, i + 1, RowsAt(p, s, i), ReactionsAt(p, s, i), ViewAt(p, s, i));
  }

  lemma {:induction false} NoExcessIff(p: Projected, s: Store, k: nat)
    requires k <= |p.chats|
    ensures AllExcess(p, s, k) == 0 <==> forall i | 0 <= i < k :: MadeUp(p, s, i)
  {
    hide ExcessAt, MadeUp;
    if k > 0 {
      MadeUpIff(p, s, k - 1);
      NoExcessIff(p, s, k - 1);
    }
  }

  lemma MadeUpIff(p: Projected, s: Store, i: nat)
    requires i < |p.chats|
    ensures MadeUp(p, s, i) <==> ExcessAt(p, s, i) == 0
  {
    hide Extra, Orphans, Times, Page;
  }

  /** Over all chats: reactions shown plus reactions skipped are never fewer than those
      stored, and are as many exactly when in every chat the extra showings on shared
      times are at most as many as the orphans. */
  lemma ReactionsConservedIff(c: Counters, p: Projected, s: Store, k: nat)
    requires k <= |p.chats| && AllShort(p, s, k)
    ensures AllReactions(p, s, k) + c.reactions <= OnLines(AllLines(p, s, k)) + AllTally(c, p, s, k).reactions
    ensures AllReactions(p, s, k) + c.reactions == OnLines(AllLines(p, s, k)) + AllTally(c, p, s, k).reactions
            <==> forall i | 0 <= i < k :: MadeUp(p, s, i)
  {
    hide AllReactions, AllLines, AllTally, OnLines, AllExcess, MadeUp, AllShort;
    ReactionsAddUp(c, p, s, k);
    NoExcessIff(p, s, k);
  }

  /** Over all chats: the skip counter never exceeds the reactions that reach no line, and
      equals them exactly when every chat's count is telling. */
  lemma {:induction false} SkipsAreLostIff(c: Counters, p: Projected, s: Store, k: nat)
    requires k <= |p.chats|
    ensures AllTally(c, p, s, k).reactions <= c.reactions + AllLost(p, s, k)
    ensures AllTally(c, p, s, k).reactions == c.reactions + AllLost(p, s, k) <==> forall i | 0 <= i < k :: Telling(p, s, i)
  {
    hide TallyAt, LostAt, Telling;
    if k > 0 {
      SkipsAt(AllTally(c, p, s, k - 1), p, s, k - 1);
      SkipsAreLostIff(c, p, s, k - 1);
    }
  }

  lemma SkipsAt(c: Counters, p: Projected, s: Store, i: nat)
    requires i < |p.chats|
    ensures TallyAt(c, p, s, i).reactions <= c.reactions + LostAt(p, s, i)
    ensures TallyAt(c, p, s, i).reactions == c.reactions + LostAt(p, s, i) <==> Telling(p, s, i)
  {
    hide ChatTally, Orphans, Extra, Times, Page, Doubled;
    SkipsAre(c, RowsAt(p, s, i), ReactionsAt(p, s, i), ViewAt(p, s, i));
    SkipsAreOrphansIff(c, RowsAt(p, s, i), ReactionsAt(p, s, i), ViewAt(p, s, i));
  }

  lemma DistinctIsTelling(rows: seq<Row>, v: View)
    requires DistinctTimes(rows, v)
    ensures !Doubled(v.page, rows, v) && Extra(v.page, rows, v) == 0
  {
    hide Shared, Extra;
    ExtraIff(v.page, rows, v);
  }

  /** With distinct times in every chat both hold: nothing is counted twice, and the skip
      counter is the number of reactions that reach no line. */
  lemma DistinctTimesSuffice(c: Counters, p: Projected, s: Store, k: nat)
    requires k <= |p.chats| && AllShort(p, s, k)
    requires forall i | 0 <= i < k :: DistinctTimes(RowsAt(p, s, i), ViewAt(p, s, i))
    ensures AllReactions(p, s, k) + c.reactions == OnLines(AllLines(p, s, k)) + AllTally(c, p, s, k).reactions
    ensures AllTally(c, p, s, k).reactions == c.reactions + AllLost(p, s, k)
  {
    hide AllLines, AllTally, AllReactions, AllShort, DistinctTimes, AllLost, Doubled, Extra;
    forall i | 0 <= i < k ensures MadeUp(p, s, i) && Telling(p, s, i) {
      DistinctIsTelling(RowsAt(p, s, i), ViewAt(p, s, i));
    }
    ReactionsConservedIff(c, p, s, k);
    SkipsAreLostIff(c, p, s, k);
  }

  lemma {:induction false} AllLinesPrefix(p: Projected, s: Store, i: nat, k: nat)
    requires i <= k <= |p.chats|
    ensures AllLines(p, s, i) <= AllLines(p, s, k)
  {
    hide LinesAt;
    if i < k {
      AllLinesPrefix(p, s, i, k - 1);
      PrefixOfConcat(AllLines(p, s, i), AllLines(p, s, k - 1), LinesAt(p, s, k - 1));
    }
  }

  /** The stored rows of the first `k` chats, chat by chat. */
  function StoredRows(p: Projected, s: Store, k: nat): seq<Row>
    requires k <= |p.chats|
  {
    if k == 0 then [] else StoredRows(p, s, k - 1) + RowsAt(p, s, k - 1)
  }

  /** A row that would have to be written whole and cannot be. */
  ghost predicate Oversize(row: Row, p: Projected, hash: (string, string) -> string)
  {
    HasAuthor(row, p, hash) && row.body != "" && !row.bodyTruncated && |row.body| > MAX_ARTIFACT_BODY_BYTES
  }

  lemma TooLongIsOversize(row: Row, p: Projected, hash: (string, string) -> string)
    requires Mapped(p, hash)
    ensures FateOf(row, p.senders).TooLong? <==> Oversize(row, p, hash)
  {
    hide Mapped, HasAuthor;
    AuthorIs(row, p, hash);
  }

  lemma {:induction false} AllShortIff(p: Projected, hash: (string, string) -> string, s: Store, k: nat)
    requires Mapped(p, hash) && k <= |p.chats|
    ensures AllShort(p, s, k) <==> forall row | row in StoredRows(p, s, k) :: !Oversize(row, p, hash)
  {
    hide Mapped, FateOf, Oversize, Page;
    if k > 0 {
      var before, rows := StoredRows(p, s, k - 1), RowsAt(p, s, k - 1);
      AllShortIff(p, hash, s, k - 1);
      forall row ensures FateOf(row, p.senders).TooLong? <==> Oversize(row, p, hash) {
        TooLongIsOversize(row, p, hash);
      }
      assert forall row :: row in before + rows <==> row in before || row in rows;
      assert AllShort(p, s, k) <==> AllShort(p, s, k - 1) && ShortAt(p, s, k - 1);
    }
  }

  /** The message is owed a line in this chat: its row is stored there, is history, has an
      author and content, and its reactions are those read for its time. */
  ghost predicate Owed(p: Projected, hash: (string, string) -> string, s: Store, chat: nat, author: nat, m: Message)
  {
    1 <= chat <= |p.chats| && LineOwed(p, hash, RowsAt(p, s, chat - 1), s.self, Page(ReactionsAt(p, s, chat - 1)), author, m)
  }

  lemma {:induction false} AllLinesTell(p: Projected, hash: (string, string) -> string, s: Store, k: nat)
    requires Mapped(p, hash) && k <= |p.chats| && AllShort(p, s, k)
    ensures TellRows(AllLines(p, s, k), Picked(StoredRows(p, s, k), Showing(p, hash, Exported)))
    ensures forall chat: nat, author, m ::
      Item(chat, author, m) in AllLines(p, s, k) <==> chat <= k && Owed(p, hash, s, chat, author, m)
  {
    hide Mapped, Lines, Picked, NoneTooLong, LineOwed, TellRows, Page;
    if k == 0 {
      TellNothing(p, hash);
    } else {
      var rows := RowsAt(p, s, k - 1);
      assert ShortAt(p, s, k - 1);
      AllLinesTell(p, hash, s, k - 1);
      LinesTell(p, hash, k, rows, ViewAt(p, s, k - 1));
      PickedConcat(StoredRows(p, s, k - 1), rows, Showing(p, hash, Exported));
      TellConcat(AllLines(p, s, k - 1), Picked(StoredRows(p, s, k - 1), Showing(p, hash, Exported)),
                 LinesAt(p, s, k - 1), Picked(rows, Showing(p, hash, Exported)));
    }
  }

  lemma ChatCounts(c: Counters, rows: seq<Row>, all: seq<Reaction>, v: View, p: Projected, hash: (string, string) -> string)
    requires Mapped(p, hash) && v.senders == p.senders && NoneTooLong(rows, v)
    ensures Counted(c, ChatTally(c, rows, all, v), rows, p, hash)
  {
    hide Mapped, NoneTooLong, Counted, Tally, AllHits, Monus;
    var c' := c.(reactions := c.reactions + Monus(|all|, |v.page|));
    TallyCounts(c', rows, v, p, hash);
    CountedIgnoresReactions(c, c', Tally(c', rows, v), ChatTally(c, rows, all, v), rows, p, hash);
  }

  lemma {:induction false} AllTallyCounts(c: Counters, p: Projected, hash: (string, string) -> string, s: Store, k: nat)
    requires Mapped(p, hash) && k <= |p.chats| && AllShort(p, s, k)
    ensures Counted(c, AllTally(c, p, s, k), StoredRows(p, s, k), p, hash)
  {
    hide Mapped, ChatTally, NoneTooLong, Counted, Page;
    if k == 0 {
      NothingCounted(c, p, hash);
    } else {
      var before, rows, d := StoredRows(p, s, k - 1), RowsAt(p, s, k - 1), AllTally(c, p, s, k - 1);
      assert ShortAt(p, s, k - 1);
      AllTallyCounts(c, p, hash, s, k - 1);
      ChatCounts(d, rows, ReactionsAt(p, s, k - 1), ViewAt(p, s, k - 1), p, hash);
      CountedConcat(c, d, TallyAt(d, p, s, k - 1), before, rows, p, hash);
    }
  }

  method WriteChats(w: ArtifactWriter<Message>, p: Projected, s: Store, c: Counters) returns (d: Counters, error: Option<Cap>)
    requires w.Valid()
    modifies w
    ensures error.None? <==> AllShort(p, s, |p.chats|) && Fits(old(w.lines) + AllLines(p, s, |p.chats|), w.size)
    ensures error.None? ==>
              && w.Valid() && w.lines == old(w.lines) + AllLines(p, s, |p.chats|)
              && d == AllTally(c, p, s, |p.chats|)
    ensures error.Some? ==> if error.value.BodyBytes? then !AllShort(p, s, |p.chats|)
                            else Blamed(old(w.lines) + AllLines(p, s, |p.chats|), w.size, error.value)
  {
    hide Fits, Total, Lines, ChatTally, NoneTooLong, Blamed;
    d, error := c, None;
    assert old(w.lines) + [] == w.lines;
    for i := 0 to |p.chats|
      invariant w.Valid() && w.lines == old(w.lines) + AllLines(p, s, i) && d == AllTally(c, p, s, i)
      invariant error.None? && AllShort(p, s, i)
    {
      var rows, all, v := RowsAt(p, s, i), ReactionsAt(p, s, i), ViewAt(p, s, i);
      assert old(w.lines) + AllLines(p, s, i + 1) == w.lines + LinesAt(p, s, i);
      if Fits(old(w.lines) + AllLines(p, s, |p.chats|), w.size) {
        AllLinesPrefix(p, s, i + 1, |p.chats|);
        FitsShorter(old(w.lines), AllLines(p, s, i + 1), AllLines(p, s, |p.chats|), w.size);
      }
      assert ShortAt(p, s, i) <==> NoneTooLong(rows, v);
      d, error := WriteChat(w, i + 1, rows, all, v, d);
      if error.Some? {
        if !error.value.BodyBytes? {
          AllLinesPrefix(p, s, i + 1, |p.chats|);
          BlamedLonger(old(w.lines), AllLines(p, s, i + 1), AllLines(p, s, |p.chats|), w.size, error.value);
        }
        return;
      }
    }
  }

  // ------------------------------------------------------------------------ the build

  lemma {:induction false} LinesAreAddressed(p: Projected, chat: nat, rows: seq<Row>, v: View, l: PlainLine)
    requires 1 <= chat <= |p.chats| && v.senders == p.senders && l in Lines(chat, rows, v)
    ensures l.Item? && Addressed(l, p, SenderOf)
    ensures forall x | x in l.content.reactions :: x.author == Author(v, x.reaction.actor)
  {
    var init, last := rows[..|rows| - 1], rows[|rows| - 1];
    hide For;
    if l in Lines(chat, init, v) {
      LinesAreAddressed(p, chat, init, v, l);
    }
  }

  lemma {:induction false} AllLinesAreAddressed(p: Projected, s: Store, k: nat, l: PlainLine)
    requires k <= |p.chats| && l in AllLines(p, s, k)
    ensures l.Item? && Addressed(l, p, SenderOf)
    ensures forall x | x in l.content.reactions ::
              x.author == if x.reaction.actor == s.self then Some(0)
                          else if x.reaction.actor in p.senders then Some(p.senders[x.reaction.actor]) else None
  {
    hide Lines, Addressed;
    assert AllLines(p, s, k) == AllLines(p, s, k - 1) + LinesAt(p, s, k - 1);
    if l in AllLines(p, s, k - 1) {
      AllLinesAreAddressed(p, s, k - 1, l);
    } else {
      LinesAreAddressed(p, k, RowsAt(p, s, k - 1), ViewAt(p, s, k - 1), l);
    }
  }

  function Stream(p: Projected, name: Option<string>, s: Store): seq<PlainLine>
    requires Resolvable(p)
  {
    Header(p, name) + AllLines(p, s, |p.chats|)
  }

  /** A reaction's author is left off, oneself, or a contact declared on an earlier line
      with a spelling that hashes to the actor. */
  ghost predicate ReactionDeclared(lines: seq<PlainLine>, p: Projected, hash: (string, string) -> string, self: string, i: nat, x: Shown)
    requires i <= |lines|
  {
    match x.author
    case None => true
    case Some(a) => (a == 0 && x.reaction.actor == self) || AuthorDeclared(lines, p, hash, a, x.reaction.actor, i)
  }

  ghost predicate ReactionsDeclared(lines: seq<PlainLine>, p: Projected, hash: (string, string) -> string, self: string, i: nat)
    requires i < |lines|
  {
    lines[i].Item? ==> forall x | x in lines[i].content.reactions :: ReactionDeclared(lines, p, hash, self, i, x)
  }

  lemma StreamOfBuildIsClosed(p: Projected, ctx: Context, rows: seq<PeerRow>, cs: seq<Conversation>, name: Option<string>, s: Store)
    requires Projects(p, ctx, rows, cs)
    ensures Resolvable(p) && Closed(Stream(p, name, s), p, ctx.hash, SenderOf)
    ensures forall i | 0 <= i < |Stream(p, name, s)| :: ReactionsDeclared(Stream(p, name, s), p, ctx.hash, s.self, i)
  {
    hide Merge, Header, Closed, SendersAre, Resolvable, AllLines, Addressed, AuthorDeclared;
    ProjectedIsResolvable(p, ctx, rows, cs);
    var body := AllLines(p, s, |p.chats|);
    forall l | l in body ensures Addressed(l, p, SenderOf) {
      AllLinesAreAddressed(p, s, |p.chats|, l);
    }
    StreamIsClosed(p, name, body, ctx.hash, SenderOf);
    var lines := Stream(p, name, s);
    forall i | 0 <= i < |lines| ensures ReactionsDeclared(lines, p, ctx.hash, s.self, i) {
      LineReactionsDeclared(p, ctx, name, s, i);
    }
  }

  lemma LineReactionsDeclared(p: Projected, ctx: Context, name: Option<string>, s: Store, i: nat)
    requires Resolvable(p) && SendersAre(p.senders, p.book, p.order, ctx.hash, |p.order|) && i < |Stream(p, name, s)|
    ensures ReactionsDeclared(Stream(p, name, s), p, ctx.hash, s.self, i)
  {
    hide Header, SendersAre, Resolvable, AllLines, Addressed, AuthorDeclared;
    var header, body, lines := Header<Message>(p, name), AllLines(p, s, |p.chats|), Stream(p, name, s);
    if i < |header| {
      HeaderAt<Message>(p, name, i);
      assert lines[i] == header[i];
    } else {
      assert lines[i] == body[i - |header|];
      AllLinesAreAddressed(p, s, |p.chats|, lines[i]);
      forall x | x in lines[i].content.reactions ensures ReactionDeclared(lines, p, ctx.hash, s.self, i, x) {
        if x.reaction.actor in p.senders {
          SenderIsDeclared(p, name, body, ctx.hash, x.reaction.actor, i);
        }
      }
    }
  }

  datatype Outcome = Built(lines: seq<PlainLine>, totalBytes: nat, counters: Counters) | Refused(cap: Cap)

  /** The rows on the lines of a stream are, in order, the stored rows that are history with
      an author and content; each line has its chat, its author and its reactions. */
  lemma StreamTells(p: Projected, hash: (string, string) -> string, name: Option<string>, s: Store)
    requires Mapped(p, hash) && AllShort(p, s, |p.chats|)
    ensures TellRows(Stream(p, name, s), Picked(StoredRows(p, s, |p.chats|), Showing(p, hash, Exported)))
    ensures forall chat: nat, author, m :: Item(chat, author, m) in Stream(p, name, s) <==> Owed(p, hash, s, chat, author, m)
  {
    hide Resolvable, SendersAre, Header, AllLines, Told, Picked, AllShort, LineOwed, StoredRows, Page;
    forall l | l in Header<Message>(p, name) ensures !l.Item? {
      HeaderHasNoItem<Message>(p, name, l);
    }
    AllLinesTell(p, hash, s, |p.chats|);
    OnlyItemsTell(Header(p, name), AllLines(p, s, |p.chats|), []);
    assert AllLines(p, s, |p.chats|) + [] == AllLines(p, s, |p.chats|);
  }

  /** A build succeeds exactly when no row is oversize and the stream is within the caps; what
      it then holds is closed, tells exactly the exported rows with their reactions, and
      counts the others by cause. */
  method BuildPlaintext(ctx: Context, rows: seq<PeerRow>, cs: seq<Conversation>, name: Option<string>, s: Store, size: PlainLine -> nat)
    returns (r: Outcome, p: Projected)
    ensures Projects(p, ctx, rows, cs) && Resolvable(p)
    ensures r.Built? <==> AllShort(p, s, |p.chats|) && Fits(Stream(p, name, s), size)
    ensures r.Built? ==>
              && r.lines == Stream(p, name, s) && r.totalBytes == Total(r.lines, size)
              && Closed(r.lines, p, ctx.hash, SenderOf)
              && AllRows(p, s, |p.chats|) == |AllLines(p, s, |p.chats|)| + r.counters.rows
              && r.counters == AllTally(NONE.(skeletonChats := r.counters.skeletonChats), p, s, |p.chats|)
              && r.counters.skeletonChats == RowSkeletons(ctx, rows) + ConversationSkeletons(ctx, cs)
    ensures AllShort(p, s, |p.chats|) <==> forall row | row in StoredRows(p, s, |p.chats|) :: !Oversize(row, p, ctx.hash)
    ensures r.Built? ==>
              && TellRows(r.lines, Picked(StoredRows(p, s, |p.chats|), Showing(p, ctx.hash, Exported)))
              && (forall chat: nat, author, m :: Item(chat, author, m) in r.lines <==> Owed(p, ctx.hash, s, chat, author, m))
              && Counted(NONE, r.counters, StoredRows(p, s, |p.chats|), p, ctx.hash)
    ensures r.Refused? ==> if r.cap.BodyBytes? then !AllShort(p, s, |p.chats|) else Blamed(Stream(p, name, s), size, r.cap)
  {
    hide Merge, Fits, Total, Header, AllLines, AllTally, AllRows, AllShort, Closed, SendersAre, Resolvable, Projects, Blamed;
    hide ReactionsDeclared, TellRows, Picked, StoredRows, Owed, Counted, Oversize, Mapped;
    var skeletons;
    p, skeletons := Project(ctx, rows, cs);
    StreamOfBuildIsClosed(p, ctx, rows, cs, name, s);
    ProjectedIsMapped(p, ctx, rows, cs);
    AllShortIff(p, ctx.hash, s, |p.chats|);
    ghost var header: seq<PlainLine>, messages := Header(p, name), AllLines(p, s, |p.chats|);
    var w := new ArtifactWriter<Message>(size);
    var error := WriteHeader(w, p, name);
    if error.Some? {
      RefusedInPart(header, messages, size, error.value);
      return Refused(error.value), p;
    }
    var c := NONE.(skeletonChats := skeletons);
    var d;
    d, error := WriteChats(w, p, s, c);
    if error.Some? {
      return Refused(error.value), p;
    }
    AllRowsAreAccounted(c, p, s, |p.chats|);
    StreamTells(p, ctx.hash, name, s);
    AllTallyCounts(c, p, ctx.hash, s, |p.chats|);
    CountedIgnoresReactions(NONE, c, d, d, StoredRows(p, s, |p.chats|), p, ctx.hash);
    r := Built(w.lines, w.totalBytes, d);
  }
}
