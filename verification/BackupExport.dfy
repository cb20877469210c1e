/** The backup artifact (src/backup_export.rs): which stored rows become chat items,
    what is counted for the others, and the whole line stream.

    Attachment entries arrive already projected; `dropped` says that some were lost. */
module BackupExport {
  import opened Basics
  import opened Contacts
  import opened Projection
  import opened Artifact

  datatype Row = Row(
    direction: Direction, status: Status, adminDeleted: bool,
    viewOnce: bool, sticker: bool, quote: bool,
    entries: seq<string>, dropped: bool,
    body: string, bodyTruncated: bool,
    sender: string, sentAt: nat, receivedAt: Option<nat>)

  type BackupLine = Line<Row>

  // ------------------------------------------------------------------ one row

  datatype Fate = Written(author: nat) | Skipped | Preview | TooLong

  function FateOf(row: Row, senders: map<string, nat>): Fate
  {
    if Gated(row.direction, row.status, row.adminDeleted) then Skipped
    else if row.body == "" && row.entries == [] then Skipped
    else if row.bodyTruncated then Preview
    else if |row.body| > MAX_ARTIFACT_BODY_BYTES then TooLong
    else if row.direction == Outgoing then Written(0)
    else if row.sender in senders then Written(senders[row.sender])
    else Skipped
  }

  function SenderOf(row: Row): Option<string>
  {
    if row.direction == Outgoing then None else Some(row.sender)
  }

  /** Features a backup has no place for, counted whether or not the row is exported. */
  function Featured(c: Counters, row: Row): Counters
  {
    c.(quotes := c.quotes + One(row.quote), attachments := c.attachments + One(row.dropped),
       viewOnce := c.viewOnce + One(row.viewOnce), stickers := c.stickers + One(row.sticker))
  }

  function CountRow(c: Counters, row: Row, senders: map<string, nat>): Counters
  {
    var open, fate := !Gated(row.direction, row.status, row.adminDeleted), FateOf(row, senders);
    (if open then Featured(c, row) else c).(
      bodyTruncated := c.bodyTruncated + One(fate.Preview?), rows := c.rows + One(fate.Skipped?))
  }

  // ----------------------------------------------------------------- the rows of a chat

  function Tally(c: Counters, rows: seq<Row>, senders: map<string, nat>): Counters
  {
    if rows == [] then c else CountRow(Tally(c, rows[..|rows| - 1], senders), rows[|rows| - 1], senders)
  }

  function Items(chat: nat, rows: seq<Row>, senders: map<string, nat>): seq<BackupLine>
  {
    if rows == [] then []
    else Items(chat, rows[..|rows| - 1], senders) + ItemOf(chat, rows[|rows| - 1], senders)
  }

  function ItemOf(chat: nat, row: Row, senders: map<string, nat>): seq<BackupLine>
  {
    var fate := FateOf(row, senders);
    if fate.Written? then [Item(chat, fate.author, row)] else []
  }

  predicate NoneTooLong(rows: seq<Row>, senders: map<string, nat>)
  {
    forall r | r in rows :: !FateOf(r, senders).TooLong?
  }

  /** Every row is an item or in exactly one of the two skip counts. */
  lemma {:induction false} RowsAreAccounted(c: Counters, chat: nat, rows: seq<Row>, senders: map<string, nat>)
    requires NoneTooLong(rows, senders)
    ensures var d := Tally(c, rows, senders);
      c.rows + c.bodyTruncated + |rows| == |Items(chat, rows, senders)| + d.rows + d.bodyTruncated
  {
    if rows != [] {
      var init, last := rows[..|rows| - 1], rows[|rows| - 1];
      assert rows == init + [last];
      RowsAreAccounted(c, chat, init, senders);
    }
  }

  lemma {:induction false} ItemsAreAddressed(p: Projected, chat: nat, rows: seq<Row>, l: BackupLine)
    requires 1 <= chat <= |p.chats| && l in Items(chat, rows, p.senders)
    ensures Addressed(l, p, SenderOf) && l.Item? && l.content in rows
  {
    var init, last := rows[..|rows| - 1], rows[|rows| - 1];
    assert rows == init + [last];
    if l in Items(chat, init, p.senders) {
      ItemsAreAddressed(p, chat, init, l);
    }
  }

  lemma RowEnds(c: Counters, chat: nat, rows: seq<Row>, senders: map<string, nat>)
    ensures Tally(c, rows[..0], senders) == c && Items(chat, rows[..0], senders) == [] && rows[..|rows|] == rows
    ensures NoneTooLong(rows[..0], senders)
  {
  }

  lemma RowNext(c: Counters, chat: nat, rows: seq<Row>, senders: map<string, nat>, i: nat)
    requires i < |rows|
    ensures Tally(c, rows[..i + 1], senders) == CountRow(Tally(c, rows[..i], senders), rows[i], senders)
    ensures Items(chat, rows[..i + 1], senders) == Items(chat, rows[..i], senders) + ItemOf(chat, rows[i], senders)
    ensures NoneTooLong(rows[..i + 1], senders) <==> NoneTooLong(rows[..i], senders) && !FateOf(rows[i], senders).TooLong?
  {
    hide CountRow, FateOf;
    assert rows[..i + 1] == rows[..i] + [rows[i]];
    assert rows[..i + 1][..i] == rows[..i];
  }

  lemma {:induction false} ItemsPrefix(chat: nat, rows: seq<Row>, senders: map<string, nat>, i: nat)
    requires i <= |rows|
    ensures Items(chat, rows[..i], senders) <= Items(chat, rows, senders)
    decreases |rows| - i
  {
    if i < |rows| {
      RowNext(NONE, chat, rows, senders, i);
      hide Items, ItemOf;
      ItemsPrefix(chat, rows, senders, i + 1);
    } else {
      assert rows[..i] == rows;
    }
  }

  // ------------------------------------------------ rows, by their own fields alone

  /** What can be said of a row, from its fields and from the contacts. */
  datatype Aspect = Exported | NoHistory | Empty | Cut | Foreign | OnceOnly | Stickered | Quoting | Reduced

  predicate Filled(row: Row) { row.body != "" || row.entries != [] }

  /** The row is history with content that is whole, and `author` wrote it. */
  ghost predicate ExportedAs(row: Row, p: Projected, hash: (string, string) -> string, author: nat)
  {
    && History(row.direction, row.status, row.adminDeleted) && Filled(row) && !row.bodyTruncated
    && if row.direction == Outgoing then author == 0 else Writes(p, hash, row.sender, author)
  }

  ghost predicate Shows(row: Row, p: Projected, hash: (string, string) -> string, a: Aspect)
  {
    var history := History(row.direction, row.status, row.adminDeleted);
    match a
    case Exported => exists author :: ExportedAs(row, p, hash, author)
    case NoHistory => !history
    case Empty => history && !Filled(row)
    case Cut => history && Filled(row) && row.bodyTruncated
    case Foreign =>
      && history && Filled(row) && !row.bodyTruncated
      && row.direction == Incoming && forall author :: !Writes(p, hash, row.sender, author)
    case OnceOnly => history && row.viewOnce
    case Stickered => history && row.sticker
    case Quoting => history && row.quote
    case Reduced => history && row.dropped
  }

  ghost function Showing(p: Projected, hash: (string, string) -> string, a: Aspect): Row -> bool
  {
    (row: Row) => Shows(row, p, hash, a)
  }

  /** The gates of one row decide by what can be said of it. */
  lemma FateIs(row: Row, p: Projected, hash: (string, string) -> string)
    requires Mapped(p, hash) && !FateOf(row, p.senders).TooLong?
    ensures forall author :: FateOf(row, p.senders) == Written(author) <==> ExportedAs(row, p, hash, author)
    ensures FateOf(row, p.senders).Written? <==> Shows(row, p, hash, Exported)
    ensures FateOf(row, p.senders) == Preview <==> Shows(row, p, hash, Cut)
    ensures One(FateOf(row, p.senders) == Skipped)
      == One(Shows(row, p, hash, NoHistory)) + One(Shows(row, p, hash, Empty)) + One(Shows(row, p, hash, Foreign))
  {
    hide Mapped, Writes;
    KnownSender(p, hash, row.sender);
    if FateOf(row, p.senders).Written? {
      assert ExportedAs(row, p, hash, FateOf(row, p.senders).author);
    }
  }

  /** One chat: its items tell exactly the exported rows, each under its author. */
  lemma {:induction false} ItemsTell(p: Projected, hash: (string, string) -> string, chat: nat, rows: seq<Row>)
    requires Mapped(p, hash) && NoneTooLong(rows, p.senders)
    ensures Told(Items(chat, rows, p.senders)) == Picked(rows, Showing(p, hash, Exported))
    ensures forall k, author, row ::
      Item(k, author, row) in Items(chat, rows, p.senders) <==> k == chat && row in rows && ExportedAs(row, p, hash, author)
  {
    hide Mapped, Shows, FateOf, ExportedAs;
    if rows != [] {
      var init, last := rows[..|rows| - 1], rows[|rows| - 1];
      assert rows == init + [last];
      ItemsTell(p, hash, chat, init);
      FateIs(last, p, hash);
      ToldConcat(Items(chat, init, p.senders), ItemOf(chat, last, p.senders));
      OneTold(chat, last, p.senders);
      hide Told;
    }
  }

  lemma OneTold(chat: nat, row: Row, senders: map<string, nat>)
    ensures Told(ItemOf(chat, row, senders)) == if FateOf(row, senders).Written? then [row] else []
  {
    hide FateOf;
    var items := ItemOf(chat, row, senders);
    if items != [] {
      ToldOne(items[0]);
    }
  }

  /** Each counter has grown by the number of rows with its cause. */
  ghost predicate Counted(c: Counters, d: Counters, rows: seq<Row>, p: Projected, hash: (string, string) -> string)
  {
    && d.rows == c.rows + |Picked(rows, Showing(p, hash, NoHistory))| + |Picked(rows, Showing(p, hash, Empty))| + |Picked(rows, Showing(p, hash, Foreign))|
    && d.bodyTruncated == c.bodyTruncated + |Picked(rows, Showing(p, hash, Cut))|
    && d.viewOnce == c.viewOnce + |Picked(rows, Showing(p, hash, OnceOnly))|
    && d.stickers == c.stickers + |Picked(rows, Showing(p, hash, Stickered))|
    && d.quotes == c.quotes + |Picked(rows, Showing(p, hash, Quoting))|
    && d.attachments == c.attachments + |Picked(rows, Showing(p, hash, Reduced))|
  }

  lemma OneCounted(c: Counters, row: Row, p: Projected, hash: (string, string) -> string)
    requires Mapped(p, hash) && !FateOf(row, p.senders).TooLong?
    ensures var d := CountRow(c, row, p.senders);
      && d.rows == c.rows + One(Shows(row, p, hash, NoHistory)) + One(Shows(row, p, hash, Empty)) + One(Shows(row, p, hash, Foreign))
      && d.bodyTruncated == c.bodyTruncated + One(Shows(row, p, hash, Cut))
      && d.viewOnce == c.viewOnce + One(Shows(row, p, hash, OnceOnly))
      && d.stickers == c.stickers + One(Shows(row, p, hash, Stickered))
      && d.quotes == c.quotes + One(Shows(row, p, hash, Quoting))
      && d.attachments == c.attachments + One(Shows(row, p, hash, Reduced))
  {
    FateIs(row, p, hash);
    hide Mapped, Writes, FateOf, ExportedAs;
  }

  lemma {:induction false} TallyCounts(c: Counters, rows: seq<Row>, p: Projected, hash: (string, string) -> string)
    requires Mapped(p, hash) && NoneTooLong(rows, p.senders)
    ensures Counted(c, Tally(c, rows, p.senders), rows, p, hash)
  {
    hide Mapped, Shows, FateOf, CountRow;
    if rows != [] {
      var init, last := rows[..|rows| - 1], rows[|rows| - 1];
      assert rows == init + [last];
      TallyCounts(c, init, p, hash);
      OneCounted(Tally(c, init, p.senders), last, p, hash);
    }
  }

  method CountFeatures(row: Row, c: Counters) returns (d: Counters)
    ensures d == Featured(c, row)
  {
    d := c;
    if row.viewOnce {
      d := d.(viewOnce := d.viewOnce + 1);
    }
    if row.sticker {
      d := d.(stickers := d.stickers + 1);
    }
    if row.quote {
      d := d.(quotes := d.quotes + 1);
    }
    if row.dropped {
      d := d.(attachments := d.attachments + 1);
    }
  }

  /** The gates and counters of one row, in the order they are consulted. */
  method Weigh(row: Row, senders: map<string, nat>, c: Counters) returns (d: Counters, fate: Fate)
    ensures fate == FateOf(row, senders) && d == CountRow(c, row, senders)
  {
    d := c;
    if row.status == SystemStatus || row.direction == SystemDirection || row.status == RemoteDeleted || row.adminDeleted {
      return d.(rows := d.rows + 1), Skipped;
    }
    if row.direction == Outgoing && row.status !in {Sent, Delivered, Read} {
      return d.(rows := d.rows + 1), Skipped;
    }
    d := CountFeatures(row, d);
    if row.body == "" && row.entries == [] {
      return d.(rows := d.rows + 1), Skipped;
    }
    if row.bodyTruncated {
      return d.(bodyTruncated := d.bodyTruncated + 1), Preview;
    }
    if |row.body| > MAX_ARTIFACT_BODY_BYTES {
      return d, TooLong;
    }
    if row.direction == Outgoing {
      return d, Written(0);
    }
    if row.sender !in senders {
      return d.(rows := d.rows + 1), Skipped;
    }
    fate := Written(senders[row.sender]);
  }

  method WriteItem(w: ArtifactWriter<Row>, chat: nat, row: Row, senders: map<string, nat>, c: Counters)
    returns (d: Counters, error: Option<Cap>)
    requires w.Valid()
    modifies w
    ensures error.None? <==> !FateOf(row, senders).TooLong? && Fits(old(w.lines) + ItemOf(chat, row, senders), w.size)
    ensures error.None? ==> w.Valid() && w.lines == old(w.lines) + ItemOf(chat, row, senders) && d == CountRow(c, row, senders)
    ensures error.Some? ==> if error.value.BodyBytes? then FateOf(row, senders).TooLong?
                            else Blamed(old(w.lines) + ItemOf(chat, row, senders), w.size, error.value)
  {
    hide Fits, Total, FateOf, CountRow, Blamed, Refusal;
    assert w.lines + [] == w.lines;
    var fate;
    d, fate := Weigh(row, senders, c);
    error := None;
    if fate.TooLong? {
      error := Some(BodyBytes);
    } else if fate.Written? {
      error := w.WriteLine(Item(chat, fate.author, row));
    }
  }

  method WriteItems(w: ArtifactWriter<Row>, chat: nat, rows: seq<Row>, senders: map<string, nat>, c: Counters)
    returns (d: Counters, error: Option<Cap>)
    requires w.Valid()
    modifies w
    ensures error.None? <==> NoneTooLong(rows, senders) && Fits(old(w.lines) + Items(chat, rows, senders), w.size)
    ensures error.None? ==> w.Valid() && w.lines == old(w.lines) + Items(chat, rows, senders) && d == Tally(c, rows, senders)
    ensures error.Some? ==> if error.value.BodyBytes? then !NoneTooLong(rows, senders)
                            else Blamed(old(w.lines) + Items(chat, rows, senders), w.size, error.value)
  {
    hide Fits, Total, Items, ItemOf, Tally, CountRow, FateOf, Blamed;
    d, error := c, None;
    RowEnds(c, chat, rows, senders);
    assert old(w.lines) + [] == w.lines;
    for i := 0 to |rows|
      invariant w.Valid() && w.lines == old(w.lines) + Items(chat, rows[..i], senders) && d == Tally(c, rows[..i], senders)
      invariant error.None? && NoneTooLong(rows[..i], senders)
    {
      RowNext(c, chat, rows, senders, i);
      assert old(w.lines) + Items(chat, rows[..i + 1], senders) == w.lines + ItemOf(chat, rows[i], senders);
      if Fits(old(w.lines) + Items(chat, rows, senders), w.size) {
        ItemsPrefix(chat, rows, senders, i + 1);
        FitsShorter(old(w.lines), Items(chat, rows[..i + 1], senders), Items(chat, rows, senders), w.size);
      }
      d, error := WriteItem(w, chat, rows[i], senders, d);
      if error.Some? {
        if !error.value.BodyBytes? {
          ItemsPrefix(chat, rows, senders, i + 1);
          BlamedLonger(old(w.lines), Items(chat, rows[..i + 1], senders), Items(chat, rows, senders), w.size, error.value);
        }
        return;
      }
    }
  }

  // ------------------------------------------------------------------- all the chats

  /** The chat items of the first `k` chats. */
  function AllItems(p: Projected, rowsOf: string -> seq<Row>, k: nat): seq<BackupLine>
    requires k <= |p.chats|
  {
    if k == 0 then []
    else AllItems(p, rowsOf, k - 1) + Items(k, rowsOf(p.chats[k - 1].conversation), p.senders)
  }

  function AllTally(c: Counters, p: Projected, rowsOf: string -> seq<Row>, k: nat): Counters
    requires k <= |p.chats|
  {
    if k == 0 then c
    else Tally(AllTally(c, p, rowsOf, k - 1), rowsOf(p.chats[k - 1].conversation), p.senders)
  }

  function AllRows(p: Projected, rowsOf: string -> seq<Row>, k: nat): nat
    requires k <= |p.chats|
  {
    if k == 0 then 0 else AllRows(p, rowsOf, k - 1) + |rowsOf(p.chats[k - 1].conversation)|
  }

  ghost predicate AllShort(p: Projected, rowsOf: string -> seq<Row>, k: nat)
    requires k <= |p.chats|
  {
    forall i | 0 <= i < k :: NoneTooLong(rowsOf(p.chats[i].conversation), p.senders)
  }

  /** Stored rows are items, skipped rows or truncated previews, and nothing is both. */
  lemma {:induction false} AllRowsAreAccounted(c: Counters, p: Projected, rowsOf: string -> seq<Row>, k: nat)
    requires k <= |p.chats| && AllShort(p, rowsOf, k)
    ensures var d := AllTally(c, p, rowsOf, k);
      c.rows + c.bodyTruncated + AllRows(p, rowsOf, k) == |AllItems(p, rowsOf, k)| + d.rows + d.bodyTruncated
  {
    if k > 0 {
      AllRowsAreAccounted(c, p, rowsOf, k - 1);
      RowsAreAccounted(AllTally(c, p, rowsOf, k - 1), k, rowsOf(p.chats[k - 1].conversation), p.senders);
    }
  }

  lemma {:induction false} AllItemsAreAddressed(p: Projected, rowsOf: string -> seq<Row>, k: nat, l: BackupLine)
    requires k <= |p.chats| && l in AllItems(p, rowsOf, k)
    ensures Addressed(l, p, SenderOf) && l.Item?
  {
    hide Items;
    if l in AllItems(p, rowsOf, k - 1) {
      AllItemsAreAddressed(p, rowsOf, k - 1, l);
    } else {
      ItemsAreAddressed(p, k, rowsOf(p.chats[k - 1].conversation), l);
    }
  }

  lemma {:induction false} AllItemsPrefix(p: Projected, rowsOf: string -> seq<Row>, i: nat, k: nat)
    requires i <= k <= |p.chats|
    ensures AllItems(p, rowsOf, i) <= AllItems(p, rowsOf, k)
  {
    hide Items;
    if i < k {
      AllItemsPrefix(p, rowsOf, i, k - 1);
      var some, init, more := AllItems(p, rowsOf, i), AllItems(p, rowsOf, k - 1), Items(k, rowsOf(p.chats[k - 1].conversation), p.senders);
      assert AllItems(p, rowsOf, k) == init + more;
      PrefixOfConcat(some, init, more);
    }
  }

  /** The counters that no message row touches. */
  predicate SameRest(c: Counters, d: Counters)
  {
    c.skeletonChats == d.skeletonChats && c.reactions == d.reactions && c.edits == d.edits
  }

  lemma {:induction false} TallyKeepsTheRest(c: Counters, rows: seq<Row>, senders: map<string, nat>)
    ensures SameRest(c, Tally(c, rows, senders))
  {
    if rows != [] {
      TallyKeepsTheRest(c, rows[..|rows| - 1], senders);
    }
  }

  lemma {:induction false} AllTallyKeepsTheRest(c: Counters, p: Projected, rowsOf: string -> seq<Row>, k: nat)
    requires k <= |p.chats|
    ensures SameRest(c, AllTally(c, p, rowsOf, k))
  {
    if k > 0 {
      AllTallyKeepsTheRest(c, p, rowsOf, k - 1);
      TallyKeepsTheRest(AllTally(c, p, rowsOf, k - 1), rowsOf(p.chats[k - 1].conversation), p.senders);
    }
  }

  /** The stored rows of the first `k` chats, chat by chat. */
  function StoredRows(p: Projected, rowsOf: string -> seq<Row>, k: nat): seq<Row>
    requires k <= |p.chats|
  {
    if k == 0 then [] else StoredRows(p, rowsOf, k - 1) + rowsOf(p.chats[k - 1].conversation)
  }

  /** A row that would have to be written whole and cannot be. */
  predicate Oversize(row: Row)
  {
    History(row.direction, row.status, row.adminDeleted) && Filled(row) && !row.bodyTruncated
    && |row.body| > MAX_ARTIFACT_BODY_BYTES
  }

  lemma TooLongIsOversize(row: Row, senders: map<string, nat>)
    ensures FateOf(row, senders).TooLong? <==> Oversize(row)
  {
  }

  lemma {:induction false} AllShortIff(p: Projected, rowsOf: string -> seq<Row>, k: nat)
    requires k <= |p.chats|
    ensures AllShort(p, rowsOf, k) <==> forall row | row in StoredRows(p, rowsOf, k) :: !Oversize(row)
  {
    hide FateOf, Oversize;
    if k > 0 {
      var before, rows := StoredRows(p, rowsOf, k - 1), rowsOf(p.chats[k - 1].conversation);
      AllShortIff(p, rowsOf, k - 1);
      forall row ensures FateOf(row, p.senders).TooLong? <==> Oversize(row) {
        TooLongIsOversize(row, p.senders);
      }
      assert forall row :: row in before + rows <==> row in before || row in rows;
      assert AllShort(p, rowsOf, k) <==> AllShort(p, rowsOf, k - 1) && NoneTooLong(rows, p.senders);
    }
  }

  /** A stored row has this line in the stream. */
  ghost predicate Owed(p: Projected, hash: (string, string) -> string, rowsOf: string -> seq<Row>, chat: nat, author: nat, row: Row)
  {
    1 <= chat <= |p.chats| && row in rowsOf(p.chats[chat - 1].conversation) && ExportedAs(row, p, hash, author)
  }

  lemma {:induction false} AllItemsTell(p: Projected, hash: (string, string) -> string, rowsOf: string -> seq<Row>, k: nat)
    requires Mapped(p, hash) && k <= |p.chats| && AllShort(p, rowsOf, k)
    ensures Told(AllItems(p, rowsOf, k)) == Picked(StoredRows(p, rowsOf, k), Showing(p, hash, Exported))
    ensures forall chat: nat, author, row ::
      Item(chat, author, row) in AllItems(p, rowsOf, k) <==> chat <= k && Owed(p, hash, rowsOf, chat, author, row)
  {
    hide Mapped, ExportedAs, Items, Told, Picked, NoneTooLong;
    if k == 0 {
      NothingTold(p, hash);
    } else {
      var rows := rowsOf(p.chats[k - 1].conversation);
      AllItemsTell(p, hash, rowsOf, k - 1);
      ItemsTell(p, hash, k, rows);
      ToldConcat(AllItems(p, rowsOf, k - 1), Items(k, rows, p.senders));
      PickedConcat(StoredRows(p, rowsOf, k - 1), rows, Showing(p, hash, Exported));
    }
  }

  lemma NothingTold(p: Projected, hash: (string, string) -> string)
    ensures Told([]) == Picked([], Showing(p, hash, Exported))
  {
  }

  lemma {:induction false} AllTallyCounts(c: Counters, p: Projected, hash: (string, string) -> string, rowsOf: string -> seq<Row>, k: nat)
    requires Mapped(p, hash) && k <= |p.chats| && AllShort(p, rowsOf, k)
    ensures Counted(c, AllTally(c, p, rowsOf, k), StoredRows(p, rowsOf, k), p, hash)
  {
    hide Mapped, Tally, NoneTooLong, Counted;
    if k == 0 {
      NothingCounted(c, p, hash);
    } else {
      var before, rows, d := StoredRows(p, rowsOf, k - 1), rowsOf(p.chats[k - 1].conversation), AllTally(c, p, rowsOf, k - 1);
      AllTallyCounts(c, p, hash, rowsOf, k - 1);
      TallyCounts(d, rows, p, hash);
      CountedConcat(c, d, Tally(d, rows, p.senders), before, rows, p, hash);
    }
  }

  lemma NothingCounted(c: Counters, p: Projected, hash: (string, string) -> string)
    ensures Counted(c, c, [], p, hash)
  {
  }

  lemma CountedConcat(c: Counters, d: Counters, e: Counters, some: seq<Row>, more: seq<Row>, p: Projected, hash: (string, string) -> string)
    requires Counted(c, d, some, p, hash) && Counted(d, e, more, p, hash)
    ensures Counted(c, e, some + more, p, hash)
  {
    hide Picked;
    forall a: Aspect ensures |Picked(some + more, Showing(p, hash, a))| == |Picked(some, Showing(p, hash, a))| + |Picked(more, Showing(p, hash, a))| {
      PickedConcat(some, more, Showing(p, hash, a));
    }
  }

  method WriteChats(w: ArtifactWriter<Row>, p: Projected, rowsOf: string -> seq<Row>, c: Counters)
    returns (d: Counters, error: Option<Cap>)
    requires w.Valid()
    modifies w
    ensures error.None? <==> AllShort(p, rowsOf, |p.chats|) && Fits(old(w.lines) + AllItems(p, rowsOf, |p.chats|), w.size)
    ensures error.None? ==>
              && w.Valid() && w.lines == old(w.lines) + AllItems(p, rowsOf, |p.chats|)
              && d == AllTally(c, p, rowsOf, |p.chats|)
    ensures error.Some? ==> if error.value.BodyBytes? then !AllShort(p, rowsOf, |p.chats|)
                            else Blamed(old(w.lines) + AllItems(p, rowsOf, |p.chats|), w.size, error.value)
  {
    hide Fits, Total, Items, Tally, NoneTooLong, Blamed;
    d, error := c, None;
    assert old(w.lines) + [] == w.lines;
    for i := 0 to |p.chats|
      invariant w.Valid() && w.lines == old(w.lines) + AllItems(p, rowsOf, i) && d == AllTally(c, p, rowsOf, i)
      invariant error.None? && AllShort(p, rowsOf, i)
    {
      var rows := rowsOf(p.chats[i].conversation);
      assert old(w.lines) + AllItems(p, rowsOf, i + 1) == w.lines + Items(i + 1, rows, p.senders);
      if Fits(old(w.lines) + AllItems(p, rowsOf, |p.chats|), w.size) {
        AllItemsPrefix(p, rowsOf, i + 1, |p.chats|);
        FitsShorter(old(w.lines), AllItems(p, rowsOf, i + 1), AllItems(p, rowsOf, |p.chats|), w.size);
      }
      d, error := WriteItems(w, i + 1, rows, p.senders, d);
      if error.Some? {
        if !error.value.BodyBytes? {
          AllItemsPrefix(p, rowsOf, i + 1, |p.chats|);
          BlamedLonger(old(w.lines), AllItems(p, rowsOf, i + 1), AllItems(p, rowsOf, |p.chats|), w.size, error.value);
        }
        return;
      }
    }
  }

  // ---------------------------------------------------------------------- the build

  datatype Outcome = Built(lines: seq<BackupLine>, counters: Counters) | Refused(cap: Cap)

  /** The whole stream of one projection. */
  function Stream(p: Projected, name: Option<string>, rowsOf: string -> seq<Row>): seq<BackupLine>
    requires Resolvable(p)
  {
    Header(p, name) + (AllItems(p, rowsOf, |p.chats|) + [AllChatFolder])
  }

  lemma StreamOfBuildIsClosed(p: Projected, ctx: Context, rows: seq<PeerRow>, cs: seq<Conversation>, name: Option<string>, rowsOf: string -> seq<Row>)
    requires Projects(p, ctx, rows, cs)
    ensures Resolvable(p) && Closed(Stream(p, name, rowsOf), p, ctx.hash, SenderOf)
  {
    hide Merge, Header, Closed, SendersAre, Resolvable, AllItems, Addressed;
    ProjectedIsResolvable(p, ctx, rows, cs);
    var body := AllItems(p, rowsOf, |p.chats|) + [AllChatFolder];
    forall l | l in body ensures Addressed(l, p, SenderOf) {
      if l in AllItems(p, rowsOf, |p.chats|) {
        AllItemsAreAddressed(p, rowsOf, |p.chats|, l);
      } else {
        FolderIsAddressed(p);
      }
    }
    StreamIsClosed(p, name, body, ctx.hash, SenderOf);
  }

  lemma FolderIsAddressed(p: Projected)
    ensures Addressed(AllChatFolder, p, SenderOf)
  {
  }

  /** The rows on the lines of a stream are, in order, the stored rows that are history with
      whole content and an author, and each is on a line of its chat under that author. */
  lemma StreamTells(p: Projected, hash: (string, string) -> string, name: Option<string>, rowsOf: string -> seq<Row>)
    requires Mapped(p, hash) && AllShort(p, rowsOf, |p.chats|)
    ensures Told(Stream(p, name, rowsOf)) == Picked(StoredRows(p, rowsOf, |p.chats|), Showing(p, hash, Exported))
    ensures forall chat: nat, author, row ::
      Item(chat, author, row) in Stream(p, name, rowsOf) <==> Owed(p, hash, rowsOf, chat, author, row)
  {
    hide Resolvable, SendersAre, Header, AllItems, Told, Picked, AllShort, ExportedAs, StoredRows, Closed;
    forall l | l in Header<Row>(p, name) ensures !l.Item? {
      HeaderHasNoItem<Row>(p, name, l);
    }
    AllItemsTell(p, hash, rowsOf, |p.chats|);
    OnlyItemsTell(Header(p, name), AllItems(p, rowsOf, |p.chats|), [AllChatFolder]);
  }

  lemma FreshCounts(c: Counters, d: Counters, rows: seq<Row>, p: Projected, hash: (string, string) -> string)
    requires c == NONE.(reactions := c.reactions, edits := c.edits, skeletonChats := c.skeletonChats)
    requires Counted(c, d, rows, p, hash)
    ensures Counted(NONE, d, rows, p, hash)
  {
    hide Picked;
  }

  /** A build succeeds exactly when no row is oversize and the stream is within the caps; what
      it then holds is closed, tells exactly the exported rows, and counts the others by cause. */
  method BuildArtifact(ctx: Context, rows: seq<PeerRow>, cs: seq<Conversation>, name: Option<string>,
                       rowsOf: string -> seq<Row>, reactions: nat, edits: nat, size: BackupLine -> nat)
    returns (r: Outcome, p: Projected)
    ensures Projects(p, ctx, rows, cs) && Resolvable(p)
    ensures r.Built? <==> AllShort(p, rowsOf, |p.chats|) && Fits(Stream(p, name, rowsOf), size)
    ensures r.Built? ==>
              && r.lines == Stream(p, name, rowsOf) && Closed(r.lines, p, ctx.hash, SenderOf)
              && AllRows(p, rowsOf, |p.chats|) ==
                 |AllItems(p, rowsOf, |p.chats|)| + r.counters.rows + r.counters.bodyTruncated
              && r.counters.skeletonChats == RowSkeletons(ctx, rows) + ConversationSkeletons(ctx, cs)
              && r.counters.reactions == reactions && r.counters.edits == edits
              && r.counters == AllTally(NONE.(reactions := reactions, edits := edits, skeletonChats := r.counters.skeletonChats),
                                        p, rowsOf, |p.chats|)
    ensures AllShort(p, rowsOf, |p.chats|) <==> forall row | row in StoredRows(p, rowsOf, |p.chats|) :: !Oversize(row)
    ensures r.Built? ==>
              && Told(r.lines) == Picked(StoredRows(p, rowsOf, |p.chats|), Showing(p, ctx.hash, Exported))
              && (forall chat: nat, author, row :: Item(chat, author, row) in r.lines <==> Owed(p, ctx.hash, rowsOf, chat, author, row))
              && Counted(NONE, r.counters, StoredRows(p, rowsOf, |p.chats|), p, ctx.hash)
    ensures r.Refused? ==> if r.cap.BodyBytes? then !AllShort(p, rowsOf, |p.chats|) else Blamed(Stream(p, name, rowsOf), size, r.cap)
  {
    hide Merge, Fits, Total, Header, AllItems, AllTally, AllRows, AllShort, Closed, SendersAre, Resolvable, Projects, Blamed, Refusal;
    hide Told, Picked, StoredRows, Owed, Counted, Oversize, Mapped;
    var skeletons;
    p, skeletons := Project(ctx, rows, cs);
    StreamOfBuildIsClosed(p, ctx, rows, cs, name, rowsOf);
    AllShortIff(p, rowsOf, |p.chats|);
    ghost var header: seq<BackupLine>, items := Header(p, name), AllItems(p, rowsOf, |p.chats|);
    ghost var folder: seq<BackupLine> := [AllChatFolder];
    assert Stream(p, name, rowsOf) == header + items + folder;
    var w := new ArtifactWriter<Row>(size);
    var error := WriteHeader(w, p, name);
    if error.Some? {
      RefusedInPart(header, items, size, error.value);
      RefusedInPart(header + items, folder, size, error.value);
      return Refused(error.value), p;
    }
    var c := NONE.(reactions := reactions, edits := edits, skeletonChats := skeletons);
    var d;
    d, error := WriteChats(w, p, rowsOf, c);
    if error.Some? {
      if !Fits(header + items, size) {
        RefusedInPart(header + items, folder, size, error.value);
      }
      if !error.value.BodyBytes? {
        BlamedMore(header + items, folder, size, error.value);
      }
      return Refused(error.value), p;
    }
    error := w.WriteLine(AllChatFolder);
    if error.Some? {
      return Refused(error.value), p;
    }
    AllRowsAreAccounted(c, p, rowsOf, |p.chats|);
    AllTallyKeepsTheRest(c, p, rowsOf, |p.chats|);
    ProjectedIsMapped(p, ctx, rows, cs);
    StreamTells(p, ctx.hash, name, rowsOf);
    AllTallyCounts(c, p, ctx.hash, rowsOf, |p.chats|);
    FreshCounts(c, d, StoredRows(p, rowsOf, |p.chats|), p, ctx.hash);
    r := Built(w.lines, d);
  }
}
