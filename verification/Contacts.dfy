/** The identity projection of an export (src/backup_export.rs): observations of peers
    merged into contacts, ids in key order, and the reverse map from senders to ids.

    The parsers for addresses and group keys, and the identifier hash, are parameters;
    nothing is assumed of them unless a lemma says so. */
module Contacts {
  import opened Basics
  import opened Identifiers
  import opened Order

  const GIVEN_NAME_SOURCE_BYTES := 256

  datatype Identity = Identity(aci: Option<string>, e164: Option<string>)

  /** One call of the merge: who was seen, under which name and spellings. */
  datatype Observation = Observation(identity: Identity, name: Option<string>, spellings: seq<string>)

  datatype Entry = Entry(id: nat, aci: Option<string>, e164: Option<string>, name: Option<string>, forms: seq<string>)

  type Book = map<string, Entry>

  // --------------------------------------------------------------- one observation

  /** The ACI when known, else the number; nothing for a skeleton. */
  function Key(identity: Identity): Option<string>
  {
    match identity.aci
    case Some(aci) => Some("aci:" + aci)
    case None => if identity.e164.Some? then Some("e164:" + identity.e164.value) else None
  }

  function OneOf(o: Option<string>): seq<string>
  {
    if o.Some? then [o.value] else []
  }

  /** Every spelling an observation offers, in order. */
  function Spellings(o: Observation): seq<string>
  {
    OneOf(o.identity.aci) + OneOf(o.identity.e164) + o.spellings
  }

  function AddForms(forms: seq<string>, more: seq<string>): (r: seq<string>)
    ensures Elements(r) == Elements(forms) + (Elements(more) - {""})
  {
    if more == [] then forms
    else
      var r := AddForms(forms, more[..|more| - 1]);
      var last := more[|more| - 1];
      assert more == more[..|more| - 1] + [last];
      ElementsSnoc(more[..|more| - 1], last);
      ElementsSnoc(r, last);
      if last == "" || last in r then r else r + [last]
  }

  lemma ElementsSnoc(s: seq<string>, x: string)
    ensures Elements(s + [x]) == Elements(s) + {x}
  {
  }

  function FirstOf<T>(a: Option<T>, b: Option<T>): Option<T>
  {
    if a.None? then b else a
  }

  function UsableName(name: Option<string>): Option<string>
  {
    if name.Some? && name.value != "" && |name.value| <= GIVEN_NAME_SOURCE_BYTES then name else None
  }

  const BLANK := Entry(0, None, None, None, [])

  function Merged(e: Entry, o: Observation): Entry
  {
    Entry(e.id, FirstOf(e.aci, o.identity.aci), FirstOf(e.e164, o.identity.e164),
          FirstOf(e.name, UsableName(o.name)), AddForms(e.forms, Spellings(o)))
  }

  function Recorded(book: Book, o: Observation): Book
  {
    var key := Key(o.identity);
    if key.None? then book
    else book[key.value := Merged(if key.value in book then book[key.value] else BLANK, o)]
  }

  /** The book after a sequence of observations. */
  function Merge(obs: seq<Observation>): Book
  {
    if obs == [] then map[] else Recorded(Merge(obs[..|obs| - 1]), obs[|obs| - 1])
  }

  method RecordContact(book: Book, o: Observation) returns (after: Book, key: Option<string>)
    ensures after == Recorded(book, o) && key == Key(o.identity)
  {
    key := Key(o.identity);
    if key.None? {
      return book, None;
    }
    var entry := if key.value in book then book[key.value] else BLANK;
    ghost var start := entry;
    if entry.aci.None? {
      entry := entry.(aci := o.identity.aci);
    }
    if entry.e164.None? {
      entry := entry.(e164 := o.identity.e164);
    }
    if entry.name.None? {
      entry := entry.(name := UsableName(o.name));
    }
    var forms := Spellings(o);
    var i := 0;
    while i < |forms|
      invariant 0 <= i <= |forms|
      invariant entry == Merged(start, o).(forms := AddForms(start.forms, forms[..i]))
    {
      var form := forms[i];
      assert forms[..i + 1][..i] == forms[..i];
      if form != "" && form !in entry.forms {
        entry := entry.(forms := entry.forms + [form]);
      }
      i := i + 1;
    }
    assert forms[..i] == forms;
    after := book[key.value := entry];
  }

  // ------------------------------------------------------- the order does not matter

  predicate Keyed(o: Observation, k: string)
  {
    Key(o.identity) == Some(k)
  }

  /** An observation offers its ACI, its number and the raw spellings it came with. */
  predicate Offers(o: Observation, f: string)
  {
    o.identity.aci == Some(f) || o.identity.e164 == Some(f) || f in o.spellings
  }

  lemma SpellingsAreOffers(o: Observation, f: string)
    ensures f in Spellings(o) <==> Offers(o, f)
  {
  }

  /** `f` is a spelling that some observation of `k` offered. */
  ghost predicate Spelled(obs: seq<Observation>, k: string, f: string)
  {
    f != "" && exists o :: o in obs && Keyed(o, k) && Offers(o, f)
  }

  /** A key tells its entry's ACI. */
  predicate AciAgrees(k: string, aci: Option<string>)
  {
    if |k| >= 4 && k[..4] == "aci:" then aci == Some(k[4..]) else aci == None
  }

  lemma KeyTellsAci(identity: Identity)
    requires Key(identity).Some?
    ensures AciAgrees(Key(identity).value, identity.aci)
  {
    if identity.aci.Some? {
      var k := Key(identity).value;
      assert k[..4] == "aci:" && k[4..] == identity.aci.value;
    } else {
      assert Key(identity).value[0] == 'e';
    }
  }

  /** What the merge of a sequence holds, without reference to its order. */
  lemma {:induction false} MergeHolds(obs: seq<Observation>, k: string)
    ensures k in Merge(obs) <==> exists o :: o in obs && Keyed(o, k)
    ensures k in Merge(obs) ==> AciAgrees(k, Merge(obs)[k].aci)
    ensures k in Merge(obs) ==> forall f :: f in Elements(Merge(obs)[k].forms) <==> Spelled(obs, k, f)
  {
    if obs != [] {
      var init, last := obs[..|obs| - 1], obs[|obs| - 1];
      assert obs == init + [last];
      MergeHolds(init, k);
      MergeStep(init, last, k);
    }
  }

  lemma MergeStep(init: seq<Observation>, last: Observation, k: string)
    requires k in Merge(init) <==> exists o :: o in init && Keyed(o, k)
    requires k in Merge(init) ==> AciAgrees(k, Merge(init)[k].aci)
    requires k in Merge(init) ==> forall f :: f in Elements(Merge(init)[k].forms) <==> Spelled(init, k, f)
    ensures var book := Recorded(Merge(init), last);
      && (k in book <==> exists o :: o in init + [last] && Keyed(o, k))
      && (k in book ==> AciAgrees(k, book[k].aci))
      && (k in book ==> forall f :: f in Elements(book[k].forms) <==> Spelled(init + [last], k, f))
  {
    hide Merge, AddForms, Spellings, AciAgrees;
    var book, obs := Recorded(Merge(init), last), init + [last];
    if Keyed(last, k) {
      KeyTellsAci(last.identity);
      assert last in obs;
      forall f ensures f in Elements(book[k].forms) <==> Spelled(obs, k, f) {
        SpelledStep(init, last, k, f);
      }
    } else if k in book {
      forall f ensures f in Elements(book[k].forms) <==> Spelled(obs, k, f) {
        SpelledStep(init, last, k, f);
      }
    }
  }

  lemma SpelledStep(init: seq<Observation>, last: Observation, k: string, f: string)
    ensures Spelled(init + [last], k, f) <==> Spelled(init, k, f) || (f != "" && Keyed(last, k) && f in Spellings(last))
  {
    hide Spellings, Keyed, Offers;
    SpellingsAreOffers(last, f);
    assert forall o :: o in init + [last] <==> o in init || o == last;
  }

  /** Books that agree on keys, on every contact's ACI and on its set of spellings. */
  ghost predicate SameFaces(a: Book, b: Book)
  {
    && a.Keys == b.Keys
    && forall k | k in a :: a[k].aci == b[k].aci && Elements(a[k].forms) == Elements(b[k].forms)
  }

  /** Observations in any order, and however often repeated, make the same contacts. */
  lemma MergeIgnoresOrder(obs: seq<Observation>, other: seq<Observation>)
    requires forall o :: o in obs <==> o in other
    ensures SameFaces(Merge(obs), Merge(other))
  {
    hide Merge, Keyed, Spellings;
    forall k ensures k in Merge(obs) <==> k in Merge(other) {
      MergeHolds(obs, k);
      MergeHolds(other, k);
    }
    forall k | k in Merge(obs)
      ensures Merge(obs)[k].aci == Merge(other)[k].aci
      ensures Elements(Merge(obs)[k].forms) == Elements(Merge(other)[k].forms)
    {
      MergeHolds(obs, k);
      MergeHolds(other, k);
    }
  }

  // --------------------------------------------------- what the order does decide

  /** The first offer among the observations of `k`. */
  function FirstOffer(obs: seq<Observation>, k: string, offer: Observation -> Option<string>): Option<string>
  {
    if obs == [] then None
    else if Keyed(obs[0], k) && offer(obs[0]).Some? then offer(obs[0])
    else FirstOffer(obs[1..], k, offer)
  }

  lemma {:induction false} FirstOfferSnoc(obs: seq<Observation>, last: Observation, k: string, offer: Observation -> Option<string>)
    ensures FirstOffer(obs + [last], k, offer) ==
              FirstOf(FirstOffer(obs, k, offer), if Keyed(last, k) then offer(last) else None)
  {
    hide Keyed;
    if obs == [] {
      assert [last][1..] == [];
      assert obs + [last] == [last];
    } else {
      assert (obs + [last])[1..] == obs[1..] + [last];
      FirstOfferSnoc(obs[1..], last, k, offer);
    }
  }

  function NameOffered(o: Observation): Option<string> { UsableName(o.name) }

  function NumberOffered(o: Observation): Option<string> { o.identity.e164 }

  /** A contact's display name and number are the first usable ones observed. */
  lemma {:induction false} FirstWins(obs: seq<Observation>, k: string)
    ensures var none := FirstOffer(obs, k, NameOffered).None? && FirstOffer(obs, k, NumberOffered).None?;
      if k in Merge(obs)
      then Merge(obs)[k].name == FirstOffer(obs, k, NameOffered) && Merge(obs)[k].e164 == FirstOffer(obs, k, NumberOffered)
      else none
  {
    if obs != [] {
      var init, last := obs[..|obs| - 1], obs[|obs| - 1];
      assert obs == init + [last];
      FirstWins(init, k);
      FirstOfferSnoc(init, last, k, NameOffered);
      FirstOfferSnoc(init, last, k, NumberOffered);
      hide FirstOffer, AddForms, UsableName;
    }
  }

  // ------------------------------------------------------------------------- ids

  /** `after` is `book` with ids 1, 2, ... given to the first `n` keys. */
  ghost predicate NumberedUpTo(book: Book, after: Book, order: seq<string>, n: nat)
  {
    && book.Keys == after.Keys
    && (forall i | 0 <= i < |order| :: order[i] in book)
    && (forall i | 0 <= i < |order| :: after[order[i]] == book[order[i]].(id := if i < n then i + 1 else book[order[i]].id))
  }

  /** `after` is `book` with ids 1, 2, ... in the order of its keys. */
  ghost predicate Numbered(book: Book, after: Book, order: seq<string>)
  {
    Ascending(order) && Elements(order) == book.Keys && NumberedUpTo(book, after, order, |order|)
  }

  lemma NumberNext(book: Book, after: Book, order: seq<string>, i: nat)
    requires NumberedUpTo(book, after, order, i) && i < |order|
    requires forall i, j | 0 <= i < j < |order| :: order[i] != order[j]
    ensures NumberedUpTo(book, after[order[i] := after[order[i]].(id := i + 1)], order, i + 1)
  {
  }

  method AllocateIds(book: Book) returns (after: Book, order: seq<string>)
    ensures Numbered(book, after, order)
  {
    order := Sorted(book.Keys);
    after := book;
    AscendingDistinct(order);
    assert forall i | 0 <= i < |order| :: order[i] in Elements(order);
    assert NumberedUpTo(book, after, order, 0);
    hide Ascending, NumberedUpTo;
    for i := 0 to |order|
      invariant after.Keys == book.Keys
      invariant NumberedUpTo(book, after, order, i)
    {
      assert order[i] in Elements(order);
      NumberNext(book, after, order, i);
      after := after[order[i] := after[order[i]].(id := 1 + i)];
    }
  }

  /** Every contact has one id, and the ids are exactly 1 to the number of contacts. */
  lemma IdsAreDense(book: Book, after: Book, order: seq<string>)
    requires Numbered(book, after, order)
    ensures |order| == |book|
    ensures forall k, l | k in after && l in after && after[k].id == after[l].id :: k == l
    ensures forall k | k in after :: 1 <= after[k].id <= |book|
  {
    AscendingDistinct(order);
    DistinctCount(order);
    hide Ascending;
    forall k | k in after ensures 1 <= after[k].id <= |book| {
      assert k in Elements(order);
    }
    forall k, l | k in after && l in after && after[k].id == after[l].id ensures k == l {
      assert k in Elements(order) && l in Elements(order);
      var i :| 0 <= i < |order| && order[i] == k;
      var j :| 0 <= j < |order| && order[j] == l;
    }
  }

  lemma {:induction false} DistinctCount(s: seq<string>)
    requires forall i, j | 0 <= i < j < |s| :: s[i] != s[j]
    ensures |Elements(s)| == |s|
  {
    if s != [] {
      var init, last := s[..|s| - 1], s[|s| - 1];
      assert s == init + [last];
      DistinctCount(init);
      ElementsSnoc(init, last);
    }
  }

  // ------------------------------------------------------------ the sender reverse map

  /** `h` is what some spelling hashes to in one of the two conversation namespaces. */
  ghost predicate Hashes(forms: seq<string>, hash: (string, string) -> string, h: string)
  {
    exists f :: f in forms && HashesTo(hash, f, h)
  }

  predicate HashesTo(hash: (string, string) -> string, f: string, h: string)
  {
    h == hash("direct", f) || h == hash("group", f)
  }

  /** The contact at position `j` has a spelling for the hash `h`. */
  ghost predicate Owner(book: Book, order: seq<string>, hash: (string, string) -> string, j: int, h: string)
  {
    0 <= j < |order| && order[j] in book && Hashes(book[order[j]].forms, hash, h)
  }

  /** Each hash leads to the last of the first `n` contacts that has a spelling for it. */
  ghost predicate SendersAre(senders: map<string, nat>, book: Book, order: seq<string>, hash: (string, string) -> string, n: nat)
  {
    && (forall h | h in senders :: 1 <= senders[h] <= n && Owner(book, order, hash, senders[h] - 1, h))
    && (forall h, j | j < n && Owner(book, order, hash, j, h) :: h in senders && j < senders[h])
  }

  /** `after` is `senders` with every hash of the spellings leading to `id`. */
  ghost predicate Overlaid(senders: map<string, nat>, after: map<string, nat>, forms: seq<string>, hash: (string, string) -> string, id: nat)
  {
    forall h ::
      if Hashes(forms, hash, h) then h in after && after[h] == id
      else (h in after <==> h in senders) && (h in after ==> after[h] == senders[h])
  }

  lemma HashesSnoc(forms: seq<string>, f: string, hash: (string, string) -> string, h: string)
    ensures Hashes(forms + [f], hash, h) <==> Hashes(forms, hash, h) || HashesTo(hash, f, h)
  {
    if Hashes(forms, hash, h) {
      var g :| g in forms && HashesTo(hash, g, h);
      assert g in forms + [f];
    }
    assert f in forms + [f];
  }

  lemma OverlayNext(senders: map<string, nat>, after: map<string, nat>, forms: seq<string>, f: string, hash: (string, string) -> string, id: nat)
    requires Overlaid(senders, after, forms, hash, id)
    ensures Overlaid(senders, after[hash("direct", f) := id][hash("group", f) := id], forms + [f], hash, id)
  {
    hide Hashes;
    var next := after[hash("direct", f) := id][hash("group", f) := id];
    forall h
      ensures if Hashes(forms + [f], hash, h) then h in next && next[h] == id
              else (h in next <==> h in senders) && (h in next ==> next[h] == senders[h])
    {
      HashesSnoc(forms, f, hash, h);
    }
  }

  method AddSender(senders: map<string, nat>, entry: Entry, hash: (string, string) -> string) returns (after: map<string, nat>)
    ensures Overlaid(senders, after, entry.forms, hash, entry.id)
  {
    after := senders;
    var i := 0;
    while i < |entry.forms|
      invariant 0 <= i <= |entry.forms|
      invariant Overlaid(senders, after, entry.forms[..i], hash, entry.id)
    {
      var form := entry.forms[i];
      assert entry.forms[..i + 1] == entry.forms[..i] + [form];
      OverlayNext(senders, after, entry.forms[..i], form, hash, entry.id);
      after := after[hash("direct", form) := entry.id];
      after := after[hash("group", form) := entry.id];
      i := i + 1;
    }
    assert entry.forms[..i] == entry.forms;
  }

  lemma SendersNext(senders: map<string, nat>, after: map<string, nat>, book: Book, order: seq<string>, hash: (string, string) -> string, i: nat)
    requires i < |order| && order[i] in book
    requires SendersAre(senders, book, order, hash, i) && Overlaid(senders, after, book[order[i]].forms, hash, i + 1)
    ensures SendersAre(after, book, order, hash, i + 1)
  {
    hide Hashes;
    forall h | h in after ensures 1 <= after[h] <= i + 1 && Owner(book, order, hash, after[h] - 1, h) {
      assert Owner(book, order, hash, i, h) <==> Hashes(book[order[i]].forms, hash, h);
    }
    forall h, j | j < i + 1 && Owner(book, order, hash, j, h) ensures h in after && j < after[h] {
      assert Owner(book, order, hash, i, h) <==> Hashes(book[order[i]].forms, hash, h);
    }
  }

  method SenderMap(book: Book, order: seq<string>, hash: (string, string) -> string) returns (senders: map<string, nat>)
    requires forall i | 0 <= i < |order| :: order[i] in book && book[order[i]].id == i + 1
    ensures SendersAre(senders, book, order, hash, |order|)
  {
    senders := map[];
    assert SendersAre(senders, book, order, hash, 0);
    hide SendersAre, Overlaid;
    for i := 0 to |order|
      invariant SendersAre(senders, book, order, hash, i)
    {
      var after := AddSender(senders, book[order[i]], hash);
      SendersNext(senders, after, book, order, hash, i);
      senders := after;
    }
  }

  /** The reverse map is a function of the keys and the sets of spellings. */
  lemma SendersUnique(s: map<string, nat>, t: map<string, nat>, a: Book, b: Book, order: seq<string>, hash: (string, string) -> string)
    requires SameFaces(a, b)
    requires SendersAre(s, a, order, hash, |order|) && SendersAre(t, b, order, hash, |order|)
    ensures s == t
  {
    hide SameFaces, Owner;
    forall h ensures h in s <==> h in t {
      SenderSame(s, t, a, b, order, hash, h);
    }
    forall h | h in s ensures s[h] == t[h] {
      SenderSame(s, t, a, b, order, hash, h);
    }
  }

  lemma SenderSame(s: map<string, nat>, t: map<string, nat>, a: Book, b: Book, order: seq<string>, hash: (string, string) -> string, h: string)
    requires SameFaces(a, b)
    requires SendersAre(s, a, order, hash, |order|) && SendersAre(t, b, order, hash, |order|)
    ensures if h in s then h in t && s[h] == t[h] else h !in t
  {
    if h in s {
      SameOwner(a, b, order, hash, s[h] - 1, h);
    }
    if h in t {
      SameOwner(a, b, order, hash, t[h] - 1, h);
    }
    hide Owner;
  }

  lemma SameOwner(a: Book, b: Book, order: seq<string>, hash: (string, string) -> string, j: int, h: string)
    requires SameFaces(a, b)
    ensures Owner(a, order, hash, j, h) <==> Owner(b, order, hash, j, h)
  {
    if 0 <= j < |order| && order[j] in a {
      SameHashes(a[order[j]].forms, b[order[j]].forms, hash, h);
    }
  }

  lemma SameHashes(forms: seq<string>, other: seq<string>, hash: (string, string) -> string, h: string)
    requires Elements(forms) == Elements(other)
    ensures Hashes(forms, hash, h) <==> Hashes(other, hash, h)
  {
    assert forall f :: f in forms <==> f in Elements(forms);
    assert forall f :: f in other <==> f in Elements(other);
  }

  /** Whatever the order of the observations: the same contact keys, the same ids, the
      same sets of spellings and the same sender map. */
  lemma ProjectionIgnoresOrder(obs: seq<Observation>, other: seq<Observation>,
                               a: Book, order: seq<string>, s: map<string, nat>,
                               b: Book, order': seq<string>, t: map<string, nat>,
                               hash: (string, string) -> string)
    requires forall o :: o in obs <==> o in other
    requires Numbered(Merge(obs), a, order) && SendersAre(s, a, order, hash, |order|)
    requires Numbered(Merge(other), b, order') && SendersAre(t, b, order', hash, |order'|)
    ensures SameFaces(a, b) && order == order' && s == t
    ensures forall k | k in a :: a[k].id == b[k].id
  {
    MergeIgnoresOrder(obs, other);
    hide Merge, SendersAre;
    assert Elements(order) == Elements(order');
    AscendingUnique(order, order');
    NumberedSame(Merge(obs), a, Merge(other), b, order);
    SendersUnique(s, t, a, b, order, hash);
  }

  lemma NumberedSame(book: Book, a: Book, other: Book, b: Book, order: seq<string>)
    requires Numbered(book, a, order) && Numbered(other, b, order) && SameFaces(book, other)
    ensures SameFaces(a, b) && forall k | k in a :: a[k].id == b[k].id
  {
    hide Ascending;
    forall k | k in a ensures k in b && a[k].id == b[k].id && a[k].aci == b[k].aci && Elements(a[k].forms) == Elements(b[k].forms) {
      assert k in Elements(order);
      var i :| 0 <= i < |order| && order[i] == k;
    }
  }

  predicate Namespace(n: string) { n == "direct" || n == "group" }

  /** In the two namespaces, different spellings have different hashes. */
  ghost predicate TellsSpellings(hash: (string, string) -> string)
  {
    forall n, f, m, g :: Namespace(n) && Namespace(m) && hash(n, f) == hash(m, g) ==> f == g
  }

  /** So it is for the program's hash, whatever the account and the spellings, when its
      digest has no collisions. */
  lemma DigestTellsSpellings(digest: string -> string, account: string)
    requires CollisionFree(digest)
    ensures TellsSpellings((n, f) => StableHash(digest, [account, n, f]))
  {
    forall n, f, m, g | Namespace(n) && Namespace(m) && StableHash(digest, [account, n, f]) == StableHash(digest, [account, m, g])
      ensures f == g
    {
      JoinThree(account, n, f);
      JoinThree(account, m, g);
      SameEnd(account, n, f, m, g);
    }
  }

  lemma JoinThree(a: string, n: string, f: string)
    ensures Join([a, n, f]) == (a + "\0") + (n + "\0" + f)
  {
    assert [a, n, f][1..] == [n, f] && [n, f][1..] == [f];
    assert Join([f]) == f;
    assert Join([n, f]) == n + "\0" + f;
    assert Join([a, n, f]) == a + "\0" + Join([n, f]);
  }

  lemma SameEnd(a: string, n: string, f: string, m: string, g: string)
    requires Namespace(n) && Namespace(m) && (a + "\0") + (n + "\0" + f) == (a + "\0") + (m + "\0" + g)
    ensures f == g
  {
    var s, t := n + "\0" + f, m + "\0" + g;
    assert s == ((a + "\0") + s)[|a| + 1..] && t == ((a + "\0") + t)[|a| + 1..];
    assert n[0] == s[0] && m[0] == t[0];
    assert f == s[|n| + 1..] && g == t[|m| + 1..];
  }

  /** When hashes do not collide, a spelling that one contact alone has leads to it. */
  lemma SpellingResolves(senders: map<string, nat>, book: Book, order: seq<string>, hash: (string, string) -> string, i: nat, f: string, h: string)
    requires TellsSpellings(hash) && SendersAre(senders, book, order, hash, |order|)
    requires i < |order| && order[i] in book && f in book[order[i]].forms && HashesTo(hash, f, h)
    requires forall j | 0 <= j < |order| && order[j] in book && f in book[order[j]].forms :: j == i
    ensures h in senders && senders[h] == i + 1
  {
    assert Owner(book, order, hash, i, h);
    var j := senders[h] - 1;
    var g :| g in book[order[j]].forms && HashesTo(hash, g, h);
  }
}
