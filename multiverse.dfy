/**
  The catalogue loader of magic/multiverse.py as state transitions. A
  `State` holds the two module-level caches (card key to card id, format
  name to format id) and the catalogue tables; every operation of the
  loader is a function from a state to the next state and its result. The
  `Catalog` class in catalog.dfy carries out the same operations step by
  step and is proved against these functions.
 */
module Multiverse {
  import opened Wrappers
  import opened Text
  import opened MultiverseRules
  import MagicCard

  datatype Error =
    | MalformedMeld        // a meld entry without three names
    | MissingText          // no text, and the layout gets no backfill
    | NameNotInNames       // the entry's name is not among its names
    | FaceRejected         // the face row breaks a NOT NULL column
    | SetRejected          // the set row breaks a NOT NULL or UNIQUE column
    | UnknownPrintingCard  // a printing whose card key was never inserted
    | PrintingRejected     // the printing row breaks a NOT NULL column
    | UnknownFormat        // the current-season format does not exist
    | MissingQueryKey      // base_query reads a 'query' key no column descriptor has

  // ---------------------------------------------------------------------
  // Tables

  datatype CardRow = CardRow(id: nat, layout: string)

  datatype FaceRow = FaceRow(
    id: nat,
    name: string,
    manaCost: Option<string>,
    cmc: Option<string>,
    extras: FaceExtras,
    typeLine: string,
    text: string,
    position: int,
    nameAscii: string,
    cardId: nat)

  datatype Legality = Legality(cardId: nat, formatId: nat, legality: string)

  datatype FormatRow = FormatRow(id: nat, name: string)

  datatype SetRow = SetRow(
    id: nat,
    name: string,
    code: string,
    gathererCode: Option<string>,
    oldCode: Option<string>,
    magiccardsinfoCode: Option<string>,
    releaseDate: int,
    border: string,
    setType: string,
    onlineOnly: Option<bool>)

  /** Printing values the loader copies from the feed unchanged. */
  datatype PrintingExtras = PrintingExtras(
    flavor: Option<string>,
    number: Option<string>,
    multiverseid: Option<string>,
    watermark: Option<string>,
    border: Option<string>,
    timeshifted: Option<bool>,
    reserved: Option<bool>,
    mciNumber: Option<string>)

  datatype PrintingRow = PrintingRow(
    id: nat,
    cardId: nat,
    setId: nat,
    systemId: string,
    rarity: string,
    artist: string,
    extras: PrintingExtras,
    rarityId: Option<nat>)

  datatype RarityRow = RarityRow(id: nat, name: string)

  datatype BugRow = BugRow(
    cardId: nat,
    description: string,
    classification: string,
    lastConfirmed: int,
    url: string,
    fromBugBlog: bool)

  /**
    The catalogue tables. Colours are rows of (card id, colour name) kept
    as a set, because they are inserted with INSERT IGNORE; `nextId` is
    the next auto-increment id.
   */
  datatype Tables = Tables(
    cards: seq<CardRow>,
    faces: seq<FaceRow>,
    colors: set<(nat, string)>,
    colorIdentity: set<(nat, string)>,
    supertypes: seq<(nat, string)>,
    subtypes: seq<(nat, string)>,
    legalities: seq<Legality>,
    formats: seq<FormatRow>,
    sets: seq<SetRow>,
    printings: seq<PrintingRow>,
    rarities: seq<RarityRow>,
    bugs: seq<BugRow>,
    versions: seq<string>,
    nextId: nat)

  /** The loader's state: CARD_IDS, FORMAT_IDS and the tables. */
  datatype State = State(cardIds: map<string, nat>, formatIds: map<string, nat>, db: Tables)

  // ---------------------------------------------------------------------
  // Format ids

  /** The format table as the cache loads it: name to id, a later row overriding an earlier one. */
  function FormatMap(fs: seq<FormatRow>): map<string, nat> {
    if |fs| == 0 then map[] else FormatMap(fs[..|fs| - 1])[fs[|fs| - 1].name := fs[|fs| - 1].id]
  }

  lemma FormatMapAppend(fs: seq<FormatRow>, r: FormatRow)
    ensures FormatMap(fs + [r]) == FormatMap(fs)[r.name := r.id]
  {
    assert (fs + [r])[..|fs|] == fs;
  }

  /** The cache once loaded: filled from the format table when it is empty. */
  function LoadedFormats(s: State): map<string, nat> {
    if s.formatIds == map[] then FormatMap(s.db.formats) else s.formatIds
  }

  /** get_format_id(name): the id of a known format, None for an unknown one. */
  function FindFormat(s: State, name: string): (State, Option<nat>) {
    var ids := LoadedFormats(s);
    (s.(formatIds := ids), if name in ids then Some(ids[name]) else None)
  }

  /** get_format_id(name, True): the id of the format, inserting it first when it is unknown. */
  function EnsureFormat(s: State, name: string): (State, nat) {
    var ids := LoadedFormats(s);
    if name in ids then (s.(formatIds := ids), ids[name])
    else
      var id := s.db.nextId;
      (State(s.cardIds, ids[name := id], s.db.(formats := s.db.formats + [FormatRow(id, name)], nextId := id + 1)), id)
  }

  /** Looking up or creating a format touches only the format table, the next id and the format cache. */
  lemma EnsureFormatFrame(s: State, name: string)
    ensures EnsureFormat(s, name).0.cardIds == s.cardIds
    ensures EnsureFormat(s, name).0.db == s.db.(formats := EnsureFormat(s, name).0.db.formats, nextId := EnsureFormat(s, name).0.db.nextId)
  {
  }

  function GetFormatIdStep(s: State, name: string, allowCreate: bool): (State, Option<nat>) {
    if allowCreate then
      var r := EnsureFormat(s, name);
      (r.0, Some(r.1))
    else FindFormat(s, name)
  }

  /** The cache is empty or mirrors the format table, and every format id is below the next id. */
  predicate FormatsConsistent(s: State) {
    && (s.formatIds == map[] || s.formatIds == FormatMap(s.db.formats))
    && (forall i :: 0 <= i < |s.db.formats| ==> s.db.formats[i].id < s.db.nextId)
  }

  /**
    get_format_id: a known name gives its id and changes no table; an
    unknown one gives None without creation, and with creation a new
    format row with the next id; either way the cache then mirrors the table.
   */
  lemma GetFormatIdSpec(s: State, name: string, allowCreate: bool)
    requires FormatsConsistent(s)
    ensures var (t, id) := GetFormatIdStep(s, name, allowCreate);
            var known := FormatMap(s.db.formats);
            && FormatsConsistent(t) && t.formatIds == FormatMap(t.db.formats) && t.cardIds == s.cardIds
            && (name in known ==> id == Some(known[name]) && t.db == s.db)
            && (name !in known && !allowCreate ==> id == None && t.db == s.db)
            && (name !in known && allowCreate ==>
                  id == Some(s.db.nextId) &&
                  t.db == s.db.(formats := s.db.formats + [FormatRow(s.db.nextId, name)], nextId := s.db.nextId + 1))
  {
    FormatMapAppend(s.db.formats, FormatRow(s.db.nextId, name));
  }

  /** Once a name has been created, every later lookup returns the same id and changes nothing. */
  lemma GetFormatIdStable(s: State, name: string, allowCreate: bool)
    requires FormatsConsistent(s)
    ensures var (t, id) := GetFormatIdStep(s, name, true);
            GetFormatIdStep(t, name, allowCreate) == (t, id)
  {
    GetFormatIdSpec(s, name, true);
  }

  // ---------------------------------------------------------------------
  // insert_card

  /** What insert_card writes back into the feed entry. */
  datatype Derived = Derived(text: string, nameAscii: string, searchText: string, cardId: nat, position: int)

  /** The card id of a key: the cached one, or a new card row whose id is then cached. */
  function CardIdStep(s: State, key: string, layout: string): (State, nat) {
    if key in s.cardIds then (s, s.cardIds[key])
    else
      var id := s.db.nextId;
      (s.(cardIds := s.cardIds[key := id], db := s.db.(cards := s.db.cards + [CardRow(id, layout)], nextId := id + 1)), id)
  }

  function TagSet(id: nat, xs: seq<string>): set<(nat, string)> {
    set x | x in xs :: (id, x)
  }

  function Tag(id: nat, xs: seq<string>): (r: seq<(nat, string)>)
    ensures |r| == |xs| && forall i :: 0 <= i < |xs| ==> r[i] == (id, xs[i])
  {
    seq(|xs|, i requires 0 <= i < |xs| => (id, xs[i]))
  }

  /** One legality row per entry, each format looked up or created in turn. */
  function AddLegalities(s: State, cardId: nat, infos: seq<FormatLegality>): State
    decreases |infos|
  {
    if |infos| == 0 then s
    else
      var r := EnsureFormat(s, infos[0].format);
      var t := r.0.(db := r.0.db.(legalities := r.0.db.legalities + [Legality(cardId, r.1, infos[0].legality)]));
      AddLegalities(t, cardId, infos[1..])
  }

  /** The face row of an entry whose fields have been derived. */
  function FaceOf(c: FeedCard, id: nat, typeLine: string, d: Derived): FaceRow {
    FaceRow(id, c.name, c.manaCost, c.cmc, c.extras, typeLine, d.text, d.position, d.nameAscii, d.cardId)
  }

  /**
    insert_card: key the entry, find or create its card, derive the face
    fields, insert the face, then its colours, colour identity, supertypes,
    subtypes and legalities. It stops at the first step the source fails
    at; the card row of a new key is created before the text is looked at.
   */
  function InsertCardStep(s: State, c: FeedCard): (State, Result<Derived, Error>) {
    var key := KeyOf(c);
    if key.None? then (s, Failure(MalformedMeld))
    else
      var r := CardIdStep(s, key.value, c.layout);
      var s1 := r.0;
      var cardId := r.1;
      var text := BackfilledText(c);
      if text.None? then (s1, Failure(MissingText))
      else
        var pos := Position(c);
        if pos.None? then (s1, Failure(NameNotInNames))
        else if c.typeLine.None? then (s1, Failure(FaceRejected))
        else
          var d := Derived(text.value, MagicCard.Unaccent(c.name), StripReminder(text.value), cardId, pos.value);
          var db := s1.db;
          var db2 := db.(
            faces := db.faces + [FaceOf(c, db.nextId, c.typeLine.value, d)],
            nextId := db.nextId + 1,
            colors := db.colors + TagSet(cardId, c.colors),
            colorIdentity := db.colorIdentity + TagSet(cardId, c.colorIdentity),
            supertypes := db.supertypes + Tag(cardId, c.supertypes),
            subtypes := db.subtypes + Tag(cardId, c.subtypes));
          (AddLegalities(s1.(db := db2), cardId, c.legalities), Success(d))
  }

  /** `rows` are the legality rows of card `cardId`, one per entry of `infos`, in order. */
  predicate LegalityRowsFor(rows: seq<Legality>, cardId: nat, infos: seq<FormatLegality>) {
    |rows| == |infos| &&
    forall i :: 0 <= i < |rows| ==> rows[i].cardId == cardId && rows[i].legality == infos[i].legality
  }

  /** Appending legality rows touches nothing but the legality and format tables and the format cache. */
  lemma {:induction false} AddLegalitiesFrame(s: State, cardId: nat, infos: seq<FormatLegality>)
    ensures var t := AddLegalities(s, cardId, infos);
            && t.cardIds == s.cardIds
            && t.db == s.db.(legalities := t.db.legalities, formats := t.db.formats, nextId := t.db.nextId)
            && |s.db.legalities| <= |t.db.legalities|
            && t.db.legalities[..|s.db.legalities|] == s.db.legalities
            && LegalityRowsFor(t.db.legalities[|s.db.legalities|..], cardId, infos)
    decreases |infos|
  {
    if |infos| > 0 {
      var r := EnsureFormat(s, infos[0].format);
      EnsureFormatFrame(s, infos[0].format);
      var row := Legality(cardId, r.1, infos[0].legality);
      var u := r.0.(db := r.0.db.(legalities := r.0.db.legalities + [row]));
      AddLegalitiesFrame(u, cardId, infos[1..]);
      var t := AddLegalities(u, cardId, infos[1..]);
      assert AddLegalities(s, cardId, infos) == t;
      var n := |s.db.legalities|;
      assert r.0.db.legalities == s.db.legalities;
      assert u.db.legalities == s.db.legalities + [row];
      var tl := t.db.legalities;
      assert tl[..n + 1] == u.db.legalities;
      assert tl[..n] == tl[..n + 1][..n];
      assert tl[n..] == [row] + tl[n + 1..];
      assert LegalityRowsFor(tl[n + 1..], cardId, infos[1..]);
    } else {
      assert AddLegalities(s, cardId, infos) == s;
    }
  }

  /** Exactly the failures of the source: the success conditions of insert_card, and which error comes first. */
  lemma InsertCardOutcome(s: State, c: FeedCard)
    ensures var (t, r) := InsertCardStep(s, c);
            && (r.Success? <==> KeyOf(c).Some? && BackfilledText(c).Some? && Position(c).Some? && c.typeLine.Some?)
            && (KeyOf(c).None? ==> r == Failure(MalformedMeld) && t == s)
            && (KeyOf(c).Some? && BackfilledText(c).None? ==> r == Failure(MissingText))
            && (KeyOf(c).Some? && BackfilledText(c).Some? && Position(c).None? ==> r == Failure(NameNotInNames))
  {
  }

  /** After the card id step, insert_card changes neither the card cache nor the card table. */
  lemma InsertCardKeepsCards(s: State, c: FeedCard)
    requires KeyOf(c).Some?
    ensures var (t, r) := InsertCardStep(s, c);
            var (s1, id) := CardIdStep(s, KeyOf(c).value, c.layout);
            && t.cardIds == s1.cardIds && t.db.cards == s1.db.cards
            && (r.Success? ==> r.value.cardId == id)
  {
    var (s1, id) := CardIdStep(s, KeyOf(c).value, c.layout);
    var text := BackfilledText(c);
    if text.Some? && Position(c).Some? && c.typeLine.Some? {
      var d := Derived(text.value, MagicCard.Unaccent(c.name), StripReminder(text.value), id, Position(c).value);
      var db := s1.db;
      var db2 := db.(
            faces := db.faces + [FaceOf(c, db.nextId, c.typeLine.value, d)],
            nextId := db.nextId + 1,
            colors := db.colors + TagSet(id, c.colors),
            colorIdentity := db.colorIdentity + TagSet(id, c.colorIdentity),
            supertypes := db.supertypes + Tag(id, c.supertypes),
            subtypes := db.subtypes + Tag(id, c.subtypes));
      AddLegalitiesFrame(s1.(db := db2), id, c.legalities);
      assert InsertCardStep(s, c) == (AddLegalities(s1.(db := db2), id, c.legalities), Success(d));
    }
  }

  /**
    The card cache: after insert_card the entry's key is cached; a key
    already cached keeps its id and no card row is added, and a new key gets
    a new card row with the next id and the entry's layout.
   */
  lemma InsertCardCaches(s: State, c: FeedCard)
    requires KeyOf(c).Some?
    ensures var (t, r) := InsertCardStep(s, c);
            var key := KeyOf(c).value;
            && key in t.cardIds
            && (forall k :: k in s.cardIds ==> k in t.cardIds && t.cardIds[k] == s.cardIds[k])
            && (key in s.cardIds ==> t.cardIds == s.cardIds && t.db.cards == s.db.cards)
            && (key !in s.cardIds ==> t.cardIds == s.cardIds[key := s.db.nextId] &&
                                      t.db.cards == s.db.cards + [CardRow(s.db.nextId, c.layout)])
            && (r.Success? ==> r.value.cardId == t.cardIds[key])
  {
    InsertCardKeepsCards(s, c);
  }

  /** Two entries with the same key are attached to the same card. */
  lemma SameKeySameCard(s: State, c1: FeedCard, c2: FeedCard)
    requires KeyOf(c1).Some? && KeyOf(c1) == KeyOf(c2)
    ensures var (t1, r1) := InsertCardStep(s, c1);
            var (t2, r2) := InsertCardStep(t1, c2);
            r1.Success? && r2.Success? ==> r1.value.cardId == r2.value.cardId
  {
    InsertCardCaches(s, c1);
    InsertCardCaches(InsertCardStep(s, c1).0, c2);
  }

  /**
    The face insert_card adds: its text is the backfilled text, its
    position the entry's position, its name_ascii the unaccented name and
    its card the cached card of the key; the face gets the next id.
   */
  lemma InsertCardFace(s: State, c: FeedCard)
    ensures var (t, r) := InsertCardStep(s, c);
            r.Success? ==>
              && r.value.text == BackfilledText(c).value
              && r.value.position == Position(c).value
              && r.value.nameAscii == MagicCard.Unaccent(c.name)
              && r.value.searchText == StripReminder(r.value.text)
              && |t.db.faces| > 0 && t.db.faces[..|t.db.faces| - 1] == CardIdStep(s, KeyOf(c).value, c.layout).0.db.faces
              && t.db.faces[|t.db.faces| - 1] ==
                   FaceOf(c, CardIdStep(s, KeyOf(c).value, c.layout).0.db.nextId, c.typeLine.value, r.value)
  {
    if KeyOf(c).Some? && BackfilledText(c).Some? && Position(c).Some? && c.typeLine.Some? {
      var key := KeyOf(c).value;
      var s1 := CardIdStep(s, key, c.layout).0;
      var text := BackfilledText(c);
      var d := Derived(text.value, MagicCard.Unaccent(c.name), StripReminder(text.value), CardIdStep(s, key, c.layout).1, Position(c).value);
      var db := s1.db;
      var db2 := db.(
            faces := db.faces + [FaceOf(c, db.nextId, c.typeLine.value, d)],
            nextId := db.nextId + 1,
            colors := db.colors + TagSet(d.cardId, c.colors),
            colorIdentity := db.colorIdentity + TagSet(d.cardId, c.colorIdentity),
            supertypes := db.supertypes + Tag(d.cardId, c.supertypes),
            subtypes := db.subtypes + Tag(d.cardId, c.subtypes));
      AddLegalitiesFrame(s1.(db := db2), d.cardId, c.legalities);
    }
  }

  // ---------------------------------------------------------------------
  // The card passes of update_database

  /** insert_card on each entry in turn, stopping at the first failure. */
  function InsertAll(s: State, cs: seq<FeedCard>): (State, Option<Error>)
    decreases |cs|
  {
    if |cs| == 0 then (s, None)
    else
      var (t, r) := InsertCardStep(s, cs[0]);
      if r.Failure? then (t, Some(r.error)) else InsertAll(t, cs[1..])
  }

  /**
    The first loop of update_database: an entry that is melded back is put
    aside, every other one is inserted at once. Reading names[2] of a meld
    entry fails when its names are missing or shorter than three.
    Gives the state, the entries put aside in feed order, and the error
    that stopped the loop, if any.
   */
  function FirstPass(s: State, cs: seq<FeedCard>): (r: (State, seq<FeedCard>, Option<Error>))
    ensures r.2.Some? ==> r.1 == []
    decreases |cs|
  {
    if |cs| == 0 then (s, [], None)
    else
      var c := cs[0];
      if c.layout == "meld" && (c.names.None? || |c.names.value| < 3) then (s, [], Some(MalformedMeld))
      else if IsMeldedBack(c) then
        var (t, ms, e) := FirstPass(s, cs[1..]);
        (t, if e.Some? then [] else [c] + ms, e)
      else
        var (t, r) := InsertCardStep(s, c);
        if r.Failure? then (t, [], Some(r.error)) else FirstPass(t, cs[1..])
  }

  /** The second loop: each melded-back entry is inserted, then inserted again with names[0] and names[1] swapped. */
  function SecondPass(s: State, ms: seq<FeedCard>): (State, Option<Error>)
    decreases |ms|
  {
    if |ms| == 0 then (s, None)
    else
      var (t, r) := InsertCardStep(s, ms[0]);
      if r.Failure? then (t, Some(r.error))
      else
        var (u, q) := InsertCardStep(t, SwapFirstTwo(ms[0]));
        if q.Failure? then (u, Some(q.error)) else SecondPass(u, ms[1..])
  }

  function Passes(s: State, cs: seq<FeedCard>): (State, Option<Error>) {
    var (t, ms, e) := FirstPass(s, cs);
    if e.Some? then (t, e) else SecondPass(t, ms)
  }

  /** The first pass over `cs` once the entries `acc` have been put aside. */
  function FirstPassAfter(s: State, cs: seq<FeedCard>, acc: seq<FeedCard>): (State, seq<FeedCard>, Option<Error>) {
    var (t, ms, e) := FirstPass(s, cs);
    (t, if e.None? then acc + ms else [], e)
  }

  /** A melded-back entry joins the entries put aside. */
  lemma FirstPassPutAside(s: State, cs: seq<FeedCard>, i: nat, acc: seq<FeedCard>)
    requires i < |cs| && !(cs[i].layout == "meld" && (cs[i].names.None? || |cs[i].names.value| < 3))
    requires IsMeldedBack(cs[i])
    ensures FirstPassAfter(s, cs[i..], acc) == FirstPassAfter(s, cs[i + 1..], acc + [cs[i]])
  {
    assert cs[i..][0] == cs[i] && cs[i..][1..] == cs[i + 1..];
    var (t, ms, e) := FirstPass(s, cs[i + 1..]);
    assert acc + ([cs[i]] + ms) == (acc + [cs[i]]) + ms;
  }

  /** Any other entry is inserted at once, and a failure ends the pass. */
  lemma FirstPassInserted(s: State, cs: seq<FeedCard>, i: nat, acc: seq<FeedCard>)
    requires i < |cs| && !(cs[i].layout == "meld" && (cs[i].names.None? || |cs[i].names.value| < 3))
    requires !IsMeldedBack(cs[i])
    ensures var (t, r) := InsertCardStep(s, cs[i]);
            FirstPassAfter(s, cs[i..], acc) ==
              if r.Failure? then (t, [], Some(r.error)) else FirstPassAfter(t, cs[i + 1..], acc)
  {
    assert cs[i..][0] == cs[i] && cs[i..][1..] == cs[i + 1..];
  }

  lemma {:induction false} InsertAllAppend(s: State, a: seq<FeedCard>, b: seq<FeedCard>)
    ensures InsertAll(s, a + b) ==
              var (t, e) := InsertAll(s, a);
              if e.Some? then (t, e) else InsertAll(t, b)
    decreases |a|
  {
    if |a| > 0 {
      assert (a + b)[0] == a[0] && (a + b)[1..] == a[1..] + b;
      var (t, r) := InsertCardStep(s, a[0]);
      if r.Success? {
        InsertAllAppend(t, a[1..], b);
      }
    } else {
      assert a + b == b;
    }
  }

  /** The first pass inserts exactly the entries that are not melded back, and puts aside the others in feed order. */
  lemma {:induction false} FirstPassSpec(s: State, cs: seq<FeedCard>)
    requires AllKeyed(cs)
    ensures var (t, ms, e) := FirstPass(s, cs);
            && (t, e) == InsertAll(s, Others(cs))
            && (e.None? ==> ms == Melded(cs))
    decreases |cs|
  {
    if |cs| > 0 {
      var c := cs[0];
      assert KeyOf(c).Some?;
      assert AllKeyed(cs[1..]) by {
        forall i | 0 <= i < |cs[1..]| ensures KeyOf(cs[1..][i]).Some? {
          assert cs[1..][i] == cs[i + 1];
        }
      }
      if IsMeldedBack(c) {
        FirstPassSpec(s, cs[1..]);
        assert Others(cs) == [] + Others(cs[1..]) == Others(cs[1..]);
        assert Melded(cs) == [c] + Melded(cs[1..]);
      } else {
        var (t, r) := InsertCardStep(s, c);
        assert Others(cs) == [c] + Others(cs[1..]);
        assert ([c] + Others(cs[1..]))[1..] == Others(cs[1..]);
        if r.Success? {
          FirstPassSpec(t, cs[1..]);
        }
      }
    }
  }

  lemma {:induction false} SecondPassSpec(s: State, ms: seq<FeedCard>)
    ensures SecondPass(s, ms) == InsertAll(s, Twice(ms))
    decreases |ms|
  {
    if |ms| > 0 {
      var tw := Twice(ms);
      assert tw == [ms[0], SwapFirstTwo(ms[0])] + Twice(ms[1..]);
      assert tw[0] == ms[0] && tw[1..][0] == SwapFirstTwo(ms[0]) && tw[1..][1..] == Twice(ms[1..]);
      var (t, r) := InsertCardStep(s, ms[0]);
      if r.Success? {
        var (u, q) := InsertCardStep(t, SwapFirstTwo(ms[0]));
        if q.Success? {
          SecondPassSpec(u, ms[1..]);
        }
      }
    }
  }

  /**
    The two loops of update_database insert the entries in exactly the
    order of InsertionOrder: every entry that is not melded back in feed
    order, then each melded-back entry twice, the second time with its
    first two names swapped.
   */
  lemma PassesFollowOrder(s: State, cs: seq<FeedCard>)
    requires AllKeyed(cs)
    ensures Passes(s, cs) == InsertAll(s, InsertionOrder(cs))
  {
    FirstPassSpec(s, cs);
    InsertAllAppend(s, Others(cs), Twice(Melded(cs)));
    var (t, ms, e) := FirstPass(s, cs);
    if e.None? {
      SecondPassSpec(t, ms);
    }
  }

  /**
    A meld entry with no names, or fewer than three, at the head of the feed
    ends the first pass at once: reading names[2] raises, so the state is
    unchanged and nothing is put aside.
   */
  lemma FirstPassMalformed(s: State, c: FeedCard, cs: seq<FeedCard>)
    requires c.layout == "meld" && (c.names.None? || |c.names.value| < 3)
    ensures FirstPass(s, [c] + cs) == (s, [], Some(MalformedMeld))
  {
    assert ([c] + cs)[0] == c;
  }

  // ---------------------------------------------------------------------
  // insert_set

  /** A printing in a set of the feed: the fields card_name reads, then the printing's own. */
  datatype FeedPrinting = FeedPrinting(
    name: string,
    names: Option<seq<string>>,
    layout: string,
    systemId: Option<string>,
    rarity: Option<string>,
    artist: Option<string>,
    extras: PrintingExtras)

  /** A set of the feed; `releaseDate` is the text date_to_int parses. */
  datatype FeedSet = FeedSet(
    name: Option<string>,
    code: Option<string>,
    gathererCode: Option<string>,
    oldCode: Option<string>,
    magiccardsinfoCode: Option<string>,
    releaseDate: Option<string>,
    border: Option<string>,
    setType: Option<string>,
    onlineOnly: Option<bool>,
    cards: seq<FeedPrinting>)

  /**
    The set row insert_set writes, or None when a NOT NULL column (name,
    code, release_date, border, type) has no value. The release date goes
    through `parseDate`, the timestamp parser of date2int.
   */
  function SetRowOf(fs: FeedSet, id: nat, parseDate: string -> int): Option<SetRow> {
    if fs.name.None? || fs.code.None? || fs.releaseDate.None? || fs.border.None? || fs.setType.None? then None
    else Some(SetRow(id, fs.name.value, fs.code.value, fs.gathererCode, fs.oldCode, fs.magiccardsinfoCode,
                     parseDate(fs.releaseDate.value), fs.border.value, fs.setType.value, fs.onlineOnly))
  }

  /** Two values of a UNIQUE column that the database refuses together: equal and both present. */
  predicate SameValue(a: Option<string>, b: Option<string>) {
    a.Some? && b.Some? && a.value == b.value
  }

  /** The UNIQUE columns of the set table: name, code, gatherer_code, old_code, magiccardsinfo_code. */
  predicate UniqueClash(a: SetRow, b: SetRow) {
    || a.name == b.name
    || a.code == b.code
    || SameValue(a.gathererCode, b.gathererCode)
    || SameValue(a.oldCode, b.oldCode)
    || SameValue(a.magiccardsinfoCode, b.magiccardsinfoCode)
  }

  predicate ClashesWithAny(sets: seq<SetRow>, r: SetRow) {
    exists i | 0 <= i < |sets| :: UniqueClash(sets[i], r)
  }

  /** Whether a printing can be stored: its key is cached and its NOT NULL columns have values. */
  predicate Storable(cardIds: map<string, nat>, p: FeedPrinting) {
    var key := CardName(p.name, p.names, p.layout);
    key.Some? && key.value in cardIds && p.systemId.Some? && p.rarity.Some? && p.artist.Some?
  }

  /**
    The printing rows of one set, one per feed printing: the card is the
    cached id of the printing's key (a key never inserted fails, as the
    cache lookup of the source does) and the rarity id is left unset.
   */
  function AddPrintings(s: State, setId: nat, ps: seq<FeedPrinting>): (State, Option<Error>)
    decreases |ps|
  {
    if |ps| == 0 then (s, None)
    else
      var p := ps[0];
      var key := CardName(p.name, p.names, p.layout);
      if key.None? then (s, Some(MalformedMeld))
      else if key.value !in s.cardIds then (s, Some(UnknownPrintingCard))
      else if p.systemId.None? || p.rarity.None? || p.artist.None? then (s, Some(PrintingRejected))
      else
        var row := PrintingRow(s.db.nextId, s.cardIds[key.value], setId, p.systemId.value, p.rarity.value, p.artist.value, p.extras, None);
        AddPrintings(s.(db := s.db.(printings := s.db.printings + [row], nextId := s.db.nextId + 1)), setId, ps[1..])
  }

  /** insert_set: the set row with the next id, then its printings. */
  function InsertSetStep(s: State, fs: FeedSet, parseDate: string -> int): (State, Option<Error>) {
    var row := SetRowOf(fs, s.db.nextId, parseDate);
    if row.None? || ClashesWithAny(s.db.sets, row.value) then (s, Some(SetRejected))
    else AddPrintings(s.(db := s.db.(sets := s.db.sets + [row.value], nextId := s.db.nextId + 1)), row.value.id, fs.cards)
  }

  /** `rows` are the printings of set `setId` for the feed printings `ps`, each attached to the card cached under its key. */
  predicate PrintingsFor(rows: seq<PrintingRow>, cardIds: map<string, nat>, setId: nat, ps: seq<FeedPrinting>) {
    |rows| == |ps| &&
    forall i :: 0 <= i < |rows| ==>
      && Storable(cardIds, ps[i])
      && rows[i].cardId == cardIds[CardName(ps[i].name, ps[i].names, ps[i].layout).value]
      && rows[i].setId == setId
      && rows[i].systemId == ps[i].systemId.value
      && rows[i].rarity == ps[i].rarity.value
      && rows[i].artist == ps[i].artist.value
      && rows[i].extras == ps[i].extras
      && rows[i].rarityId.None?
  }

  lemma PrintingsForCons(row: PrintingRow, rows: seq<PrintingRow>, cardIds: map<string, nat>, setId: nat, ps: seq<FeedPrinting>)
    requires |ps| > 0 && PrintingsFor([row], cardIds, setId, ps[..1]) && PrintingsFor(rows, cardIds, setId, ps[1..])
    ensures PrintingsFor([row] + rows, cardIds, setId, ps)
  {
    var all := [row] + rows;
    forall i | 0 <= i < |all|
      ensures PrintingsFor([all[i]], cardIds, setId, [ps[i]])
    {
      if i == 0 {
        assert ps[..1] == [ps[0]];
      } else {
        assert all[i] == rows[i - 1] && ps[i] == ps[1..][i - 1];
      }
    }
  }

  /** Storing printings touches only the printing table and the id counter, and only appends. */
  lemma {:induction false} AddPrintingsFrame(s: State, setId: nat, ps: seq<FeedPrinting>)
    ensures var t := AddPrintings(s, setId, ps).0;
            && t.cardIds == s.cardIds && t.formatIds == s.formatIds
            && t.db == s.db.(printings := t.db.printings, nextId := t.db.nextId)
            && |s.db.printings| <= |t.db.printings|
            && t.db.printings[..|s.db.printings|] == s.db.printings
    decreases |ps|
  {
    if |ps| > 0 && Storable(s.cardIds, ps[0]) {
      var p := ps[0];
      var key := CardName(p.name, p.names, p.layout);
      var row := PrintingRow(s.db.nextId, s.cardIds[key.value], setId, p.systemId.value, p.rarity.value, p.artist.value, p.extras, None);
      var u := s.(db := s.db.(printings := s.db.printings + [row], nextId := s.db.nextId + 1));
      AddPrintingsFrame(u, setId, ps[1..]);
      var tp := AddPrintings(u, setId, ps[1..]).0.db.printings;
      assert AddPrintings(s, setId, ps) == AddPrintings(u, setId, ps[1..]);
      assert tp[..|s.db.printings|] == tp[..|u.db.printings|][..|s.db.printings|];
    }
  }

  /** The printings are all stored exactly when each can be, and the stored rows follow the feed. */
  lemma {:induction false} AddPrintingsRows(s: State, setId: nat, ps: seq<FeedPrinting>)
    ensures var (t, e) := AddPrintings(s, setId, ps);
            && (e.None? <==> forall i :: 0 <= i < |ps| ==> Storable(s.cardIds, ps[i]))
            && (e.None? ==> |s.db.printings| <= |t.db.printings| &&
                            PrintingsFor(t.db.printings[|s.db.printings|..], s.cardIds, setId, ps))
    decreases |ps|
  {
    if |ps| > 0 {
      var p := ps[0];
      if Storable(s.cardIds, p) {
        var key := CardName(p.name, p.names, p.layout);
        var row := PrintingRow(s.db.nextId, s.cardIds[key.value], setId, p.systemId.value, p.rarity.value, p.artist.value, p.extras, None);
        var u := s.(db := s.db.(printings := s.db.printings + [row], nextId := s.db.nextId + 1));
        AddPrintingsRows(u, setId, ps[1..]);
        AddPrintingsFrame(u, setId, ps[1..]);
        var (t, e) := AddPrintings(u, setId, ps[1..]);
        assert AddPrintings(s, setId, ps) == (t, e);
        var n := |s.db.printings|;
        var tp := t.db.printings;
        assert forall i :: 1 <= i < |ps| ==> ps[1..][i - 1] == ps[i];
        if e.None? {
          assert tp[n..] == [row] + tp[n + 1..] by {
            assert tp[..n + 1] == s.db.printings + [row];
          }
          PrintingsForCons(row, tp[n + 1..], s.cardIds, setId, ps);
        }
      }
    }
  }

  /**
    The printings of a set: they are all stored exactly when each can be;
    the stored rows follow the feed, each attached to its key's card; and
    nothing but the printing table and the id counter changes.
   */
  lemma AddPrintingsSpec(s: State, setId: nat, ps: seq<FeedPrinting>)
    ensures var (t, e) := AddPrintings(s, setId, ps);
            && (e.None? <==> forall i :: 0 <= i < |ps| ==> Storable(s.cardIds, ps[i]))
            && t.cardIds == s.cardIds && t.formatIds == s.formatIds
            && t.db == s.db.(printings := t.db.printings, nextId := t.db.nextId)
            && |s.db.printings| <= |t.db.printings|
            && t.db.printings[..|s.db.printings|] == s.db.printings
            && (e.None? ==> PrintingsFor(t.db.printings[|s.db.printings|..], s.cardIds, setId, ps))
  {
    AddPrintingsFrame(s, setId, ps);
    AddPrintingsRows(s, setId, ps);
  }

  /**
    insert_set: a set with a missing NOT NULL value or a UNIQUE value
    already taken is refused and nothing changes; otherwise the set row gets
    the next id and its printings follow it.
   */
  lemma InsertSetSpec(s: State, fs: FeedSet, parseDate: string -> int)
    ensures var (t, e) := InsertSetStep(s, fs, parseDate);
            var row := SetRowOf(fs, s.db.nextId, parseDate);
            && (row.None? || ClashesWithAny(s.db.sets, row.value) ==> t == s && e == Some(SetRejected))
            && (row.Some? && !ClashesWithAny(s.db.sets, row.value) ==>
                  && t.db.sets == s.db.sets + [row.value]
                  && |s.db.printings| <= |t.db.printings|
                  && (e.None? <==> forall i :: 0 <= i < |fs.cards| ==> Storable(s.cardIds, fs.cards[i]))
                  && (e.None? ==> PrintingsFor(t.db.printings[|s.db.printings|..], s.cardIds, s.db.nextId, fs.cards)))
  {
    var row := SetRowOf(fs, s.db.nextId, parseDate);
    if row.Some? && !ClashesWithAny(s.db.sets, row.value) {
      var u := s.(db := s.db.(sets := s.db.sets + [row.value], nextId := s.db.nextId + 1));
      assert row.value.id == s.db.nextId;
      AddPrintingsSpec(u, row.value.id, fs.cards);
      assert InsertSetStep(s, fs, parseDate) == AddPrintings(u, row.value.id, fs.cards);
      assert u.cardIds == s.cardIds && u.db.printings == s.db.printings;
    }
  }

  /** A set whose name is already stored is refused. */
  lemma SameNameRejected(s: State, fs: FeedSet, parseDate: string -> int, i: nat)
    requires i < |s.db.sets| && fs.name == Some(s.db.sets[i].name)
    ensures InsertSetStep(s, fs, parseDate) == (s, Some(SetRejected))
  {
    var row := SetRowOf(fs, s.db.nextId, parseDate);
    if row.Some? {
      assert UniqueClash(s.db.sets[i], row.value);
    }
  }

  /** insert_set on each set in turn, stopping at the first failure. */
  function InsertSets(s: State, sets: seq<FeedSet>, parseDate: string -> int): (State, Option<Error>)
    decreases |sets|
  {
    if |sets| == 0 then (s, None)
    else
      var (t, e) := InsertSetStep(s, sets[0], parseDate);
      if e.Some? then (t, e) else InsertSets(t, sets[1..], parseDate)
  }

  // ---------------------------------------------------------------------
  // Rarity ids

  /** UPDATE printing SET rarity_id = id WHERE rarity = name, for one rarity row. */
  function ApplyRarity(ps: seq<PrintingRow>, r: RarityRow): seq<PrintingRow> {
    seq(|ps|, i requires 0 <= i < |ps| => if ps[i].rarity == r.name then ps[i].(rarityId := Some(r.id)) else ps[i])
  }

  /** The loop of update_database over the rarity table. */
  function ResolveRarities(ps: seq<PrintingRow>, rs: seq<RarityRow>): seq<PrintingRow>
    decreases |rs|
  {
    if |rs| == 0 then ps else ResolveRarities(ApplyRarity(ps, rs[0]), rs[1..])
  }

  /** The id of the last rarity row with this name. */
  function LastRarityId(rs: seq<RarityRow>, name: string): (r: Option<nat>)
    ensures r.None? <==> forall i :: 0 <= i < |rs| ==> rs[i].name != name
    ensures r.Some? ==> exists i :: 0 <= i < |rs| && rs[i].name == name && rs[i].id == r.value &&
                                    forall j :: i < j < |rs| ==> rs[j].name != name
    decreases |rs|
  {
    if |rs| == 0 then None
    else
      var later := LastRarityId(rs[1..], name);
      if later.Some? then
        var i :| 0 <= i < |rs[1..]| && rs[1..][i].name == name && rs[1..][i].id == later.value &&
                 forall j :: i < j < |rs[1..]| ==> rs[1..][j].name != name;
        assert rs[i + 1] == rs[1..][i];
        assert forall j :: i + 1 < j < |rs| ==> rs[j] == rs[1..][j - 1];
        later
      else if rs[0].name == name then
        assert forall j :: 0 < j < |rs| ==> rs[j] == rs[1..][j - 1];
        Some(rs[0].id)
      else
        assert forall j :: 0 < j < |rs| ==> rs[j] == rs[1..][j - 1];
        None
  }

  /**
    After the rarity loop every printing carries the id of the last rarity
    row named like its rarity, or its old rarity id when there is none;
    nothing else about a printing changes.
   */
  lemma {:induction false} ResolveRaritiesSpec(ps: seq<PrintingRow>, rs: seq<RarityRow>)
    ensures var qs := ResolveRarities(ps, rs);
            && |qs| == |ps|
            && forall i :: 0 <= i < |ps| ==>
                 var last := LastRarityId(rs, ps[i].rarity);
                 qs[i] == ps[i].(rarityId := if last.Some? then last else ps[i].rarityId)
    decreases |rs|
  {
    if |rs| > 0 {
      var ps1 := ApplyRarity(ps, rs[0]);
      ResolveRaritiesSpec(ps1, rs[1..]);
      forall i | 0 <= i < |ps|
        ensures var last := LastRarityId(rs, ps[i].rarity);
                ResolveRarities(ps, rs)[i] == ps[i].(rarityId := if last.Some? then last else ps[i].rarityId)
      {
        assert ps1[i].rarity == ps[i].rarity;
      }
    }
  }

  // ---------------------------------------------------------------------
  // update_bugged_cards

  /** One bug report of the feed; `lastUpdated` is the text the timestamp parser reads. */
  datatype FeedBug = FeedBug(card: string, description: string, category: string, lastUpdated: string, url: string, bugBlog: bool)

  /** SELECT card_id FROM face WHERE name = ?: the card of the first face with that name. */
  function FaceCardId(faces: seq<FaceRow>, name: string): (r: Option<nat>)
    ensures r.None? <==> forall i :: 0 <= i < |faces| ==> faces[i].name != name
    ensures r.Some? ==> exists i :: 0 <= i < |faces| && faces[i].name == name && faces[i].cardId == r.value &&
                                    forall j :: 0 <= j < i ==> faces[j].name != name
    decreases |faces|
  {
    if |faces| == 0 then None
    else if faces[0].name == name then Some(faces[0].cardId)
    else
      var r := FaceCardId(faces[1..], name);
      assert forall j :: 0 < j < |faces| ==> faces[j] == faces[1..][j - 1];
      if r.Some? then
        var i :| 0 <= i < |faces[1..]| && faces[1..][i].name == name && faces[1..][i].cardId == r.value &&
                 forall j :: 0 <= j < i ==> faces[1..][j].name != name;
        assert faces[i + 1] == faces[1..][i];
        r
      else r
  }

  function BugRowOf(cardId: nat, b: FeedBug, parseTs: string -> int): BugRow {
    BugRow(cardId, b.description, b.category, parseTs(b.lastUpdated), b.url, b.bugBlog)
  }

  /** The loop of update_bugged_cards: a bug whose card no face is named after is skipped. */
  function BugRows(faces: seq<FaceRow>, bugs: seq<FeedBug>, parseTs: string -> int): seq<BugRow>
    decreases |bugs|
  {
    if |bugs| == 0 then []
    else
      var id := FaceCardId(faces, bugs[0].card);
      (if id.None? then [] else [BugRowOf(id.value, bugs[0], parseTs)]) + BugRows(faces, bugs[1..], parseTs)
  }

  /** The rows of the bugs from index i on: the row of bug i, if its card is known, then the rest. */
  lemma BugRowsAt(faces: seq<FaceRow>, bugs: seq<FeedBug>, i: nat, parseTs: string -> int)
    requires i < |bugs|
    ensures var id := FaceCardId(faces, bugs[i].card);
            BugRows(faces, bugs[i..], parseTs) ==
              (if id.None? then [] else [BugRowOf(id.value, bugs[i], parseTs)]) + BugRows(faces, bugs[i + 1..], parseTs)
  {
    assert bugs[i..][0] == bugs[i] && bugs[i..][1..] == bugs[i + 1..];
  }

  /** The bugs whose card names a face, in feed order. */
  function KnownBugs(faces: seq<FaceRow>, bugs: seq<FeedBug>): (r: seq<FeedBug>)
    ensures forall b :: b in r <==> b in bugs && FaceCardId(faces, b.card).Some?
    decreases |bugs|
  {
    if |bugs| == 0 then []
    else
      var rest := KnownBugs(faces, bugs[1..]);
      assert forall b :: b in bugs <==> b == bugs[0] || b in bugs[1..];
      (if FaceCardId(faces, bugs[0].card).None? then [] else [bugs[0]]) + rest
  }

  /** update_bugged_cards: no list means nothing is deleted; otherwise the bug table is replaced. */
  function UpdateBugsStep(s: State, bugs: Option<seq<FeedBug>>, parseTs: string -> int): State {
    if bugs.None? then s else s.(db := s.db.(bugs := BugRows(s.db.faces, bugs.value, parseTs)))
  }

  /** `row` is the bug row of `b`, attached to the card of the first face named after it. */
  predicate BugRowFor(faces: seq<FaceRow>, b: FeedBug, row: BugRow, parseTs: string -> int) {
    FaceCardId(faces, b.card) == Some(row.cardId) && row == BugRowOf(row.cardId, b, parseTs)
  }

  predicate BugRowsFor(faces: seq<FaceRow>, known: seq<FeedBug>, rows: seq<BugRow>, parseTs: string -> int) {
    |rows| == |known| && forall i :: 0 <= i < |rows| ==> BugRowFor(faces, known[i], rows[i], parseTs)
  }

  lemma BugRowsForCons(faces: seq<FaceRow>, b: FeedBug, row: BugRow, known: seq<FeedBug>, rows: seq<BugRow>, parseTs: string -> int)
    requires BugRowFor(faces, b, row, parseTs) && BugRowsFor(faces, known, rows, parseTs)
    ensures BugRowsFor(faces, [b] + known, [row] + rows, parseTs)
  {
    var rs := [row] + rows;
    var ks := [b] + known;
    forall i | 0 <= i < |rs|
      ensures BugRowFor(faces, ks[i], rs[i], parseTs)
    {
      if i > 0 {
        assert rs[i] == rows[i - 1] && ks[i] == known[i - 1];
      }
    }
  }

  /**
    The bug rows are the known bugs in feed order, each attached to the
    card of the first face named after it; unknown names are skipped.
   */
  lemma {:induction false} BugRowsSpec(faces: seq<FaceRow>, bugs: seq<FeedBug>, parseTs: string -> int)
    ensures BugRowsFor(faces, KnownBugs(faces, bugs), BugRows(faces, bugs, parseTs), parseTs)
    decreases |bugs|
  {
    if |bugs| > 0 {
      BugRowsSpec(faces, bugs[1..], parseTs);
      var rows1 := BugRows(faces, bugs[1..], parseTs);
      var known1 := KnownBugs(faces, bugs[1..]);
      var id := FaceCardId(faces, bugs[0].card);
      if id.Some? {
        assert BugRows(faces, bugs, parseTs) == [BugRowOf(id.value, bugs[0], parseTs)] + rows1;
        assert KnownBugs(faces, bugs) == [bugs[0]] + known1;
        BugRowsForCons(faces, bugs[0], BugRowOf(id.value, bugs[0], parseTs), known1, rows1, parseTs);
      } else {
        assert BugRows(faces, bugs, parseTs) == [] + rows1;
        assert KnownBugs(faces, bugs) == [] + known1;
      }
    }
  }

  /**
    update_bugged_cards: without a list nothing changes; with one, the bug
    table holds exactly one row per known bug and nothing else changes.
   */
  lemma UpdateBugsSpec(s: State, bugs: Option<seq<FeedBug>>, parseTs: string -> int)
    ensures var t := UpdateBugsStep(s, bugs, parseTs);
            && (bugs.None? ==> t == s)
            && (bugs.Some? ==> t == s.(db := s.db.(bugs := t.db.bugs)) &&
                                |t.db.bugs| == |KnownBugs(s.db.faces, bugs.value)| &&
                                forall i :: 0 <= i < |t.db.bugs| ==>
                                  exists j :: 0 <= j < |s.db.faces| && s.db.faces[j].name == KnownBugs(s.db.faces, bugs.value)[i].card &&
                                              s.db.faces[j].cardId == t.db.bugs[i].cardId)
  {
    if bugs.Some? {
      BugRowsSpec(s.db.faces, bugs.value, parseTs);
      var known := KnownBugs(s.db.faces, bugs.value);
      var rows := BugRows(s.db.faces, bugs.value, parseTs);
      forall i | 0 <= i < |rows|
        ensures exists j :: 0 <= j < |s.db.faces| && s.db.faces[j].name == known[i].card && s.db.faces[j].cardId == rows[i].cardId
      {
        assert BugRowFor(s.db.faces, known[i], rows[i], parseTs);
      }
    }
  }

  // ---------------------------------------------------------------------
  // set_legal_cards

  /** A fetch that either gives a value or raises FetchException. */
  datatype Fetch<T> = Fetched(value: T) | FetchFailed

  const PennyDreadful: string := "Penny Dreadful"

  /** The format of a season: "Penny Dreadful EMN". */
  function SeasonFormat(season: string): string {
    PennyDreadful + " " + season
  }

  /** The faces of one card, in table order. */
  function FacesOf(faces: seq<FaceRow>, cardId: nat): (r: seq<FaceRow>)
    ensures forall f :: f in r <==> f in faces && f.cardId == cardId
    decreases |faces|
  {
    if |faces| == 0 then []
    else
      assert forall f :: f in faces <==> f == faces[0] || f in faces[1..];
      (if faces[0].cardId == cardId then [faces[0]] else []) + FacesOf(faces[1..], cardId)
  }

  predicate SortedByPosition(fs: seq<FaceRow>) {
    forall i, j :: 0 <= i < j < |fs| ==> fs[i].position <= fs[j].position
  }

  function InsertByPosition(f: FaceRow, fs: seq<FaceRow>): (r: seq<FaceRow>)
    requires SortedByPosition(fs)
    ensures SortedByPosition(r)
    ensures multiset(r) == multiset(fs) + multiset{f}
    ensures |r| > 0 && (r[0] == f || (|fs| > 0 && r[0] == fs[0]))
    decreases |fs|
  {
    if |fs| == 0 then [f]
    else if f.position <= fs[0].position then
      SortedCons(f, fs);
      [f] + fs
    else
      SortedTail(fs);
      var rest := InsertByPosition(f, fs[1..]);
      InsertByPositionStep(f, fs, rest);
      [fs[0]] + rest
  }

  lemma SortedTail(fs: seq<FaceRow>)
    requires |fs| > 0 && SortedByPosition(fs)
    ensures SortedByPosition(fs[1..])
  {
  }

  /** Putting the head back in front of the tail's insertion keeps the order and the elements. */
  lemma InsertByPositionStep(f: FaceRow, fs: seq<FaceRow>, rest: seq<FaceRow>)
    requires |fs| > 0 && SortedByPosition(fs) && fs[0].position < f.position
    requires SortedByPosition(rest) && multiset(rest) == multiset(fs[1..]) + multiset{f}
    requires |rest| > 0 && (rest[0] == f || (|fs| > 1 && rest[0] == fs[1..][0]))
    ensures SortedByPosition([fs[0]] + rest)
    ensures multiset([fs[0]] + rest) == multiset(fs) + multiset{f}
  {
    assert fs == [fs[0]] + fs[1..];
    SortedCons(fs[0], rest);
    assert multiset([fs[0]] + rest) == multiset{fs[0]} + multiset(rest);
  }

  lemma SortedCons(x: FaceRow, r: seq<FaceRow>)
    requires SortedByPosition(r) && (|r| > 0 ==> x.position <= r[0].position)
    ensures SortedByPosition([x] + r)
  {
    var xr := [x] + r;
    forall i, j | 0 <= i < j < |xr|
      ensures xr[i].position <= xr[j].position
    {
      assert xr[j] == r[j - 1];
      if i > 0 {
        assert xr[i] == r[i - 1];
      } else if j > 1 {
        assert r[0].position <= r[j - 1].position;
      }
    }
  }

  /** The faces ordered by position, as the grouped read orders them. */
  function SortByPosition(fs: seq<FaceRow>): (r: seq<FaceRow>)
    ensures SortedByPosition(r)
    ensures multiset(r) == multiset(fs)
    decreases |fs|
  {
    if |fs| == 0 then []
    else
      assert fs == [fs[0]] + fs[1..];
      InsertByPosition(fs[0], SortByPosition(fs[1..]))
  }

  function View(f: FaceRow): MagicCard.FaceView {
    MagicCard.FaceView(f.name, f.nameAscii, f.manaCost, f.cmc, f.typeLine, f.text, f.position)
  }

  function Views(fs: seq<FaceRow>): (r: seq<MagicCard.FaceView>)
    ensures |r| == |fs| && forall i :: 0 <= i < |fs| ==> r[i] == View(fs[i])
  {
    seq(|fs|, i requires 0 <= i < |fs| => View(fs[i]))
  }

  /** The name the grouped read gives a card: name_select over its faces in position order. */
  function ProjectedName(faces: seq<FaceRow>, c: CardRow): Option<string> {
    MagicCard.NameSelect(c.layout, Views(SortByPosition(FacesOf(faces, c.id))), false)
  }

  predicate ListedCard(faces: seq<FaceRow>, c: CardRow, names: seq<string>) {
    var n := ProjectedName(faces, c);
    n.Some? && n.value in names
  }

  /** INSERT ... SELECT: one 'Legal' row per card whose projected name is listed, in card table order. */
  function LegalFacts(faces: seq<FaceRow>, cards: seq<CardRow>, fid: nat, names: seq<string>): (r: seq<Legality>)
    ensures forall k :: 0 <= k < |r| ==> r[k].formatId == fid && r[k].legality == "Legal"
  {
    LegalRows(cards, fid, c => ListedCard(faces, c, names))
  }

  /** One 'Legal' row of format `fid` per card satisfying `listed`, in order. */
  function LegalRows(cards: seq<CardRow>, fid: nat, listed: CardRow -> bool): (r: seq<Legality>)
    ensures forall k :: 0 <= k < |r| ==> r[k].formatId == fid && r[k].legality == "Legal"
    decreases |cards|
  {
    if |cards| == 0 then []
    else (if listed(cards[0]) then [Legality(cards[0].id, fid, "Legal")] else []) + LegalRows(cards[1..], fid, listed)
  }

  lemma {:induction false} LegalRowsIn(cards: seq<CardRow>, fid: nat, listed: CardRow -> bool)
    ensures forall l :: l in LegalRows(cards, fid, listed) <==>
              exists i :: 0 <= i < |cards| && listed(cards[i]) && l == Legality(cards[i].id, fid, "Legal")
    decreases |cards|
  {
    if |cards| > 0 {
      LegalRowsIn(cards[1..], fid, listed);
      assert forall i :: 0 < i < |cards| ==> cards[i] == cards[1..][i - 1];
      forall l | l in LegalRows(cards[1..], fid, listed)
        ensures exists i :: 0 <= i < |cards| && listed(cards[i]) && l == Legality(cards[i].id, fid, "Legal")
      {
        var j :| 0 <= j < |cards[1..]| && listed(cards[1..][j]) && l == Legality(cards[1..][j].id, fid, "Legal");
        assert cards[j + 1] == cards[1..][j];
      }
    }
  }

  /** The inserted rows are exactly the rows of the listed cards. */
  lemma LegalFactsIn(faces: seq<FaceRow>, cards: seq<CardRow>, fid: nat, names: seq<string>)
    ensures forall l :: l in LegalFacts(faces, cards, fid, names) <==>
              exists i :: 0 <= i < |cards| && ListedCard(faces, cards[i], names) && l == Legality(cards[i].id, fid, "Legal")
  {
    LegalRowsIn(cards, fid, c => ListedCard(faces, c, names));
  }

  /** DELETE FROM card_legality WHERE format_id = fid, keeping the order of the other rows. */
  function WithoutFormat(ls: seq<Legality>, fid: nat): seq<Legality>
    decreases |ls|
  {
    if |ls| == 0 then []
    else (if ls[0].formatId == fid then [] else [ls[0]]) + WithoutFormat(ls[1..], fid)
  }

  /** The rows that survive the DELETE are exactly those of other formats. */
  lemma {:induction false} WithoutFormatIn(ls: seq<Legality>, fid: nat)
    ensures forall l :: l in WithoutFormat(ls, fid) <==> l in ls && l.formatId != fid
    decreases |ls|
  {
    if |ls| > 0 {
      WithoutFormatIn(ls[1..], fid);
      assert forall l :: l in ls <==> l == ls[0] || l in ls[1..];
    }
  }

  lemma {:induction false} WithoutFormatAppend(a: seq<Legality>, b: seq<Legality>, fid: nat)
    ensures WithoutFormat(a + b, fid) == WithoutFormat(a, fid) + WithoutFormat(b, fid)
    decreases |a|
  {
    if |a| > 0 {
      WithoutFormatAppend(a[1..], b, fid);
      assert (a + b)[0] == a[0] && (a + b)[1..] == a[1..] + b;
      var head := if a[0].formatId == fid then [] else [a[0]];
      assert WithoutFormat(a + b, fid) == head + WithoutFormat(a[1..] + b, fid);
      assert WithoutFormat(a, fid) == head + WithoutFormat(a[1..], fid);
    } else {
      assert a + b == b;
    }
  }

  lemma {:induction false} WithoutFormatKeeps(ls: seq<Legality>, fid: nat)
    requires forall i :: 0 <= i < |ls| ==> ls[i].formatId != fid
    ensures WithoutFormat(ls, fid) == ls
    decreases |ls|
  {
    if |ls| > 0 {
      WithoutFormatKeeps(ls[1..], fid);
      assert ls == [ls[0]] + ls[1..];
    }
  }

  lemma {:induction false} WithoutFormatDrops(ls: seq<Legality>, fid: nat)
    requires forall i :: 0 <= i < |ls| ==> ls[i].formatId == fid
    ensures WithoutFormat(ls, fid) == []
    decreases |ls|
  {
    if |ls| > 0 {
      WithoutFormatDrops(ls[1..], fid);
    }
  }

  /** The format set_legal_cards writes: the current one, or the season's, created on demand. */
  function LegalFormat(s: State, season: Option<string>): (State, Option<nat>) {
    if season.None? then FindFormat(s, PennyDreadful) else GetFormatIdStep(s, SeasonFormat(season.value), true)
  }

  function FormatName(season: Option<string>): string {
    if season.None? then PennyDreadful else SeasonFormat(season.value)
  }

  /** A fetched list that makes set_legal_cards stop before deleting anything. */
  predicate Skipped(newList: Option<seq<string>>) {
    newList.None? || newList == Some([""])
  }

  /** The fetched list, or [''] when the fetch raised. */
  function NewList(fetched: Fetch<Option<seq<string>>>): Option<seq<string>> {
    if fetched.Fetched? then fetched.value else Some([""])
  }

  /**
    set_legal_cards: look the format up (creating a season's format), stop
    when the list is [''] or None, and otherwise replace the format's
    legality rows by one 'Legal' row per listed card. A format id of None
    reaches the SQL text as "None", which the database rejects.
   */
  function SetLegalCardsStep(s: State, fetched: Fetch<Option<seq<string>>>, season: Option<string>): (State, Result<Option<seq<string>>, Error>) {
    var newList := NewList(fetched);
    var (s1, fid) := LegalFormat(s, season);
    if Skipped(newList) then (s1, Success(None))
    else if fid.None? then (s1, Failure(UnknownFormat))
    else
      var db := s1.db;
      (s1.(db := db.(legalities := WithoutFormat(db.legalities, fid.value) + LegalFacts(db.faces, db.cards, fid.value, newList.value))),
       Success(newList))
  }

  lemma LegalFormatSpec(s: State, season: Option<string>)
    ensures var (t, fid) := LegalFormat(s, season);
            && t.cardIds == s.cardIds
            && t.db == s.db.(formats := t.db.formats, nextId := t.db.nextId)
            && (fid.Some? <==> FormatName(season) in t.formatIds)
            && (fid.Some? ==> fid.value == t.formatIds[FormatName(season)])
            && (season.Some? ==> fid.Some?)
            && (t.formatIds == map[] ==> s.formatIds == map[])
  {
  }

  /**
    set_legal_cards when the list is [''] or None, or the fetch failed:
    nothing is deleted, no legality row changes and None is returned.
   */
  lemma SetLegalCardsSkip(s: State, fetched: Fetch<Option<seq<string>>>, season: Option<string>)
    requires fetched.FetchFailed? || Skipped(fetched.value)
    ensures var (t, r) := SetLegalCardsStep(s, fetched, season);
            && r == Success(None)
            && t.db.legalities == s.db.legalities
            && t.db == s.db.(formats := t.db.formats, nextId := t.db.nextId)
  {
    LegalFormatSpec(s, season);
  }

  /**
    set_legal_cards with a list: the legality rows of every other format are
    kept, in order, and those of the format are exactly one 'Legal' row per
    card whose projected name is listed. Only the current format can be
    missing; a season's format is created.
   */
  lemma SetLegalCardsFacts(s: State, fetched: Fetch<Option<seq<string>>>, season: Option<string>)
    requires fetched.Fetched? && !Skipped(fetched.value)
    ensures var (t, r) := SetLegalCardsStep(s, fetched, season);
            var name := FormatName(season);
            && (r.Success? <==> name in t.formatIds)
            && (season.Some? ==> r.Success?)
            && (r.Success? ==>
                  var fid := t.formatIds[name];
                  && r.value == fetched.value
                  && t.db == s.db.(legalities := t.db.legalities, formats := t.db.formats, nextId := t.db.nextId)
                  && WithoutFormat(t.db.legalities, fid) == WithoutFormat(s.db.legalities, fid)
                  && forall l :: l in t.db.legalities && l.formatId == fid <==>
                       exists i :: 0 <= i < |s.db.cards| && ListedCard(s.db.faces, s.db.cards[i], fetched.value.value) &&
                                   l == Legality(s.db.cards[i].id, fid, "Legal"))
  {
    LegalFormatSpec(s, season);
    var (s1, fid) := LegalFormat(s, season);
    if fid.Some? {
      var db := s1.db;
      var facts := LegalFacts(db.faces, db.cards, fid.value, fetched.value.value);
      var kept := WithoutFormat(db.legalities, fid.value);
      ReplaceFormatTwice(db.legalities, facts, fid.value);
      WithoutFormatIn(db.legalities, fid.value);
      LegalFactsIn(db.faces, db.cards, fid.value, fetched.value.value);
      assert db.cards == s.db.cards;
      forall i | 0 <= i < |s.db.cards|
        ensures ListedCard(s.db.faces, s.db.cards[i], fetched.value.value) == ListedCard(db.faces, db.cards[i], fetched.value.value)
      {
        assert db.faces == s.db.faces;
      }
    }
  }

  /** Replacing a format's rows by rows of that format a second time gives the same table. */
  lemma ReplaceFormatTwice(ls: seq<Legality>, facts: seq<Legality>, fid: nat)
    requires forall i :: 0 <= i < |facts| ==> facts[i].formatId == fid
    ensures WithoutFormat(WithoutFormat(ls, fid) + facts, fid) == WithoutFormat(ls, fid)
  {
    var kept := WithoutFormat(ls, fid);
    WithoutFormatAppend(kept, facts, fid);
    WithoutFormatIn(ls, fid);
    WithoutFormatKeepsIn(kept, fid);
    WithoutFormatDrops(facts, fid);
    assert kept + [] == kept;
  }

  lemma WithoutFormatKeepsIn(ls: seq<Legality>, fid: nat)
    requires forall l :: l in ls ==> l.formatId != fid
    ensures WithoutFormat(ls, fid) == ls
  {
    forall i | 0 <= i < |ls| ensures ls[i].formatId != fid {
      assert ls[i] in ls;
    }
    WithoutFormatKeeps(ls, fid);
  }

  /** Running set_legal_cards again with the same list changes nothing and gives the same result. */
  lemma SetLegalCardsIdempotent(s: State, fetched: Fetch<Option<seq<string>>>, season: Option<string>)
    ensures var (t, r) := SetLegalCardsStep(s, fetched, season);
            SetLegalCardsStep(t, fetched, season) == (t, r)
  {
    LegalFormatSpec(s, season);
    var (s1, fid) := LegalFormat(s, season);
    var (t, r) := SetLegalCardsStep(s, fetched, season);
    assert LegalFormat(t, season) == (t, fid);
    var newList := NewList(fetched);
    if !Skipped(newList) && fid.Some? {
      var db := s1.db;
      var facts := LegalFacts(db.faces, db.cards, fid.value, newList.value);
      ReplaceFormatTwice(db.legalities, facts, fid.value);
      assert t.db.cards == db.cards && t.db.faces == db.faces;
    }
  }

  // ---------------------------------------------------------------------
  // update_pd_legality

  /** The leading elements of `ss` up to, and without, the first `current`. */
  function TakeUntil(ss: seq<string>, current: string): (r: seq<string>)
    ensures |r| <= |ss| && r == ss[..|r|]
    ensures current !in r
    ensures |r| < |ss| ==> ss[|r|] == current
    ensures current in ss ==> |r| < |ss|
    decreases |ss|
  {
    if |ss| == 0 || ss[0] == current then []
    else
      var rest := TakeUntil(ss[1..], current);
      assert ss[1..][..|rest|] == ss[1..|rest| + 1];
      [ss[0]] + rest
  }

  /** The seasons update_pd_legality recomputes: those before the current one, all of them when it is not listed. */
  function SeasonsBefore(current: string): (r: seq<string>)
    ensures current in Seasons ==> |r| < |Seasons| && r == Seasons[..|r|] && Seasons[|r|] == current
    ensures current !in Seasons ==> r == Seasons
    ensures current !in r
  {
    var r := TakeUntil(Seasons, current);
    assert current in Seasons ==> |r| < |Seasons|;
    r
  }

  function PdLegality(s: State, seasons: seq<string>, fetch: string -> Fetch<Option<seq<string>>>): State
    decreases |seasons|
  {
    if |seasons| == 0 then s
    else PdLegality(SetLegalCardsStep(s, fetch(seasons[0]), Some(seasons[0])).0, seasons[1..], fetch)
  }

  /** update_pd_legality: set_legal_cards for each season before the current one, in order. */
  function UpdatePdLegalityStep(s: State, current: string, fetch: string -> Fetch<Option<seq<string>>>): State {
    PdLegality(s, SeasonsBefore(current), fetch)
  }

  /**
    After update_pd_legality every season before the current one has its
    format, cached formats keep their ids, and only legality and format
    data changed.
   */
  lemma {:induction false} PdLegalitySpec(s: State, seasons: seq<string>, fetch: string -> Fetch<Option<seq<string>>>)
    ensures var t := PdLegality(s, seasons, fetch);
            && t.cardIds == s.cardIds
            && t.db == s.db.(legalities := t.db.legalities, formats := t.db.formats, nextId := t.db.nextId)
            && (forall k :: k in s.formatIds ==> k in t.formatIds && t.formatIds[k] == s.formatIds[k])
            && (forall i :: 0 <= i < |seasons| ==> SeasonFormat(seasons[i]) in t.formatIds)
    decreases |seasons|
  {
    if |seasons| > 0 {
      var (u, r) := SetLegalCardsStep(s, fetch(seasons[0]), Some(seasons[0]));
      LegalFormatSpec(s, Some(seasons[0]));
      PdLegalitySpec(u, seasons[1..], fetch);
      assert forall i :: 1 <= i < |seasons| ==> seasons[i] == seasons[1..][i - 1];
    }
  }

  // ---------------------------------------------------------------------
  // update_database

  /** The DELETE statements at the start: every catalogue table except formats and rarities is emptied. */
  function Wipe(db: Tables): Tables {
    db.(cards := [], faces := [], colors := {}, colorIdentity := {}, supertypes := [], subtypes := [],
        legalities := [], sets := [], printings := [], bugs := [], versions := [])
  }

  /** The layout column of the card table, as SELECT DISTINCT layout reads it, before duplicates go. */
  function CardLayouts(db: Tables): (r: seq<string>)
    ensures forall l :: l in r <==> exists i :: 0 <= i < |db.cards| && db.cards[i].layout == l
  {
    var r := seq(|db.cards|, i requires 0 <= i < |db.cards| => db.cards[i].layout);
    assert forall i :: 0 <= i < |db.cards| ==> r[i] == db.cards[i].layout;
    r
  }

  /** check_layouts on the card table: whether it warns. */
  function CheckLayouts(db: Tables): bool {
    LayoutsChanged(CardLayouts(db))
  }

  /** check_layouts is silent exactly when every stored layout is expected and every expected layout is stored. */
  lemma CheckLayoutsIff(db: Tables)
    ensures !CheckLayouts(db) <==>
              && (forall i :: 0 <= i < |db.cards| ==> db.cards[i].layout in Layouts())
              && (forall l :: l in Layouts() ==> exists i :: 0 <= i < |db.cards| && db.cards[i].layout == l)
  {
    LayoutsChangedIff(CardLayouts(db));
  }

  /** What update_database reads from outside: the feeds, the parsers and the current season. */
  datatype Inputs = Inputs(
    newVersion: string,
    cards: seq<(string, FeedCard)>,
    sets: seq<FeedSet>,
    bugs: Option<seq<FeedBug>>,
    currentSeason: string,
    parseDate: string -> int,
    parseTs: string -> int,
    legalCards: string -> Fetch<Option<seq<string>>>)

  /** The steps of update_database between the set inserts and update_pd_legality. */
  function BeforeLegality(s: State, inputs: Inputs): State {
    var s1 := s.(db := s.db.(printings := ResolveRarities(s.db.printings, s.db.rarities)));
    var s2 := EnsureFormat(s1, PennyDreadful).0;
    UpdateBugsStep(s2, inputs.bugs, inputs.parseTs)
  }

  /** The steps of update_database after the card and set inserts. */
  function FinishUpdate(s: State, inputs: Inputs): State {
    var s4 := UpdatePdLegalityStep(BeforeLegality(s, inputs), inputs.currentSeason, inputs.legalCards);
    s4.(db := s4.db.(versions := [inputs.newVersion]))
  }

  /**
    update_database: wipe the tables, add the hard-coded card to the feed,
    insert the cards in the two passes and the sets, then resolve rarity
    ids, make sure the current format exists, reload the bugs, recompute
    the seasons' legality and record the version.
   */
  function UpdateDatabaseStep(s: State, inputs: Inputs): (State, Option<Error>) {
    var s0 := s.(db := Wipe(s.db));
    var (s1, e1) := Passes(s0, Values(AddHardcodedCards(inputs.cards)));
    if e1.Some? then (s1, e1)
    else
      var (s2, e2) := InsertSets(s1, inputs.sets, inputs.parseDate);
      if e2.Some? then (s2, e2) else (FinishUpdate(s2, inputs), None)
  }

  /**
    A successful update records exactly the new version, keeps the card
    cache it built, and leaves the current format and every earlier
    season's format in the format cache.
   */
  lemma UpdateDatabaseSpec(s: State, inputs: Inputs)
    ensures var (t, e) := UpdateDatabaseStep(s, inputs);
            e.None? ==>
              && t.db.versions == [inputs.newVersion]
              && PennyDreadful in t.formatIds
              && forall i :: 0 <= i < |SeasonsBefore(inputs.currentSeason)| ==>
                   SeasonFormat(SeasonsBefore(inputs.currentSeason)[i]) in t.formatIds
  {
    var s0 := s.(db := Wipe(s.db));
    var (s1, e1) := Passes(s0, Values(AddHardcodedCards(inputs.cards)));
    if e1.None? {
      var (s2, e2) := InsertSets(s1, inputs.sets, inputs.parseDate);
      if e2.None? {
        var r1 := s2.(db := s2.db.(printings := ResolveRarities(s2.db.printings, s2.db.rarities)));
        var r2 := EnsureFormat(r1, PennyDreadful).0;
        var r3 := UpdateBugsStep(r2, inputs.bugs, inputs.parseTs);
        assert PennyDreadful in r3.formatIds;
        PdLegalitySpec(r3, SeasonsBefore(inputs.currentSeason), inputs.legalCards);
      }
    }
  }

  /**
    With a well-keyed feed, the cards of update_database are inserted in
    InsertionOrder: a failed insertion ends the update there, and otherwise
    the sets and the closing steps follow from the state it reached.
   */
  lemma UpdateDatabaseOrder(s: State, inputs: Inputs)
    requires AllKeyed(Values(AddHardcodedCards(inputs.cards)))
    ensures var cs := Values(AddHardcodedCards(inputs.cards));
            var (t, e) := InsertAll(s.(db := Wipe(s.db)), InsertionOrder(cs));
            && (e.Some? ==> UpdateDatabaseStep(s, inputs) == (t, e))
            && (e.None? ==>
                  UpdateDatabaseStep(s, inputs) ==
                    (var (s2, e2) := InsertSets(t, inputs.sets, inputs.parseDate);
                     if e2.Some? then (s2, e2) else (FinishUpdate(s2, inputs), None)))
  {
    PassesFollowOrder(s.(db := Wipe(s.db)), Values(AddHardcodedCards(inputs.cards)));
  }

  // ---------------------------------------------------------------------
  // The format cache across update_database

  /** A step that leaves the format table and its cache alone and does not lower the next id keeps them consistent. */
  lemma FormatsConsistentKept(s: State, t: State)
    requires FormatsConsistent(s)
    requires t.formatIds == s.formatIds && t.db.formats == s.db.formats && s.db.nextId <= t.db.nextId
    ensures FormatsConsistent(t)
  {
  }

  /** Looking a format up, or creating it, keeps the cache consistent with the table. */
  lemma EnsureFormatConsistent(s: State, name: string)
    requires FormatsConsistent(s)
    ensures FormatsConsistent(EnsureFormat(s, name).0)
    ensures EnsureFormat(s, name).0.formatIds == FormatMap(EnsureFormat(s, name).0.db.formats)
    ensures s.db.nextId <= EnsureFormat(s, name).0.db.nextId
  {
    GetFormatIdSpec(s, name, true);
  }

  lemma {:induction false} AddLegalitiesConsistent(s: State, cardId: nat, infos: seq<FormatLegality>)
    requires FormatsConsistent(s)
    ensures FormatsConsistent(AddLegalities(s, cardId, infos))
    decreases |infos|
  {
    if |infos| > 0 {
      var r := EnsureFormat(s, infos[0].format);
      EnsureFormatConsistent(s, infos[0].format);
      var t := r.0.(db := r.0.db.(legalities := r.0.db.legalities + [Legality(cardId, r.1, infos[0].legality)]));
      FormatsConsistentKept(r.0, t);
      AddLegalitiesConsistent(t, cardId, infos[1..]);
    }
  }

  /** insert_card keeps the format cache consistent with the format table, whether it succeeds or fails. */
  lemma InsertCardConsistent(s: State, c: FeedCard)
    requires FormatsConsistent(s)
    ensures FormatsConsistent(InsertCardStep(s, c).0)
  {
    var key := KeyOf(c);
    if key.Some? {
      var (s1, cardId) := CardIdStep(s, key.value, c.layout);
      FormatsConsistentKept(s, s1);
      var text := BackfilledText(c);
      var pos := Position(c);
      if text.Some? && pos.Some? && c.typeLine.Some? {
        var d := Derived(text.value, MagicCard.Unaccent(c.name), StripReminder(text.value), cardId, pos.value);
        var db := s1.db;
        var db2 := db.(
          faces := db.faces + [FaceOf(c, db.nextId, c.typeLine.value, d)],
          nextId := db.nextId + 1,
          colors := db.colors + TagSet(cardId, c.colors),
          colorIdentity := db.colorIdentity + TagSet(cardId, c.colorIdentity),
          supertypes := db.supertypes + Tag(cardId, c.supertypes),
          subtypes := db.subtypes + Tag(cardId, c.subtypes));
        assert InsertCardStep(s, c).0 == AddLegalities(s1.(db := db2), cardId, c.legalities);
        FormatsConsistentKept(s1, s1.(db := db2));
        AddLegalitiesConsistent(s1.(db := db2), cardId, c.legalities);
      }
    }
  }

  lemma {:induction false} FirstPassConsistent(s: State, cs: seq<FeedCard>)
    requires FormatsConsistent(s)
    ensures FormatsConsistent(FirstPass(s, cs).0)
    decreases |cs|
  {
    if |cs| > 0 {
      var c := cs[0];
      if c.layout == "meld" && (c.names.None? || |c.names.value| < 3) {
      } else if IsMeldedBack(c) {
        FirstPassConsistent(s, cs[1..]);
      } else {
        InsertCardConsistent(s, c);
        FirstPassConsistent(InsertCardStep(s, c).0, cs[1..]);
      }
    }
  }

  lemma {:induction false} SecondPassConsistent(s: State, ms: seq<FeedCard>)
    requires FormatsConsistent(s)
    ensures FormatsConsistent(SecondPass(s, ms).0)
    decreases |ms|
  {
    if |ms| > 0 {
      var t := InsertCardStep(s, ms[0]).0;
      InsertCardConsistent(s, ms[0]);
      InsertCardConsistent(t, SwapFirstTwo(ms[0]));
      SecondPassConsistent(InsertCardStep(t, SwapFirstTwo(ms[0])).0, ms[1..]);
    }
  }

  lemma PassesConsistent(s: State, cs: seq<FeedCard>)
    requires FormatsConsistent(s)
    ensures FormatsConsistent(Passes(s, cs).0)
  {
    FirstPassConsistent(s, cs);
    SecondPassConsistent(FirstPass(s, cs).0, FirstPass(s, cs).1);
  }

  lemma {:induction false} AddPrintingsConsistent(s: State, setId: nat, ps: seq<FeedPrinting>)
    requires FormatsConsistent(s)
    ensures FormatsConsistent(AddPrintings(s, setId, ps).0)
    decreases |ps|
  {
    if |ps| > 0 {
      var p := ps[0];
      var key := CardName(p.name, p.names, p.layout);
      if key.Some? && key.value in s.cardIds && p.systemId.Some? && p.rarity.Some? && p.artist.Some? {
        var row := PrintingRow(s.db.nextId, s.cardIds[key.value], setId, p.systemId.value, p.rarity.value, p.artist.value, p.extras, None);
        var t := s.(db := s.db.(printings := s.db.printings + [row], nextId := s.db.nextId + 1));
        FormatsConsistentKept(s, t);
        AddPrintingsConsistent(t, setId, ps[1..]);
      }
    }
  }

  lemma {:induction false} InsertSetsConsistent(s: State, sets: seq<FeedSet>, parseDate: string -> int)
    requires FormatsConsistent(s)
    ensures FormatsConsistent(InsertSets(s, sets, parseDate).0)
    decreases |sets|
  {
    if |sets| > 0 {
      var fs := sets[0];
      var row := SetRowOf(fs, s.db.nextId, parseDate);
      if row.Some? && !ClashesWithAny(s.db.sets, row.value) {
        var t := s.(db := s.db.(sets := s.db.sets + [row.value], nextId := s.db.nextId + 1));
        FormatsConsistentKept(s, t);
        AddPrintingsConsistent(t, row.value.id, fs.cards);
      }
      InsertSetsConsistent(InsertSetStep(s, fs, parseDate).0, sets[1..], parseDate);
    }
  }

  /** set_legal_cards keeps the format cache consistent with the format table. */
  lemma SetLegalCardsConsistent(s: State, fetched: Fetch<Option<seq<string>>>, season: Option<string>)
    requires FormatsConsistent(s)
    ensures FormatsConsistent(SetLegalCardsStep(s, fetched, season).0)
  {
    GetFormatIdSpec(s, FormatName(season), season.Some?);
  }

  lemma {:induction false} PdLegalityConsistent(s: State, seasons: seq<string>, fetch: string -> Fetch<Option<seq<string>>>)
    requires FormatsConsistent(s)
    ensures FormatsConsistent(PdLegality(s, seasons, fetch))
    decreases |seasons|
  {
    if |seasons| > 0 {
      SetLegalCardsConsistent(s, fetch(seasons[0]), Some(seasons[0]));
      PdLegalityConsistent(SetLegalCardsStep(s, fetch(seasons[0]), Some(seasons[0])).0, seasons[1..], fetch);
    }
  }

  /** The steps after the inserts keep the cache consistent, and leave it mirroring the table. */
  lemma FinishUpdateConsistent(s: State, inputs: Inputs)
    requires FormatsConsistent(s)
    ensures FormatsConsistent(FinishUpdate(s, inputs))
    ensures FinishUpdate(s, inputs).formatIds == FormatMap(FinishUpdate(s, inputs).db.formats)
  {
    var r1 := s.(db := s.db.(printings := ResolveRarities(s.db.printings, s.db.rarities)));
    FormatsConsistentKept(s, r1);
    EnsureFormatConsistent(r1, PennyDreadful);
    var r2 := EnsureFormat(r1, PennyDreadful).0;
    var r3 := UpdateBugsStep(r2, inputs.bugs, inputs.parseTs);
    FormatsConsistentKept(r2, r3);
    assert PennyDreadful in r3.formatIds;
    PdLegalityConsistent(r3, SeasonsBefore(inputs.currentSeason), inputs.legalCards);
    PdLegalitySpec(r3, SeasonsBefore(inputs.currentSeason), inputs.legalCards);
    var s4 := PdLegality(r3, SeasonsBefore(inputs.currentSeason), inputs.legalCards);
    assert PennyDreadful in s4.formatIds;
    FormatsConsistentKept(s4, s4.(db := s4.db.(versions := [inputs.newVersion])));
  }

  /**
    update_database keeps the format cache consistent with the format table,
    whether it succeeds or stops part-way, so get_format_id goes on
    answering from it; after a success the cache mirrors the table exactly.
   */
  lemma UpdateDatabaseConsistent(s: State, inputs: Inputs)
    requires FormatsConsistent(s)
    ensures FormatsConsistent(UpdateDatabaseStep(s, inputs).0)
    ensures UpdateDatabaseStep(s, inputs).1.None? ==>
              UpdateDatabaseStep(s, inputs).0.formatIds == FormatMap(UpdateDatabaseStep(s, inputs).0.db.formats)
  {
    var s0 := s.(db := Wipe(s.db));
    FormatsConsistentKept(s, s0);
    var cs := Values(AddHardcodedCards(inputs.cards));
    PassesConsistent(s0, cs);
    var (s1, e1) := Passes(s0, cs);
    if e1.None? {
      InsertSetsConsistent(s1, inputs.sets, inputs.parseDate);
      var (s2, e2) := InsertSets(s1, inputs.sets, inputs.parseDate);
      if e2.None? {
        FinishUpdateConsistent(s2, inputs);
      }
    }
  }

  // ---------------------------------------------------------------------
  // set_legal_cards as written: base_query reads a key no descriptor has

  /**
    set_legal_cards as written. base_query() builds its select list from the
    'query' entry of every column descriptor, and no descriptor has one, so
    formatting the INSERT raises KeyError right after the DELETE has removed
    the format's legality rows. A missing format id deletes nothing, since
    format_id = NULL matches no row.
   */
  function SetLegalCardsAsWritten(s: State, fetched: Fetch<Option<seq<string>>>, season: Option<string>): (State, Result<Option<seq<string>>, Error>) {
    var newList := NewList(fetched);
    var (s1, fid) := LegalFormat(s, season);
    if Skipped(newList) then (s1, Success(None))
    else if fid.None? then (s1, Failure(MissingQueryKey))
    else (s1.(db := s1.db.(legalities := WithoutFormat(s1.db.legalities, fid.value))), Failure(MissingQueryKey))
  }

  /**
    As written, every list that is not skipped ends in KeyError, and the
    format is left with no legality row at all, where the corrected step
    succeeds for every season.
   */
  lemma SetLegalCardsAsWrittenFails(s: State, fetched: Fetch<Option<seq<string>>>, season: Option<string>)
    requires fetched.Fetched? && !Skipped(fetched.value)
    ensures var (t, r) := SetLegalCardsAsWritten(s, fetched, season);
            var name := FormatName(season);
            && r == Failure(MissingQueryKey)
            && t.db == s.db.(legalities := t.db.legalities, formats := t.db.formats, nextId := t.db.nextId)
            && (name in t.formatIds ==> forall l :: l in t.db.legalities ==> l.formatId != t.formatIds[name])
            && (season.Some? ==> SetLegalCardsStep(s, fetched, season).1 == Success(fetched.value))
  {
    LegalFormatSpec(s, season);
    var (s1, fid) := LegalFormat(s, season);
    WithoutFormatIn(s1.db.legalities, fid.GetOr(0));
  }

  /** update_pd_legality as written: the season loop stops at the first exception. */
  function PdLegalityAsWritten(s: State, seasons: seq<string>, fetch: string -> Fetch<Option<seq<string>>>): (State, Option<Error>)
    decreases |seasons|
  {
    if |seasons| == 0 then (s, None)
    else
      var (u, r) := SetLegalCardsAsWritten(s, fetch(seasons[0]), Some(seasons[0]));
      if r.Failure? then (u, Some(r.error)) else PdLegalityAsWritten(u, seasons[1..], fetch)
  }

  /**
    As written, update_pd_legality fails exactly when some walked season's
    list is fetched and not skipped, and then with KeyError; when it does
    not fail it ends where the corrected walk ends.
   */
  lemma {:induction false} PdLegalityAsWrittenSpec(s: State, seasons: seq<string>, fetch: string -> Fetch<Option<seq<string>>>)
    ensures var (t, e) := PdLegalityAsWritten(s, seasons, fetch);
            && (e.None? <==> forall i :: 0 <= i < |seasons| ==> Skipped(NewList(fetch(seasons[i]))))
            && (e.Some? ==> e == Some(MissingQueryKey))
            && (e.None? ==> t == PdLegality(s, seasons, fetch))
    decreases |seasons|
  {
    if |seasons| > 0 {
      var (u, r) := SetLegalCardsAsWritten(s, fetch(seasons[0]), Some(seasons[0]));
      PdLegalityAsWrittenSpec(u, seasons[1..], fetch);
      assert forall i :: 1 <= i < |seasons| ==> seasons[i] == seasons[1..][i - 1];
      if r.Success? {
        assert u == SetLegalCardsStep(s, fetch(seasons[0]), Some(seasons[0])).0;
      }
    }
  }

  /** update_database as written: the version is recorded only when update_pd_legality does not raise. */
  function UpdateDatabaseAsWritten(s: State, inputs: Inputs): (State, Option<Error>) {
    var s0 := s.(db := Wipe(s.db));
    var (s1, e1) := Passes(s0, Values(AddHardcodedCards(inputs.cards)));
    if e1.Some? then (s1, e1)
    else
      var (s2, e2) := InsertSets(s1, inputs.sets, inputs.parseDate);
      if e2.Some? then (s2, e2)
      else RecordAfterLegality(BeforeLegality(s2, inputs), SeasonsBefore(inputs.currentSeason), inputs.legalCards, inputs.newVersion)
  }

  /** The end of update_database as written: update_pd_legality, then the version unless it raised. */
  function RecordAfterLegality(s: State, seasons: seq<string>, fetch: string -> Fetch<Option<seq<string>>>, version: string): (State, Option<Error>) {
    var (t, e) := PdLegalityAsWritten(s, seasons, fetch);
    if e.Some? then (t, e) else (t.(db := t.db.(versions := [version])), None)
  }

  lemma RecordAfterLegalitySpec(s: State, seasons: seq<string>, fetch: string -> Fetch<Option<seq<string>>>, version: string)
    ensures var (t, e) := RecordAfterLegality(s, seasons, fetch, version);
            && (e.None? <==> forall i :: 0 <= i < |seasons| ==> Skipped(NewList(fetch(seasons[i]))))
            && (e.Some? ==> e == Some(MissingQueryKey))
            && (e.None? ==> t.db.versions == [version] &&
                            t == PdLegality(s, seasons, fetch).(db := PdLegality(s, seasons, fetch).db.(versions := [version])))
  {
    PdLegalityAsWrittenSpec(s, seasons, fetch);
    var (t, e) := PdLegalityAsWritten(s, seasons, fetch);
    assert RecordAfterLegality(s, seasons, fetch, version).1.None? <==> e.None?;
  }

  /**
    As written, update_database never records the new version once a past
    season's legal list is fetched and not skipped: it fails, with KeyError
    when the inserts before it succeeded. Otherwise it is the corrected
    update.
   */
  lemma UpdateDatabaseAsWrittenFails(s: State, inputs: Inputs)
    ensures var (t, e) := UpdateDatabaseAsWritten(s, inputs);
            && ((exists i :: 0 <= i < |SeasonsBefore(inputs.currentSeason)| &&
                   !Skipped(NewList(inputs.legalCards(SeasonsBefore(inputs.currentSeason)[i])))) ==> e.Some?)
            && (e.Some? && UpdateDatabaseStep(s, inputs).1.None? ==> e == Some(MissingQueryKey))
            && (e.None? ==> (t, e) == UpdateDatabaseStep(s, inputs))
  {
    var s0 := s.(db := Wipe(s.db));
    var (s1, e1) := Passes(s0, Values(AddHardcodedCards(inputs.cards)));
    if e1.None? {
      var (s2, e2) := InsertSets(s1, inputs.sets, inputs.parseDate);
      if e2.None? {
        RecordAfterLegalitySpec(BeforeLegality(s2, inputs), SeasonsBefore(inputs.currentSeason), inputs.legalCards, inputs.newVersion);
      }
    }
  }
}
