/**
  The loader of magic/multiverse.py as the module it is: CARD_IDS and
  FORMAT_IDS are fields, and so are the catalogue tables; each operation
  changes them in place, entry by entry. Every method is proved to end in
  the state, and with the result, that the matching function of module
  Multiverse gives, so the properties proved there hold of these methods.
 */
module Catalog {
  import opened Wrappers
  import opened MultiverseRules
  import opened Multiverse
  import MagicCard

  class Loader {
    var cardIds: map<string, nat>
    var formatIds: map<string, nat>
    var db: Tables

    function Snapshot(): State
      reads this
    {
      State(cardIds, formatIds, db)
    }

    /** A fresh process: both caches empty, the tables as found. */
    constructor (tables: Tables)
      ensures Snapshot() == State(map[], map[], tables)
    {
      cardIds := map[];
      formatIds := map[];
      db := tables;
    }

    /** get_format_id: fill the cache from the format table when it is empty, create the format on demand. */
    method GetFormatId(name: string, allowCreate: bool) returns (id: Option<nat>)
      modifies this
      ensures (Snapshot(), id) == GetFormatIdStep(old(Snapshot()), name, allowCreate)
    {
      if formatIds == map[] {
        var i := 0;
        while i < |db.formats|
          invariant 0 <= i <= |db.formats|
          invariant formatIds == FormatMap(db.formats[..i])
          invariant db == old(db) && cardIds == old(cardIds)
        {
          assert db.formats[..i + 1][..i] == db.formats[..i];
          formatIds := formatIds[db.formats[i].name := db.formats[i].id];
          i := i + 1;
        }
        assert db.formats[..|db.formats|] == db.formats;
      }
      if name !in formatIds && allowCreate {
        var newId := db.nextId;
        db := db.(formats := db.formats + [FormatRow(newId, name)], nextId := newId + 1);
        formatIds := formatIds[name := newId];
      }
      if name !in formatIds {
        return None;
      }
      return Some(formatIds[name]);
    }

    /** The loop over the entry's legalities, each format looked up or created in turn. */
    method AddLegalityRows(cardId: nat, infos: seq<FormatLegality>)
      modifies this
      ensures Snapshot() == AddLegalities(old(Snapshot()), cardId, infos)
    {
      var i := 0;
      while i < |infos|
        invariant 0 <= i <= |infos|
        invariant AddLegalities(Snapshot(), cardId, infos[i..]) == AddLegalities(old(Snapshot()), cardId, infos)
      {
        ghost var before := Snapshot();
        assert infos[i..][0] == infos[i] && infos[i..][1..] == infos[i + 1..];
        var formatId := GetFormatId(infos[i].format, true);
        db := db.(legalities := db.legalities + [Legality(cardId, formatId.value, infos[i].legality)]);
        assert AddLegalities(before, cardId, infos[i..]) == AddLegalities(Snapshot(), cardId, infos[i + 1..]);
        i := i + 1;
      }
    }

    /** INSERT IGNORE of (card, value) rows for each value in turn. */
    static method TagAll(rows: set<(nat, string)>, cardId: nat, xs: seq<string>) returns (r: set<(nat, string)>)
      ensures r == rows + TagSet(cardId, xs)
    {
      r := rows;
      var i := 0;
      while i < |xs|
        invariant 0 <= i <= |xs|
        invariant r == rows + TagSet(cardId, xs[..i])
      {
        assert TagSet(cardId, xs[..i + 1]) == TagSet(cardId, xs[..i]) + {(cardId, xs[i])} by {
          assert forall x :: x in xs[..i + 1] <==> x in xs[..i] || x == xs[i];
        }
        r := r + {(cardId, xs[i])};
        i := i + 1;
      }
      assert xs[..|xs|] == xs;
    }

    /** INSERT of one (card, value) row per value, in order. */
    static method AppendAll(rows: seq<(nat, string)>, cardId: nat, xs: seq<string>) returns (r: seq<(nat, string)>)
      ensures r == rows + Tag(cardId, xs)
    {
      r := rows;
      var i := 0;
      while i < |xs|
        invariant 0 <= i <= |xs|
        invariant r == rows + Tag(cardId, xs[..i])
      {
        assert Tag(cardId, xs[..i + 1]) == Tag(cardId, xs[..i]) + [(cardId, xs[i])];
        r := r + [(cardId, xs[i])];
        i := i + 1;
      }
      assert xs[..|xs|] == xs;
    }

    /**
      insert_card: the card id from the cache or a new card row, the
      derived face fields, the face row, then colours, colour identity,
      supertypes, subtypes and legalities.
     */
    method InsertCard(c: FeedCard) returns (r: Result<Derived, Error>)
      modifies this
      ensures (Snapshot(), r) == InsertCardStep(old(Snapshot()), c)
    {
      var key := KeyOf(c);
      if key.None? {
        return Failure(MalformedMeld);
      }
      var cardId: nat;
      if key.value in cardIds {
        cardId := cardIds[key.value];
      } else {
        cardId := db.nextId;
        db := db.(cards := db.cards + [CardRow(cardId, c.layout)], nextId := cardId + 1);
        cardIds := cardIds[key.value := cardId];
      }
      assert (Snapshot(), cardId) == CardIdStep(old(Snapshot()), key.value, c.layout);
      var text := BackfilledText(c);
      if text.None? {
        return Failure(MissingText);
      }
      var position := Position(c);
      if position.None? {
        return Failure(NameNotInNames);
      }
      if c.typeLine.None? {
        return Failure(FaceRejected);
      }
      var d := Derived(text.value, MagicCard.Unaccent(c.name), StripReminder(text.value), cardId, position.value);
      db := db.(faces := db.faces + [FaceOf(c, db.nextId, c.typeLine.value, d)], nextId := db.nextId + 1);
      var colors := TagAll(db.colors, cardId, c.colors);
      var identity := TagAll(db.colorIdentity, cardId, c.colorIdentity);
      var supertypes := AppendAll(db.supertypes, cardId, c.supertypes);
      var subtypes := AppendAll(db.subtypes, cardId, c.subtypes);
      db := db.(colors := colors, colorIdentity := identity, supertypes := supertypes, subtypes := subtypes);
      AddLegalityRows(cardId, c.legalities);
      return Success(d);
    }

    /** insert_set: the set row, then one printing per card of the set, each looked up in the card cache. */
    method InsertSet(fs: FeedSet, parseDate: string -> int) returns (e: Option<Error>)
      modifies this
      ensures (Snapshot(), e) == InsertSetStep(old(Snapshot()), fs, parseDate)
    {
      var row := SetRowOf(fs, db.nextId, parseDate);
      if row.None? || ClashesWithAny(db.sets, row.value) {
        return Some(SetRejected);
      }
      var setId := row.value.id;
      db := db.(sets := db.sets + [row.value], nextId := db.nextId + 1);
      ghost var start := Snapshot();
      var i := 0;
      while i < |fs.cards|
        invariant 0 <= i <= |fs.cards|
        invariant AddPrintings(Snapshot(), setId, fs.cards[i..]) == AddPrintings(start, setId, fs.cards)
      {
        var p := fs.cards[i];
        assert fs.cards[i..][0] == p && fs.cards[i..][1..] == fs.cards[i + 1..];
        var key := CardName(p.name, p.names, p.layout);
        if key.None? {
          return Some(MalformedMeld);
        }
        if key.value !in cardIds {
          return Some(UnknownPrintingCard);
        }
        if p.systemId.None? || p.rarity.None? || p.artist.None? {
          return Some(PrintingRejected);
        }
        var printing := PrintingRow(db.nextId, cardIds[key.value], setId, p.systemId.value, p.rarity.value, p.artist.value, p.extras, None);
        db := db.(printings := db.printings + [printing], nextId := db.nextId + 1);
        i := i + 1;
      }
      return None;
    }

    /** UPDATE printing SET rarity_id = ? WHERE rarity = ?, once per rarity row. */
    method ResolveRarityIds()
      modifies this
      ensures Snapshot() == old(Snapshot()).(db := old(db).(printings := ResolveRarities(old(db).printings, old(db).rarities)))
    {
      var rarities := db.rarities;
      var i := 0;
      while i < |rarities|
        invariant 0 <= i <= |rarities|
        invariant cardIds == old(cardIds) && formatIds == old(formatIds)
        invariant db == old(db).(printings := db.printings)
        invariant ResolveRarities(db.printings, rarities[i..]) == ResolveRarities(old(db).printings, rarities)
      {
        assert rarities[i..][0] == rarities[i] && rarities[i..][1..] == rarities[i + 1..];
        db := db.(printings := ApplyRarity(db.printings, rarities[i]));
        i := i + 1;
      }
    }

    /** update_bugged_cards: nothing without a list; otherwise delete every bug and insert the known ones. */
    method UpdateBuggedCards(bugs: Option<seq<FeedBug>>, parseTs: string -> int)
      modifies this
      ensures Snapshot() == UpdateBugsStep(old(Snapshot()), bugs, parseTs)
    {
      if bugs.None? {
        return;
      }
      var list := bugs.value;
      var faces := db.faces;
      db := db.(bugs := []);
      assert list[0..] == list;
      var i := 0;
      while i < |list|
        invariant 0 <= i <= |list|
        invariant cardIds == old(cardIds) && formatIds == old(formatIds)
        invariant db == old(db).(bugs := db.bugs)
        invariant db.bugs + BugRows(faces, list[i..], parseTs) == BugRows(faces, list, parseTs)
      {
        var bug := list[i];
        BugRowsAt(faces, list, i, parseTs);
        var cardId := FaceCardId(faces, bug.card);
        ghost var rest := BugRows(faces, list[i + 1..], parseTs);
        if cardId.Some? {
          var row := BugRowOf(cardId.value, bug, parseTs);
          assert (db.bugs + [row]) + rest == db.bugs + ([row] + rest);
          db := db.(bugs := db.bugs + [row]);
        } else {
          assert [] + rest == rest;
        }
        i := i + 1;
      }
      assert db.bugs + [] == db.bugs;
    }

    /**
      set_legal_cards: the list (or [''] when the fetch failed), the format,
      then nothing when the list is [''] or None, otherwise the format's
      legality rows replaced by the listed cards'.
     */
    method SetLegalCards(fetched: Fetch<Option<seq<string>>>, season: Option<string>) returns (r: Result<Option<seq<string>>, Error>)
      modifies this
      ensures (Snapshot(), r) == SetLegalCardsStep(old(Snapshot()), fetched, season)
    {
      var newList := if fetched.Fetched? then fetched.value else Some([""]);
      var formatId;
      if season.None? {
        formatId := GetFormatId(PennyDreadful, false);
      } else {
        formatId := GetFormatId(SeasonFormat(season.value), true);
      }
      if newList == Some([""]) || newList.None? {
        return Success(None);
      }
      if formatId.None? {
        return Failure(UnknownFormat);
      }
      db := db.(legalities := WithoutFormat(db.legalities, formatId.value));
      db := db.(legalities := db.legalities + LegalFacts(db.faces, db.cards, formatId.value, newList.value));
      return Success(newList);
    }

    /** update_pd_legality: set_legal_cards for each season in order, stopping at the current one. */
    method UpdatePdLegality(current: string, fetch: string -> Fetch<Option<seq<string>>>)
      modifies this
      ensures Snapshot() == UpdatePdLegalityStep(old(Snapshot()), current, fetch)
    {
      ghost var before := SeasonsBefore(current);
      var i := 0;
      while i < |Seasons|
        invariant 0 <= i <= |before|
        invariant i < |before| ==> Seasons[i] == before[i]
        invariant PdLegality(Snapshot(), before[i..], fetch) == PdLegality(old(Snapshot()), before, fetch)
      {
        if Seasons[i] == current {
          break;
        }
        assert i < |before|;
        assert before[i..][0] == Seasons[i] && before[i..][1..] == before[i + 1..];
        var _ := SetLegalCards(fetch(Seasons[i]), Some(Seasons[i]));
        i := i + 1;
      }
    }

    /** The first loop of update_database: melded-back entries are put aside, the others inserted. */
    method InsertFeedCards(cards: seq<FeedCard>) returns (melded: seq<FeedCard>, e: Option<Error>)
      modifies this
      ensures (Snapshot(), melded, e) == FirstPass(old(Snapshot()), cards)
    {
      melded := [];
      assert cards[0..] == cards;
      assert FirstPassAfter(Snapshot(), cards, melded) == FirstPass(Snapshot(), cards) by {
        var (_, ms, _) := FirstPass(Snapshot(), cards);
        assert melded + ms == ms;
      }
      var i := 0;
      while i < |cards|
        invariant 0 <= i <= |cards|
        invariant FirstPassAfter(Snapshot(), cards[i..], melded) == FirstPass(old(Snapshot()), cards)
      {
        var c := cards[i];
        if c.layout == "meld" && (c.names.None? || |c.names.value| < 3) {
          assert cards[i..][0] == c;
          return [], Some(MalformedMeld);
        }
        if IsMeldedBack(c) {
          FirstPassPutAside(Snapshot(), cards, i, melded);
          melded := melded + [c];
        } else {
          FirstPassInserted(Snapshot(), cards, i, melded);
          var r := InsertCard(c);
          if r.Failure? {
            return [], Some(r.error);
          }
        }
        i := i + 1;
      }
      assert melded + [] == melded;
      return melded, None;
    }

    /** The second loop of update_database: each melded-back entry inserted, its first two names swapped, inserted again. */
    method InsertMeldedTwice(melded: seq<FeedCard>) returns (e: Option<Error>)
      modifies this
      ensures (Snapshot(), e) == SecondPass(old(Snapshot()), melded)
    {
      var j := 0;
      while j < |melded|
        invariant 0 <= j <= |melded|
        invariant SecondPass(Snapshot(), melded[j..]) == SecondPass(old(Snapshot()), melded)
      {
        var face := melded[j];
        assert melded[j..][0] == face && melded[j..][1..] == melded[j + 1..];
        var r := InsertCard(face);
        if r.Failure? {
          return Some(r.error);
        }
        face := SwapFirstTwo(face);
        r := InsertCard(face);
        if r.Failure? {
          return Some(r.error);
        }
        j := j + 1;
      }
      return None;
    }

    method InsertAllSets(sets: seq<FeedSet>, parseDate: string -> int) returns (e: Option<Error>)
      modifies this
      ensures (Snapshot(), e) == InsertSets(old(Snapshot()), sets, parseDate)
    {
      var k := 0;
      while k < |sets|
        invariant 0 <= k <= |sets|
        invariant InsertSets(Snapshot(), sets[k..], parseDate) == InsertSets(old(Snapshot()), sets, parseDate)
      {
        assert sets[k..][0] == sets[k] && sets[k..][1..] == sets[k + 1..];
        var err := InsertSet(sets[k], parseDate);
        if err.Some? {
          return err;
        }
        k := k + 1;
      }
      return None;
    }

    /**
      update_database: wipe the tables, insert the feed's entries in the two
      passes, insert the sets, resolve rarity ids, make sure the current
      format exists, reload the bugs, recompute the seasons' legality and
      record the version.
     */
    method UpdateDatabase(inputs: Inputs) returns (e: Option<Error>)
      modifies this
      ensures (Snapshot(), e) == UpdateDatabaseStep(old(Snapshot()), inputs)
    {
      db := Wipe(db);
      var melded;
      melded, e := InsertFeedCards(Values(AddHardcodedCards(inputs.cards)));
      if e.Some? {
        return;
      }
      e := InsertMeldedTwice(melded);
      if e.Some? {
        return;
      }
      e := InsertAllSets(inputs.sets, inputs.parseDate);
      if e.Some? {
        return;
      }
      ResolveRarityIds();
      var _ := GetFormatId(PennyDreadful, true);
      UpdateBuggedCards(inputs.bugs, inputs.parseTs);
      UpdatePdLegality(inputs.currentSeason, inputs.legalCards);
      db := db.(versions := [inputs.newVersion]);
    }
  }
}
