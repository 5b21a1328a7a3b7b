# Penny Dreadful card catalogue — a Dafny model

This project models the card-catalogue core of the Penny Dreadful Discord bot. Three parts are covered:

- **The loader** (magic/multiverse.py). It turns the MTGJSON card feed into catalogue tables.
  - `card_name` gives the key under which feed entries share a card row.
  - `insert_card` finds or creates the card, derives the face fields (position, backfilled text, reminder-free search text, ASCII name) and adds the face, colours, types and legalities.
  - `update_database` defers the melded-back halves of meld cards and inserts each of them twice.
  - `insert_set` adds a set and its printings. The rarity ids are then resolved.
  - `get_format_id` is a lazily filled, create-on-demand format cache.
  - `set_legal_cards` replaces the legal cards of one format.
  - `update_pd_legality` walks the past seasons.
  - `update_bugged_cards` reloads the bug table.
- **The card module** (magic/card.py).
  - The column descriptors of the four tables.
  - The rules that rebuild one card from its faces: name, mana cost, cmc and text.
  - `unaccent` and `canonicalize`.
  - The `Card` record and its type predicates.
- **The bot's pure command helpers** (discordbot/command.py).
  - Bracketed card queries.
  - Loose string matching.
  - One card per canonical name.
  - Command lookup.
  - Resource search.
  - The help length cap.
  - The command/argument split.

Files and modules:

- `wrappers.dfy` (`Wrappers`): Option and Result.
- `text.dfy` (`Text`): the Python string operations the source relies on. These are `lower`, `strip`, `lstrip`, `split`, `join`, `find`, `in` and `startswith`.
- `schema.dfy` (`CardSchema`): the column descriptors. Each table is a dictionary from column name to descriptor.
- `card.dfy` (`MagicCard`): the face-aggregation rules, `unaccent`, `canonicalize` and the `Card` record.
- `multiverse_rules.dfy` (`MultiverseRules`): the pure rules of the loader.
  - Feed entries, the card key, face position, text backfill and reminder stripping.
  - Column-to-feed-key naming.
  - The meld insertion order.
  - The hard-coded Gleemox entry and the layout check.
- `multiverse.dfy` (`Multiverse`): the loader as functions from a `State` to the next state and a result.
  - A `State` holds `CARD_IDS`, `FORMAT_IDS` and the tables.
  - The properties of these functions are proved as lemmas.
- `catalog.dfy` (`Catalog`): the class `Loader`.
  - It has the two caches and the tables as fields, and its methods update them step by step with loops, as the source does.
  - Each method is proved to end in exactly the state the matching `Multiverse` function describes.
- `command.dfy` (`DiscordCommand`): the helpers of discordbot/command.py.
  - `uniqify_cards`, `cards_from_queries` and `resources_resources` are methods with loops.
  - Each is proved equal to a specification function, and the lemmas are about that function.

Where the source's own comments and its specification differ, the model follows the code:

- `set_legal_cards` skips only a list that is `None` or `['']`.
  - An empty list `[]` is not skipped. It deletes the format's legal cards and inserts none.
- The second insert of a melded-back entry is keyed by `card_name` after the swap of `names[0]` and `names[1]`.
  - So it lands under the card of the original `names[1]`, not under the card of the first insert.
  - Both faces get position 3.
- The `BOOLEAN` and `DATE` storage types are both `INTEGER`.
- `searchText` is derived but no face column stores it. The model returns it from `insert_card` and does not put it in the face row.
- `canonicalize` is not idempotent. See Findings.

## Model

| member | source | states |
|---|---|---|
| CardSchema.CardProperties | magic/card.py:27-36 | the card table's primary key is `id` alone: INTEGER, NOT NULL, not from the feed |
| CardSchema.CardSchema | magic/card.py:27-36 | only `layout` comes from the feed; both columns are NOT NULL |
| CardSchema.FaceProperties | magic/card.py:38-65 | the face table has exactly one primary key, `id` (INTEGER, NOT NULL, not from the feed); its foreign key references an id |
| CardSchema.FaceSchema | magic/card.py:38-65 | `id`, `position`, `name_ascii`, `card_id` are exactly the columns not from the feed; `id`, `name`, `type`, `text` exactly the NOT NULL ones; `id`, `hand`, `life`, `starter`, `card_id` exactly the INTEGER ones; `card_id` alone is a foreign key, to card.id |
| CardSchema.SetProperties | magic/card.py:67-83 | the set table has exactly one primary key, `id`, INTEGER and NOT NULL |
| CardSchema.SetSchema | magic/card.py:67-83 | `name`, `code`, `gatherer_code`, `old_code`, `magiccardsinfo_code` are exactly the unique columns; the NOT NULL and INTEGER columns (release date and online-only flag included) are exactly those the source sets |
| CardSchema.PrintingProperties | magic/card.py:85-101 | the printing table has exactly one primary key, `id`, INTEGER and NOT NULL |
| CardSchema.PrintingSchema | magic/card.py:85-101 | `card_id`, `set_id`, `rarity_id` are loader-filled INTEGER foreign keys to card, set and rarity; the NOT NULL and INTEGER columns are exactly those the source sets |
| MagicCard.NonNull | magic/card.py:56-63 | GROUP_CONCAT's input without NULLs: empty exactly when every value is NULL |
| MagicCard.GroupConcat | magic/card.py:56-63 | GROUP_CONCAT is NULL exactly when every value is NULL |
| MagicCard.CaseValues | magic/card.py:41 | the CASE expression gives a face's value when its position is in range and '' otherwise, face by face |
| MagicCard.FirstFaceOptions | magic/card.py:60 | the position-1 CASE over a nullable column, face by face |
| MagicCard.FirstFaceSelect | magic/card.py:41 | the default face select always has a value when the card has a face |
| MagicCard.ConcatCaseValues | magic/card.py:41 | concatenating the CASE values is concatenating the in-range values in face order |
| MagicCard.ValuesAtNone | magic/card.py:107-109 | with no face in range the CASE contributes nothing |
| MagicCard.NameSelect | magic/card.py:103-113 | a card's projected name is NULL exactly when it has no face |
| MagicCard.NameSelectRules | magic/card.py:52-53 | double-faced: position-1 names concatenated; meld: position-1 and -2 names concatenated; any other layout: all names joined by " // " in position order |
| MagicCard.DoubleFacedName | magic/card.py:106-107 | a double-faced card is named by its one front face |
| MagicCard.ManaCostRules | magic/card.py:54-61 | split whose text contains the Fuse reminder in any letter case (LIKE): all costs concatenated; split without it: NULL; any other layout: the front face's cost |
| MagicCard.TextRule | magic/card.py:63 | the projected text is every face's text joined by "\n-----\n" |
| MagicCard.EmptyStrings | magic/card.py:60 | faces whose CASE gives '' add nothing to the concatenation |
| MagicCard.ProjectRow | magic/card.py:38-65 | the grouped row keeps the card's id and layout |
| MagicCard.NewCard | magic/card.py:122-131 | `names` and `cmc`, when present, become "\|"-free pieces that join back to the stored text (so the pieces are determined); `names` defaults to `[name]`; id, layout, name, mana cost, type and text are copied unchanged |
| MagicCard.ProjectedCardRoundTrip | magic/card.py:122-131 | reading a projected row back gives the face names and the non-NULL cmc values in face order |
| MagicCard.IsSpell | magic/card.py:133-140 | a spell is exactly a card whose type line contains neither "Creature" nor "Land" |
| MagicCard.Decompose | magic/card.py:116 | NFD of one character is one or two characters |
| MagicCard.DecomposeShape | magic/card.py:116 | NFD gives the character itself, or a stable base letter and one combining mark; no upper case is introduced |
| MagicCard.DropMarks | magic/card.py:116 | no combining mark (Mn) is left |
| MagicCard.DropMarksAppend | magic/card.py:116 | dropping marks works piecewise |
| MagicCard.Unaccent | magic/card.py:115-116 | no combining mark is left |
| MagicCard.UnaccentCons | magic/card.py:116 | unaccent works character by character |
| MagicCard.UnaccentStable | magic/card.py:115-116 | unaccent leaves only stable characters and adds no upper case |
| MagicCard.UnaccentOfStable | magic/card.py:115-116 | unaccent is the identity on stable text |
| MagicCard.UnaccentIdempotent | magic/card.py:115-116 | unaccent twice is unaccent once |
| MagicCard.Canonicalize | magic/card.py:118-119 | the canonical form has no upper case and no combining mark |
| MagicCard.AllStableSlice | magic/card.py:118-119 | a slice of lower-case stable text is lower-case and stable |
| MagicCard.CanonicalizeTwice | magic/card.py:118-119 | canonicalize applied again only strips edge whitespace |
| MagicCard.StripMarkSpace | magic/card.py:119 | strip leaves "́ a" alone (a combining mark is not whitespace) |
| MagicCard.UnaccentMarkSpace | magic/card.py:116 | unaccent turns "́ a" into " a" |
| MagicCard.CanonicalizeSpaceA | magic/card.py:118-119 | " a" canonicalizes to "a" |
| MagicCard.CanonicalizeNotIdempotent | magic/card.py:118-119 | canonicalize("́ a") is " a" but canonicalize of that is "a" |
| MagicCard.CanonicalName | magic/card.py:118-119 | the corrected canonical name: lower-case, free of marks and of edge whitespace |
| MagicCard.StripStable | magic/card.py:118-119 | stripping keeps a name lower-case and mark-free and leaves no edge whitespace |
| MagicCard.CanonicalNameIdempotent | magic/card.py:118-119 | the corrected canonical name is idempotent |
| MagicCard.CanonicalNameAgrees | magic/card.py:118-119 | it equals canonicalize whenever canonicalize leaves no edge whitespace |
| MultiverseRules.Layouts | magic/multiverse.py:24-25 | twelve distinct layouts |
| MultiverseRules.LayoutsChangedIff | magic/multiverse.py:130-133 | check_layouts warns exactly when the stored layouts are not the expected set |
| Multiverse.CardLayouts | magic/multiverse.py:131 | the layouts read are exactly those of the card table's rows |
| Multiverse.CheckLayoutsIff | magic/multiverse.py:130-133 | check_layouts on the card table is silent exactly when every stored layout is expected and every expected layout is stored |
| MultiverseRules.CardName | magic/multiverse.py:312-317 | a key is missing exactly for a meld entry without three names |
| MultiverseRules.CardNameNonMeld | magic/multiverse.py:317 | a non-meld entry without names is keyed by its name, and one with names by all of them joined with " // " (written out for one and two names) |
| MultiverseRules.MeldedBackKeys | magic/multiverse.py:313-316 | a melded-back entry is keyed `names[0]`, after the swap `names[1]`, and sits at position 3 both times |
| MultiverseRules.IndexOf | magic/multiverse.py:201 | `list.index`: the first index holding the value, -1 when it is absent |
| MultiverseRules.Position | magic/multiverse.py:201 | position 1 without names; otherwise 1 + the index of the name, failing when the name is absent |
| MultiverseRules.BackfilledText | magic/multiverse.py:196-197 | a missing text becomes '' exactly for the normal, token, double-faced, split and aftermath layouts |
| MultiverseRules.StripReminder | magic/multiverse.py:199 | stripping reminder text never lengthens the text |
| MultiverseRules.StripReminderPlain | magic/multiverse.py:199 | text without "(" is unchanged |
| MultiverseRules.StripReminderSpan | magic/multiverse.py:199 | a non-empty "(...)" span is removed and the rest is stripped in turn |
| MultiverseRules.FindFirstClose | magic/multiverse.py:199 | the span ends at the first ")" |
| MultiverseRules.CamelRoundTrip | magic/multiverse.py:291-292 | the underscore substitution is undone by the reverse translation |
| MultiverseRules.Underscore2CamelRoundTrip | magic/multiverse.py:291-292 | underscore2camel loses nothing on snake-case column names |
| MultiverseRules.Database2JsonSpec | magic/multiverse.py:286-289 | `system_id` is read from the feed's `id`; every other column's feed key gives the column back |
| MultiverseRules.SwapFirstTwo | magic/multiverse.py:113-115 | only `names` changes, and its first two entries are exchanged |
| MultiverseRules.Others | magic/multiverse.py:106-110 | the first-pass entries are keyed, not melded back, and come from the feed |
| MultiverseRules.Melded | magic/multiverse.py:106-108 | the deferred entries are keyed, melded back, and come from the feed |
| MultiverseRules.Twice | magic/multiverse.py:111-116 | each melded-back entry yields two inserts |
| MultiverseRules.TwiceAt | magic/multiverse.py:111-116 | the k-th melded-back entry is inserted as given, then swapped |
| MultiverseRules.SplitCounts | magic/multiverse.py:106-110 | every feed entry goes to exactly one of the two passes |
| MultiverseRules.MeldedLast | magic/multiverse.py:105-116 | every melded-back insert comes after every other insert |
| MultiverseRules.AddHardcodedCards | magic/multiverse.py:319-333 | Gleemox is in the feed afterwards; every other entry is kept and nothing else is added |
| MultiverseRules.AddHardcodedCardsPlace | magic/multiverse.py:319-320 | as a dictionary assignment: Gleemox is appended when the feed has no Gleemox key, otherwise it replaces the first entry with that key in place and the order is unchanged |
| MultiverseRules.Values | magic/multiverse.py:106 | the feed entries in dictionary order |
| Multiverse.FormatMapAppend | magic/multiverse.py:302-304 | loading one more format row overrides that name |
| Multiverse.GetFormatIdSpec | magic/multiverse.py:300-310 | a known name gives its id and changes no table; an unknown one gives None without `allow_create`, otherwise one new format row with the next id; the cache mirrors the format table afterwards |
| Multiverse.EnsureFormatFrame | magic/multiverse.py:300-310 | looking up or creating a format changes only the format table, the id counter and the format cache |
| Multiverse.GetFormatIdStable | magic/multiverse.py:305-310 | once created, every later lookup of the name returns the same id and changes nothing |
| Multiverse.EnsureFormatConsistent | magic/multiverse.py:300-310 | get_format_id with creation keeps the format cache consistent, leaves it mirroring the table, and never lowers the next id |
| Multiverse.InsertCardConsistent | magic/multiverse.py:181-227 | insert_card, failing or not, keeps the format cache consistent with the format table |
| Multiverse.PassesConsistent | magic/multiverse.py:105-116 | the two card loops of update_database keep the format cache consistent |
| Multiverse.InsertSetsConsistent | magic/multiverse.py:117-119 | inserting the sets keeps the format cache consistent |
| Multiverse.SetLegalCardsConsistent | magic/multiverse.py:250-270 | set_legal_cards keeps the format cache consistent |
| Multiverse.PdLegalityConsistent | magic/multiverse.py:175-179 | update_pd_legality keeps the format cache consistent |
| Multiverse.FinishUpdateConsistent | magic/multiverse.py:121-127 | the steps after the inserts keep the cache consistent and leave it mirroring the format table |
| Multiverse.UpdateDatabaseConsistent | magic/multiverse.py:86-128 | update_database, completed or stopped part-way, keeps the format cache consistent, so GetFormatIdSpec applies to every later lookup; a completed one leaves the cache mirroring the table |
| Multiverse.Tag | magic/multiverse.py:221-224 | one (card id, value) row per value, in order |
| Multiverse.AddLegalitiesFrame | magic/multiverse.py:225-227 | one legality row per entry, in order, for this card; only legalities, formats and the id counter change |
| Multiverse.InsertCardOutcome | magic/multiverse.py:181-212 | insert_card succeeds exactly when the entry is keyed, has (backfilled) text, its name is among its names and it has a type; a malformed meld changes nothing |
| Multiverse.InsertCardKeepsCards | magic/multiverse.py:182-194 | after the card id is found or created, the rest of insert_card leaves the card cache and card table alone, and the derived card id is that id |
| Multiverse.InsertCardCaches | magic/multiverse.py:182-194 | a new card row only for a new key; afterwards the key is cached and earlier keys keep their ids; the face's card id is the cached one |
| Multiverse.SameKeySameCard | magic/multiverse.py:182-194 | two entries with the same key are attached to the same card |
| Multiverse.InsertCardFace | magic/multiverse.py:195-212 | the face gets the backfilled text, the position, the unaccented name and the next id; the search text is the text without reminder spans |
| Multiverse.FirstPass | magic/multiverse.py:105-110 | a failed first pass defers nothing |
| Multiverse.InsertAllAppend | magic/multiverse.py:106-116 | inserting a + b is inserting a, then b unless a failed |
| Multiverse.FirstPassSpec | magic/multiverse.py:105-110 | the first loop inserts exactly the non-melded-back entries in feed order and defers the others in feed order |
| Multiverse.SecondPassSpec | magic/multiverse.py:111-116 | the second loop inserts each deferred entry, then its swapped copy |
| Multiverse.PassesFollowOrder | magic/multiverse.py:105-116 | both loops together insert in InsertionOrder |
| Multiverse.FirstPassMalformed | magic/multiverse.py:107 | a meld entry with no names or fewer than three at the head of the feed ends the first pass at once, with the state unchanged and nothing put aside |
| Multiverse.AddPrintingsSpec | magic/multiverse.py:240-248 | the printings are stored exactly when every card key is cached and the required values are present; each row points to the cached card and this set; only printings and the id counter change |
| Multiverse.AddPrintingsFrame | magic/multiverse.py:240-248 | storing printings only appends printing rows and advances the id counter |
| Multiverse.AddPrintingsRows | magic/multiverse.py:240-248 | the printings are stored exactly when each can be, and then the new rows follow the feed one for one |
| Multiverse.InsertSetSpec | magic/multiverse.py:229-248 | a set missing a required value or clashing with a stored unique value is refused and nothing changes; otherwise the set row is appended and its printings follow |
| Multiverse.SameNameRejected | magic/multiverse.py:238 | a set whose name is already stored is refused |
| Multiverse.LastRarityId | magic/multiverse.py:121-123 | the id of the last rarity row with the name, None exactly when there is none |
| Multiverse.ResolveRaritiesSpec | magic/multiverse.py:121-123 | each printing gets the id of the last rarity row named as its rarity, or keeps its old rarity id |
| Multiverse.FaceCardId | magic/multiverse.py:167 | the card of the first face with that name, None exactly when no face has it |
| Multiverse.KnownBugs | magic/multiverse.py:167-170 | a bug is kept exactly when some face is named after its card |
| Multiverse.BugRowsForCons | magic/multiverse.py:165-171 | bug rows extend one bug at a time |
| Multiverse.BugRowsSpec | magic/multiverse.py:165-171 | one row per known bug, in order, attached to the card of the first face with its name |
| Multiverse.UpdateBugsSpec | magic/multiverse.py:158-173 | no bug list: nothing changes; otherwise only the bug table changes and every row references a card found by face name |
| Multiverse.FacesOf | magic/multiverse.py:46 | a card's faces are exactly the faces with its id |
| Multiverse.InsertByPosition | magic/multiverse.py:62 | inserting keeps the faces sorted by position and is a permutation |
| Multiverse.SortByPosition | magic/multiverse.py:62 | the faces sorted by position, a permutation of the input (no order is stated among equal positions) |
| Multiverse.Views | magic/multiverse.py:40 | the faces as the projection reads them |
| Multiverse.LegalFacts | magic/multiverse.py:265-270 | every inserted row is a 'Legal' row of the format |
| Multiverse.LegalRows | magic/multiverse.py:265-270 | one 'Legal' row of the format per selected card |
| Multiverse.LegalRowsIn | magic/multiverse.py:265-270 | the rows are exactly those of the selected cards |
| Multiverse.LegalFactsIn | magic/multiverse.py:265-270 | the inserted rows are exactly one per card whose projected name is listed |
| Multiverse.WithoutFormatIn | magic/multiverse.py:264 | the DELETE keeps exactly the rows of other formats |
| Multiverse.WithoutFormatAppend | magic/multiverse.py:264 | the DELETE works piecewise |
| Multiverse.WithoutFormatKeeps | magic/multiverse.py:264 | rows of other formats all survive |
| Multiverse.WithoutFormatDrops | magic/multiverse.py:264 | rows of the format all go |
| Multiverse.WithoutFormatKeepsIn | magic/multiverse.py:264 | without rows of the format, the DELETE changes nothing |
| Multiverse.ReplaceFormatTwice | magic/multiverse.py:264-270 | replacing a format's rows twice leaves the other rows as after once |
| Multiverse.LegalFormatSpec | magic/multiverse.py:256-259 | the current format is looked up, a season's format is created on demand; only the format table changes |
| Multiverse.SetLegalCardsSkip | magic/multiverse.py:250-262 | a failed fetch, None or [''] returns None and deletes nothing |
| Multiverse.SetLegalCardsFacts | magic/multiverse.py:250-278 | with base_query corrected (see Findings): otherwise the list is returned; the other formats' rows are kept and the format's rows are exactly 'Legal' rows of the cards whose projected name is listed; a season never fails |
| Multiverse.SetLegalCardsAsWrittenFails | magic/multiverse.py:264-269 | as written, a list that is fetched and not skipped ends in KeyError after the DELETE, leaving the format with no legality row, where the corrected step succeeds for a season |
| Multiverse.SetLegalCardsIdempotent | magic/multiverse.py:250-278 | running set_legal_cards again with the same list changes nothing |
| Multiverse.TakeUntil | magic/multiverse.py:176-178 | the seasons before the first occurrence of the current one |
| Multiverse.SeasonsBefore | magic/multiverse.py:175-179 | the seasons strictly before the current one, all of them when it is not listed |
| Multiverse.PdLegalitySpec | magic/multiverse.py:175-179 | with base_query corrected: every walked season has a format afterwards; earlier format ids are kept; only legalities and formats change |
| Multiverse.PdLegalityAsWrittenSpec | magic/multiverse.py:175-179 | as written, the walk fails exactly when some season's list is fetched and not skipped, and then with KeyError; otherwise it ends where the corrected walk ends |
| Multiverse.UpdateDatabaseSpec | magic/multiverse.py:86-128 | with base_query corrected, a completed update leaves exactly the new version, the Penny Dreadful format and a format for every past season |
| Multiverse.RecordAfterLegalitySpec | magic/multiverse.py:126-127 | as written, the version is recorded exactly when no past season's list is fetched and not skipped |
| Multiverse.UpdateDatabaseAsWrittenFails | magic/multiverse.py:86-128 | as written, update_database fails whenever a past season's list is fetched and not skipped (with KeyError once the inserts succeeded); when it succeeds it is the corrected update |
| Multiverse.UpdateDatabaseOrder | magic/multiverse.py:86-128 | after the wipe the feed (with Gleemox) is inserted in InsertionOrder: a failure there is the update's failure, and otherwise the update is the set inserts and the closing steps run from the state that insertion reached |
| Catalog.Loader.constructor | magic/multiverse.py:11-12 | both caches start empty over the given tables |
| Catalog.Loader.GetFormatId | magic/multiverse.py:300-310 | the cache loop and the create-on-demand insert end in GetFormatIdStep's state and id |
| Catalog.Loader.AddLegalityRows | magic/multiverse.py:225-227 | the legality loop ends in AddLegalities' state |
| Catalog.Loader.TagAll | magic/multiverse.py:213-220 | the colour loop adds one (card, colour) row per colour, duplicates ignored |
| Catalog.Loader.AppendAll | magic/multiverse.py:221-224 | the type loop appends one row per value, in order |
| Catalog.Loader.InsertCard | magic/multiverse.py:181-227 | insert_card ends in InsertCardStep's state and result |
| Catalog.Loader.InsertSet | magic/multiverse.py:229-248 | insert_set ends in InsertSetStep's state and result |
| Catalog.Loader.ResolveRarityIds | magic/multiverse.py:121-123 | the rarity loop leaves the printings as ResolveRarities gives them and nothing else changed |
| Catalog.Loader.UpdateBuggedCards | magic/multiverse.py:158-173 | update_bugged_cards ends in UpdateBugsStep's state |
| Catalog.Loader.SetLegalCards | magic/multiverse.py:250-278 | set_legal_cards ends in SetLegalCardsStep's state and result |
| Catalog.Loader.UpdatePdLegality | magic/multiverse.py:175-179 | the season loop with its break ends in UpdatePdLegalityStep's state |
| Catalog.Loader.InsertFeedCards | magic/multiverse.py:105-110 | the first loop ends in FirstPass's state, deferred entries and result |
| Catalog.Loader.InsertMeldedTwice | magic/multiverse.py:111-116 | the second loop ends in SecondPass's state and result |
| Catalog.Loader.InsertAllSets | magic/multiverse.py:117-119 | the set loop ends in InsertSets' state and result |
| Catalog.Loader.UpdateDatabase | magic/multiverse.py:86-128 | update_database ends in UpdateDatabaseStep's state and result |
| DiscordCommand.IndexFrom | discordbot/command.py:546 | the first index at or after the start holding the character |
| DiscordCommand.FindQueries | discordbot/command.py:546 | no query found contains "]" |
| DiscordCommand.LowerAll | discordbot/command.py:547 | each query lower-cased, in order |
| DiscordCommand.ParseQueries | discordbot/command.py:545-547 | every query is lower-case and free of "]" |
| DiscordCommand.NoBracketNoQuery | discordbot/command.py:546 | a message without "[" has no query |
| DiscordCommand.DoubleBracket | discordbot/command.py:546 | "[[q]]" is read as q, and scanning goes on after it |
| DiscordCommand.SingleBracket | discordbot/command.py:546 | "[q]" is read as q, and scanning goes on after it |
| DiscordCommand.RenderParse | discordbot/command.py:545-547 | queries written as "[[q]]" one after another are parsed back in order, lower-cased |
| DiscordCommand.KeepAlnumSpec | discordbot/command.py:568 | only letters and digits remain, and text made of them is unchanged |
| DiscordCommand.KeepAlnumAppend | discordbot/command.py:568 | the substitution works piecewise |
| DiscordCommand.KeepAlnumRemoveSpaces | discordbot/command.py:567-568 | removing whitespace first changes nothing |
| DiscordCommand.LowerAlnum | discordbot/command.py:568 | lower-casing keeps letters and digits |
| DiscordCommand.SimplifyStringSpec | discordbot/command.py:566-568 | simplify_string is the lower-cased word characters of the input other than `_` (letters, digits, and in Latin-1 also ¹ ² ³ ¼ ½ ¾): no whitespace, underscore, punctuation or upper case remains |
| DiscordCommand.SimplifyStringIdempotent | discordbot/command.py:566-568 | simplifying twice is simplifying once |
| DiscordCommand.RoughlyMatches | discordbot/command.py:563-564 | holds exactly when the simplified s2 occurs in the simplified s1 |
| DiscordCommand.RoughlyMatchesSelf | discordbot/command.py:563-564 | every string roughly matches itself; a query that simplifies to nothing matches everything |
| DiscordCommand.DistinctKeysSpec | discordbot/command.py:540-542 | the dictionary's keys: no repeats, and exactly the cards' keys |
| DiscordCommand.LastByKeySpec | discordbot/command.py:540-542 | the dictionary holds exactly those keys, each mapped to a card with that key |
| DiscordCommand.UniqifyStepAt | discordbot/command.py:540-542 | one more card appends its key if new and becomes the value kept for it |
| DiscordCommand.UniqifiedFromDict | discordbot/command.py:543 | the dictionary's values in key order are the uniqified list |
| DiscordCommand.DistinctKeysOrder | discordbot/command.py:540-543 | of two keys of the OrderedDict, the earlier one occurs among the cards before the later one first does |
| DiscordCommand.LastByKeyLast | discordbot/command.py:540-542 | the card kept for each name has that name, and no later card shares it |
| DiscordCommand.UniqifiedKeys | discordbot/command.py:543 | the i-th result is the card kept for the i-th key of the OrderedDict, has that key, and is one of the cards |
| DiscordCommand.UniqifiedSpec | discordbot/command.py:538-543 | no two results share a canonical name, every input card's name is represented, and every result is an input card |
| DiscordCommand.UniqifiedOrder | discordbot/command.py:538-543 | the results follow the first occurrence of their names: of two results, the earlier one's name occurs among the cards before the later one's first does |
| DiscordCommand.UniqifiedLast | discordbot/command.py:538-543 | each result is the last card with its name: no later card shares it |
| DiscordCommand.LastByKeyIsLast | discordbot/command.py:540-542 | the card kept for a name is the last one with that name |
| DiscordCommand.UniqifyBy | discordbot/command.py:538-543 | the OrderedDict loop yields Uniqified |
| DiscordCommand.UniqifyCards | discordbot/command.py:538-543 | uniqify_cards keyed by canonical name yields Uniqified |
| DiscordCommand.UniqifyCardsAsWritten | discordbot/command.py:538-543 | uniqify_cards keyed by `canonicalize` as written yields Uniqified with that key, so every Uniqified lemma holds for it too |
| DiscordCommand.LookupAll | discordbot/command.py:551-552 | the search results of each query, in order |
| DiscordCommand.FlattenSnoc | discordbot/command.py:553-554 | extending by one more list appends it |
| DiscordCommand.CardsFromQueries | discordbot/command.py:549-555 | all cards found, query by query, in order |
| DiscordCommand.FirstExact | discordbot/command.py:69 | the least index whose name is cmd or _cmd |
| DiscordCommand.FirstPrefix | discordbot/command.py:71 | the least index whose name starts with cmd or _cmd |
| DiscordCommand.FindMethodSpec | discordbot/command.py:66-75 | empty command: nothing; an exact name beats every prefix match; without one, a method is found exactly when some name starts with cmd or _cmd; whatever is found starts with one of them; an exact match found is the earliest exact match, and a prefix match found is the earliest prefix match |
| DiscordCommand.ResourcesResources | discordbot/command.py:603-614 | the nested loop yields Collect over the sections |
| DiscordCommand.CollectItemsKeys | discordbot/command.py:605-613 | within a section, a url is kept exactly when a wanted item has it |
| DiscordCommand.CollectKeys | discordbot/command.py:603-614 | a url is in the results exactly when some item with it is wanted: one word matching its title or text, or two words matching title and text |
| DiscordCommand.CollectResourceItems | discordbot/command.py:607-613 | the loop over sections and then items is one fold over all items, section after section |
| DiscordCommand.CollectFlatValues | discordbot/command.py:612-613 | each url's text is the text of the last wanted item with that url, or the text it already had when no item with it is wanted |
| DiscordCommand.ResourcesValues | discordbot/command.py:603-614 | each url in the results is paired with the text of the last wanted item that has it, sections and items in listed order |
| DiscordCommand.NoResultsForManyWords | discordbot/command.py:604-610 | no words, or three or more, give no results |
| DiscordCommand.TruncateHelp | discordbot/command.py:141-144 | the message sent has at most 2000 characters: unchanged when short enough, otherwise the first 1999 and "…" |
| DiscordCommand.TruncateHelpIdempotent | discordbot/command.py:141-144 | capping twice is capping once |
| DiscordCommand.SplitCommand | discordbot/command.py:35 | the command contains no space |
| DiscordCommand.SplitCommandRoundTrip | discordbot/command.py:35-42 | command + " " + arguments is the message; without a space the command is the whole message and the arguments are empty |
| DiscordCommand.HandleCommand | discordbot/command.py:34-65 | another bot's command is ignored; a command find_method knows runs with the arguments; any other is unknown |

## Left out

- SQL text and transactions. Statements are modelled as table updates, and `base_query` as the projection its `select` entries describe (see Findings).
  - `db().begin()`/`commit()` are not modelled. A failing step returns its error together with the state reached so far; there is no rollback.
- `update_fuzzy_matching` apart from its first line, `update_cache` and `init`. These cover the spellfix index, the cache table and the version comparison with `pkg_resources`. The first line of `update_fuzzy_matching`, `get_format_id('Penny Dreadful', True)` (magic/multiverse.py:136), is modelled: it is the `EnsureFormat` step of `Multiverse.BeforeLegality` and the matching call in `Catalog.Loader.UpdateDatabase`. The model follows the MySQL path, where the spellfix branch is skipped.
- Network fetches are inputs to the model: the card, set and bug feeds, the legal card lists and the card search in `cards_from_queries`.
  - A failed legal-list fetch is the `FetchFailed` value.
  - The resources list is a sequence of sections, in dictionary order.
- Date and timestamp parsing (`dtutil`) are function parameters (`parseDate`, `parseTs`).
- The current season (`rotation.last_rotation_ex`) is an input.
- The attribute names of `Commands` are an input, in the sorted order `dir` lists them.
- Database constraints are reduced to what the loader can hit:
  - NOT NULL columns of faces, sets and printings;
  - UNIQUE columns of sets.
  - MySQL collation (case-insensitive comparison) is not modelled: names compare exactly.
  - A face row for a cached card id that a wipe made stale is not refused (no foreign-key check).
- All ids come from one counter `nextId`. The source's auto-increment counters are per table; only uniqueness and order matter here.
- The colour id looked up by colour name or symbol is represented by the name or symbol itself.
- Feed entries are values, not dictionaries changed in place. `insert_card` returns the derived fields, and the swap of `names[0]` and `names[1]` produces a new entry. The aliasing of the record is therefore not modelled.
- The count check and printout at the end of `set_legal_cards` are left out; they change no state.
- The warning of `check_layouts` is the value of `LayoutsChanged`. Nothing is printed.
- Unicode tables are reduced:
  - `lower` covers ASCII and Latin-1 upper case;
  - NFD covers the Latin-1 accented letters;
  - the Mn category covers the combining-diacritics block;
  - `\w` covers the ASCII and Latin-1 characters `str.isalnum` accepts (letters, digits, the superscripts ¹ ² ³ and the fractions ¼ ½ ¾) and `_`; beyond Latin-1 no character counts as a word character.
- The order of GROUP_CONCAT within a card is modelled as the faces sorted by position. The model fixes one order among faces of equal position and states nothing about it; the source's ORDER BY leaves it to the engine.
- The bodies of the async chat commands, the message sending and the exception handler in `handle_command` are left out.
- `handle_command` calls the found method with an argument count that depends on its signature. This is not modelled; `HandleCommand` says which method runs with which arguments.
- `site_resources`, `complex_search` and `single_card_text` are not part of this model.
- SetLegalCardsStep: models `set_legal_cards` with `base_query` built from the descriptors' `select` entries. As written it raises KeyError after the DELETE; `SetLegalCardsAsWritten` models that (see Findings).
- SetLegalCardsFacts: states the corrected behaviour, including "a season never fails". As written every non-skipped list fails (`SetLegalCardsAsWrittenFails`).
- PdLegalitySpec: states the corrected walk. As written the walk stops with KeyError at the first season whose list is fetched and not skipped (`PdLegalityAsWrittenSpec`).
- UpdateDatabaseSpec: states the corrected update. As written no version is recorded once a past season's list is fetched and not skipped (`UpdateDatabaseAsWrittenFails`).
- Catalog.Loader.SetLegalCards: follows the corrected `SetLegalCardsStep`, as do `Catalog.Loader.UpdatePdLegality` and `Catalog.Loader.UpdateDatabase`. No loader method models the KeyError.
- GroupConcat: reads `GROUP_CONCAT(x, sep)` in SQLite's form, as x joined by sep. The same query uses MySQL's `SEPARATOR` syntax, and `INSERT IGNORE` appears at magic/multiverse.py:216 and :220. Under MySQL, `GROUP_CONCAT(x, '\|')` concatenates x with '\|' and separates rows with ','. The name, mana cost, cmc and text rules (`NameSelect`, `ManaCostSelect`, `CmcSelect`, `TextSelect`, `ProjectRow`) inherit this reading.
- ManaCostRules: tests the Fuse reminder on the first face in position order. In the source, `text` is a column of the grouped query that is not aggregated, so the engine may read it from any face of the card.
- ManaCostRules: lower-cases with the model's `lower` (ASCII and Latin-1) to stand for LIKE's case-insensitive comparison. Collation rules beyond that, such as accent-insensitivity, are not modelled.
- DiscordCommand.SimplifyStringSpec: beyond Latin-1 the model keeps no character. Python's `\w` also keeps letters and digits of other scripts, such as Greek or Cyrillic, which the model drops.
- DiscordCommand.UniqifyCards: keyed by the corrected canonical name `CanonicalName` (see Findings), not by `canonicalize` as written. The two agree on every name whose canonical form has no edge whitespace (`MagicCard.CanonicalNameAgrees`). `UniqifyCardsAsWritten` keys by `canonicalize` itself.
- DiscordCommand.ResourcesResources: the results are a map from url to text. The insertion order of the source's dict, which orders the lines `resources` prints, is not kept.
- SetLegalCardsStep: a fetched empty list `[]` is not skipped, and the model replaces the format's rows by none. The source then sends `WHERE name IN ()`, which MySQL rejects as a syntax error after the DELETE; that error is not modelled.

## Findings

| source | as written | input that shows it | evidently intended | confidence | as-written member | corrected member |
|---|---|---|---|---|---|---|
| magic/card.py:118-119 | `canonicalize` strips whitespace before `unaccent`, so a combining mark at an edge shields whitespace from the strip | "́ a" (combining acute, space, a): canonicalize gives " a", and canonicalize of that gives "a" | canonicalize is idempotent: names that canonicalize alike stay alike when canonicalized again | high; not executed | MagicCard.CanonicalizeNotIdempotent | MagicCard.CanonicalNameIdempotent |
| magic/multiverse.py:76-77 | `base_query` formats `prop['query']` for every card and face column, but no column descriptor has a 'query' key (magic/card.py:15-24 and :41-63 give only 'select'), so every call raises KeyError. `set_legal_cards` calls it after its DELETE, so the format loses all its legal cards and the exception ends `update_pd_legality` and `update_database` before the version is inserted. `update_cache` (:283) and the SQLite branch of `update_fuzzy_matching` (:137-143) call `base_query` too, so on SQLite `update_database` raises KeyError already at :124, before `update_pd_legality` runs; the model follows the MySQL path | `update_database` with a past season whose legal list is fetched as `['Island']`: as written the update ends in KeyError and records no version | `prop['select']`, the projection each descriptor defines, so that `set_legal_cards` inserts one 'Legal' row per listed card | high; not executed | Multiverse.SetLegalCardsAsWrittenFails | Multiverse.SetLegalCardsFacts |
