/**
  The column descriptors of magic/card.py for the four catalogue tables
  (card, face, set, printing): storage type, nullability, keys, whether the
  card feed supplies the value, and how a face column is read back.
 */
module CardSchema {
  import opened Wrappers

  /** Storage types. The schema spells BOOLEAN and DATE columns as INTEGER. */
  datatype StorageType = SqlInteger | SqlReal | SqlText

  const Boolean: StorageType := SqlInteger
  const Date: StorageType := SqlInteger

  /** How a face column is read back when a card's faces are grouped into one row. */
  datatype Select = ByColumn | ByFirstFace | ByName | ByNameAscii | ByManaCost | ByCmc | ByText

  datatype ForeignKey = ForeignKey(table: string, column: string)

  /**
    One column descriptor; `mtgjson` says whether the card feed supplies the
    value. A table is a dictionary from column name to descriptor.
   */
  datatype Column = Column(
    storage: StorageType,
    nullable: bool,
    primaryKey: bool,
    select: Select,
    mtgjson: bool,
    foreignKey: Option<ForeignKey>,
    unique: bool)

  type Table = map<string, Column>

  /** The defaults every column starts from: a nullable TEXT column the feed supplies. */
  const Base: Column := Column(SqlText, true, false, ByColumn, true, None, false)

  /** Face columns default to reading the position-1 face's value. */
  const FaceBase: Column := Base.(select := ByFirstFace)

  /**
    Every table: its primary key is the INTEGER, NOT NULL, loader-assigned
    `id` and no other column, and every foreign key references an `id` column.
   */
  predicate WellFormedTable(t: Table) {
    && "id" in t && t["id"].primaryKey && !t["id"].nullable && t["id"].storage == SqlInteger && !t["id"].mtgjson
    && (forall k | k in t && t[k].primaryKey :: k == "id")
    && (forall k | k in t && t[k].foreignKey.Some? :: t[k].foreignKey.value.column == "id")
  }

  function CardProperties(): (t: Table)
    ensures WellFormedTable(t)
  {
    map[
      "id" := Base.(storage := SqlInteger, nullable := false, primaryKey := true, mtgjson := false),
      "layout" := Base.(nullable := false)
    ]
  }

  /** The face descriptors. The source lists power and toughness twice; as keys they occur once. */
  function FaceProperties(): (t: Table)
    ensures WellFormedTable(t)
  {
    map[
      "id" := FaceBase.(storage := SqlInteger, nullable := false, primaryKey := true, mtgjson := false),
      "name" := FaceBase.(nullable := false, select := ByName),
      "mana_cost" := FaceBase.(select := ByManaCost),
      "cmc" := FaceBase.(storage := SqlReal, select := ByCmc),
      "power" := FaceBase,
      "toughness" := FaceBase,
      "loyalty" := FaceBase,
      "type" := FaceBase.(nullable := false),
      "text" := FaceBase.(nullable := false, select := ByText),
      "image_name" := FaceBase,
      "hand" := FaceBase.(storage := SqlInteger),
      "life" := FaceBase.(storage := SqlInteger),
      "starter" := FaceBase.(storage := SqlInteger),
      "position" := FaceBase.(mtgjson := false),
      "name_ascii" := FaceBase.(mtgjson := false, select := ByNameAscii),
      "card_id" := FaceBase.(storage := SqlInteger, mtgjson := false, foreignKey := Some(ForeignKey("card", "id")))
    ]
  }

  function SetProperties(): (t: Table)
    ensures WellFormedTable(t)
  {
    map[
      "id" := Base.(nullable := false, primaryKey := true, storage := SqlInteger, mtgjson := false),
      "name" := Base.(nullable := false, unique := true),
      "code" := Base.(nullable := false, unique := true),
      "gatherer_code" := Base.(unique := true),
      "old_code" := Base.(unique := true),
      "magiccardsinfo_code" := Base.(unique := true),
      "release_date" := Base.(nullable := false, storage := Date),
      "border" := Base.(nullable := false),
      "type" := Base.(nullable := false),
      "online_only" := Base.(storage := Boolean)
    ]
  }

  function PrintingProperties(): (t: Table)
    ensures WellFormedTable(t)
  {
    map[
      "id" := Base.(nullable := false, storage := SqlInteger, mtgjson := false, primaryKey := true),
      "system_id" := Base.(nullable := false),
      "rarity" := Base.(nullable := false),
      "flavor" := Base,
      "artist" := Base.(nullable := false),
      "number" := Base,
      "multiverseid" := Base,
      "watermark" := Base,
      "border" := Base,
      "timeshifted" := Base.(storage := Boolean),
      "reserved" := Base.(storage := Boolean),
      "mci_number" := Base,
      "card_id" := Base.(nullable := false, storage := SqlInteger, mtgjson := false, foreignKey := Some(ForeignKey("card", "id"))),
      "set_id" := Base.(nullable := false, storage := SqlInteger, mtgjson := false, foreignKey := Some(ForeignKey("set", "id"))),
      "rarity_id" := Base.(storage := SqlInteger, mtgjson := false, foreignKey := Some(ForeignKey("rarity", "id")))
    ]
  }

  /** The card table: only the layout comes from the feed, and both columns are required. */
  lemma CardSchema()
    ensures var t := CardProperties(); forall k | k in t :: (t[k].mtgjson <==> k == "layout") && !t[k].nullable
  {
  }

  /** The face table: which columns the loader derives, which are required, which are INTEGER, and the link to its card. */
  lemma FaceSchema()
    ensures var t := FaceProperties(); forall k | k in t :: !t[k].mtgjson <==> k in {"id", "position", "name_ascii", "card_id"}
    ensures var t := FaceProperties(); forall k | k in t :: !t[k].nullable <==> k in {"id", "name", "type", "text"}
    ensures var t := FaceProperties(); forall k | k in t :: t[k].storage == SqlInteger <==> k in {"id", "hand", "life", "starter", "card_id"}
    ensures var t := FaceProperties(); forall k | k in t :: t[k].foreignKey.Some? <==> k == "card_id"
    ensures FaceProperties()["card_id"].foreignKey == Some(ForeignKey("card", "id"))
  {
  }

  /** The set table: required and unique columns; release dates and the online-only flag are stored as INTEGER. */
  lemma SetSchema()
    ensures var t := SetProperties(); forall k | k in t :: t[k].unique <==> k in {"name", "code", "gatherer_code", "old_code", "magiccardsinfo_code"}
    ensures var t := SetProperties(); forall k | k in t :: !t[k].nullable <==> k in {"id", "name", "code", "release_date", "border", "type"}
    ensures var t := SetProperties(); forall k | k in t :: t[k].mtgjson <==> k != "id"
    ensures var t := SetProperties(); forall k | k in t :: t[k].storage == SqlInteger <==> k in {"id", "release_date", "online_only"}
  {
  }

  /** The printing table: the loader fills in the id and the links to card, set and rarity itself. */
  lemma PrintingSchema()
    ensures var t := PrintingProperties(); forall k | k in t :: !t[k].mtgjson <==> k in {"id", "card_id", "set_id", "rarity_id"}
    ensures var t := PrintingProperties(); forall k | k in t :: t[k].storage == SqlInteger <==> k in {"id", "timeshifted", "reserved", "card_id", "set_id", "rarity_id"}
    ensures var t := PrintingProperties(); forall k | k in t :: !t[k].nullable <==> k in {"id", "system_id", "rarity", "artist", "card_id", "set_id"}
    ensures var t := PrintingProperties(); forall k | k in t :: t[k].foreignKey.Some? <==> k in {"card_id", "set_id", "rarity_id"}
    ensures var t := PrintingProperties();
            t["card_id"].foreignKey == Some(ForeignKey("card", "id")) &&
            t["set_id"].foreignKey == Some(ForeignKey("set", "id")) &&
            t["rarity_id"].foreignKey == Some(ForeignKey("rarity", "id"))
  {
  }

}
