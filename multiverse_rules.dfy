/**
  The pure rules of magic/multiverse.py: the key that decides which feed
  entries share a card, the face position, the text backfill, the
  reminder-text stripping, column-name translation, the order in which the
  feed entries are inserted, and the hard-coded extra card.
 */
module MultiverseRules {
  import opened Wrappers
  import opened Text

  /** The seasons in order; the legality recompute walks them up to the current one. */
  const Seasons: seq<string> := ["EMN", "KLD", "AER", "AKH", "HOU", "XLN", "RIX"]

  /** The layouts the loader expects the feed to use. */
  function Layouts(): (r: seq<string>)
    ensures |r| == 12
    ensures forall i, j :: 0 <= i < j < |r| ==> r[i] != r[j]
  {
    ["normal", "meld", "split", "phenomenon", "token", "vanguard", "double-faced", "plane", "flip", "scheme", "leveler", "aftermath"]
  }

  // ---------------------------------------------------------------------
  // Feed entries

  datatype FormatLegality = FormatLegality(format: string, legality: string)

  /** Face values the loader copies from the feed unchanged. */
  datatype FaceExtras = FaceExtras(
    power: Option<string>,
    toughness: Option<string>,
    loyalty: Option<string>,
    imageName: Option<string>,
    hand: Option<int>,
    life: Option<int>,
    starter: Option<int>)

  /**
    One card entry of the feed. `names` is None when the entry has no
    `names` key; the list-valued keys default to the empty list.
   */
  datatype FeedCard = FeedCard(
    name: string,
    names: Option<seq<string>>,
    layout: string,
    manaCost: Option<string>,
    cmc: Option<string>,
    typeLine: Option<string>,
    text: Option<string>,
    extras: FaceExtras,
    colors: seq<string>,
    colorIdentity: seq<string>,
    supertypes: seq<string>,
    subtypes: seq<string>,
    legalities: seq<FormatLegality>)

  // ---------------------------------------------------------------------
  // The card key

  /**
    card_name: a meld entry is keyed by its own name unless it is the
    melded-back card (its name is names[2]), which is keyed by names[0];
    every other entry by its names joined with " // ", or by its name when
    it has no names. None where the source fails on a meld entry whose
    names are missing or shorter than three.
   */
  function CardName(name: string, names: Option<seq<string>>, layout: string): (key: Option<string>)
    ensures key.None? <==> layout == "meld" && (names.None? || |names.value| < 3)
  {
    if layout == "meld" then
      if names.None? || |names.value| < 3 then None
      else if name != names.value[2] then Some(name)
      else Some(names.value[0])
    else if names.Some? then Some(Join(" // ", names.value))
    else Some(name)
  }

  function KeyOf(c: FeedCard): Option<string> {
    CardName(c.name, c.names, c.layout)
  }

  /**
    A single-faced entry is keyed by its name; an entry with names (of any
    number) by those names joined with " // ", which for one or two names is
    spelled out below.
   */
  lemma CardNameNonMeld(c: FeedCard)
    requires c.layout != "meld"
    ensures c.names.None? ==> KeyOf(c) == Some(c.name)
    ensures c.names.Some? ==> KeyOf(c) == Some(Join(" // ", c.names.value))
    ensures c.names.Some? && |c.names.value| == 1 ==> KeyOf(c) == Some(c.names.value[0])
    ensures c.names.Some? && |c.names.value| == 2 ==> KeyOf(c) == Some(c.names.value[0] + " // " + c.names.value[1])
  {
    if c.names.Some? && |c.names.value| == 2 {
      var ns := c.names.value;
      assert ns[1..] == [ns[1]];
      assert Join(" // ", ns[1..]) == ns[1];
      assert Join(" // ", ns) == ns[0] + " // " + ns[1];
    }
  }

  // ---------------------------------------------------------------------
  // Derived face fields

  function IndexOf(xs: seq<string>, x: string): (i: int)
    ensures -1 <= i < |xs|
    ensures i == -1 <==> x !in xs
    ensures 0 <= i ==> xs[i] == x && x !in xs[..i]
  {
    if |xs| == 0 then -1
    else if xs[0] == x then 0
    else
      var i := IndexOf(xs[1..], x);
      assert xs[1..][..if i < 0 then 0 else i] == xs[1..if i < 0 then 1 else i + 1];
      assert xs == [xs[0]] + xs[1..];
      if i == -1 then -1 else i + 1
  }

  /**
    The face position: 1 when the entry has no names or an empty list,
    otherwise one more than the index of the first occurrence of its name;
    the source fails when its name is not among its names.
   */
  function Position(c: FeedCard): (r: Option<int>)
    ensures c.names.None? || c.names.value == [] ==> r == Some(1)
    ensures c.names.Some? && c.names.value != [] ==> (r.None? <==> c.name !in c.names.value)
    ensures c.names.Some? && c.names.value != [] && r.Some? ==>
              1 <= r.value <= |c.names.value| && c.names.value[r.value - 1] == c.name &&
              c.name !in c.names.value[..r.value - 1]
  {
    if c.names.None? || c.names.value == [] then Some(1)
    else
      var i := IndexOf(c.names.value, c.name);
      if i < 0 then None else Some(i + 1)
  }

  /** The layouts whose missing text is taken to be empty. */
  const BackfillLayouts: seq<string> := ["normal", "token", "double-faced", "split", "aftermath"]

  /** The face text after the backfill: a missing text becomes "" for the backfill layouts only. */
  function BackfilledText(c: FeedCard): (t: Option<string>)
    ensures c.text.Some? ==> t == c.text
    ensures c.text.None? ==> (t.Some? <==> c.layout in BackfillLayouts)
    ensures t.Some? && c.text.None? ==> t.value == ""
  {
    if c.text.None? && c.layout in BackfillLayouts then Some("") else c.text
  }

  /**
    Removal of reminder text: every "(" followed by one or more characters
    other than ")" and then ")" is deleted, scanning from the left.
   */
  function StripReminder(s: string): (r: string)
    ensures |r| <= |s|
    decreases |s|
  {
    if |s| == 0 then ""
    else if s[0] == '(' then
      var k := Find(s[1..], ")");
      if k >= 1 then StripReminder(s[k + 2..]) else [s[0]] + StripReminder(s[1..])
    else [s[0]] + StripReminder(s[1..])
  }

  /** Text without "(" is left unchanged. */
  lemma {:induction false} StripReminderPlain(s: string)
    requires Excludes(s, '(')
    ensures StripReminder(s) == s
  {
    if |s| > 0 {
      StripReminderPlain(s[1..]);
      assert s == [s[0]] + s[1..];
    }
  }

  lemma FindFirstClose(r: string, b: string)
    requires Excludes(r, ')')
    ensures Find(r + ")" + b, ")") == |r|
  {
    var h := r + ")" + b;
    assert OccursAt(h, ")", |r|) by { assert h[|r|..|r| + 1] == [h[|r|]]; }
    forall i | 0 <= i < |r|
      ensures !OccursAt(h, ")", i)
    {
      assert h[i..i + 1] == [r[i]];
    }
  }

  /** A reminder span after text without "(" is removed, and the scan goes on after it. */
  lemma {:induction false} StripReminderSpan(a: string, r: string, b: string)
    requires Excludes(a, '(') && |r| > 0 && Excludes(r, ')')
    ensures StripReminder(a + "(" + r + ")" + b) == a + StripReminder(b)
    decreases |a|
  {
    var s := a + "(" + r + ")" + b;
    if |a| > 0 {
      StripReminderSpan(a[1..], r, b);
      assert s[1..] == a[1..] + "(" + r + ")" + b;
      assert s[0] == a[0] != '(';
      assert a == [a[0]] + a[1..];
    } else {
      assert s == "(" + (r + ")" + b);
      assert s[1..] == r + ")" + b;
      FindFirstClose(r, b);
      assert s[|r| + 2..] == b;
    }
  }

  // ---------------------------------------------------------------------
  // Column names to feed keys

  predicate IsAsciiLetter(c: char) {
    ('a' <= c <= 'z') || ('A' <= c <= 'Z')
  }

  function UpperAscii(c: char): char {
    if 'a' <= c <= 'z' then (c as int - 32) as char else c
  }

  /** The substitution of underscore2camel; `atStart` says the scan is at the start of the string. */
  function Camel(s: string, atStart: bool): string {
    if |s| == 0 then ""
    else if !atStart && s[0] == '_' && |s| >= 2 && IsAsciiLetter(s[1]) then [UpperAscii(s[1])] + Camel(s[2..], false)
    else [s[0]] + Camel(s[1..], false)
  }

  /** underscore2camel: each "_" not at the start and followed by a letter is dropped and the letter upper-cased. */
  function Underscore2Camel(s: string): string {
    Camel(s, true)
  }

  /** database2json: the feed key of a column; the printing's `system_id` is the feed's `id`. */
  function Database2Json(column: string): string {
    Underscore2Camel(if column == "system_id" then "id" else column)
  }

  /** Column names as the schema writes them: lower-case letters and digits, words joined by single underscores. */
  predicate SnakeCase(s: string) {
    (|s| > 0 ==> s[0] != '_') && SnakeTail(s)
  }

  /** Lower-case letters, digits and underscores, each underscore followed by a letter. */
  predicate SnakeTail(s: string) {
    && (forall i :: 0 <= i < |s| ==> ('a' <= s[i] <= 'z') || ('0' <= s[i] <= '9') || s[i] == '_')
    && (forall i :: 0 <= i < |s| && s[i] == '_' ==> i + 1 < |s| && 'a' <= s[i + 1] <= 'z')
  }

  lemma SnakeTailDrop(s: string, k: nat)
    requires SnakeTail(s) && k <= |s|
    ensures SnakeTail(s[k..])
  {
    assert forall i :: 0 <= i < |s| - k ==> s[k..][i] == s[k + i];
  }

  /** The reverse translation: every upper-case letter becomes "_" and its lower-case letter. */
  function Camel2Underscore(s: string): string {
    if |s| == 0 then ""
    else if 'A' <= s[0] <= 'Z' then ['_', (s[0] as int + 32) as char] + Camel2Underscore(s[1..])
    else [s[0]] + Camel2Underscore(s[1..])
  }

  lemma {:induction false} CamelRoundTrip(s: string, atStart: bool)
    requires SnakeTail(s)
    requires atStart && |s| > 0 ==> s[0] != '_'
    ensures Camel2Underscore(Camel(s, atStart)) == s
    decreases |s|
  {
    if |s| > 0 {
      if !atStart && s[0] == '_' {
        var u := s[2..];
        SnakeTailDrop(s, 2);
        CamelRoundTrip(u, false);
        assert Camel(s, atStart) == [UpperAscii(s[1])] + Camel(u, false);
        assert (UpperAscii(s[1]) as int + 32) as char == s[1];
        assert s == ['_', s[1]] + u;
      } else {
        var u := s[1..];
        SnakeTailDrop(s, 1);
        CamelRoundTrip(u, false);
        assert Camel(s, atStart) == [s[0]] + Camel(u, false);
        assert s == [s[0]] + u;
      }
    }
  }

  /** underscore2camel loses nothing on snake-case column names: reversing it gives the name back. */
  lemma Underscore2CamelRoundTrip(s: string)
    requires SnakeCase(s)
    ensures Camel2Underscore(Underscore2Camel(s)) == s
  {
    CamelRoundTrip(s, true);
  }

  /** The feed key of a snake-case column determines the column, except that `system_id` is read from `id`. */
  lemma Database2JsonSpec(column: string)
    requires SnakeCase(column)
    ensures column == "system_id" ==> Database2Json(column) == "id"
    ensures column != "system_id" ==> Camel2Underscore(Database2Json(column)) == column
  {
    if column == "system_id" {
      assert Camel("d", false) == "d";
      assert Camel("id", true) == "id";
    } else {
      Underscore2CamelRoundTrip(column);
    }
  }

  // ---------------------------------------------------------------------
  // The order in which feed entries are inserted

  /** The melded-back entry of a meld: the one whose name is names[2]. */
  predicate IsMeldedBack(c: FeedCard) {
    c.layout == "meld" && c.names.Some? && |c.names.value| >= 3 && c.name == c.names.value[2]
  }

  /**
    The melded-back entry after its first insert: names[0] and names[1]
    trade places. Only melded-back entries are swapped, and they have at
    least three names; anything shorter is left alone.
   */
  function SwapFirstTwo(c: FeedCard): (d: FeedCard)
    ensures d == c.(names := d.names)
    ensures c.names.Some? && |c.names.value| >= 2 ==>
              && d.names.Some? && |d.names.value| == |c.names.value|
              && d.names.value[0] == c.names.value[1] && d.names.value[1] == c.names.value[0]
              && d.names.value[2..] == c.names.value[2..]
  {
    if c.names.Some? && |c.names.value| >= 2 then
      var ns := c.names.value;
      c.(names := Some([ns[1], ns[0]] + ns[2..]))
    else c
  }

  predicate AllKeyed(cs: seq<FeedCard>) {
    forall i :: 0 <= i < |cs| ==> KeyOf(cs[i]).Some?
  }

  /** The entries inserted in the first pass, in feed order. */
  function Others(cs: seq<FeedCard>): (r: seq<FeedCard>)
    requires AllKeyed(cs)
    ensures forall i :: 0 <= i < |r| ==> KeyOf(r[i]).Some? && !IsMeldedBack(r[i])
    ensures forall c :: c in r ==> c in cs
  {
    if |cs| == 0 then []
    else (if IsMeldedBack(cs[0]) then [] else [cs[0]]) + Others(cs[1..])
  }

  /** The melded-back entries, deferred to the second pass, in feed order. */
  function Melded(cs: seq<FeedCard>): (r: seq<FeedCard>)
    requires AllKeyed(cs)
    ensures forall i :: 0 <= i < |r| ==> KeyOf(r[i]).Some? && IsMeldedBack(r[i])
    ensures forall c :: c in r ==> c in cs
  {
    if |cs| == 0 then []
    else (if IsMeldedBack(cs[0]) then [cs[0]] else []) + Melded(cs[1..])
  }

  /** Each melded-back entry as given, then with its first two names swapped. */
  function Twice(ms: seq<FeedCard>): (r: seq<FeedCard>)
    ensures |r| == 2 * |ms|
  {
    if |ms| == 0 then [] else [ms[0], SwapFirstTwo(ms[0])] + Twice(ms[1..])
  }

  lemma {:induction false} TwiceAt(ms: seq<FeedCard>, k: nat)
    requires k < |ms|
    ensures Twice(ms)[2 * k] == ms[k] && Twice(ms)[2 * k + 1] == SwapFirstTwo(ms[k])
  {
    if k > 0 {
      TwiceAt(ms[1..], k - 1);
      assert Twice(ms) == [ms[0], SwapFirstTwo(ms[0])] + Twice(ms[1..]);
    }
  }

  /** Every entry that is not melded back, in feed order, then each melded-back entry twice. */
  function InsertionOrder(cs: seq<FeedCard>): seq<FeedCard>
    requires AllKeyed(cs)
  {
    Others(cs) + Twice(Melded(cs))
  }

  lemma {:induction false} SplitCounts(cs: seq<FeedCard>)
    requires AllKeyed(cs)
    ensures |Others(cs)| + |Melded(cs)| == |cs|
  {
    if |cs| > 0 {
      SplitCounts(cs[1..]);
    }
  }

  /**
    The meld ordering: no melded-back entry is inserted before an entry
    that is not; every entry of the first pass is not melded back; and
    each melded-back entry is inserted twice in a row, the second time with
    names[0] and names[1] swapped.
   */
  lemma MeldedLast(cs: seq<FeedCard>)
    requires AllKeyed(cs)
    ensures var order := InsertionOrder(cs); var n := |Others(cs)|;
            && |order| == n + 2 * |Melded(cs)|
            && (forall i :: 0 <= i < n ==> !IsMeldedBack(order[i]))
            && (forall k :: 0 <= k < |Melded(cs)| ==>
                  order[n + 2 * k] == Melded(cs)[k] && order[n + 2 * k + 1] == SwapFirstTwo(Melded(cs)[k]))
  {
    forall k | 0 <= k < |Melded(cs)| {
      TwiceAt(Melded(cs), k);
    }
  }

  /**
    The two inserts of a melded-back entry [a, b, c] named c: the first is
    keyed a and the second b, both at position 3 when c differs from a and b.
   */
  lemma MeldedBackKeys(c: FeedCard)
    requires KeyOf(c).Some? && IsMeldedBack(c)
    requires c.name != c.names.value[0] && c.name != c.names.value[1]
    ensures KeyOf(c) == Some(c.names.value[0])
    ensures KeyOf(SwapFirstTwo(c)) == Some(c.names.value[1])
    ensures Position(c) == Some(3) && Position(SwapFirstTwo(c)) == Some(3)
  {
    var ns := c.names.value;
    var d := SwapFirstTwo(c);
    assert d.names.value[2] == ns[2];
    assert IndexOf(ns, c.name) == 2 by {
      assert ns[..2] == [ns[0], ns[1]];
    }
    assert IndexOf(d.names.value, c.name) == 2 by {
      assert d.names.value[..2] == [ns[1], ns[0]];
    }
  }

  // ---------------------------------------------------------------------
  // The hard-coded card

  const Gleemox: FeedCard := FeedCard(
    "Gleemox", None, "normal", Some("{0}"), Some("0"), Some("Artifact"),
    Some("{T}: Add one mana of any color to your mana pool.\nThis card is banned."),
    FaceExtras(None, None, None, Some("gleemox"), None, None, None),
    [], [], [], [], [])

  /**
    add_hardcoded_cards: the feed keyed by name gains the Gleemox entry; an
    existing Gleemox key keeps its place and takes the new value.
   */
  function AddHardcodedCards(feed: seq<(string, FeedCard)>): (r: seq<(string, FeedCard)>)
    ensures exists i :: 0 <= i < |r| && r[i] == ("Gleemox", Gleemox)
    ensures forall i :: 0 <= i < |r| && r[i].0 != "Gleemox" ==> r[i] in feed
    ensures forall i :: 0 <= i < |feed| && feed[i].0 != "Gleemox" ==> feed[i] in r
    ensures |r| == |feed| || |r| == |feed| + 1
  {
    if |feed| == 0 then
      var r := [("Gleemox", Gleemox)];
      assert r[0] == ("Gleemox", Gleemox);
      r
    else if feed[0].0 == "Gleemox" then
      var r := [("Gleemox", Gleemox)] + feed[1..];
      assert r[0] == ("Gleemox", Gleemox);
      assert forall i :: 1 <= i < |r| ==> r[i] == feed[i];
      r
    else
      var rest := AddHardcodedCards(feed[1..]);
      var i :| 0 <= i < |rest| && rest[i] == ("Gleemox", Gleemox);
      assert ([feed[0]] + rest)[i + 1] == rest[i];
      [feed[0]] + rest
  }

  /**
    Where Gleemox goes, as a dictionary assignment places it: appended when
    the feed has no Gleemox key, otherwise in place of the first entry with
    that key.
   */
  lemma {:induction false} AddHardcodedCardsPlace(feed: seq<(string, FeedCard)>)
    ensures (forall i :: 0 <= i < |feed| ==> feed[i].0 != "Gleemox") ==> AddHardcodedCards(feed) == feed + [("Gleemox", Gleemox)]
    ensures forall i :: 0 <= i < |feed| && feed[i].0 == "Gleemox" && (forall j :: 0 <= j < i ==> feed[j].0 != "Gleemox") ==>
              AddHardcodedCards(feed) == feed[i := ("Gleemox", Gleemox)]
    decreases |feed|
  {
    if |feed| > 0 {
      if feed[0].0 == "Gleemox" {
        assert AddHardcodedCards(feed) == feed[0 := ("Gleemox", Gleemox)];
      } else {
        AddHardcodedCardsPlace(feed[1..]);
        AddHardcodedCardsShift(feed, AddHardcodedCards(feed[1..]));
      }
    }
  }

  /** The first Gleemox key of `feed` lies in its tail when the head is another card. */
  lemma AddHardcodedCardsShift(feed: seq<(string, FeedCard)>, rest: seq<(string, FeedCard)>)
    requires |feed| > 0 && feed[0].0 != "Gleemox"
    requires (forall i :: 0 <= i < |feed| - 1 ==> feed[1..][i].0 != "Gleemox") ==> rest == feed[1..] + [("Gleemox", Gleemox)]
    requires forall i :: 0 <= i < |feed| - 1 && feed[1..][i].0 == "Gleemox" && (forall j :: 0 <= j < i ==> feed[1..][j].0 != "Gleemox") ==>
               rest == feed[1..][i := ("Gleemox", Gleemox)]
    ensures (forall i :: 0 <= i < |feed| ==> feed[i].0 != "Gleemox") ==> [feed[0]] + rest == feed + [("Gleemox", Gleemox)]
    ensures forall i :: 0 <= i < |feed| && feed[i].0 == "Gleemox" && (forall j :: 0 <= j < i ==> feed[j].0 != "Gleemox") ==>
              [feed[0]] + rest == feed[i := ("Gleemox", Gleemox)]
  {
    var g := ("Gleemox", Gleemox);
    if forall i :: 0 <= i < |feed| ==> feed[i].0 != "Gleemox" {
      assert forall i :: 0 <= i < |feed| - 1 ==> feed[1..][i].0 == feed[i + 1].0;
      assert [feed[0]] + (feed[1..] + [g]) == feed + [g];
    }
    forall i | 0 <= i < |feed| && feed[i].0 == "Gleemox" && (forall j :: 0 <= j < i ==> feed[j].0 != "Gleemox")
      ensures [feed[0]] + rest == feed[i := g]
    {
      assert i > 0;
      assert feed[1..][i - 1].0 == "Gleemox";
      forall j | 0 <= j < i - 1 ensures feed[1..][j].0 != "Gleemox" {
        assert feed[1..][j] == feed[j + 1];
      }
      assert rest == feed[1..][i - 1 := g];
      assert [feed[0]] + feed[1..][i - 1 := g] == feed[i := g];
    }
  }

  function Values(feed: seq<(string, FeedCard)>): (r: seq<FeedCard>)
    ensures |r| == |feed| && forall i :: 0 <= i < |feed| ==> r[i] == feed[i].1
  {
    seq(|feed|, i requires 0 <= i < |feed| => feed[i].1)
  }

  /** check_layouts: a warning when the set of layouts in the card table differs from the expected one. */
  function LayoutsChanged(layouts: seq<string>): bool {
    (set l | l in layouts) != (set l | l in Layouts())
  }

  /** No warning exactly when the card table holds every expected layout and no other. */
  lemma LayoutsChangedIff(layouts: seq<string>)
    ensures !LayoutsChanged(layouts) <==> (forall l :: l in layouts <==> l in Layouts())
  {
    var a := set l | l in layouts;
    var b := set l | l in Layouts();
    if forall l :: l in layouts <==> l in Layouts() {
      assert forall l :: l in a <==> l in b;
      assert a == b;
    }
    if a == b {
      forall l
        ensures l in layouts <==> l in Layouts()
      {
        assert l in layouts <==> l in a;
        assert l in Layouts() <==> l in b;
      }
    }
  }
}
