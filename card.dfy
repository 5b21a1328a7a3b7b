/**
  The card model of magic/card.py: the column descriptors of the four
  catalogue tables (card, face, set, printing), the rules that rebuild one
  logical card from its faces when the catalogue is read back, accent
  stripping and name canonicalisation, and the Card record built from a
  projected row.
 */
module MagicCard {
  import opened Wrappers
  import opened Text

  // ---------------------------------------------------------------------
  // Reading a card back: one row per card from its faces in position order

  /** One stored face, as the grouped read sees it. */
  datatype FaceView = FaceView(
    name: string,
    nameAscii: string,
    manaCost: Option<string>,
    cmc: Option<string>,
    typeLine: string,
    text: string,
    position: int)

  function NonNull(vals: seq<Option<string>>): (r: seq<string>)
    ensures |r| <= |vals|
    ensures |r| == 0 <==> forall i :: 0 <= i < |vals| ==> vals[i].None?
  {
    if |vals| == 0 then []
    else (if vals[0].Some? then [vals[0].value] else []) + NonNull(vals[1..])
  }

  /** SQL GROUP_CONCAT: the non-NULL values joined by the separator; NULL when there are none. */
  function GroupConcat(vals: seq<Option<string>>, sep: string): (r: Option<string>)
    ensures r.None? <==> forall i :: 0 <= i < |vals| ==> vals[i].None?
  {
    var xs := NonNull(vals);
    if |xs| == 0 then None else Some(Join(sep, xs))
  }

  /** One column of every face, in order. */
  function Values(faces: seq<FaceView>, get: FaceView -> string): (r: seq<string>)
    ensures |r| == |faces| && forall i :: 0 <= i < |faces| ==> r[i] == get(faces[i])
  {
    seq(|faces|, i requires 0 <= i < |faces| => get(faces[i]))
  }

  function Somes(xs: seq<string>): (r: seq<Option<string>>)
    ensures |r| == |xs| && forall i :: 0 <= i < |xs| ==> r[i] == Some(xs[i])
  {
    seq(|xs|, i requires 0 <= i < |xs| => Some(xs[i]))
  }

  /** `CASE WHEN lo <= position <= hi THEN value ELSE '' END`, face by face. */
  function CaseValues(faces: seq<FaceView>, lo: int, hi: int, get: FaceView -> string): (r: seq<Option<string>>)
    ensures |r| == |faces|
    ensures forall i :: 0 <= i < |faces| ==>
              r[i] == Some(if lo <= faces[i].position <= hi then get(faces[i]) else "")
  {
    seq(|faces|, i requires 0 <= i < |faces| => Some(if lo <= faces[i].position <= hi then get(faces[i]) else ""))
  }

  /** The values of the faces whose position lies in [lo, hi], in order. */
  function ValuesAt(faces: seq<FaceView>, lo: int, hi: int, get: FaceView -> string): seq<string> {
    if |faces| == 0 then []
    else (if lo <= faces[0].position <= hi then [get(faces[0])] else []) + ValuesAt(faces[1..], lo, hi, get)
  }

  function FaceName(ascii: bool): FaceView -> string {
    if ascii then (f: FaceView) => f.nameAscii else (f: FaceView) => f.name
  }

  /**
    name_select: a double-faced card is named by its position-1 face, a meld
    card by its position-1 and position-2 faces run together, any other card
    by all its faces joined with " // ". `ascii` reads name_ascii instead.
   */
  function NameSelect(layout: string, faces: seq<FaceView>, ascii: bool): (r: Option<string>)
    ensures r.None? <==> |faces| == 0
  {
    if layout == "double-faced" then
      var r := GroupConcat(CaseValues(faces, 1, 1, FaceName(ascii)), "");
      assert |faces| > 0 ==> CaseValues(faces, 1, 1, FaceName(ascii))[0].Some?;
      r
    else if layout == "meld" then
      var r := GroupConcat(CaseValues(faces, 1, 2, FaceName(ascii)), "");
      assert |faces| > 0 ==> CaseValues(faces, 1, 2, FaceName(ascii))[0].Some?;
      r
    else
      var r := GroupConcat(Somes(Values(faces, FaceName(ascii))), " // ");
      assert |faces| > 0 ==> Somes(Values(faces, FaceName(ascii)))[0].Some?;
      r
  }

  /**
    The reminder text that marks a split card whose halves can be cast
    together, written in lower case because LIKE compares without regard to
    letter case.
   */
  const FusePattern: string := "fuse (you may cast one or both halves of this card from your hand.)"

  /** `text LIKE '%Fuse (...)%'`: LIKE matches without regard to letter case. */
  predicate HasFuseReminder(text: string) {
    Contains(Lower(text), FusePattern)
  }

  /** `CASE WHEN position = 1 THEN value ELSE '' END` for a nullable column. */
  function FirstFaceOptions(faces: seq<FaceView>, get: FaceView -> Option<string>): (r: seq<Option<string>>)
    ensures |r| == |faces|
    ensures forall i :: 0 <= i < |faces| ==> r[i] == if faces[i].position == 1 then get(faces[i]) else Some("")
  {
    seq(|faces|, i requires 0 <= i < |faces| => if faces[i].position == 1 then get(faces[i]) else Some(""))
  }

  function ManaCostOf(f: FaceView): Option<string> {
    f.manaCost
  }

  /**
    The mana-cost rule. The text tested for the fuse reminder is a
    non-aggregated column of the grouped query; the model reads it from the
    first face in position order.
   */
  function ManaCostSelect(layout: string, faces: seq<FaceView>): Option<string> {
    if layout == "split" && |faces| > 0 && HasFuseReminder(faces[0].text) then
      GroupConcat(seq(|faces|, i requires 0 <= i < |faces| => faces[i].manaCost), "")
    else if layout == "split" then
      None
    else
      GroupConcat(FirstFaceOptions(faces, ManaCostOf), "")
  }

  function CmcSelect(faces: seq<FaceView>): Option<string> {
    GroupConcat(seq(|faces|, i requires 0 <= i < |faces| => faces[i].cmc), "|")
  }

  const TextSeparator: string := "\n-----\n"

  function TextSelect(faces: seq<FaceView>): Option<string> {
    GroupConcat(Somes(Values(faces, (f: FaceView) => f.text)), TextSeparator)
  }

  /** The default rule for the remaining face columns: the position-1 value. */
  function FirstFaceSelect(faces: seq<FaceView>, get: FaceView -> string): (r: Option<string>)
    ensures |faces| > 0 ==> r.Some?
  {
    var vals := CaseValues(faces, 1, 1, get);
    assert |faces| > 0 ==> vals[0].Some?;
    GroupConcat(vals, "")
  }

  /** A projected row: what the grouped read returns for one card. */
  datatype Row = Row(
    id: int,
    layout: string,
    name: string,
    names: Option<string>,
    manaCost: Option<string>,
    cmc: Option<string>,
    typeLine: string,
    text: Option<string>)

  /** The grouped read of one card that has at least one face; `faces` are in position order. */
  function ProjectRow(id: int, layout: string, faces: seq<FaceView>): (row: Row)
    requires |faces| > 0
    ensures row.id == id && row.layout == layout
  {
    Row(id, layout,
        NameSelect(layout, faces, false).value,
        GroupConcat(Somes(Values(faces, FaceName(false))), "|"),
        ManaCostSelect(layout, faces),
        CmcSelect(faces),
        FirstFaceSelect(faces, (f: FaceView) => f.typeLine).value,
        TextSelect(faces))
  }

  // ---------------------------------------------------------------------
  // Lemmas about the read-back rules

  lemma {:induction false} NonNullSomes(xs: seq<string>)
    ensures NonNull(Somes(xs)) == xs
  {
    if |xs| > 0 {
      NonNullSomes(xs[1..]);
      assert Somes(xs)[1..] == Somes(xs[1..]);
      assert xs == [xs[0]] + xs[1..];
    }
  }

  lemma {:induction false} JoinEmptyIsConcat(xs: seq<string>)
    ensures Join("", xs) == Concat(xs)
  {
    if |xs| > 1 {
      JoinEmptyIsConcat(xs[1..]);
      assert xs[0] + "" == xs[0];
    }
  }

  lemma {:induction false} ConcatCaseValues(faces: seq<FaceView>, lo: int, hi: int, get: FaceView -> string)
    ensures Concat(NonNull(CaseValues(faces, lo, hi, get))) == Concat(ValuesAt(faces, lo, hi, get))
  {
    if |faces| > 0 {
      var vals := CaseValues(faces, lo, hi, get);
      ConcatCaseValues(faces[1..], lo, hi, get);
      assert vals[1..] == CaseValues(faces[1..], lo, hi, get);
      assert NonNull(vals) == [vals[0].value] + NonNull(vals[1..]);
      if lo <= faces[0].position <= hi {
        assert ValuesAt(faces, lo, hi, get) == [get(faces[0])] + ValuesAt(faces[1..], lo, hi, get);
      } else {
        assert ValuesAt(faces, lo, hi, get) == ValuesAt(faces[1..], lo, hi, get);
        assert "" + Concat(NonNull(vals[1..])) == Concat(NonNull(vals[1..]));
      }
    }
  }

  /** The three name rules, stated over the faces in position order. */
  lemma NameSelectRules(layout: string, faces: seq<FaceView>, ascii: bool)
    requires |faces| > 0
    ensures layout == "double-faced" ==> NameSelect(layout, faces, ascii) == Some(Concat(ValuesAt(faces, 1, 1, FaceName(ascii))))
    ensures layout == "meld" ==> NameSelect(layout, faces, ascii) == Some(Concat(ValuesAt(faces, 1, 2, FaceName(ascii))))
    ensures layout != "double-faced" && layout != "meld" ==>
              NameSelect(layout, faces, ascii) == Some(Join(" // ", Values(faces, FaceName(ascii))))
  {
    var get := FaceName(ascii);
    if layout == "double-faced" {
      ConcatCaseValues(faces, 1, 1, get);
      JoinEmptyIsConcat(NonNull(CaseValues(faces, 1, 1, get)));
    } else if layout == "meld" {
      ConcatCaseValues(faces, 1, 2, get);
      JoinEmptyIsConcat(NonNull(CaseValues(faces, 1, 2, get)));
    } else {
      NonNullSomes(Values(faces, get));
    }
  }

  lemma {:induction false} ValuesAtNone(faces: seq<FaceView>, lo: int, hi: int, get: FaceView -> string)
    requires forall i :: 0 <= i < |faces| ==> !(lo <= faces[i].position <= hi)
    ensures ValuesAt(faces, lo, hi, get) == []
  {
    if |faces| > 0 {
      ValuesAtNone(faces[1..], lo, hi, get);
    }
  }

  /** A double-faced card whose only position-1 face comes first is named by that face alone. */
  lemma DoubleFacedName(faces: seq<FaceView>)
    requires |faces| > 0 && faces[0].position == 1
    requires forall i :: 1 <= i < |faces| ==> faces[i].position != 1
    ensures NameSelect("double-faced", faces, false) == Some(faces[0].name)
  {
    NameSelectRules("double-faced", faces, false);
    ValuesAtNone(faces[1..], 1, 1, FaceName(false));
    assert ValuesAt(faces, 1, 1, FaceName(false)) == [faces[0].name];
    assert faces[0].name + "" == faces[0].name;
  }

  /** The mana-cost rule, case by case. */
  lemma ManaCostRules(layout: string, faces: seq<FaceView>)
    requires |faces| > 0
    ensures layout == "split" && !HasFuseReminder(faces[0].text) ==> ManaCostSelect(layout, faces) == None
    ensures layout == "split" && HasFuseReminder(faces[0].text) ==>
              ManaCostSelect(layout, faces) ==
                var costs := NonNull(seq(|faces|, i requires 0 <= i < |faces| => faces[i].manaCost));
                if costs == [] then None else Some(Concat(costs))
    ensures layout != "split" && faces[0].position == 1 && (forall i :: 1 <= i < |faces| ==> faces[i].position != 1) ==>
              ManaCostSelect(layout, faces) ==
                if |faces| == 1 && faces[0].manaCost.None? then None else Some(faces[0].manaCost.GetOr(""))
  {
    var costs := NonNull(seq(|faces|, i requires 0 <= i < |faces| => faces[i].manaCost));
    JoinEmptyIsConcat(costs);
    if layout != "split" && faces[0].position == 1 && (forall i :: 1 <= i < |faces| ==> faces[i].position != 1) {
      var vals := FirstFaceOptions(faces, ManaCostOf);
      var rest := vals[1..];
      assert forall i :: 0 <= i < |rest| ==> rest[i] == Some("");
      EmptyStrings(rest);
      assert vals == [vals[0]] + rest;
      var xs := NonNull(vals);
      assert xs == (if faces[0].manaCost.Some? then [faces[0].manaCost.value] else []) + NonNull(rest);
      JoinEmptyIsConcat(xs);
      JoinEmptyIsConcat(NonNull(rest));
      if faces[0].manaCost.Some? {
        var v := faces[0].manaCost.value;
        assert xs == [v] + NonNull(rest) && xs[1..] == NonNull(rest);
        assert Concat(xs) == v + Concat(NonNull(rest));
        assert v + "" == v;
      } else {
        assert xs == NonNull(rest);
      }
    }
  }

  lemma {:induction false} EmptyStrings(vals: seq<Option<string>>)
    requires forall i :: 0 <= i < |vals| ==> vals[i] == Some("")
    ensures Concat(NonNull(vals)) == ""
    ensures |NonNull(vals)| == |vals|
  {
    if |vals| > 0 {
      EmptyStrings(vals[1..]);
    }
  }

  // ---------------------------------------------------------------------
  // The Card record

  datatype Card = Card(
    id: int,
    layout: string,
    name: string,
    names: seq<string>,
    manaCost: Option<string>,
    cmc: Option<seq<string>>,
    typeLine: string,
    text: Option<string>)

  /**
    Card(params): `names` and `cmc` arrive joined with '|' and are split when
    present; a card without `names` gets the one-element list of its name.
   */
  function NewCard(params: Row): (c: Card)
    ensures |c.names| >= 1
    ensures params.names.None? ==> c.names == [params.name]
    ensures params.names.Some? ==> Join("|", c.names) == params.names.value && NoPipe(c.names)
    ensures c.cmc.Some? <==> params.cmc.Some?
    ensures params.cmc.Some? ==> Join("|", c.cmc.value) == params.cmc.value && NoPipe(c.cmc.value)
    ensures c.id == params.id && c.layout == params.layout && c.name == params.name
    ensures c.manaCost == params.manaCost && c.typeLine == params.typeLine && c.text == params.text
  {
    var names := if params.names.Some? then Split(params.names.value, '|') else [];
    var cmc := if params.cmc.Some? then Some(Split(params.cmc.value, '|')) else None;
    JoinSplit(params.names.GetOr(""), '|');
    JoinSplit(params.cmc.GetOr(""), '|');
    Card(params.id, params.layout, params.name,
         if names == [] then [params.name] else names,
         params.manaCost, cmc, params.typeLine, params.text)
  }

  predicate NoPipe(xs: seq<string>) {
    forall k :: 0 <= k < |xs| ==> Excludes(xs[k], '|')
  }

  /**
    Reading a card back and building its record recovers its face names in
    position order, and the cmc of every face that has one, as long as no
    value contains the '|' that joins them.
   */
  lemma ProjectedCardRoundTrip(id: int, layout: string, faces: seq<FaceView>)
    requires |faces| > 0
    requires NoPipe(Values(faces, FaceName(false)))
    requires NoPipe(NonNull(seq(|faces|, i requires 0 <= i < |faces| => faces[i].cmc)))
    ensures NewCard(ProjectRow(id, layout, faces)).names == Values(faces, FaceName(false))
    ensures var cmcs := NonNull(seq(|faces|, i requires 0 <= i < |faces| => faces[i].cmc));
            NewCard(ProjectRow(id, layout, faces)).cmc == if cmcs == [] then None else Some(cmcs)
  {
    var names := Values(faces, FaceName(false));
    NonNullSomes(names);
    SplitJoin(names, '|');
    assert Join("|", names) == Join(['|'], names);
    var cmcs := NonNull(seq(|faces|, i requires 0 <= i < |faces| => faces[i].cmc));
    if cmcs != [] {
      SplitJoin(cmcs, '|');
      assert Join("|", cmcs) == Join(['|'], cmcs);
    }
  }

  /** The projected text is every face's text, joined by the separator line. */
  lemma TextRule(faces: seq<FaceView>)
    requires |faces| > 0
    ensures TextSelect(faces) == Some(Join(TextSeparator, Values(faces, (f: FaceView) => f.text)))
  {
    NonNullSomes(Values(faces, (f: FaceView) => f.text));
  }

  function IsCreature(c: Card): bool {
    Contains(c.typeLine, "Creature")
  }

  function IsLand(c: Card): bool {
    Contains(c.typeLine, "Land")
  }

  /** A spell is exactly a card that is neither a creature nor a land. */
  function IsSpell(c: Card): (r: bool)
    ensures r <==> Find(c.typeLine, "Creature") < 0 && Find(c.typeLine, "Land") < 0
  {
    !IsCreature(c) && !IsLand(c)
  }

  // ---------------------------------------------------------------------
  // Accent stripping

  /** Nonspacing combining marks (category Mn) of the combining-diacritics blocks. */
  predicate IsMn(c: char) {
    ('\U{300}' <= c <= '\U{36F}') || ('\U{1DC0}' <= c <= '\U{1DFF}') || ('\U{FE20}' <= c <= '\U{FE2F}')
  }

  const GraveAcuteCircumflexTildeDiaeresisRing: seq<char> := ['\U{300}', '\U{301}', '\U{302}', '\U{303}', '\U{308}', '\U{30A}']
  const GraveAcuteCircumflexTildeDiaeresis: seq<char> := ['\U{300}', '\U{301}', '\U{302}', '\U{303}', '\U{308}']
  const GraveAcuteCircumflexDiaeresis: seq<char> := ['\U{300}', '\U{301}', '\U{302}', '\U{308}']

  /** Canonical decomposition (NFD) of one character, for the accented Latin-1 letters. */
  function Decompose(c: char): (d: string)
    ensures 1 <= |d| <= 2
  {
    var k := c as int;
    if 0xC0 <= k <= 0xC5 then ['A', GraveAcuteCircumflexTildeDiaeresisRing[k - 0xC0]]
    else if 0xE0 <= k <= 0xE5 then ['a', GraveAcuteCircumflexTildeDiaeresisRing[k - 0xE0]]
    else if k == 0xC7 then ['C', '\U{327}']
    else if k == 0xE7 then ['c', '\U{327}']
    else if 0xC8 <= k <= 0xCB then ['E', GraveAcuteCircumflexDiaeresis[k - 0xC8]]
    else if 0xE8 <= k <= 0xEB then ['e', GraveAcuteCircumflexDiaeresis[k - 0xE8]]
    else if 0xCC <= k <= 0xCF then ['I', GraveAcuteCircumflexDiaeresis[k - 0xCC]]
    else if 0xEC <= k <= 0xEF then ['i', GraveAcuteCircumflexDiaeresis[k - 0xEC]]
    else if k == 0xD1 then ['N', '\U{303}']
    else if k == 0xF1 then ['n', '\U{303}']
    else if 0xD2 <= k <= 0xD6 then ['O', GraveAcuteCircumflexTildeDiaeresis[k - 0xD2]]
    else if 0xF2 <= k <= 0xF6 then ['o', GraveAcuteCircumflexTildeDiaeresis[k - 0xF2]]
    else if 0xD9 <= k <= 0xDC then ['U', GraveAcuteCircumflexDiaeresis[k - 0xD9]]
    else if 0xF9 <= k <= 0xFC then ['u', GraveAcuteCircumflexDiaeresis[k - 0xF9]]
    else if k == 0xDD then ['Y', '\U{301}']
    else if k == 0xFD then ['y', '\U{301}']
    else if k == 0xFF then ['y', '\U{308}']
    else [c]
  }

  /** A character that NFD leaves alone and that is not a combining mark. */
  predicate Stable(c: char) {
    Decompose(c) == [c] && !IsMn(c)
  }

  /** NFD leaves a base letter followed by one combining mark, or the character itself. */
  lemma DecomposeShape(c: char)
    ensures Decompose(c) == [c] || (|Decompose(c)| == 2 && Stable(Decompose(c)[0]) && IsMn(Decompose(c)[1]))
    ensures !IsUpper(c) ==> forall i :: 0 <= i < |Decompose(c)| ==> !IsUpper(Decompose(c)[i])
  {
  }

  /** NFD leaves every character outside the accented Latin-1 range alone. */
  lemma DecomposeOutside(c: char)
    requires c as int < 0xC0 || c as int > 0xFF
    ensures Decompose(c) == [c]
  {
  }

  function Nfd(s: string): string {
    if |s| == 0 then "" else Decompose(s[0]) + Nfd(s[1..])
  }

  function DropMarks(s: string): (r: string)
    ensures forall i :: 0 <= i < |r| ==> !IsMn(r[i])
  {
    if |s| == 0 then "" else (if IsMn(s[0]) then "" else [s[0]]) + DropMarks(s[1..])
  }

  /** unaccent: NFD, then every combining mark removed. */
  function Unaccent(s: string): (r: string)
    ensures forall i :: 0 <= i < |r| ==> !IsMn(r[i])
  {
    DropMarks(Nfd(s))
  }

  predicate AllStable(s: string) {
    forall i :: 0 <= i < |s| ==> Stable(s[i])
  }

  lemma {:induction false} DropMarksAppend(a: string, b: string)
    ensures DropMarks(a + b) == DropMarks(a) + DropMarks(b)
  {
    if |a| > 0 {
      DropMarksAppend(a[1..], b);
      assert (a + b)[1..] == a[1..] + b;
    } else {
      assert a + b == b;
    }
  }

  /** Unaccent works character by character. */
  lemma {:induction false} UnaccentCons(s: string)
    requires |s| > 0
    ensures Unaccent(s) == DropMarks(Decompose(s[0])) + Unaccent(s[1..])
  {
    DropMarksAppend(Decompose(s[0]), Nfd(s[1..]));
  }

  /** What unaccent keeps of one character: its base letter, or the character unless it is a mark. */
  lemma DropMarksDecomposed(c: char)
    ensures AllStable(DropMarks(Decompose(c)))
    ensures !IsUpper(c) ==> NoUpper(DropMarks(Decompose(c)))
  {
    DecomposeShape(c);
    var d := Decompose(c);
    if d != [c] {
      assert DropMarks(d) == [d[0]] + DropMarks(d[1..]);
      assert DropMarks(d[1..]) == "" + DropMarks(d[2..]);
      assert DropMarks(d) == [d[0]];
    } else if IsMn(c) {
      assert DropMarks(d) == "";
    } else {
      assert DropMarks(d) == [c];
    }
  }

  lemma StableAppend(a: string, b: string)
    requires AllStable(a) && AllStable(b)
    ensures AllStable(a + b)
    ensures NoUpper(a) && NoUpper(b) ==> NoUpper(a + b)
  {
    assert forall i :: |a| <= i < |a + b| ==> (a + b)[i] == b[i - |a|];
  }

  /** Every character unaccent leaves behind is stable, and it adds no upper-case letter. */
  lemma {:induction false} UnaccentStable(s: string)
    ensures AllStable(Unaccent(s))
    ensures NoUpper(s) ==> NoUpper(Unaccent(s))
  {
    if |s| > 0 {
      UnaccentCons(s);
      UnaccentStable(s[1..]);
      DropMarksDecomposed(s[0]);
      StableAppend(DropMarks(Decompose(s[0])), Unaccent(s[1..]));
    }
  }

  /** Unaccent leaves a string of stable characters unchanged. */
  lemma {:induction false} UnaccentOfStable(s: string)
    requires AllStable(s)
    ensures Unaccent(s) == s
  {
    if |s| > 0 {
      UnaccentCons(s);
      UnaccentOfStable(s[1..]);
      assert DropMarks([s[0]]) == [s[0]] + DropMarks([]);
      assert s == [s[0]] + s[1..];
    }
  }

  lemma UnaccentIdempotent(s: string)
    ensures Unaccent(Unaccent(s)) == Unaccent(s)
  {
    UnaccentStable(s);
    UnaccentOfStable(Unaccent(s));
  }

  // ---------------------------------------------------------------------
  // Canonical names

  /** canonicalize as written: strip, lower-case, then unaccent. */
  function Canonicalize(name: string): (r: string)
    ensures NoUpper(r) && AllStable(r)
  {
    LowerNoUpper(Strip(name));
    UnaccentStable(Lower(Strip(name)));
    Unaccent(Lower(Strip(name)))
  }

  lemma AllStableSlice(s: string, a: int, b: int)
    requires 0 <= a <= b <= |s| && AllStable(s) && NoUpper(s)
    ensures AllStable(s[a..b]) && NoUpper(s[a..b])
  {
    assert forall i :: 0 <= i < b - a ==> s[a..b][i] == s[a + i];
  }

  /**
    Canonicalising twice only strips once more: the second pass removes the
    whitespace that unaccent exposed at the ends by dropping a combining mark.
   */
  lemma CanonicalizeTwice(name: string)
    ensures Canonicalize(Canonicalize(name)) == Strip(Canonicalize(name))
  {
    var c := Canonicalize(name);
    StripSlice(c);
    var a, b :| 0 <= a <= b <= |c| && Strip(c) == c[a..b];
    AllStableSlice(c, a, b);
    LowerNoUpper(Strip(c));
    UnaccentOfStable(Strip(c));
  }

  lemma StripMarkSpace()
    ensures Strip("\U{301} a") == "\U{301} a"
  {
    var s := "\U{301} a";
    assert !IsSpace(s[0]) && !IsSpace(s[2]);
    StripSlice(s);
  }

  lemma UnaccentMarkSpace()
    ensures Unaccent("\U{301} a") == " a"
  {
    var s := "\U{301} a";
    UnaccentCons(s);
    DecomposeOutside(s[0]);
    assert DropMarks([s[0]]) == "" + DropMarks([]);
    assert s[1..] == " a";
    DecomposeOutside(' ');
    DecomposeOutside('a');
    assert AllStable(" a");
    UnaccentOfStable(" a");
  }

  lemma CanonicalizeSpaceA()
    ensures Canonicalize(" a") == "a"
  {
    var t := " a";
    assert IsSpace(t[0]) && t[1..] == "a";
    assert LStrip(t) == "a";
    assert RStrip("a") == "a";
    LowerNoUpper("a");
    DecomposeOutside('a');
    assert AllStable("a");
    UnaccentOfStable("a");
  }

  /** A leading combining mark followed by a space: canonicalize is not idempotent. */
  lemma CanonicalizeNotIdempotent()
    ensures Canonicalize("\U{301} a") == " a"
    ensures Canonicalize(Canonicalize("\U{301} a")) == "a"
  {
    StripMarkSpace();
    LowerNoUpper("\U{301} a");
    UnaccentMarkSpace();
    CanonicalizeSpaceA();
  }

  /** canonicalize with a final strip: the canonical name used to compare card names. */
  function CanonicalName(name: string): (r: string)
    ensures NoUpper(r) && AllStable(r) && NoEdgeSpace(r)
  {
    var c := Canonicalize(name);
    StripStable(c);
    Strip(c)
  }

  /** Stripping a stable lower-case string leaves one without edge whitespace. */
  lemma StripStable(c: string)
    requires AllStable(c) && NoUpper(c)
    ensures AllStable(Strip(c)) && NoUpper(Strip(c)) && NoEdgeSpace(Strip(c))
  {
    StripSlice(c);
    var a, b :| 0 <= a <= b <= |c| && Strip(c) == c[a..b];
    AllStableSlice(c, a, b);
  }

  lemma CanonicalNameIdempotent(name: string)
    ensures CanonicalName(CanonicalName(name)) == CanonicalName(name)
  {
    var n := CanonicalName(name);
    StripSlice(n);
    LowerNoUpper(n);
    UnaccentOfStable(n);
  }

  /** Where canonicalize already leaves no edge whitespace, the two agree. */
  lemma CanonicalNameAgrees(name: string)
    requires NoEdgeSpace(Canonicalize(name))
    ensures CanonicalName(name) == Canonicalize(name)
  {
    StripSlice(Canonicalize(name));
  }
}
