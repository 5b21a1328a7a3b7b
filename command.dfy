/**
  The pure helpers of the chat bot's command module (discordbot/command.py):
  card queries in square brackets, loose string matching, one card per
  canonical name, command lookup, resource search, the help length cap and
  the split of a message into command and arguments.
 */
module DiscordCommand {
  import opened Wrappers
  import opened Text
  import MagicCard

  // ---------------------------------------------------------------------
  // parse_queries

  /** The first index at or after `from` holding `c`, or |s| when there is none. */
  function IndexFrom(s: string, c: char, from: nat): (k: nat)
    requires from <= |s|
    ensures from <= k <= |s|
    ensures k < |s| ==> s[k] == c
    ensures forall i :: from <= i < k ==> s[i] != c
    decreases |s| - from
  {
    if from == |s| || s[from] == c then from else IndexFrom(s, c, from + 1)
  }

  /**
    re.findall(r'\[?\[([^\]]*)\]\]?', s): at the first '[' a match opens
    (after a second '[' when there is one), its group runs to the next ']',
    and one more ']' is swallowed when it follows. Without a ']' ahead
    nothing more matches.
   */
  function FindQueries(s: string): (qs: seq<string>)
    ensures forall k :: 0 <= k < |qs| ==> Excludes(qs[k], ']')
    decreases |s|
  {
    if |s| == 0 then []
    else if s[0] != '[' then FindQueries(s[1..])
    else
      var open := if |s| >= 2 && s[1] == '[' then 2 else 1;
      var close := IndexFrom(s, ']', open);
      if close == |s| then []
      else
        var next := if close + 1 < |s| && s[close + 1] == ']' then close + 2 else close + 1;
        var q := s[open..close];
        assert Excludes(q, ']') by {
          forall i | 0 <= i < |q|
            ensures q[i] != ']'
          {
            assert q[i] == s[open + i];
          }
        }
        var rest := FindQueries(s[next..]);
        assert ([q] + rest)[0] == q;
        assert forall k :: 1 <= k < |rest| + 1 ==> ([q] + rest)[k] == rest[k - 1];
        [q] + rest
  }

  function LowerAll(qs: seq<string>): (r: seq<string>)
    ensures |r| == |qs| && forall k :: 0 <= k < |qs| ==> r[k] == Lower(qs[k])
  {
    seq(|qs|, k requires 0 <= k < |qs| => Lower(qs[k]))
  }

  /** parse_queries: the lower-cased contents of the bracketed spans, in order. */
  function ParseQueries(content: string): (qs: seq<string>)
    ensures forall k :: 0 <= k < |qs| ==> Excludes(qs[k], ']') && NoUpper(qs[k])
  {
    var found := FindQueries(content);
    assert forall k :: 0 <= k < |found| ==> LowerAll(found)[k] == Lower(found[k]);
    forall k | 0 <= k < |found|
      ensures NoUpper(LowerAll(found)[k])
    {
      LowerNoUpper(found[k]);
    }
    LowerAll(found)
  }

  /** A message without '[' asks for no card. */
  lemma {:induction false} NoBracketNoQuery(s: string)
    requires Excludes(s, '[')
    ensures FindQueries(s) == []
    decreases |s|
  {
    if |s| > 0 {
      NoBracketNoQuery(s[1..]);
    }
  }

  /** The first `c` at or after `from` is found. */
  lemma IndexFromFirst(s: string, c: char, from: nat, k: nat)
    requires from <= k < |s| && s[k] == c
    requires forall i :: from <= i < k ==> s[i] != c
    ensures IndexFrom(s, c, from) == k
  {
  }

  /** "[[" + q + "]]" is read back as q. */
  lemma DoubleBracket(q: string, rest: string)
    requires Excludes(q, ']')
    ensures FindQueries("[[" + q + "]]" + rest) == [q] + FindQueries(rest)
  {
    var s := "[[" + q + "]]" + rest;
    assert s[0] == '[' && s[1] == '[';
    assert s[|q| + 2] == ']' && s[|q| + 3] == ']';
    IndexFromFirst(s, ']', 2, |q| + 2);
    assert s[2..|q| + 2] == q;
    assert s[|q| + 4..] == rest;
  }

  /** Where the scan of "[" + q + "]" + rest finds the closing bracket, and what lies around it. */
  lemma SingleBracketScan(q: string, rest: string, s: string)
    requires Excludes(q, ']') && (|q| == 0 || q[0] != '[')
    requires s == "[" + q + "]" + rest
    ensures s[0] == '[' && (|s| >= 2 ==> s[1] != '[')
    ensures IndexFrom(s, ']', 1) == |q| + 1
    ensures s[1..|q| + 1] == q && s[|q| + 2..] == rest
    ensures |rest| > 0 ==> s[|q| + 2] == rest[0]
  {
    assert s[|q| + 1] == ']';
    assert |s| >= 2 ==> s[1] != '[' by {
      if |q| > 0 { assert s[1] == q[0]; }
    }
    forall i | 1 <= i < |q| + 1
      ensures s[i] != ']'
    {
      assert s[i] == q[i - 1];
    }
    IndexFromFirst(s, ']', 1, |q| + 1);
  }

  /** "[" + q + "]" is read back as q when q does not itself open with '[' and no ']' follows. */
  lemma SingleBracket(q: string, rest: string)
    requires Excludes(q, ']') && (|q| == 0 || q[0] != '[')
    requires |rest| == 0 || rest[0] != ']'
    ensures FindQueries("[" + q + "]" + rest) == [q] + FindQueries(rest)
  {
    var s := "[" + q + "]" + rest;
    SingleBracketScan(q, rest, s);
  }

  /** The queries written out as "[[q]]" one after the other. */
  function Render(qs: seq<string>): string {
    if |qs| == 0 then "" else "[[" + qs[0] + "]]" + Render(qs[1..])
  }

  /** Parsing what Render wrote gives the queries back, lower-cased. */
  lemma {:induction false} RenderParse(qs: seq<string>)
    requires forall k :: 0 <= k < |qs| ==> Excludes(qs[k], ']')
    ensures FindQueries(Render(qs)) == qs
    ensures ParseQueries(Render(qs)) == LowerAll(qs)
  {
    if |qs| > 0 {
      RenderParse(qs[1..]);
      DoubleBracket(qs[0], Render(qs[1..]));
      assert qs == [qs[0]] + qs[1..];
    }
  }

  // ---------------------------------------------------------------------
  // simplify_string and roughly_matches

  /**
    The characters re's \w keeps apart from '_', those str.isalnum accepts:
    letters, digits and numerics (ASCII and Latin-1, which adds the
    superscripts two, three and one and the fractions a quarter, a half and
    three quarters).
   */
  predicate IsAlnum(c: char) {
    || ('a' <= c <= 'z') || ('A' <= c <= 'Z') || ('0' <= c <= '9')
    || c == '\U{AA}' || c == '\U{B2}' || c == '\U{B3}' || c == '\U{B5}' || c == '\U{B9}' || c == '\U{BA}'
    || ('\U{BC}' <= c <= '\U{BE}')
    || ('\U{C0}' <= c <= '\U{FF}' && c != '\U{D7}' && c != '\U{F7}')
  }

  /** re.sub(r'[\W_]+', '', s): every character that is not a letter or digit removed. */
  function KeepAlnum(s: string): string {
    if |s| == 0 then ""
    else (if IsAlnum(s[0]) then [s[0]] else "") + KeepAlnum(s[1..])
  }

  /** Only letters and digits remain, and text made of them is left unchanged. */
  lemma {:induction false} KeepAlnumSpec(s: string)
    ensures forall i :: 0 <= i < |KeepAlnum(s)| ==> IsAlnum(KeepAlnum(s)[i])
    ensures (forall i :: 0 <= i < |s| ==> IsAlnum(s[i])) ==> KeepAlnum(s) == s
  {
    if |s| > 0 {
      KeepAlnumSpec(s[1..]);
      var h := if IsAlnum(s[0]) then [s[0]] else "";
      var rest := KeepAlnum(s[1..]);
      assert KeepAlnum(s) == h + rest;
      forall i | 0 <= i < |h + rest|
        ensures IsAlnum((h + rest)[i])
      {
        if i >= |h| { assert (h + rest)[i] == rest[i - |h|]; }
      }
      if forall i :: 0 <= i < |s| ==> IsAlnum(s[i]) {
        assert forall i :: 0 <= i < |s[1..]| ==> s[1..][i] == s[i + 1];
        assert s == [s[0]] + s[1..];
      }
    }
  }

  /** simplify_string: the whitespace-free join of the words, without non-word characters, lower-cased. */
  function SimplifyString(s: string): string {
    Lower(KeepAlnum(Concat(Words(s))))
  }

  lemma {:induction false} KeepAlnumAppend(a: string, b: string)
    ensures KeepAlnum(a + b) == KeepAlnum(a) + KeepAlnum(b)
    decreases |a|
  {
    if |a| > 0 {
      KeepAlnumAppend(a[1..], b);
      assert (a + b)[0] == a[0] && (a + b)[1..] == a[1..] + b;
      var h := if IsAlnum(a[0]) then [a[0]] else "";
      assert KeepAlnum(a + b) == h + KeepAlnum(a[1..] + b);
      assert KeepAlnum(a) == h + KeepAlnum(a[1..]);
      assert h + (KeepAlnum(a[1..]) + KeepAlnum(b)) == (h + KeepAlnum(a[1..])) + KeepAlnum(b);
    } else {
      assert a + b == b;
    }
  }

  /** Whitespace is never a word character, so dropping it first changes nothing. */
  lemma {:induction false} KeepAlnumRemoveSpaces(s: string)
    ensures KeepAlnum(RemoveSpaces(s)) == KeepAlnum(s)
    decreases |s|
  {
    if |s| > 0 {
      KeepAlnumRemoveSpaces(s[1..]);
      var head := if IsSpace(s[0]) then "" else [s[0]];
      KeepAlnumAppend(head, RemoveSpaces(s[1..]));
      assert KeepAlnum(s) == KeepAlnum([s[0]]) + KeepAlnum(s[1..]) by {
        KeepAlnumAppend([s[0]], s[1..]);
        assert s == [s[0]] + s[1..];
      }
    }
  }

  lemma LowerAlnum(s: string)
    requires forall i :: 0 <= i < |s| ==> IsAlnum(s[i])
    ensures forall i :: 0 <= i < |Lower(s)| ==> IsAlnum(Lower(s)[i])
  {
  }

  /**
    simplify_string keeps exactly the letters and digits, lower-cased: no
    whitespace, underscore or punctuation is left, and no upper case.
   */
  lemma SimplifyStringSpec(s: string)
    ensures SimplifyString(s) == Lower(KeepAlnum(s))
    ensures forall i :: 0 <= i < |SimplifyString(s)| ==>
              var c := SimplifyString(s)[i];
              IsAlnum(c) && !IsUpper(c) && !IsSpace(c) && c != '_'
  {
    ConcatWords(s);
    KeepAlnumRemoveSpaces(s);
    var r := Lower(KeepAlnum(s));
    KeepAlnumSpec(s);
    LowerAlnum(KeepAlnum(s));
    LowerNoUpper(KeepAlnum(s));
    forall i | 0 <= i < |r|
      ensures !IsSpace(r[i]) && r[i] != '_'
    {
      AlnumNotSpace(r[i]);
    }
  }

  lemma AlnumNotSpace(c: char)
    requires IsAlnum(c)
    ensures !IsSpace(c) && c != '_'
  {
  }

  /** Simplifying twice is simplifying once. */
  lemma SimplifyStringIdempotent(s: string)
    ensures SimplifyString(SimplifyString(s)) == SimplifyString(s)
  {
    var r := SimplifyString(s);
    SimplifyStringSpec(s);
    SimplifyStringSpec(r);
    KeepAlnumSpec(r);
    LowerNoUpper(r);
  }

  /** roughly_matches: the simplified s2 occurs in the simplified s1. */
  function RoughlyMatches(s1: string, s2: string): (b: bool)
    ensures b <==> Contains(SimplifyString(s1), SimplifyString(s2))
  {
    Find(SimplifyString(s1), SimplifyString(s2)) >= 0
  }

  /** Every string roughly matches itself, and a query that simplifies to nothing matches everything. */
  lemma RoughlyMatchesSelf(s: string, t: string)
    ensures RoughlyMatches(s, s)
    ensures SimplifyString(t) == "" ==> RoughlyMatches(s, t)
  {
    var a := SimplifyString(s);
    assert OccursAt(a, a, 0) by {
      assert a[0..|a|] == a;
    }
    assert OccursAt(a, "", 0);
  }

  // ---------------------------------------------------------------------
  // uniqify_cards

  /** The key uniqify_cards files a card under: its canonical name. */
  function Key(c: MagicCard.Card): string {
    MagicCard.CanonicalName(c.name)
  }

  /** The key as the source computes it, with canonicalize as written. */
  function KeyAsWritten(c: MagicCard.Card): string {
    MagicCard.Canonicalize(c.name)
  }

  /** The functions below are stated for any key; uniqify_cards uses Key. */
  type KeyOf = MagicCard.Card -> string

  /** The keys of the OrderedDict: each canonical name once, where it first occurs. */
  function DistinctKeys(cards: seq<MagicCard.Card>, key: KeyOf): seq<string> {
    if |cards| == 0 then []
    else
      var ks := DistinctKeys(cards[..|cards| - 1], key);
      var k := key(cards[|cards| - 1]);
      if k in ks then ks else ks + [k]
  }

  /** The dictionary's keys: no name twice, and exactly the names of the cards. */
  lemma {:induction false} DistinctKeysSpec(cards: seq<MagicCard.Card>, key: KeyOf)
    ensures forall a, b :: 0 <= a < b < |DistinctKeys(cards, key)| ==> DistinctKeys(cards, key)[a] != DistinctKeys(cards, key)[b]
    ensures forall k :: k in DistinctKeys(cards, key) <==> exists i :: 0 <= i < |cards| && key(cards[i]) == k
  {
    if |cards| > 0 {
      var prefix := cards[..|cards| - 1];
      var ks0 := DistinctKeys(prefix, key);
      var last := key(cards[|cards| - 1]);
      var ks := DistinctKeys(cards, key);
      DistinctKeysSpec(prefix, key);
      assert ks == if last in ks0 then ks0 else ks0 + [last];
      forall k
        ensures k in ks <==> exists i :: 0 <= i < |cards| && key(cards[i]) == k
      {
        if k in ks {
          if k == last {
            assert key(cards[|cards| - 1]) == k;
          } else {
            assert k in ks0;
            var i :| 0 <= i < |prefix| && key(prefix[i]) == k;
            assert prefix[i] == cards[i];
          }
        }
        if exists i :: 0 <= i < |cards| && key(cards[i]) == k {
          var i :| 0 <= i < |cards| && key(cards[i]) == k;
          if i < |prefix| {
            assert prefix[i] == cards[i];
            assert k in ks0;
          }
        }
      }
    }
  }

  /** Name x occurs in the cards before name y first does. */
  predicate FirstBefore(cards: seq<MagicCard.Card>, key: KeyOf, x: string, y: string) {
    exists i :: 0 <= i < |cards| && key(cards[i]) == x && forall j :: 0 <= j <= i ==> key(cards[j]) != y
  }

  lemma FirstBeforeExtends(prefix: seq<MagicCard.Card>, cards: seq<MagicCard.Card>, key: KeyOf, x: string, y: string)
    requires |prefix| <= |cards| && prefix == cards[..|prefix|]
    requires FirstBefore(prefix, key, x, y)
    ensures FirstBefore(cards, key, x, y)
  {
    var i :| 0 <= i < |prefix| && key(prefix[i]) == x && forall j :: 0 <= j <= i ==> key(prefix[j]) != y;
    assert key(cards[i]) == x;
    forall j | 0 <= j <= i
      ensures key(cards[j]) != y
    {
      assert cards[j] == prefix[j];
    }
  }

  lemma FirstBeforeNew(prefix: seq<MagicCard.Card>, cards: seq<MagicCard.Card>, key: KeyOf, x: string, y: string)
    requires |prefix| <= |cards| && prefix == cards[..|prefix|]
    requires exists i :: 0 <= i < |prefix| && key(prefix[i]) == x
    requires forall j :: 0 <= j < |prefix| ==> key(prefix[j]) != y
    ensures FirstBefore(cards, key, x, y)
  {
    var i :| 0 <= i < |prefix| && key(prefix[i]) == x;
    assert key(cards[i]) == x;
    forall j | 0 <= j <= i
      ensures key(cards[j]) != y
    {
      assert cards[j] == prefix[j];
    }
  }

  /**
    The dictionary's keys are in the order of their first occurrence: the
    earlier of two keys occurs in the cards before the later one first does.
   */
  lemma {:induction false} DistinctKeysOrder(cards: seq<MagicCard.Card>, key: KeyOf)
    ensures forall a, b :: 0 <= a < b < |DistinctKeys(cards, key)| ==>
              FirstBefore(cards, key, DistinctKeys(cards, key)[a], DistinctKeys(cards, key)[b])
  {
    if |cards| > 0 {
      var prefix := cards[..|cards| - 1];
      var ks0 := DistinctKeys(prefix, key);
      var last := key(cards[|cards| - 1]);
      var ks := DistinctKeys(cards, key);
      DistinctKeysOrder(prefix, key);
      DistinctKeysSpec(prefix, key);
      assert ks == if last in ks0 then ks0 else ks0 + [last];
      forall a, b | 0 <= a < b < |ks|
        ensures FirstBefore(cards, key, ks[a], ks[b])
      {
        if b < |ks0| {
          assert ks0[a] == ks[a] && ks0[b] == ks[b];
          assert FirstBefore(prefix, key, ks0[a], ks0[b]);
          FirstBeforeExtends(prefix, cards, key, ks[a], ks[b]);
        } else {
          assert ks[a] == ks0[a] && ks0[a] in ks0 && ks[b] == last && last !in ks0;
          FirstBeforeNew(prefix, cards, key, ks[a], ks[b]);
        }
      }
    } else {
      assert DistinctKeys(cards, key) == [];
    }
  }

  /** The values of the OrderedDict: for each canonical name, the last card with it. */
  function LastByKey(cards: seq<MagicCard.Card>, key: KeyOf): map<string, MagicCard.Card> {
    if |cards| == 0 then map[]
    else LastByKey(cards[..|cards| - 1], key)[key(cards[|cards| - 1]) := cards[|cards| - 1]]
  }

  /** The dictionary holds exactly the distinct names, each mapped to one of the cards with that name. */
  lemma {:induction false} LastByKeySpec(cards: seq<MagicCard.Card>, key: KeyOf)
    ensures forall k :: k in LastByKey(cards, key) <==> k in DistinctKeys(cards, key)
    ensures forall k :: k in LastByKey(cards, key) ==> key(LastByKey(cards, key)[k]) == k && LastByKey(cards, key)[k] in cards
  {
    if |cards| > 0 {
      var prefix := cards[..|cards| - 1];
      LastByKeySpec(prefix, key);
      assert forall c :: c in prefix ==> c in cards;
    }
  }

  /** list(results.values()): one card per canonical name, in first-occurrence order. */
  function Uniqified(cards: seq<MagicCard.Card>, key: KeyOf): seq<MagicCard.Card> {
    var ks := DistinctKeys(cards, key);
    var m := LastByKey(cards, key);
    LastByKeySpec(cards, key);
    assert forall i :: 0 <= i < |ks| ==> ks[i] in m;
    seq(|ks|, i requires 0 <= i < |ks| => m[ks[i]])
  }

  /**
    uniqify_cards: no two results share a canonical name, every card's name
    is represented, and every result is one of the cards.
   */
  lemma UniqifiedSpec(cards: seq<MagicCard.Card>, key: KeyOf)
    ensures forall a, b :: 0 <= a < b < |Uniqified(cards, key)| ==> key(Uniqified(cards, key)[a]) != key(Uniqified(cards, key)[b])
    ensures forall i :: 0 <= i < |cards| ==> exists j :: 0 <= j < |Uniqified(cards, key)| && key(Uniqified(cards, key)[j]) == key(cards[i])
    ensures forall j :: 0 <= j < |Uniqified(cards, key)| ==> Uniqified(cards, key)[j] in cards
  {
    var r := Uniqified(cards, key);
    var ks := DistinctKeys(cards, key);
    UniqifiedKeys(cards, key);
    DistinctKeysSpec(cards, key);
    forall i | 0 <= i < |cards|
      ensures exists j :: 0 <= j < |r| && key(r[j]) == key(cards[i])
    {
      var k := key(cards[i]);
      assert k in ks;
      var j :| 0 <= j < |ks| && ks[j] == k;
      assert key(r[j]) == k;
    }
  }

  /** The i-th result is the card the dictionary keeps for the i-th key. */
  lemma UniqifiedKeys(cards: seq<MagicCard.Card>, key: KeyOf)
    ensures |Uniqified(cards, key)| == |DistinctKeys(cards, key)|
    ensures forall j :: 0 <= j < |Uniqified(cards, key)| ==>
              && DistinctKeys(cards, key)[j] in LastByKey(cards, key)
              && Uniqified(cards, key)[j] == LastByKey(cards, key)[DistinctKeys(cards, key)[j]]
              && key(Uniqified(cards, key)[j]) == DistinctKeys(cards, key)[j]
              && Uniqified(cards, key)[j] in cards
  {
    var r := Uniqified(cards, key);
    var ks := DistinctKeys(cards, key);
    var m := LastByKey(cards, key);
    DistinctKeysSpec(cards, key);
    LastByKeySpec(cards, key);
    forall j | 0 <= j < |r|
      ensures ks[j] in m && r[j] == m[ks[j]] && key(r[j]) == ks[j] && r[j] in cards
    {
      assert ks[j] in ks;
    }
  }

  /** The results follow the first occurrence of their names among the cards. */
  lemma UniqifiedOrder(cards: seq<MagicCard.Card>, key: KeyOf)
    ensures forall a, b :: 0 <= a < b < |Uniqified(cards, key)| ==>
              exists i :: 0 <= i < |cards| && key(cards[i]) == key(Uniqified(cards, key)[a]) &&
                          forall j :: 0 <= j <= i ==> key(cards[j]) != key(Uniqified(cards, key)[b])
  {
    UniqifiedKeys(cards, key);
    DistinctKeysOrder(cards, key);
  }

  /** Each result is the last card with its name. */
  lemma UniqifiedLast(cards: seq<MagicCard.Card>, key: KeyOf)
    ensures forall j :: 0 <= j < |Uniqified(cards, key)| ==>
              exists i :: 0 <= i < |cards| && cards[i] == Uniqified(cards, key)[j] &&
                          forall i2 :: i < i2 < |cards| ==> key(cards[i2]) != key(Uniqified(cards, key)[j])
  {
    UniqifiedKeys(cards, key);
    LastByKeyLast(cards, key);
  }

  /** Every kept card is the last card with its name: no later card shares it. */
  lemma {:induction false} LastByKeyLast(cards: seq<MagicCard.Card>, key: KeyOf)
    ensures forall k :: k in LastByKey(cards, key) ==>
              exists i :: 0 <= i < |cards| && cards[i] == LastByKey(cards, key)[k] && key(cards[i]) == k &&
                          forall j :: i < j < |cards| ==> key(cards[j]) != k
  {
    if |cards| > 0 {
      var prefix := cards[..|cards| - 1];
      var n := |cards| - 1;
      LastByKeyLast(prefix, key);
      var m := LastByKey(cards, key);
      forall k | k in m
        ensures exists i :: 0 <= i < |cards| && cards[i] == m[k] && key(cards[i]) == k &&
                            forall j :: i < j < |cards| ==> key(cards[j]) != k
      {
        if k == key(cards[n]) {
          assert cards[n] == m[k];
        } else {
          assert k in LastByKey(prefix, key) && m[k] == LastByKey(prefix, key)[k];
          var i :| 0 <= i < |prefix| && prefix[i] == m[k] && key(prefix[i]) == k &&
                   forall j :: i < j < |prefix| ==> key(prefix[j]) != k;
          assert cards[i] == prefix[i];
          forall j | i < j < |cards| ensures key(cards[j]) != k {
            if j < n {
              assert cards[j] == prefix[j];
            }
          }
        }
      }
    }
  }

  /** The card kept for a name is the last card with that name. */
  lemma {:induction false} LastByKeyIsLast(cards: seq<MagicCard.Card>, key: KeyOf, i: nat)
    requires i < |cards|
    requires forall j :: i < j < |cards| ==> key(cards[j]) != key(cards[i])
    ensures key(cards[i]) in LastByKey(cards, key) && LastByKey(cards, key)[key(cards[i])] == cards[i]
  {
    if i < |cards| - 1 {
      var prefix := cards[..|cards| - 1];
      assert prefix[i] == cards[i];
      forall j | i < j < |prefix| ensures key(prefix[j]) != key(prefix[i]) {
        assert prefix[j] == cards[j];
      }
      LastByKeyIsLast(prefix, key, i);
    }
  }

  /** One more card: its name is appended if new, and it becomes the card kept for its name. */
  lemma UniqifyStepAt(cards: seq<MagicCard.Card>, key: KeyOf, i: nat)
    requires i < |cards|
    ensures var k := key(cards[i]);
            var ks := DistinctKeys(cards[..i], key);
            var m := LastByKey(cards[..i], key);
            && DistinctKeys(cards[..i + 1], key) == (if k in m then ks else ks + [k])
            && LastByKey(cards[..i + 1], key) == m[k := cards[i]]
  {
    var seen := cards[..i + 1];
    assert seen[..|seen| - 1] == cards[..i] && seen[|seen| - 1] == cards[i];
    LastByKeySpec(cards[..i], key);
  }

  /** Every key of the dictionary built from all the cards has a kept card. */
  lemma DictKeysKept(cards: seq<MagicCard.Card>, key: KeyOf, keys: seq<string>, values: map<string, MagicCard.Card>)
    requires keys == DistinctKeys(cards[..|cards|], key) && values == LastByKey(cards[..|cards|], key)
    ensures forall a :: 0 <= a < |keys| ==> keys[a] in values
  {
    LastByKeySpec(cards[..|cards|], key);
  }

  /** The dictionary's values in key order are the uniqified list. */
  lemma UniqifiedFromDict(cards: seq<MagicCard.Card>, key: KeyOf, keys: seq<string>, values: map<string, MagicCard.Card>, r: seq<MagicCard.Card>)
    requires keys == DistinctKeys(cards[..|cards|], key) && values == LastByKey(cards[..|cards|], key)
    requires |r| == |keys| && forall a :: 0 <= a < |keys| ==> keys[a] in values && r[a] == values[keys[a]]
    ensures r == Uniqified(cards, key)
  {
    assert cards[..|cards|] == cards;
  }

  /** uniqify_cards: the cards, one per canonical name. */
  method UniqifyCards(cards: seq<MagicCard.Card>) returns (r: seq<MagicCard.Card>)
    ensures r == Uniqified(cards, Key)
  {
    r := UniqifyBy(cards, Key);
  }

  /** uniqify_cards keyed by canonicalize as written, which is not idempotent (see MagicCard). */
  method UniqifyCardsAsWritten(cards: seq<MagicCard.Card>) returns (r: seq<MagicCard.Card>)
    ensures r == Uniqified(cards, KeyAsWritten)
  {
    r := UniqifyBy(cards, KeyAsWritten);
  }

  /** The loop of uniqify_cards filling the OrderedDict, then its values in key order. */
  method UniqifyBy(cards: seq<MagicCard.Card>, key: KeyOf) returns (r: seq<MagicCard.Card>)
    ensures r == Uniqified(cards, key)
  {
    var keys: seq<string> := [];
    var values: map<string, MagicCard.Card> := map[];
    var i := 0;
    while i < |cards|
      invariant 0 <= i <= |cards|
      invariant keys == DistinctKeys(cards[..i], key)
      invariant values == LastByKey(cards[..i], key)
    {
      UniqifyStepAt(cards, key, i);
      var k := key(cards[i]);
      if k !in values {
        keys := keys + [k];
      }
      values := values[k := cards[i]];
      i := i + 1;
    }
    DictKeysKept(cards, key, keys, values);
    r := seq(|keys|, a requires 0 <= a < |keys| => values[keys[a]]);
    UniqifiedFromDict(cards, key, keys, values, r);
  }

  // ---------------------------------------------------------------------
  // cards_from_queries

  function Flatten(xss: seq<seq<MagicCard.Card>>): seq<MagicCard.Card> {
    if |xss| == 0 then [] else xss[0] + Flatten(xss[1..])
  }

  function LookupAll(queries: seq<string>, lookup: string -> seq<MagicCard.Card>): (r: seq<seq<MagicCard.Card>>)
    ensures |r| == |queries| && forall k :: 0 <= k < |queries| ==> r[k] == lookup(queries[k])
  {
    seq(|queries|, k requires 0 <= k < |queries| => lookup(queries[k]))
  }

  lemma {:induction false} FlattenSnoc(xss: seq<seq<MagicCard.Card>>, xs: seq<MagicCard.Card>)
    ensures Flatten(xss + [xs]) == Flatten(xss) + xs
    decreases |xss|
  {
    if |xss| > 0 {
      FlattenSnoc(xss[1..], xs);
      assert (xss + [xs])[1..] == xss[1..] + [xs];
    } else {
      assert xss + [xs] == [xs];
    }
  }

  /** cards_from_queries: the cards each query finds, one query after the other; `lookup` is the card search. */
  method CardsFromQueries(queries: seq<string>, lookup: string -> seq<MagicCard.Card>) returns (all: seq<MagicCard.Card>)
    ensures all == Flatten(LookupAll(queries, lookup))
  {
    all := [];
    var i := 0;
    while i < |queries|
      invariant 0 <= i <= |queries|
      invariant all == Flatten(LookupAll(queries[..i], lookup))
    {
      var found := lookup(queries[i]);
      assert LookupAll(queries[..i + 1], lookup) == LookupAll(queries[..i], lookup) + [found];
      FlattenSnoc(LookupAll(queries[..i], lookup), found);
      if |found| > 0 {
        all := all + found;
      } else {
        assert all + found == all;
      }
      i := i + 1;
    }
    assert queries[..|queries|] == queries;
  }

  // ---------------------------------------------------------------------
  // find_method

  /** The first name of `attrs` that is `cmd` or `_cmd`. */
  function FirstExact(attrs: seq<string>, cmd: string): (r: Option<nat>)
    ensures r.Some? ==> r.value < |attrs| && (attrs[r.value] == cmd || attrs[r.value] == "_" + cmd)
    ensures forall i :: 0 <= i < |attrs| && (r.None? || i < r.value) ==> attrs[i] != cmd && attrs[i] != "_" + cmd
    decreases |attrs|
  {
    if |attrs| == 0 then None
    else if attrs[0] == cmd || attrs[0] == "_" + cmd then Some(0)
    else
      var r := FirstExact(attrs[1..], cmd);
      assert forall i :: 1 <= i < |attrs| ==> attrs[i] == attrs[1..][i - 1];
      if r.None? then None else Some(r.value + 1)
  }

  /** The first name of `attrs` that starts with `cmd` or `_cmd`. */
  function FirstPrefix(attrs: seq<string>, cmd: string): (r: Option<nat>)
    ensures r.Some? ==> r.value < |attrs| && (StartsWith(attrs[r.value], cmd) || StartsWith(attrs[r.value], "_" + cmd))
    ensures forall i :: 0 <= i < |attrs| && (r.None? || i < r.value) ==>
              !StartsWith(attrs[i], cmd) && !StartsWith(attrs[i], "_" + cmd)
    decreases |attrs|
  {
    if |attrs| == 0 then None
    else if StartsWith(attrs[0], cmd) || StartsWith(attrs[0], "_" + cmd) then Some(0)
    else
      var r := FirstPrefix(attrs[1..], cmd);
      assert forall i :: 1 <= i < |attrs| ==> attrs[i] == attrs[1..][i - 1];
      if r.None? then None else Some(r.value + 1)
  }

  /** The command name find_method looks for: leading '!'s stripped, lower-cased. */
  function CommandName(name: string): string {
    Lower(LStripChar(name, '!'))
  }

  /**
    find_method over the attribute names of the command class, in the
    sorted order `dir` lists them: an exact name (`cmd` or `_cmd`) first,
    otherwise the first name it is a prefix of.
   */
  function FindMethod(attrs: seq<string>, name: string): Option<string> {
    var cmd := CommandName(name);
    if |cmd| == 0 then None
    else
      var exact := FirstExact(attrs, cmd);
      if exact.Some? then Some(attrs[exact.value])
      else
        var prefix := FirstPrefix(attrs, cmd);
        if prefix.Some? then Some(attrs[prefix.value]) else None
  }

  /**
    find_method: nothing for an empty command; an exact name beats every
    prefix match and is the earliest one; otherwise the earliest name the
    command is a prefix of; otherwise nothing.
   */
  lemma FindMethodSpec(attrs: seq<string>, name: string)
    ensures var cmd := CommandName(name);
            var r := FindMethod(attrs, name);
            && (|cmd| == 0 ==> r.None?)
            && (r.Some? ==> r.value in attrs && |cmd| > 0)
            && (|cmd| > 0 && (exists i :: 0 <= i < |attrs| && (attrs[i] == cmd || attrs[i] == "_" + cmd)) ==>
                  r.Some? && (r.value == cmd || r.value == "_" + cmd))
            && (|cmd| > 0 && (forall i :: 0 <= i < |attrs| ==> attrs[i] != cmd && attrs[i] != "_" + cmd) ==>
                  (r.Some? <==> exists i :: 0 <= i < |attrs| && (StartsWith(attrs[i], cmd) || StartsWith(attrs[i], "_" + cmd))))
            && (r.Some? ==> StartsWith(r.value, cmd) || StartsWith(r.value, "_" + cmd))
            && (r.Some? && (r.value == cmd || r.value == "_" + cmd) ==>
                  exists i :: 0 <= i < |attrs| && attrs[i] == r.value &&
                              forall j :: 0 <= j < i ==> attrs[j] != cmd && attrs[j] != "_" + cmd)
            && (r.Some? && r.value != cmd && r.value != "_" + cmd ==>
                  exists i :: 0 <= i < |attrs| && attrs[i] == r.value &&
                              forall j :: 0 <= j < i ==> !StartsWith(attrs[j], cmd) && !StartsWith(attrs[j], "_" + cmd))
  {
    var cmd := CommandName(name);
    if |cmd| > 0 {
      var exact := FirstExact(attrs, cmd);
      if exact.Some? {
        var m := attrs[exact.value];
        if m == cmd {
          assert m[..|cmd|] == cmd;
        } else {
          assert m[..|"_" + cmd|] == "_" + cmd;
        }
      }
    }
  }

  // ---------------------------------------------------------------------
  // resources_resources

  /** A resource section: its title and its items as (text, url) pairs. */
  type Section = (string, seq<(string, string)>)

  /** Whether the search words ask for an item: one word matching the title or the text, or two matching both in turn. */
  predicate Wanted(words: seq<string>, title: string, text: string) {
    || (|words| == 1 && (RoughlyMatches(title, words[0]) || RoughlyMatches(text, words[0])))
    || (|words| == 2 && RoughlyMatches(title, words[0]) && RoughlyMatches(text, words[1]))
  }

  function CollectItems(acc: map<string, string>, words: seq<string>, title: string, items: seq<(string, string)>): map<string, string>
    decreases |items|
  {
    if |items| == 0 then acc
    else
      var (text, url) := items[0];
      CollectItems(if Wanted(words, title, text) then acc[url := text] else acc, words, title, items[1..])
  }

  /** The results dict: url to text of each wanted item, a later item overriding an earlier one. */
  function Collect(acc: map<string, string>, words: seq<string>, sections: seq<Section>): map<string, string>
    decreases |sections|
  {
    if |sections| == 0 then acc
    else Collect(CollectItems(acc, words, sections[0].0, sections[0].1), words, sections[1..])
  }

  /** resources_resources: the nested loop over the sections and their items; `resources` is the fetched list. */
  method ResourcesResources(args: string, resources: seq<Section>) returns (results: map<string, string>)
    ensures results == Collect(map[], Words(args), resources)
  {
    results := map[];
    var words := Words(args);
    var i := 0;
    while i < |resources|
      invariant 0 <= i <= |resources|
      invariant Collect(results, words, resources[i..]) == Collect(map[], words, resources)
    {
      var (title, items) := resources[i];
      assert resources[i..][0] == resources[i] && resources[i..][1..] == resources[i + 1..];
      ghost var start := results;
      var j := 0;
      while j < |items|
        invariant 0 <= j <= |items|
        invariant CollectItems(results, words, title, items[j..]) == CollectItems(start, words, title, items)
      {
        var (text, url) := items[j];
        assert items[j..][0] == items[j] && items[j..][1..] == items[j + 1..];
        var sectionOnly := |words| == 1 && RoughlyMatches(title, words[0]);
        var sectionAndItem := |words| == 2 && RoughlyMatches(title, words[0]) && RoughlyMatches(text, words[1]);
        var itemOnly := |words| == 1 && RoughlyMatches(text, words[0]);
        if sectionOnly || sectionAndItem || itemOnly {
          results := results[url := text];
        }
        j := j + 1;
      }
      i := i + 1;
    }
  }

  /** An item with this url is wanted. */
  predicate Offers(words: seq<string>, sections: seq<Section>, url: string) {
    exists i, j :: 0 <= i < |sections| && 0 <= j < |sections[i].1| &&
                   sections[i].1[j].1 == url && Wanted(words, sections[i].0, sections[i].1[j].0)
  }

  lemma {:induction false} CollectItemsKeys(acc: map<string, string>, words: seq<string>, title: string, items: seq<(string, string)>)
    ensures forall url :: url in CollectItems(acc, words, title, items) <==>
              url in acc || exists j :: 0 <= j < |items| && items[j].1 == url && Wanted(words, title, items[j].0)
    decreases |items|
  {
    if |items| > 0 {
      var (text, url) := items[0];
      var acc1 := if Wanted(words, title, text) then acc[url := text] else acc;
      CollectItemsKeys(acc1, words, title, items[1..]);
      assert forall j :: 1 <= j < |items| ==> items[j] == items[1..][j - 1];
      forall u | u in CollectItems(acc, words, title, items)
        ensures u in acc || exists j :: 0 <= j < |items| && items[j].1 == u && Wanted(words, title, items[j].0)
      {
        if u !in acc1 {
          var j :| 0 <= j < |items[1..]| && items[1..][j].1 == u && Wanted(words, title, items[1..][j].0);
          assert items[j + 1] == items[1..][j];
        }
      }
    }
  }

  /**
    resources_resources gives a url exactly when some wanted item has it:
    one word matching its section's title or its text, or two words
    matching the title and the text in turn.
   */
  lemma {:induction false} CollectKeys(acc: map<string, string>, words: seq<string>, sections: seq<Section>)
    ensures forall url :: url in Collect(acc, words, sections) <==> url in acc || Offers(words, sections, url)
    decreases |sections|
  {
    if |sections| > 0 {
      var acc1 := CollectItems(acc, words, sections[0].0, sections[0].1);
      CollectItemsKeys(acc, words, sections[0].0, sections[0].1);
      CollectKeys(acc1, words, sections[1..]);
      forall url
        ensures url in Collect(acc, words, sections) <==> url in acc || Offers(words, sections, url)
      {
        if Offers(words, sections[1..], url) {
          var i, j :| 0 <= i < |sections[1..]| && 0 <= j < |sections[1..][i].1| &&
                      sections[1..][i].1[j].1 == url && Wanted(words, sections[1..][i].0, sections[1..][i].1[j].0);
          assert sections[i + 1] == sections[1..][i];
        }
        if Offers(words, sections, url) {
          var i, j :| 0 <= i < |sections| && 0 <= j < |sections[i].1| &&
                      sections[i].1[j].1 == url && Wanted(words, sections[i].0, sections[i].1[j].0);
          if i > 0 {
            assert sections[1..][i - 1] == sections[i];
          }
        }
      }
    }
  }

  /** The items of a section as (title, text, url) triples, in the section's order. */
  function Tagged(title: string, items: seq<(string, string)>): (r: seq<(string, string, string)>)
    ensures |r| == |items|
    ensures forall j :: 0 <= j < |items| ==> r[j] == (title, items[j].0, items[j].1)
  {
    seq(|items|, j requires 0 <= j < |items| => (title, items[j].0, items[j].1))
  }

  /** Every item of every section as a (title, text, url) triple, section after section. */
  function ResourceItems(sections: seq<Section>): seq<(string, string, string)>
    decreases |sections|
  {
    if |sections| == 0 then [] else Tagged(sections[0].0, sections[0].1) + ResourceItems(sections[1..])
  }

  /** The same fold as Collect, over the flattened items. */
  function CollectFlat(acc: map<string, string>, words: seq<string>, xs: seq<(string, string, string)>): map<string, string>
    decreases |xs|
  {
    if |xs| == 0 then acc
    else CollectFlat(if Wanted(words, xs[0].0, xs[0].1) then acc[xs[0].2 := xs[0].1] else acc, words, xs[1..])
  }

  /** Item k of xs is wanted, has this url, and no later item with the url is wanted. */
  predicate LastWanted(words: seq<string>, xs: seq<(string, string, string)>, k: int, url: string) {
    && 0 <= k < |xs| && xs[k].2 == url && Wanted(words, xs[k].0, xs[k].1)
    && forall k2 :: k < k2 < |xs| && xs[k2].2 == url ==> !Wanted(words, xs[k2].0, xs[k2].1)
  }

  lemma {:induction false} CollectFlatAppend(acc: map<string, string>, words: seq<string>, xs: seq<(string, string, string)>, ys: seq<(string, string, string)>)
    ensures CollectFlat(acc, words, xs + ys) == CollectFlat(CollectFlat(acc, words, xs), words, ys)
    decreases |xs|
  {
    if |xs| > 0 {
      assert (xs + ys)[0] == xs[0] && (xs + ys)[1..] == xs[1..] + ys;
      CollectFlatAppend(if Wanted(words, xs[0].0, xs[0].1) then acc[xs[0].2 := xs[0].1] else acc, words, xs[1..], ys);
    } else {
      assert xs + ys == ys;
    }
  }

  lemma {:induction false} CollectItemsFlat(acc: map<string, string>, words: seq<string>, title: string, items: seq<(string, string)>)
    ensures CollectItems(acc, words, title, items) == CollectFlat(acc, words, Tagged(title, items))
    decreases |items|
  {
    if |items| > 0 {
      var (text, url) := items[0];
      assert Tagged(title, items)[1..] == Tagged(title, items[1..]);
      CollectItemsFlat(if Wanted(words, title, text) then acc[url := text] else acc, words, title, items[1..]);
    }
  }

  /** Collecting section by section is collecting over the flattened items. */
  lemma {:induction false} CollectResourceItems(acc: map<string, string>, words: seq<string>, sections: seq<Section>)
    ensures Collect(acc, words, sections) == CollectFlat(acc, words, ResourceItems(sections))
    decreases |sections|
  {
    if |sections| > 0 {
      var acc1 := CollectItems(acc, words, sections[0].0, sections[0].1);
      CollectItemsFlat(acc, words, sections[0].0, sections[0].1);
      CollectResourceItems(acc1, words, sections[1..]);
      CollectFlatAppend(acc, words, Tagged(sections[0].0, sections[0].1), ResourceItems(sections[1..]));
    }
  }

  /** No item with this url is wanted. */
  predicate NoneWanted(words: seq<string>, xs: seq<(string, string, string)>, url: string) {
    forall k :: 0 <= k < |xs| && xs[k].2 == url ==> !Wanted(words, xs[k].0, xs[k].1)
  }

  lemma LastWantedShift(words: seq<string>, xs: seq<(string, string, string)>, k: int, url: string)
    requires |xs| > 0 && LastWanted(words, xs[1..], k, url)
    ensures LastWanted(words, xs, k + 1, url)
  {
    assert xs[k + 1] == xs[1..][k];
    assert forall k2 :: k + 1 < k2 < |xs| ==> xs[k2] == xs[1..][k2 - 1];
  }

  lemma NoneWantedCons(words: seq<string>, xs: seq<(string, string, string)>, url: string)
    requires |xs| > 0 && NoneWanted(words, xs[1..], url)
    ensures xs[0].2 == url && Wanted(words, xs[0].0, xs[0].1) ==> LastWanted(words, xs, 0, url)
    ensures xs[0].2 != url || !Wanted(words, xs[0].0, xs[0].1) ==> NoneWanted(words, xs, url)
  {
    assert forall k2 :: 0 < k2 < |xs| ==> xs[k2] == xs[1..][k2 - 1];
  }

  /**
    Each url's text is the text of the last wanted item with that url, or,
    when no item with it is wanted, the text it already had.
   */
  lemma {:induction false} CollectFlatValues(acc: map<string, string>, words: seq<string>, xs: seq<(string, string, string)>)
    ensures forall url :: url in CollectFlat(acc, words, xs) ==>
              || (exists k :: LastWanted(words, xs, k, url) && CollectFlat(acc, words, xs)[url] == xs[k].1)
              || (url in acc && CollectFlat(acc, words, xs)[url] == acc[url] && NoneWanted(words, xs, url))
    decreases |xs|
  {
    if |xs| > 0 {
      var acc1 := if Wanted(words, xs[0].0, xs[0].1) then acc[xs[0].2 := xs[0].1] else acc;
      var tail := xs[1..];
      CollectFlatValues(acc1, words, tail);
      var r := CollectFlat(acc, words, xs);
      assert r == CollectFlat(acc1, words, tail);
      forall url | url in r
        ensures || (exists k :: LastWanted(words, xs, k, url) && r[url] == xs[k].1)
                || (url in acc && r[url] == acc[url] && NoneWanted(words, xs, url))
      {
        if k :| LastWanted(words, tail, k, url) && r[url] == tail[k].1 {
          LastWantedShift(words, xs, k, url);
          assert xs[k + 1] == tail[k];
        } else {
          NoneWantedCons(words, xs, url);
        }
      }
    }
  }

  /**
    resources_resources pairs each url with the text of the last wanted
    item that has it, sections and items taken in the order listed.
   */
  lemma ResourcesValues(args: string, resources: seq<Section>)
    ensures forall url :: url in Collect(map[], Words(args), resources) ==>
              exists k :: LastWanted(Words(args), ResourceItems(resources), k, url) &&
                          Collect(map[], Words(args), resources)[url] == ResourceItems(resources)[k].1
  {
    CollectResourceItems(map[], Words(args), resources);
    CollectFlatValues(map[], Words(args), ResourceItems(resources));
  }

  /** Three or more words (or none) ask for nothing. */
  lemma NoResultsForManyWords(args: string, resources: seq<Section>)
    requires |Words(args)| == 0 || |Words(args)| >= 3
    ensures Collect(map[], Words(args), resources) == map[]
  {
    CollectKeys(map[], Words(args), resources);
  }

  // ---------------------------------------------------------------------
  // help and handle_command

  const MessageLimit: nat := 2000

  /** The help message as sent: over 2000 characters, its first 1999 and an ellipsis. */
  function TruncateHelp(msg: string): (r: string)
    ensures |r| <= MessageLimit
    ensures |msg| <= MessageLimit ==> r == msg
    ensures |msg| > MessageLimit ==> |r| == MessageLimit && r[..MessageLimit - 1] == msg[..MessageLimit - 1] && r[MessageLimit - 1] == '\U{2026}'
  {
    if |msg| > MessageLimit then msg[..MessageLimit - 1] + "\U{2026}" else msg
  }

  lemma TruncateHelpIdempotent(msg: string)
    ensures TruncateHelp(TruncateHelp(msg)) == TruncateHelp(msg)
  {
  }

  /** message.content.split(' ', 1): the command before the first space, the arguments after it ('' without a space). */
  function SplitCommand(content: string): (parts: (string, string))
    ensures Excludes(parts.0, ' ')
  {
    var k := IndexFrom(content, ' ', 0);
    if k == |content| then (content, "") else (content[..k], content[k + 1..])
  }

  /** The split loses nothing: with a space, command + " " + arguments is the message; without, the command is. */
  lemma SplitCommandRoundTrip(content: string)
    ensures var (cmd, args) := SplitCommand(content);
            && (Excludes(content, ' ') ==> cmd == content && args == "")
            && (!Excludes(content, ' ') ==> cmd + " " + args == content)
  {
    var k := IndexFrom(content, ' ', 0);
    if k < |content| {
      assert content == content[..k] + [content[k]] + content[k + 1..];
    }
  }

  datatype Dispatch = Ignored | Run(command: string, args: string) | UnknownCommand(cmd: string)

  /**
    handle_command: a command of the other bots is ignored; a command
    find_method knows runs with the arguments; any other is answered as
    unknown. `otherBots` is the comma-separated configuration value.
   */
  function HandleCommand(content: string, attrs: seq<string>, otherBots: string): (d: Dispatch)
    ensures d.Ignored? <==> Lower(SplitCommand(content).0) in Split(otherBots, ',')
    ensures d.Run? ==> d.args == SplitCommand(content).1 && FindMethod(attrs, SplitCommand(content).0) == Some(d.command)
    ensures d.UnknownCommand? <==> Lower(SplitCommand(content).0) !in Split(otherBots, ',') && FindMethod(attrs, SplitCommand(content).0).None?
  {
    var (cmd, args) := SplitCommand(content);
    var m := FindMethod(attrs, cmd);
    if Lower(cmd) in Split(otherBots, ',') then Ignored
    else if m.Some? then Run(m.value, args)
    else UnknownCommand(cmd)
  }
}
