/**
  Python string primitives used by the card catalogue and the chat bot:
  whitespace, case mapping, strip/split/join and substring search, written
  out over `string` (a sequence of Unicode scalar values, as Python's str).
 */
module Text {

  /** `str.isspace()` for one character: the characters Python counts as whitespace. */
  predicate IsSpace(c: char) {
    || c == ' '
    || ('\t' <= c <= '\r')
    || ('\U{1C}' <= c <= '\U{1F}')
    || c == '\U{85}' || c == '\U{A0}' || c == '\U{1680}'
    || ('\U{2000}' <= c <= '\U{200A}')
    || c == '\U{2028}' || c == '\U{2029}' || c == '\U{202F}' || c == '\U{205F}' || c == '\U{3000}'
  }

  /** Upper-case letters that `str.lower()` maps: ASCII and Latin-1 (without the multiplication sign). */
  predicate IsUpper(c: char) {
    ('A' <= c <= 'Z') || ('\U{C0}' <= c <= '\U{DE}' && c != '\U{D7}')
  }

  function LowerChar(c: char): (r: char)
    ensures !IsUpper(r)
    ensures !IsUpper(c) ==> r == c
  {
    if IsUpper(c) then (c as int + 0x20) as char else c
  }

  /** `str.lower()`. */
  function Lower(s: string): (r: string)
    ensures |r| == |s|
    ensures forall i :: 0 <= i < |s| ==> r[i] == LowerChar(s[i])
  {
    if |s| == 0 then "" else [LowerChar(s[0])] + Lower(s[1..])
  }

  predicate NoUpper(s: string) {
    forall i :: 0 <= i < |s| ==> !IsUpper(s[i])
  }

  lemma LowerNoUpper(s: string)
    ensures NoUpper(Lower(s))
    ensures NoUpper(s) ==> Lower(s) == s
  {
  }

  /** `str.lstrip()` */
  function LStrip(s: string): (r: string)
    ensures |r| <= |s| && r == s[|s| - |r|..]
    ensures r == [] || !IsSpace(r[0])
    ensures forall i :: 0 <= i < |s| - |r| ==> IsSpace(s[i])
  {
    if |s| > 0 && IsSpace(s[0]) then LStrip(s[1..]) else s
  }

  /** `str.rstrip()` */
  function RStrip(s: string): (r: string)
    ensures |r| <= |s| && r == s[..|r|]
    ensures r == [] || !IsSpace(r[|r| - 1])
    ensures forall i :: |r| <= i < |s| ==> IsSpace(s[i])
  {
    if |s| > 0 && IsSpace(s[|s| - 1]) then RStrip(s[..|s| - 1]) else s
  }

  /** `str.strip()`: the input without its leading and trailing whitespace. */
  function Strip(s: string): (r: string)
  {
    RStrip(LStrip(s))
  }

  predicate NoEdgeSpace(s: string) {
    s == [] || (!IsSpace(s[0]) && !IsSpace(s[|s| - 1]))
  }

  /** `strip` removes exactly the edge whitespace: it leaves a slice of the input that has none. */
  lemma StripSlice(s: string)
    ensures exists a, b :: 0 <= a <= b <= |s| && Strip(s) == s[a..b]
    ensures NoEdgeSpace(Strip(s))
    ensures NoEdgeSpace(s) ==> Strip(s) == s
  {
    var l := LStrip(s);
    var r := RStrip(l);
    assert r == s[|s| - |l|..][..|r|] == s[|s| - |l|..|s| - |l| + |r|];
    if r != [] {
      assert r[0] == l[0];
    }
  }

  lemma StripIdempotent(s: string)
    ensures Strip(Strip(s)) == Strip(s)
  {
    StripSlice(s);
    StripSlice(Strip(s));
  }

  /** `str.lstrip(ch)` for a single character. */
  function LStripChar(s: string, ch: char): (r: string)
    ensures |r| <= |s| && r == s[|s| - |r|..]
    ensures r == [] || r[0] != ch
    ensures forall i :: 0 <= i < |s| - |r| ==> s[i] == ch
  {
    if |s| > 0 && s[0] == ch then LStripChar(s[1..], ch) else s
  }

  /** `''.join(ss)` */
  function Concat(ss: seq<string>): string {
    if |ss| == 0 then "" else ss[0] + Concat(ss[1..])
  }

  /** `sep.join(ss)` */
  function Join(sep: string, ss: seq<string>): string {
    if |ss| == 0 then "" else if |ss| == 1 then ss[0] else ss[0] + sep + Join(sep, ss[1..])
  }

  /** What follows the first element in `sep.join([x] + rest)`. */
  function JoinTail(sep: string, rest: seq<string>): string {
    if |rest| == 0 then "" else sep + Join(sep, rest)
  }

  lemma JoinCons(sep: string, x: string, rest: seq<string>)
    ensures Join(sep, [x] + rest) == x + JoinTail(sep, rest)
  {
    if |rest| > 0 {
      assert ([x] + rest)[1..] == rest;
    }
  }

  predicate Excludes(s: string, d: char) {
    forall i :: 0 <= i < |s| ==> s[i] != d
  }

  /** `s.split(d)` for a one-character separator: every occurrence splits, empty pieces are kept. */
  function Split(s: string, d: char): (parts: seq<string>)
    ensures |parts| >= 1
    ensures forall k :: 0 <= k < |parts| ==> Excludes(parts[k], d)
  {
    if |s| == 0 then [""]
    else
      var rest := Split(s[1..], d);
      if s[0] == d then [""] + rest
      else [[s[0]] + rest[0]] + rest[1..]
  }

  /** Joining the pieces back with the separator gives the input. */
  lemma {:induction false} JoinSplit(s: string, d: char)
    ensures Join([d], Split(s, d)) == s
  {
    if |s| > 0 {
      var rest := Split(s[1..], d);
      JoinSplit(s[1..], d);
      JoinCons([d], rest[0], rest[1..]);
      assert rest == [rest[0]] + rest[1..];
      if s[0] == d {
        JoinCons([d], "", rest);
      } else {
        JoinCons([d], [s[0]] + rest[0], rest[1..]);
        assert s == [s[0]] + s[1..];
      }
    }
  }

  lemma {:induction false} SplitPrefix(x: string, s: string, d: char)
    requires Excludes(x, d)
    ensures Split(x + s, d) == [x + Split(s, d)[0]] + Split(s, d)[1..]
  {
    var t := Split(s, d);
    if |x| > 0 {
      SplitPrefix(x[1..], s, d);
      assert (x + s)[1..] == x[1..] + s;
      var rest := Split(x[1..] + s, d);
      assert rest == [x[1..] + t[0]] + t[1..];
      assert rest[0] == x[1..] + t[0] && rest[1..] == t[1..];
      assert (x + s)[0] == x[0] != d;
      assert Split(x + s, d) == [[x[0]] + rest[0]] + rest[1..];
      assert [x[0]] + (x[1..] + t[0]) == x + t[0];
    } else {
      assert x + s == s && x + t[0] == t[0];
      assert t == [t[0]] + t[1..];
    }
  }

  /** Splitting a join of separator-free pieces gives the pieces back. */
  lemma {:induction false} SplitJoin(ps: seq<string>, d: char)
    requires |ps| >= 1
    requires forall k :: 0 <= k < |ps| ==> Excludes(ps[k], d)
    ensures Split(Join([d], ps), d) == ps
  {
    if |ps| == 1 {
      SplitPrefix(ps[0], "", d);
      assert ps[0] + "" == ps[0];
    } else {
      var j := Join([d], ps[1..]);
      SplitJoin(ps[1..], d);
      assert Join([d], ps) == ps[0] + ([d] + j);
      SplitPrefix(ps[0], [d] + j, d);
      assert ([d] + j)[1..] == j;
      assert Split([d] + j, d) == [""] + ps[1..];
      assert ps[0] + "" == ps[0];
      assert ps == [ps[0]] + ps[1..];
    }
  }

  /** Length of the leading run of non-whitespace characters. */
  function TokenLength(s: string): (n: nat)
    ensures n <= |s|
    ensures forall i :: 0 <= i < n ==> !IsSpace(s[i])
    ensures n == |s| || IsSpace(s[n])
  {
    if |s| == 0 || IsSpace(s[0]) then 0 else 1 + TokenLength(s[1..])
  }

  /** `s.split()`: the maximal runs of non-whitespace characters, in order. */
  function Words(s: string): (ws: seq<string>)
    ensures forall k :: 0 <= k < |ws| ==> |ws[k]| > 0
    ensures forall k, i :: 0 <= k < |ws| && 0 <= i < |ws[k]| ==> !IsSpace(ws[k][i])
    decreases |s|
  {
    if |s| == 0 then []
    else if IsSpace(s[0]) then Words(s[1..])
    else
      var n := TokenLength(s);
      [s[..n]] + Words(s[n..])
  }

  /** The input with every whitespace character removed. */
  function RemoveSpaces(s: string): (r: string) {
    if |s| == 0 then "" else (if IsSpace(s[0]) then "" else [s[0]]) + RemoveSpaces(s[1..])
  }

  lemma {:induction false} RemoveSpacesAppend(a: string, b: string)
    ensures RemoveSpaces(a + b) == RemoveSpaces(a) + RemoveSpaces(b)
  {
    if |a| > 0 {
      RemoveSpacesAppend(a[1..], b);
      assert (a + b)[1..] == a[1..] + b;
    } else {
      assert a + b == b;
    }
  }

  lemma {:induction false} RemoveSpacesWord(w: string)
    requires forall i :: 0 <= i < |w| ==> !IsSpace(w[i])
    ensures RemoveSpaces(w) == w
  {
    if |w| > 0 {
      RemoveSpacesWord(w[1..]);
      assert w == [w[0]] + w[1..];
    }
  }

  /** `''.join(s.split())` removes exactly the whitespace. */
  lemma {:induction false} ConcatWords(s: string)
    ensures Concat(Words(s)) == RemoveSpaces(s)
    decreases |s|
  {
    if |s| > 0 {
      if IsSpace(s[0]) {
        ConcatWords(s[1..]);
      } else {
        var n := TokenLength(s);
        ConcatWords(s[n..]);
        assert s == s[..n] + s[n..];
        RemoveSpacesAppend(s[..n], s[n..]);
        RemoveSpacesWord(s[..n]);
        assert ([s[..n]] + Words(s[n..]))[1..] == Words(s[n..]);
      }
    }
  }

  predicate StartsWith(s: string, p: string) {
    |p| <= |s| && s[..|p|] == p
  }

  /** `needle` occurs in `hay` at index `i`. */
  predicate OccursAt(hay: string, needle: string, i: int) {
    0 <= i && i + |needle| <= |hay| && hay[i..i + |needle|] == needle
  }

  /** `needle in hay` */
  predicate Contains(hay: string, needle: string) {
    exists i :: 0 <= i <= |hay| && OccursAt(hay, needle, i)
  }

  function FindFrom(hay: string, needle: string, from: nat): (r: int)
    requires from <= |hay|
    ensures r == -1 || (from <= r && OccursAt(hay, needle, r))
    ensures forall i :: from <= i && (r == -1 || i < r) ==> !OccursAt(hay, needle, i)
    decreases |hay| - from
  {
    if from + |needle| > |hay| then -1
    else if hay[from..from + |needle|] == needle then from
    else FindFrom(hay, needle, from + 1)
  }

  /** `hay.find(needle)`: the lowest index where `needle` occurs, or -1. */
  function Find(hay: string, needle: string): (r: int)
    ensures r >= 0 <==> Contains(hay, needle)
    ensures r >= 0 ==> OccursAt(hay, needle, r)
    ensures r >= 0 ==> forall i :: 0 <= i < r ==> !OccursAt(hay, needle, i)
  {
    FindFrom(hay, needle, 0)
  }
}
