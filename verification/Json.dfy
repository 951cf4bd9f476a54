/**
 JSON values as the KYC utilities see them, and `stableStringify`: the text they hash.
 Strings are sequences of UTF-16 code units, as in JavaScript.
 */
module Json {

  type CodeUnit = u: int | 0 <= u < 0x10000

  type Text = seq<CodeUnit>

  /** A number stands for its printed token; an object keeps its insertion order. */
  datatype Json =
    | Null
    | Bool(b: bool)
    | Num(token: Text)
    | Str(s: Text)
    | Arr(items: seq<Json>)
    | Obj(entries: seq<Entry>)

  datatype Entry = Entry(key: Text, val: Json)

  /** The same values with objects read as finite maps: the meaning of a JSON value. */
  datatype Norm =
    | NNull
    | NBool(b: bool)
    | NNum(token: Text)
    | NStr(s: Text)
    | NArr(items: seq<Norm>)
    | NObj(members: map<Text, Norm>)

  function NormOf(v: Json): Norm
    decreases v, 1
  {
    match v
    case Null => NNull
    case Bool(b) => NBool(b)
    case Num(t) => NNum(t)
    case Str(s) => NStr(s)
    case Arr(items) => NArr(NormItems(items))
    case Obj(entries) => NObj(NormEntries(entries))
  }

  function NormItems(items: seq<Json>): (r: seq<Norm>)
    ensures |r| == |items|
    decreases items, 0
  {
    if items == [] then [] else [NormOf(items[0])] + NormItems(items[1..])
  }

  function NormEntries(es: seq<Entry>): map<Text, Norm>
    decreases es, 0
  {
    if es == [] then map[] else NormEntries(es[1..])[es[0].key := NormOf(es[0].val)]
  }

  // ---- Well-formed values ---------------------------------------------------------------

  predicate NumberUnit(u: CodeUnit) {
    48 <= u <= 57 || u == 43 || u == 45 || u == 46 || u == 69 || u == 101
  }

  predicate NumberToken(t: Text) {
    && |t| > 0
    && (t[0] == 45 || 48 <= t[0] <= 57)
    && (forall i :: 0 <= i < |t| ==> NumberUnit(t[i]))
  }

  predicate DistinctKeys(es: seq<Entry>) {
    forall i, j :: 0 <= i < j < |es| ==> es[i].key != es[j].key
  }

  predicate WellFormed(v: Json) {
    match v
    case Null => true
    case Bool(_) => true
    case Num(t) => NumberToken(t)
    case Str(_) => true
    case Arr(items) => forall i :: 0 <= i < |items| ==> WellFormed(items[i])
    case Obj(entries) => DistinctKeys(entries) && forall i :: 0 <= i < |entries| ==> WellFormed(entries[i].val)
  }

  // ---- Key order ------------------------------------------------------------------------

  /** The order of `Array.prototype.sort` on strings: by code units. */
  predicate Less(a: Text, b: Text) {
    if b == [] then false
    else if a == [] then true
    else a[0] < b[0] || (a[0] == b[0] && Less(a[1..], b[1..]))
  }

  lemma LessIsStrictOrder(a: Text, b: Text, c: Text)
    ensures !Less(a, a)
    ensures Less(a, b) && Less(b, c) ==> Less(a, c)
    ensures a != b ==> Less(a, b) || Less(b, a)
  {
    if a != [] && b != [] && c != [] {
      LessIsStrictOrder(a[1..], b[1..], c[1..]);
      assert a == [a[0]] + a[1..] && b == [b[0]] + b[1..];
    } else if a != [] && b != [] {
      LessIsStrictOrder(a[1..], b[1..], []);
      assert a == [a[0]] + a[1..] && b == [b[0]] + b[1..];
    } else if a != [] {
      LessIsStrictOrder(a[1..], [], []);
    }
  }

  predicate Sorted(es: seq<Entry>) {
    forall i, j :: 0 <= i < j < |es| ==> Less(es[i].key, es[j].key)
  }

  function Insert(e: Entry, es: seq<Entry>): (r: seq<Entry>)
    ensures forall x :: x in r <==> x == e || x in es
  {
    if es == [] || Less(e.key, es[0].key) then [e] + es
    else
      assert es == [es[0]] + es[1..];
      [es[0]] + Insert(e, es[1..])
  }

  function SortByKey(es: seq<Entry>): (r: seq<Entry>)
    ensures forall x :: x in r <==> x in es
  {
    if es == [] then [] else
      assert es == [es[0]] + es[1..];
      Insert(es[0], SortByKey(es[1..]))
  }

  // ---- Printing -------------------------------------------------------------------------

  const QUOTE: CodeUnit := 34
  const BACKSLASH: CodeUnit := 92
  const COMMA: CodeUnit := 44
  const COLON: CodeUnit := 58
  const OPEN_BRACKET: CodeUnit := 91
  const CLOSE_BRACKET: CodeUnit := 93
  const OPEN_BRACE: CodeUnit := 123
  const CLOSE_BRACE: CodeUnit := 125

  function HexDigit(d: int): CodeUnit
    requires 0 <= d < 16
  {
    if d < 10 then 48 + d else 87 + d
  }

  function Hex4(u: CodeUnit): Text {
    var a := u / 16;
    var b := a / 16;
    [HexDigit(b / 16), HexDigit(b % 16), HexDigit(a % 16), HexDigit(u % 16)]
  }

  predicate LeadSurrogate(u: CodeUnit) { 0xD800 <= u <= 0xDBFF }

  predicate TrailSurrogate(u: CodeUnit) { 0xDC00 <= u <= 0xDFFF }

  function EscapeUnit(u: CodeUnit): Text {
    if u == 8 then [BACKSLASH, 98]
    else if u == 9 then [BACKSLASH, 116]
    else if u == 10 then [BACKSLASH, 110]
    else if u == 12 then [BACKSLASH, 102]
    else if u == 13 then [BACKSLASH, 114]
    else if u == QUOTE || u == BACKSLASH then [BACKSLASH, u]
    else if u < 32 || LeadSurrogate(u) || TrailSurrogate(u) then [BACKSLASH, 117] + Hex4(u)
    else [u]
  }

  predicate Paired(s: Text) {
    |s| >= 2 && LeadSurrogate(s[0]) && TrailSurrogate(s[1])
  }

  /** QuoteJSONString, section 25.5.2.3 of ECMA-262: paired surrogates stand as they are. */
  function QuoteBody(s: Text): Text {
    if s == [] then []
    else if Paired(s) then [s[0], s[1]] + QuoteBody(s[2..])
    else EscapeUnit(s[0]) + QuoteBody(s[1..])
  }

  function Quote(s: Text): Text {
    [QUOTE] + QuoteBody(s) + [QUOTE]
  }

  function StableStringify(v: Json): Text
    decreases v, 1, 0
  {
    match v
    case Null => [110, 117, 108, 108]
    case Bool(b) => if b then [116, 114, 117, 101] else [102, 97, 108, 115, 101]
    case Num(t) => t
    case Str(s) => Quote(s)
    case Arr(items) => [OPEN_BRACKET] + PrintItems(v, items) + [CLOSE_BRACKET]
    case Obj(entries) =>
      var sorted := SortByKey(entries);
      assert forall i :: 0 <= i < |sorted| ==> sorted[i] in sorted && sorted[i] in entries;
      [OPEN_BRACE] + PrintMembers(v, sorted) + [CLOSE_BRACE]
  }

  /** The items of `whole` from some position on, joined by commas. */
  function PrintItems(whole: Json, items: seq<Json>): Text
    requires forall i :: 0 <= i < |items| ==> items[i] < whole
    decreases whole, 0, |items|
  {
    if items == [] then []
    else StableStringify(items[0]) + (if |items| == 1 then [] else [COMMA] + PrintItems(whole, items[1..]))
  }

  function PrintMembers(whole: Json, es: seq<Entry>): Text
    requires forall i :: 0 <= i < |es| ==> es[i].val < whole
    decreases whole, 0, |es|
  {
    if es == [] then []
    else Quote(es[0].key) + [COLON] + StableStringify(es[0].val)
         + (if |es| == 1 then [] else [COMMA] + PrintMembers(whole, es[1..]))
  }

  // ---- Reading a quoted string back -----------------------------------------------------

  function UnhexDigit(u: CodeUnit): int {
    if 48 <= u <= 57 then u - 48 else u - 87
  }

  function Unescape(u: CodeUnit): CodeUnit {
    if u == 98 then 8 else if u == 116 then 9 else if u == 110 then 10
    else if u == 102 then 12 else if u == 114 then 13 else u
  }

  function Unhex4(h: Text): int
    requires |h| == 4
  {
    ((UnhexDigit(h[0]) * 16 + UnhexDigit(h[1])) * 16 + UnhexDigit(h[2])) * 16 + UnhexDigit(h[3])
  }

  /** The code unit that the text starts with, and how many units of text it takes. */
  function Scan(t: Text): (r: (CodeUnit, nat))
    requires t != []
    ensures 0 < r.1 <= |t|
  {
    if t[0] != BACKSLASH || |t| == 1 then (t[0], 1)
    else if t[1] == 117 && |t| >= 6 then
      var n := Unhex4(t[2..6]);
      (if 0 <= n < 0x10000 then n else 0, 6)
    else (Unescape(t[1]), 2)
  }

  /** Reads an escaped string up to its closing quote; gives the string and the text after it. */
  function ReadBody(t: Text): (Text, Text)
    decreases |t|
  {
    if t == [] then ([], [])
    else if t[0] == QUOTE then ([], t[1..])
    else
      var u := Scan(t);
      var r := ReadBody(t[u.1..]);
      ([u.0] + r.0, r.1)
  }

  lemma HexRoundTrip(u: CodeUnit)
    ensures Unhex4(Hex4(u)) == u
  {
    var a := u / 16;
    var b := a / 16;
    assert u == 16 * a + u % 16 && a == 16 * b + a % 16 && b == 16 * (b / 16) + b % 16;
  }

  lemma ScanUndoesEscape(u: CodeUnit, tail: Text)
    ensures EscapeUnit(u)[0] != QUOTE
    ensures Scan(EscapeUnit(u) + tail) == (u, |EscapeUnit(u)|)
  {
    var e := EscapeUnit(u);
    var t := e + tail;
    if |e| == 6 {
      HexRoundTrip(u);
      assert t[2..6] == Hex4(u);
    } else if |e| == 2 {
      assert t[0] == e[0] && t[1] == e[1];
    } else {
      assert t[0] == u;
    }
  }

  lemma ReadUnit(e: Text, u: CodeUnit, tail: Text)
    requires e != [] && e[0] != QUOTE && Scan(e + tail) == (u, |e|)
    ensures ReadBody(e + tail) == ([u] + ReadBody(tail).0, ReadBody(tail).1)
  {
    assert (e + tail)[|e|..] == tail;
  }

  /** The text of a quoted string after its opening quote, followed by `rest`. */
  function Closed(s: Text, rest: Text): Text {
    QuoteBody(s) + ([QUOTE] + rest)
  }

  lemma ClosedUnfolds(s: Text, rest: Text)
    requires s != []
    ensures Paired(s) ==> Closed(s, rest) == [s[0]] + ([s[1]] + Closed(s[2..], rest))
    ensures !Paired(s) ==> Closed(s, rest) == EscapeUnit(s[0]) + Closed(s[1..], rest)
  {
    var end := [QUOTE] + rest;
    if Paired(s) {
      var b := QuoteBody(s[2..]);
      assert QuoteBody(s) == [s[0], s[1]] + b;
      assert ([s[0], s[1]] + b) + end == [s[0]] + ([s[1]] + (b + end));
    } else {
      var e, b := EscapeUnit(s[0]), QuoteBody(s[1..]);
      assert QuoteBody(s) == e + b;
      assert (e + b) + end == e + (b + end);
    }
  }

  lemma {:induction false} ReadBodyUndoesQuote(s: Text, rest: Text)
    ensures ReadBody(Closed(s, rest)) == (s, rest)
  {
    if s == [] {
      assert Closed(s, rest) == [QUOTE] + rest;
    } else if Paired(s) {
      ClosedUnfolds(s, rest);
      ReadBodyUndoesQuote(s[2..], rest);
      ReadUnit([s[0]], s[0], [s[1]] + Closed(s[2..], rest));
      ReadUnit([s[1]], s[1], Closed(s[2..], rest));
      assert [s[0]] + ([s[1]] + s[2..]) == s;
    } else {
      ClosedUnfolds(s, rest);
      ReadBodyUndoesQuote(s[1..], rest);
      ScanUndoesEscape(s[0], Closed(s[1..], rest));
      ReadUnit(EscapeUnit(s[0]), s[0], Closed(s[1..], rest));
      assert [s[0]] + s[1..] == s;
    }
  }

  lemma QuoteThenText(s: Text, r: Text)
    ensures Quote(s) + r == [QUOTE] + Closed(s, r)
  {
    var b := QuoteBody(s);
    assert ([QUOTE] + b + [QUOTE]) + r == [QUOTE] + (b + ([QUOTE] + r));
  }

  lemma QuoteIsUniquelyReadable(s: Text, t: Text, r: Text, q: Text)
    requires Quote(s) + r == Quote(t) + q
    ensures s == t && r == q
  {
    QuoteThenText(s, r);
    QuoteThenText(t, q);
    assert ([QUOTE] + Closed(s, r))[1..] == Closed(s, r);
    assert ([QUOTE] + Closed(t, q))[1..] == Closed(t, q);
    ReadBodyUndoesQuote(s, r);
    ReadBodyUndoesQuote(t, q);
  }

  // ---- What quoting leaves as it is -----------------------------------------------------

  /** No control units, and surrogates only in pairs. */
  predicate CleanText(t: Text) {
    && (forall i :: 0 <= i < |t| ==> t[i] >= 32)
    && (forall i :: 0 <= i < |t| && LeadSurrogate(t[i]) ==> i + 1 < |t| && TrailSurrogate(t[i + 1]))
    && (forall i :: 0 <= i < |t| && TrailSurrogate(t[i]) ==> i > 0 && LeadSurrogate(t[i - 1]))
  }

  lemma CleanConcat(a: Text, b: Text)
    requires CleanText(a) && CleanText(b)
    ensures CleanText(a + b)
  {
  }

  lemma HexIsPlain(u: CodeUnit)
    ensures |Hex4(u)| == 4 && forall i :: 0 <= i < 4 ==> 48 <= Hex4(u)[i] < 104
  {
  }

  lemma EscapedIsClean(u: CodeUnit)
    ensures CleanText(EscapeUnit(u))
  {
    HexIsPlain(u);
    var h := Hex4(u);
    assert forall i :: 0 <= i < 6 ==> 48 <= ([BACKSLASH, 117] + h)[i] < 118;
  }

  lemma PairIsClean(s: Text)
    requires Paired(s)
    ensures CleanText([s[0], s[1]])
  {
  }

  /** Whatever the string, its quoted form holds no control unit and no unpaired surrogate. */
  lemma {:induction false} QuotedIsClean(s: Text)
    ensures CleanText(QuoteBody(s))
  {
    if s == [] {
    } else if Paired(s) {
      QuotedIsClean(s[2..]);
      PairIsClean(s);
      CleanConcat([s[0], s[1]], QuoteBody(s[2..]));
    } else {
      QuotedIsClean(s[1..]);
      EscapedIsClean(s[0]);
      CleanConcat(EscapeUnit(s[0]), QuoteBody(s[1..]));
    }
  }

  /** Quoting leaves the text as it is. */
  predicate Unescaped(t: Text) {
    CleanText(t) && QUOTE !in t && BACKSLASH !in t
  }

  /** Text that quoting leaves as it is may be put together, but not from two halves of a pair. */
  lemma UnescapedConcat(a: Text, b: Text)
    requires CleanText(a)
    ensures Unescaped(a + b) <==> Unescaped(a) && Unescaped(b)
  {
    var t := a + b;
    assert forall i :: 0 <= i < |a| ==> t[i] == a[i];
    assert forall i :: 0 <= i < |b| ==> t[|a| + i] == b[i];
    if Unescaped(b) {
      if Unescaped(a) {
        CleanConcat(a, b);
        assert forall u :: u in t ==> u in a || u in b;
      }
    }
    if Unescaped(t) {
      forall i | 0 <= i < |b| && TrailSurrogate(b[i]) ensures i > 0 && LeadSurrogate(b[i - 1]) {
        assert LeadSurrogate(t[|a| + i - 1]);
      }
      forall i | 0 <= i < |b| && LeadSurrogate(b[i]) ensures i + 1 < |b| && TrailSurrogate(b[i + 1]) {
        assert TrailSurrogate(t[|a| + i + 1]);
      }
    }
  }

  lemma UnescapedPair(s: Text)
    requires Paired(s)
    ensures Unescaped(s) <==> Unescaped(s[2..])
  {
    assert s == s[..2] + s[2..] && s[..2] == [s[0], s[1]];
    UnescapedConcat(s[..2], s[2..]);
  }

  lemma UnescapedUnit(s: Text)
    requires s != [] && !Paired(s)
    ensures Unescaped(s) <==> EscapeUnit(s[0]) == [s[0]] && Unescaped(s[1..])
  {
    assert s == [s[0]] + s[1..];
    var u := s[0];
    if u < 32 || u == QUOTE || u == BACKSLASH || LeadSurrogate(u) || TrailSurrogate(u) {
      assert |EscapeUnit(u)| > 1;
      assert u in s && !Unescaped(s);
    } else {
      UnescapedConcat([u], s[1..]);
    }
  }

  lemma {:induction false} QuotedIsLonger(s: Text)
    ensures |QuoteBody(s)| >= |s|
    ensures |QuoteBody(s)| == |s| ==> QuoteBody(s) == s
  {
    if s == [] {
    } else if Paired(s) {
      QuotedIsLonger(s[2..]);
      assert s == [s[0], s[1]] + s[2..];
    } else {
      QuotedIsLonger(s[1..]);
      assert s == [s[0]] + s[1..];
    }
  }

  lemma UnchangedParts(s: Text)
    requires s != []
    ensures Paired(s) ==> (QuoteBody(s) == s <==> QuoteBody(s[2..]) == s[2..])
    ensures !Paired(s) ==> (QuoteBody(s) == s <==> EscapeUnit(s[0]) == [s[0]] && QuoteBody(s[1..]) == s[1..])
  {
    var n := if Paired(s) then 2 else 1;
    var e := if Paired(s) then [s[0], s[1]] else EscapeUnit(s[0]);
    QuotedIsLonger(s[n..]);
    assert s == s[..n] + s[n..] && QuoteBody(s) == e + QuoteBody(s[n..]);
    if QuoteBody(s) == s {
      assert |e| == n && e == s[..n] && QuoteBody(s[n..]) == s[n..];
    }
  }

  /** Quoting adds something exactly when there is a control unit, quote, backslash or unpaired surrogate. */
  lemma {:induction false} QuotedUnchangedIff(s: Text)
    ensures QuoteBody(s) == s <==> Unescaped(s)
  {
    if s == [] {
    } else {
      UnchangedParts(s);
      if Paired(s) {
        UnescapedPair(s);
        QuotedUnchangedIff(s[2..]);
      } else {
        UnescapedUnit(s);
        QuotedUnchangedIff(s[1..]);
      }
    }
  }
}
