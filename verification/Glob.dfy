/**
 CacheService.globMatch: a `*` glob turned into the text of a regular expression. The text is
 parsed and matched by a model of the ECMA-262 pattern syntax it uses, and compared with a
 definition of the glob that knows nothing of regular expressions.
 */
module Glob {
  import opened Wrappers

  // ---- The translation ------------------------------------------------------------------

  /** The characters of the source's escaping class: `. + ^ $ { } ( ) | [ ] \`. */
  predicate Escaped(c: char) {
    c in ".+^${}()|[]\\"
  }

  /** The first replacement: a backslash before every escaped character. */
  function EscapePass(p: string): string {
    if p == "" then "" else (if Escaped(p[0]) then ['\\', p[0]] else [p[0]]) + EscapePass(p[1..])
  }

  /** The second replacement: `.*` for every `*`. */
  function StarPass(t: string): string {
    if t == "" then "" else (if t[0] == '*' then ".*" else [t[0]]) + StarPass(t[1..])
  }

  function RegexText(p: string): string {
    "^" + StarPass(EscapePass(p)) + "$"
  }

  // ---- Pattern syntax and matching ------------------------------------------------------

  datatype Atom = Lit(c: char) | Any

  datatype Quantifier = One | Star | Opt

  datatype Node = Start | End | Item(atom: Atom, q: Quantifier)

  predicate SyntaxChar(c: char) {
    Escaped(c) || c == '*' || c == '?'
  }

  /** The quantifier at the start of the text and its length; a `?` after it makes it lazy. */
  function ReadQuantifier(t: string): (r: (Quantifier, nat))
    ensures r.1 <= |t|
  {
    if t == "" || (t[0] != '*' && t[0] != '?') then (One, 0)
    else (if t[0] == '*' then Star else Opt, if |t| > 1 && t[1] == '?' then 2 else 1)
  }

  /** The atom at the start of the text and its length; None for syntax outside this model or an error. */
  function ReadAtom(t: string): (r: Option<(Atom, nat)>)
    requires t != ""
    ensures r.Some? ==> 0 < r.value.1 <= |t|
  {
    if t[0] == '.' then Some((Any, 1))
    else if t[0] == '\\' then
      if |t| > 1 && SyntaxChar(t[1]) then Some((Lit(t[1]), 2)) else None
    else if SyntaxChar(t[0]) then None
    else Some((Lit(t[0]), 1))
  }

  /** A parsed item in front of a parsed rest. */
  function Prepend(n: Node, rest: Option<seq<Node>>): Option<seq<Node>> {
    if rest.None? then None else Some([n] + rest.value)
  }

  function Parse(t: string): Option<seq<Node>>
    decreases |t|
  {
    if t == "" then Some([])
    else if t[0] == '^' || t[0] == '$' then
      Prepend(if t[0] == '^' then Start else End, Parse(t[1..]))
    else
      var a := ReadAtom(t);
      if a.None? then None
      else
        var t' := t[a.value.1..];
        var q := ReadQuantifier(t');
        Prepend(Item(a.value.0, q.0), Parse(t'[q.1..]))
  }

  predicate LineTerminator(c: char) {
    c == '\n' || c == '\r' || c == '\U{2028}' || c == '\U{2029}'
  }

  predicate AtomAccepts(a: Atom, c: char) {
    if a.Any? then !LineTerminator(c) else c == a.c
  }

  predicate AllAccepted(a: Atom, s: string) {
    forall i :: 0 <= i < |s| ==> AtomAccepts(a, s[i])
  }

  /** The nodes match `v` from position `pos` on (up to some later position). */
  predicate MatchAt(nodes: seq<Node>, v: string, pos: nat)
    requires pos <= |v|
    decreases |nodes|
  {
    if nodes == [] then true
    else match nodes[0]
      case Start => pos == 0 && MatchAt(nodes[1..], v, pos)
      case End => pos == |v| && MatchAt(nodes[1..], v, pos)
      case Item(a, One) => pos < |v| && AtomAccepts(a, v[pos]) && MatchAt(nodes[1..], v, pos + 1)
      case Item(a, Opt) =>
        MatchAt(nodes[1..], v, pos) || (pos < |v| && AtomAccepts(a, v[pos]) && MatchAt(nodes[1..], v, pos + 1))
      case Item(a, Star) => exists e :: pos <= e <= |v| && AllAccepted(a, v[pos..e]) && MatchAt(nodes[1..], v, e)
  }

  /** `RegExp.prototype.test`: a match from some position; None where the text does not parse. */
  predicate Accepts(p: string, v: string) {
    var nodes := Parse(RegexText(p));
    nodes.Some? && exists pos :: 0 <= pos <= |v| && MatchAt(nodes.value, v, pos)
  }

  // ---- The glob ------------------------------------------------------------------------

  function Stars(p: string): nat {
    if p == "" then 0 else (if p[0] == '*' then 1 else 0) + Stars(p[1..])
  }

  /** The pattern with a gap in place of each `*`, in order. */
  function Fill(p: string, gaps: seq<string>): string
    requires |gaps| == Stars(p)
  {
    if p == "" then ""
    else if p[0] == '*' then gaps[0] + Fill(p[1..], gaps[1..])
    else [p[0]] + Fill(p[1..], gaps)
  }

  predicate Clean(s: string) {
    forall i :: 0 <= i < |s| ==> !LineTerminator(s[i])
  }

  predicate AllClean(gaps: seq<string>) {
    forall i :: 0 <= i < |gaps| ==> Clean(gaps[i])
  }

  /** The `*` glob: the literal pieces in order, with arbitrary gaps at the stars. */
  ghost predicate GlobMatches(p: string, v: string) {
    exists gaps :: |gaps| == Stars(p) && v == Fill(p, gaps)
  }

  ghost predicate GlobMatchesCleanly(p: string, v: string) {
    exists gaps :: |gaps| == Stars(p) && AllClean(gaps) && v == Fill(p, gaps)
  }

  // ---- The text parses back to the pattern ----------------------------------------------

  function TranslateChar(c: char): string {
    if Escaped(c) then ['\\', c] else if c == '*' then ".*" else [c]
  }

  lemma {:induction false} TranslationByChar(p: string)
    requires p != ""
    ensures StarPass(EscapePass(p)) == TranslateChar(p[0]) + StarPass(EscapePass(p[1..]))
  {
    var e := if Escaped(p[0]) then ['\\', p[0]] else [p[0]];
    var rest := EscapePass(p[1..]);
    assert EscapePass(p) == e + rest && (e + rest)[1..] == e[1..] + rest;
    if Escaped(p[0]) {
      assert ([p[0]] + rest)[1..] == rest;
    }
  }

  /** What the regular expression says: every character itself, every star any clean gap. */
  function NodesOf(p: string): seq<Node> {
    if p == "" then [End]
    else [if p[0] == '*' then Item(Any, Star) else Item(Lit(p[0]), One)] + NodesOf(p[1..])
  }

  function Body(p: string): string {
    StarPass(EscapePass(p)) + "$"
  }

  lemma BodyByChar(p: string)
    requires p != ""
    ensures Body(p) == TranslateChar(p[0]) + Body(p[1..])
  {
    TranslationByChar(p);
  }

  lemma EmptyBodyParses()
    ensures Body("") == "$" && Parse(Body("")) == Some([End])
  {
    assert Body("") == "$" && "$"[1..] == "";
    assert Parse("$"[1..]) == Some([]) && [End] + [] == [End];
  }

  predicate StartsWith(t: string, c: char) {
    t != "" && t[0] == c
  }

  /** No translated character begins with a quantifier, except `?` itself. */
  lemma BodyStart(p: string)
    ensures Body(p) != "" && Body(p)[0] != '*'
    ensures StartsWith(Body(p), '?') <==> StartsWith(p, '?')
  {
    if p != "" {
      BodyByChar(p);
    }
  }

  lemma ParseChar(c: char, tail: string)
    requires c != '?' && tail != "" && tail[0] != '*' && tail[0] != '?'
    ensures Parse(TranslateChar(c) + tail) == Prepend(if c == '*' then
            Item(Any, Star) else Item(Lit(c), One), Parse(tail))
  {
    var t := TranslateChar(c) + tail;
    if c == '*' {
      var u := "*" + tail;
      assert u[1..] == tail;
      assert t == "." + u;
      assert t[1..] == u;
    } else if Escaped(c) {
      assert t[2..] == tail;
    } else {
      assert t[1..] == tail;
    }
  }

  lemma {:induction false} BodyParses(p: string)
    requires '?' !in p
    ensures Parse(Body(p)) == Some(NodesOf(p))
  {
    if p == "" {
      EmptyBodyParses();
    } else {
      BodyByChar(p);
      BodyStart(p[1..]);
      assert !StartsWith(p[1..], '?');
      BodyParses(p[1..]);
      ParseChar(p[0], Body(p[1..]));
    }
  }

  lemma TextParses(p: string)
    ensures Parse(RegexText(p)) == Prepend(Start, Parse(Body(p)))
  {
    assert RegexText(p) == "^" + Body(p) && ("^" + Body(p))[1..] == Body(p);
  }

  // ---- Matching is filling --------------------------------------------------------------

  lemma SuffixSplits(v: string, from: nat, to: nat)
    requires from <= to <= |v|
    ensures v[from..] == v[from..to] + v[to..]
  {
  }

  lemma {:induction false} MatchGivesGaps(p: string, v: string, pos: nat) returns (gaps: seq<string>)
    requires pos <= |v| && MatchAt(NodesOf(p), v, pos)
    ensures |gaps| == Stars(p) && AllClean(gaps) && v[pos..] == Fill(p, gaps)
  {
    if p == "" {
      gaps := [];
    } else if p[0] == '*' {
      var e :| pos <= e <= |v| && AllAccepted(Any, v[pos..e]) && MatchAt(NodesOf(p)[1..], v, e);
      assert NodesOf(p)[1..] == NodesOf(p[1..]);
      var rest := MatchGivesGaps(p[1..], v, e);
      gaps := [v[pos..e]] + rest;
      assert gaps[1..] == rest;
      SuffixSplits(v, pos, e);
    } else {
      assert NodesOf(p)[1..] == NodesOf(p[1..]);
      gaps := MatchGivesGaps(p[1..], v, pos + 1);
      assert v[pos..] == [v[pos]] + v[pos + 1..];
    }
  }

  lemma {:induction false} GapsGiveMatch(p: string, v: string, pos: nat, gaps: seq<string>)
    requires pos <= |v| && |gaps| == Stars(p) && AllClean(gaps) && v[pos..] == Fill(p, gaps)
    ensures MatchAt(NodesOf(p), v, pos)
  {
    if p == "" {
    } else if p[0] == '*' {
      var e := pos + |gaps[0]|;
      assert v[pos..][..|gaps[0]|] == gaps[0] && v[pos..][|gaps[0]|..] == v[e..];
      assert v[pos..e] == gaps[0] && v[e..] == Fill(p[1..], gaps[1..]);
      GapsGiveMatch(p[1..], v, e, gaps[1..]);
      assert NodesOf(p)[1..] == NodesOf(p[1..]) && AllAccepted(Any, v[pos..e]);
    } else {
      assert v[pos] == v[pos..][0] && v[pos..][1..] == v[pos + 1..];
      GapsGiveMatch(p[1..], v, pos + 1, gaps);
      assert NodesOf(p)[1..] == NodesOf(p[1..]);
    }
  }

  /**
   For every pattern without `?` and every value: accepted exactly when it fills the pattern with gaps free
   of line terminators.
   */
  lemma RegexMeansGlob(p: string, v: string)
    requires '?' !in p
    ensures Accepts(p, v) <==> GlobMatchesCleanly(p, v)
  {
    BodyParses(p);
    TextParses(p);
    var nodes := [Start] + NodesOf(p);
    assert nodes[1..] == NodesOf(p) && v[0..] == v;
    if Accepts(p, v) {
      var pos :| 0 <= pos <= |v| && MatchAt(nodes, v, pos);
      var gaps := MatchGivesGaps(p, v, 0);
    }
    if GlobMatchesCleanly(p, v) {
      var gaps :| |gaps| == Stars(p) && AllClean(gaps) && v == Fill(p, gaps);
      GapsGiveMatch(p, v, 0, gaps);
      assert MatchAt(nodes, v, 0);
    }
  }

  lemma {:induction false} GapsOfCleanValue(p: string, gaps: seq<string>)
    requires |gaps| == Stars(p) && Clean(Fill(p, gaps))
    ensures AllClean(gaps)
  {
    if p == "" {
    } else if p[0] == '*' {
      var f := Fill(p[1..], gaps[1..]);
      assert forall i :: 0 <= i < |gaps[0]| ==> gaps[0][i] == (gaps[0] + f)[i];
      assert forall i :: 0 <= i < |f| ==> f[i] == (gaps[0] + f)[|gaps[0]| + i];
      GapsOfCleanValue(p[1..], gaps[1..]);
      assert forall i :: 1 <= i < |gaps| ==> gaps[i] == gaps[1..][i - 1];
    } else {
      var f := Fill(p[1..], gaps);
      assert forall i :: 0 <= i < |f| ==> f[i] == ([p[0]] + f)[i + 1];
      GapsOfCleanValue(p[1..], gaps);
    }
  }

  /** On values without line terminators, a pattern without `?` means exactly the `*` glob. */
  lemma RegexMeansGlobOnCleanValues(p: string, v: string)
    requires '?' !in p && Clean(v)
    ensures Accepts(p, v) <==> GlobMatches(p, v)
  {
    RegexMeansGlob(p, v);
    if GlobMatches(p, v) {
      var gaps :| |gaps| == Stars(p) && v == Fill(p, gaps);
      GapsOfCleanValue(p, gaps);
    }
  }

  // ---- A question mark is not escaped ---------------------------------------------------

  /** The pattern without its stars and question marks. */
  function Strip(p: string): string {
    if p == "" then "" else (if p[0] == '*' || p[0] == '?' then "" else [p[0]]) + Strip(p[1..])
  }

  /** Some question mark of the pattern survives in everything the glob matches. */
  lemma {:induction false} FillKeepsQuestionMark(p: string, gaps: seq<string>)
    requires |gaps| == Stars(p) && '?' in p
    ensures '?' in Fill(p, gaps)
  {
    if p[0] == '*' {
      assert '?' in p[1..];
      FillKeepsQuestionMark(p[1..], gaps[1..]);
    } else if p[0] != '?' {
      assert '?' in p[1..];
      FillKeepsQuestionMark(p[1..], gaps);
    }
  }

  lemma {:induction false} StripHasNoQuestionMark(p: string)
    ensures '?' !in Strip(p)
  {
    if p != "" {
      StripHasNoQuestionMark(p[1..]);
    }
  }

  /** How many leading question marks the parser takes as part of the quantifier before them. */
  function LeadingMarks(p: string, most: nat): (n: nat)
    ensures n <= most && n <= |p|
  {
    if most == 0 || !StartsWith(p, '?') then 0 else 1 + LeadingMarks(p[1..], most - 1)
  }

  lemma ParseLazyStar(tail: string)
    ensures Parse(".*?" + tail) == Prepend(Item(Any, Star), Parse(tail))
  {
    var t := ".*?" + tail;
    assert t[1..] == "*?" + tail && ("*?" + tail)[2..] == tail;
  }

  lemma AtomAtStart(c: char, tail: string)
    requires c != '?' && c != '*'
    ensures ReadAtom(TranslateChar(c) + tail) == Some((Lit(c), |TranslateChar(c)|))
    ensures (TranslateChar(c) + tail)[|TranslateChar(c)|..] == tail
    ensures !StartsWith(TranslateChar(c) + tail, '^') && !StartsWith(TranslateChar(c) + tail, '$')
  {
  }

  lemma ParseOption(c: char, tail: string)
    requires c != '?' && c != '*' && !StartsWith(tail, '?')
    ensures Parse(TranslateChar(c) + ("?" + tail)) == Prepend(Item(Lit(c), Opt), Parse(tail))
  {
    AtomAtStart(c, "?" + tail);
    assert ("?" + tail)[1..] == tail;
    assert ReadQuantifier("?" + tail) == (Opt, 1);
  }

  lemma ParseLazyOption(c: char, tail: string)
    requires c != '?' && c != '*'
    ensures Parse(TranslateChar(c) + ("??" + tail)) == Prepend(Item(Lit(c), Opt), Parse(tail))
  {
    AtomAtStart(c, "??" + tail);
    assert ("??" + tail)[2..] == tail;
    assert ReadQuantifier("??" + tail) == (Opt, 2);
  }

  function NodeFor(c: char, marks: nat): Node {
    if c == '*' then Item(Any, Star) else Item(Lit(c), if marks == 0 then One else Opt)
  }

  lemma ParseStarQuantified(p: string)
    ensures Parse(TranslateChar('*') + Body(p)) == Prepend(NodeFor('*', 0), Parse(Body(p[LeadingMarks(p, 1)..])))
  {
    BodyStart(p);
    if !StartsWith(p, '?') {
      ParseChar('*', Body(p));
      assert p[0..] == p;
    } else {
      StarThenMark(p);
      ParseLazyStar(Body(p[1..]));
    }
  }

  lemma StarMarkText(t: string)
    ensures ".*" + ("?" + t) == ".*?" + t
  {
  }

  lemma StarThenMark(p: string)
    requires StartsWith(p, '?')
    ensures TranslateChar('*') + Body(p) == ".*?" + Body(p[1..]) && LeadingMarks(p, 1) == 1
  {
    BodyByChar(p);
    StarMarkText(Body(p[1..]));
    assert LeadingMarks(p[1..], 0) == 0;
  }

  lemma ParseLiteralTwoMarks(c: char, p: string)
    requires c != '?' && c != '*' && StartsWith(p, '?') && StartsWith(p[1..], '?')
    ensures LeadingMarks(p, 2) == 2
    ensures Parse(TranslateChar(c) + Body(p)) == Prepend(NodeFor(c, 2), Parse(Body(p[2..])))
  {
    var q := p[1..];
    BodyByChar(p);
    BodyByChar(q);
    assert q[1..] == p[2..];
    assert LeadingMarks(q[1..], 0) == 0 && LeadingMarks(q, 1) == 1;
    assert "?" + ("?" + Body(p[2..])) == "??" + Body(p[2..]);
    ParseLazyOption(c, Body(p[2..]));
  }

  lemma ParseLiteralOneMark(c: char, p: string)
    requires c != '?' && c != '*' && StartsWith(p, '?') && !StartsWith(p[1..], '?')
    ensures LeadingMarks(p, 2) == 1
    ensures Parse(TranslateChar(c) + Body(p)) == Prepend(NodeFor(c, 1), Parse(Body(p[1..])))
  {
    BodyByChar(p);
    BodyStart(p[1..]);
    assert LeadingMarks(p[1..], 1) == 0;
    ParseOption(c, Body(p[1..]));
  }

  lemma ParseLiteralQuantified(c: char, p: string)
    requires c != '?' && c != '*'
    ensures var n := LeadingMarks(p, 2);
            Parse(TranslateChar(c) + Body(p)) == Prepend(NodeFor(c, n), Parse(Body(p[n..])))
  {
    if !StartsWith(p, '?') {
      BodyStart(p);
      ParseChar(c, Body(p));
      assert p[0..] == p;
    } else if StartsWith(p[1..], '?') {
      ParseLiteralTwoMarks(c, p);
    } else {
      ParseLiteralOneMark(c, p);
    }
  }

  lemma MatchStarWithNothing(rest: seq<Node>, v: string, pos: nat)
    requires pos <= |v| && MatchAt(rest, v, pos)
    ensures MatchAt([Item(Any, Star)] + rest, v, pos)
  {
    assert ([Item(Any, Star)] + rest)[1..] == rest;
    assert v[pos..pos] == "" && AllAccepted(Any, v[pos..pos]);
  }

  lemma MatchLiteral(c: char, q: Quantifier, rest: seq<Node>, v: string, pos: nat)
    requires pos < |v| && v[pos] == c && MatchAt(rest, v, pos + 1) && q != Star
    ensures MatchAt([Item(Lit(c), q)] + rest, v, pos)
  {
    assert ([Item(Lit(c), q)] + rest)[1..] == rest;
  }

  lemma {:induction false} ParsedAcceptsStripped(p: string, v: string, pos: nat)
    requires Parse(Body(p)).Some? && pos <= |v| && v[pos..] == Strip(p)
    ensures MatchAt(Parse(Body(p)).value, v, pos)
    decreases |p|
  {
    if p == "" {
      EmptyBodyParses();
    } else if p[0] == '*' {
      BodyByChar(p);
      ParseStarQuantified(p[1..]);
      StripAfter(p, 1);
      var r := p[1..][LeadingMarks(p[1..], 1)..];
      ParsedAcceptsStripped(r, v, pos);
      MatchStarWithNothing(Parse(Body(r)).value, v, pos);
    } else if p[0] == '?' {
      MarkFirstDoesNotParse(p);
    } else {
      BodyByChar(p);
      ParseLiteralQuantified(p[0], p[1..]);
      StripAfter(p, 2);
      var n := LeadingMarks(p[1..], 2);
      var r := p[1..][n..];
      assert v[pos] == v[pos..][0] && v[pos + 1..] == v[pos..][1..];
      ParsedAcceptsStripped(r, v, pos + 1);
      MatchLiteral(p[0], if n == 0 then One else Opt, Parse(Body(r)).value, v, pos);
    }
  }

  lemma MarkFirstDoesNotParse(p: string)
    requires StartsWith(p, '?')
    ensures Parse(Body(p)).None?
  {
    BodyStart(p);
  }

  lemma StripAfter(p: string, most: nat)
    requires p != "" && p[0] != '?'
    ensures var r := p[1..][LeadingMarks(p[1..], most)..];
            Strip(p) == if p[0] == '*' then Strip(r) else [p[0]] + Strip(r)
  {
    StripMarks(p[1..], most);
  }

  lemma {:induction false} StripMarks(q: string, most: nat)
    ensures Strip(q[LeadingMarks(q, most)..]) == Strip(q)
  {
    if most == 0 || !StartsWith(q, '?') {
      assert q[0..] == q;
    } else {
      StripMarks(q[1..], most - 1);
      var n := LeadingMarks(q[1..], most - 1);
      assert LeadingMarks(q, most) == n + 1 && q[1..][n..] == q[n + 1..];
    }
  }

  /**
   With a `?` in it, no pattern means the glob: either it is no regular expression, or it accepts a value
   the glob refuses.
   */
  lemma QuestionMarkBreaksGlob(p: string)
    requires '?' in p
    ensures Parse(RegexText(p)).None? || (Accepts(p, Strip(p)) && !GlobMatches(p, Strip(p)))
  {
    TextParses(p);
    if Parse(RegexText(p)).Some? {
      assert Strip(p)[0..] == Strip(p);
      ParsedAcceptsStripped(p, Strip(p), 0);
      var nodes := Parse(RegexText(p)).value;
      assert nodes[1..] == Parse(Body(p)).value;
      assert MatchAt(nodes, Strip(p), 0);
      StripHasNoQuestionMark(p);
      if GlobMatches(p, Strip(p)) {
        var gaps :| |gaps| == Stars(p) && Strip(p) == Fill(p, gaps);
        FillKeepsQuestionMark(p, gaps);
      }
    }
  }

  function EmptyGaps(n: nat): (gaps: seq<string>)
    ensures |gaps| == n && AllClean(gaps) && forall i :: 0 <= i < n ==> gaps[i] == ""
  {
    seq(n, _ => "")
  }

  lemma {:induction false} FillCleanly(p: string)
    requires Clean(p)
    ensures Clean(Fill(p, EmptyGaps(Stars(p))))
  {
    if p != "" {
      assert Clean(p[1..]);
      FillCleanly(p[1..]);
      var gaps := EmptyGaps(Stars(p));
      if p[0] == '*' {
        assert gaps[1..] == EmptyGaps(Stars(p[1..]));
        assert Fill(p, gaps) == Fill(p[1..], gaps[1..]);
      }
    }
  }

  lemma {:induction false} StripIsClean(p: string)
    requires Clean(p)
    ensures Clean(Strip(p))
  {
    if p != "" {
      assert Clean(p[1..]);
      StripIsClean(p[1..]);
    }
  }

  /** A value on which a pattern with `?` and the glob differ; clean if the pattern is. */
  lemma QuestionMarkWitness(p: string) returns (v: string)
    requires '?' in p
    ensures Accepts(p, v) != GlobMatches(p, v) && Accepts(p, v) != GlobMatchesCleanly(p, v)
    ensures Clean(p) ==> Clean(v)
  {
    QuestionMarkBreaksGlob(p);
    if Parse(RegexText(p)).None? {
      var gaps := EmptyGaps(Stars(p));
      v := Fill(p, gaps);
      assert GlobMatches(p, v) && GlobMatchesCleanly(p, v);
      if Clean(p) {
        FillCleanly(p);
      }
    } else {
      v := Strip(p);
      if Clean(p) {
        StripIsClean(p);
      }
    }
  }

  /**
   A pattern means the glob with gaps free of line terminators, on every value, if and only if it holds no `?`;
   if it holds no line terminator itself, that is also exactly when it means the glob on every clean value.
   */
  lemma PatternMeansGlobIff(p: string)
    ensures (forall v :: Accepts(p, v) <==> GlobMatchesCleanly(p, v)) <==> '?' !in p
    ensures Clean(p) ==> ((forall v :: Clean(v) ==> (Accepts(p, v) <==> GlobMatches(p, v))) <==> '?' !in p)
  {
    if '?' in p {
      var v := QuestionMarkWitness(p);
    } else {
      forall v ensures Accepts(p, v) <==> GlobMatchesCleanly(p, v) {
        RegexMeansGlob(p, v);
      }
      forall v | Clean(v) ensures Accepts(p, v) <==> GlobMatches(p, v) {
        RegexMeansGlobOnCleanValues(p, v);
      }
    }
  }

  // ---- Which patterns are regular expressions --------------------------------------------

  /** A `?` has something to quantify: it is the first or second after a literal, or the first after a star. */
  predicate MarkFits(p: string, i: nat)
    requires i < |p|
  {
    p[i] == '?' ==> i > 0 && (p[i - 1] == '?' ==> i > 1 && p[i - 2] != '?' && p[i - 2] != '*')
  }

  predicate MarksFit(p: string) {
    forall i :: 0 <= i < |p| ==> MarkFits(p, i)
  }

  lemma {:induction false} LeadingMarksAre(q: string, most: nat)
    ensures forall j :: 0 <= j < LeadingMarks(q, most) ==> q[j] == '?'
    ensures LeadingMarks(q, most) < most ==> !StartsWith(q[LeadingMarks(q, most)..], '?')
  {
    if most > 0 && StartsWith(q, '?') {
      var n := LeadingMarks(q[1..], most - 1);
      LeadingMarksAre(q[1..], most - 1);
      assert q[1..][n..] == q[n + 1..];
      assert forall j :: 1 <= j < n + 1 ==> q[j] == q[1..][j - 1];
    }
  }

  lemma LeadFits(p: string, most: nat, i: nat)
    requires p != "" && p[0] != '?' && most == (if p[0] == '*' then 1 else 2)
    requires i <= LeadingMarks(p[1..], most)
    ensures MarkFits(p, i)
  {
    LeadingMarksAre(p[1..], most);
    assert i > 1 ==> p[0] != '*';
  }

  /** Marks after a character that is no mark fit alike in the whole and in the rest from that character on. */
  lemma RestFits(p: string, n: nat, i: nat)
    requires n + i < |p| && p[n] != '?'
    ensures MarkFits(p[n..], i) <==> MarkFits(p, n + i)
  {
  }

  /** One mark too many after the leading ones does not fit. */
  lemma ExcessFails(p: string, most: nat)
    requires p != "" && p[0] != '?' && most == (if p[0] == '*' then 1 else 2)
    requires var n := LeadingMarks(p[1..], most); n + 1 < |p| && p[n + 1] == '?'
    ensures !MarkFits(p, LeadingMarks(p[1..], most) + 1)
  {
    var n := LeadingMarks(p[1..], most);
    LeadingMarksAre(p[1..], most);
    assert p[1..][n..] == p[n + 1..];
    assert n == most && p[1..][n - 1] == '?' && p[n] == '?';
    assert n == 2 ==> p[1..][0] == '?' && p[1] == '?';
  }

  lemma MarksFitAfter(p: string)
    requires p != "" && p[0] != '?'
    ensures MarksFit(p) <==> MarksFit(p[1..][LeadingMarks(p[1..], if p[0] == '*' then 1 else 2)..])
  {
    var most := if p[0] == '*' then 1 else 2;
    var n := LeadingMarks(p[1..], most);
    var r := p[n + 1..];
    assert p[1..][n..] == r;
    if StartsWith(r, '?') {
      ExcessFails(p, most);
      assert !MarkFits(r, 0);
    } else {
      forall i | 0 <= i < |p| ensures MarkFits(p, i) <==> i <= n || MarkFits(r, i - n - 1) {
        if i <= n {
          LeadFits(p, most, i);
        } else {
          RestFits(p, n + 1, i - n - 1);
        }
      }
      forall i | 0 <= i < |r| ensures MarkFits(r, i) <==> MarkFits(p, n + 1 + i) {
        RestFits(p, n + 1, i);
      }
    }
  }

  /** A pattern gives a regular expression exactly when its question marks fit. */
  lemma {:induction false} ParsesIff(p: string)
    ensures Parse(Body(p)).Some? <==> MarksFit(p)
    decreases |p|
  {
    if p == "" {
      EmptyBodyParses();
    } else if p[0] == '?' {
      MarkFirstDoesNotParse(p);
      assert !MarkFits(p, 0);
    } else {
      BodyByChar(p);
      MarksFitAfter(p);
      if p[0] == '*' {
        ParseStarQuantified(p[1..]);
      } else {
        ParseLiteralQuantified(p[0], p[1..]);
      }
      ParsesIff(p[1..][LeadingMarks(p[1..], if p[0] == '*' then 1 else 2)..]);
    }
  }

  /** Building the regular expression throws. */
  predicate Throws(p: string) {
    Parse(RegexText(p)).None?
  }

  lemma ThrowsIff(p: string)
    ensures Throws(p) <==> !MarksFit(p)
    ensures Throws(p) ==> '?' in p
  {
    TextParses(p);
    ParsesIff(p);
  }

  /** The line terminators of section 12.3 of ECMA-262 by their code points. */
  lemma LineTerminators(c: char)
    ensures LineTerminator(c) <==> c as int in {0xA, 0xD, 0x2028, 0x2029}
  {
  }

  // ---- Tags -----------------------------------------------------------------------------

  /** A pattern without `*` is compared as it stands. */
  predicate TagMatches(tag: string, p: string) {
    if '*' !in p then tag == p else Accepts(p, tag)
  }

  lemma {:induction false} FillWithoutStars(p: string)
    requires '*' !in p
    ensures Stars(p) == 0 && Fill(p, []) == p
  {
    if p != "" {
      FillWithoutStars(p[1..]);
    }
  }

  /** Tag matching is the glob on clean tags, for patterns that have no `*` or no `?`. */
  lemma TagMatchesMeansGlob(tag: string, p: string)
    requires Clean(tag) && ('*' !in p || '?' !in p)
    ensures TagMatches(tag, p) <==> GlobMatches(p, tag)
  {
    if '*' !in p {
      FillWithoutStars(p);
      assert GlobMatches(p, tag) <==> tag == p by {
        if GlobMatches(p, tag) {
          var gaps :| |gaps| == Stars(p) && tag == Fill(p, gaps);
          assert gaps == [];
        }
        if tag == p {
          var none: seq<string> := [];
          assert |none| == Stars(p) && tag == Fill(p, none);
        }
      }
    } else {
      RegexMeansGlobOnCleanValues(p, tag);
    }
  }
}
