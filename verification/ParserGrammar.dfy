/** The language of the instruction parser: what an instruction looks like, what its parameters mean, and
    that parse reads exactly such instructions and reports an unterminated quote for all other texts. */
module ParserGrammar {
  import opened Common
  import opened Parser

  // ----- the language -----

  /** A stretch of a quoted parameter: text without quotes, or a quote written with a backslash before it or
      written twice. */
  datatype Piece = Plain(text: string) | Slashed | Doubled

  /** A parameter, bare or quoted. */
  datatype Item = Word(text: string) | Quote(pieces: seq<Piece>)

  /** A parameter and the blanks before it. */
  datatype Spaced = Spaced(gap: string, item: Item)

  function WrittenPiece(p: Piece): string {
    match p case Plain(t) => t case Slashed => ['\\', '\"'] case Doubled => ['\"', '\"']
  }

  function MeantByPiece(p: Piece): string {
    match p case Plain(t) => t case Slashed => ['\"'] case Doubled => ['\"']
  }

  function WrittenPieces(ps: seq<Piece>): string
    decreases ps
  {
    if ps == [] then ""
    else WrittenPiece(ps[0]) + WrittenPieces(ps[1..])
  }

  function MeantByPieces(ps: seq<Piece>): string
    decreases ps
  {
    if ps == [] then ""
    else MeantByPiece(ps[0]) + MeantByPieces(ps[1..])
  }

  /** The pieces can stand between quotes, behind a stretch without quotes: a doubled quote and the closing
      one do not follow a backslash, which would take them back. */
  predicate PiecesOk(before: string, ps: seq<Piece>)
    decreases ps
  {
    if ps == [] then !EndsInSlash(before)
    else
      match ps[0]
      case Plain(t) => '\"' !in t && PiecesOk(before + t, ps[1..])
      case Slashed => PiecesOk("", ps[1..])
      case Doubled => !EndsInSlash(before) && PiecesOk("", ps[1..])
  }

  function Written(item: Item): string {
    match item case Word(t) => t case Quote(ps) => ['\"'] + WrittenPieces(ps) + ['\"']
  }

  function Meant(item: Item): string {
    match item case Word(t) => t case Quote(ps) => MeantByPieces(ps)
  }

  predicate ItemOk(l: Locale, item: Item) {
    match item
    case Word(t) => t != "" && forall c <- t :: !l.isSpace(c) && c != '\"'
    case Quote(ps) => PiecesOk("", ps)
  }

  function WrittenItems(es: seq<Spaced>): string
    decreases es
  {
    if es == [] then "" else es[0].gap + Written(es[0].item) + WrittenItems(es[1..])
  }

  function MeantBy(es: seq<Spaced>): seq<string>
    decreases es
  {
    if es == [] then [] else [Meant(es[0].item)] + MeantBy(es[1..])
  }

  predicate Blanks(l: Locale, s: string) {
    forall c <- s :: l.isSpace(c)
  }

  /** What stands before a parameter. */
  datatype Behind = BehindName | BehindWord | BehindQuote

  function Kind(item: Item): Behind {
    if item.Word? then BehindWord else BehindQuote
  }

  /** Blanks separate parameters; a word and a quoted one need none between them. */
  predicate ItemsOk(l: Locale, behind: Behind, es: seq<Spaced>)
    decreases es
  {
    es == [] ||
    (&& Blanks(l, es[0].gap) && ItemOk(l, es[0].item)
     && (es[0].gap == "" ==> behind != BehindName && behind != Kind(es[0].item))
     && ItemsOk(l, Kind(es[0].item), es[1..]))
  }

  /** An instruction: a name, parameters, blanks. */
  predicate Instruction(l: Locale, s: string, name: string, es: seq<Spaced>, tail: string) {
    SpaceFree(l, name) && ItemsOk(l, BehindName, es) && Blanks(l, tail) && s == name + WrittenItems(es) + tail
  }

  // ----- reading a quoted parameter -----

  lemma QuotedDoubles(s: string, pos: nat, a: string)
    requires 0 < pos <= |s| && s[pos - 1] == QUOTE && (forall k | 0 <= k < |a| :: a[k] != QUOTE) && !EndsInSlash(a)
    requires StandsAt(s, pos, a) && StandsAt(s, pos + |a|, [QUOTE, QUOTE])
    ensures s[pos + |a| + 1] == QUOTE
    ensures Quoted(s, pos) == After(a + [QUOTE], Quoted(s, pos + |a| + 2))
  {
    var t := [QUOTE, QUOTE];
    assert s[pos + |a|] == t[0] && s[pos + |a| + 1] == t[1];
    FindQuoteAfter(s, pos, a);
    SliceAt(s, pos, a);
    assert s[pos..pos + |a| + 1] == a + [QUOTE];
    if a != "" { assert s[pos + |a| - 1] == a[|a| - 1]; }
  }

  lemma PiecesHead(p: Piece, ps: seq<Piece>)
    ensures WrittenPieces([p] + ps) == WrittenPiece(p) + WrittenPieces(ps)
    ensures MeantByPieces([p] + ps) == MeantByPiece(p) + MeantByPieces(ps)
    ensures forall before :: PiecesOk(before, [p] + ps) <==>
              match p
              case Plain(t) => QUOTE !in t && PiecesOk(before + t, ps)
              case Slashed => PiecesOk("", ps)
              case Doubled => !EndsInSlash(before) && PiecesOk("", ps)
  {
    assert ([p] + ps)[1..] == ps;
  }

  /** Pieces behind a stretch without quotes, up to the closing quote. */
  predicate PiecesAt(s: string, pos: nat, before: string, ps: seq<Piece>) {
    && 0 < pos <= |s| && s[pos - 1] == QUOTE && QUOTE !in before && PiecesOk(before, ps)
    && StandsAt(s, pos, before) && StandsAt(s, pos + |before|, WrittenPieces(ps))
    && StandsAt(s, pos + |before| + |WrittenPieces(ps)|, [QUOTE])
    && CharAt(s, pos + |before| + |WrittenPieces(ps)| + 1) != QUOTE
  }

  lemma {:induction false} PiecesRead(s: string, pos: nat, before: string, ps: seq<Piece>)
    requires PiecesAt(s, pos, before, ps)
    ensures Quoted(s, pos) == Some((before + MeantByPieces(ps), pos + |before| + |WrittenPieces(ps)| + 1))
    decreases ps
  {
    hide Quoted, FindQuote, StandsAt, PiecesOk, WrittenPieces, MeantByPieces;
    if ps == [] {
      NoPieces(s, pos, before);
    } else {
      var rest := ps[1..];
      assert ps == [ps[0]] + rest;
      match ps[0]
      case Plain(t) =>
        PlainNext(s, pos, before, t, rest);
        PiecesRead(s, pos, before + t, rest);
        assert before + t + MeantByPieces(rest) == before + (t + MeantByPieces(rest));
      case Slashed =>
        SlashedNext(s, pos, before, rest);
        PiecesRead(s, pos + |before| + 2, "", rest);
        Rejoined(before, MeantByPieces(rest));
      case Doubled =>
        DoubledNext(s, pos, before, rest);
        PiecesRead(s, pos + |before| + 2, "", rest);
        Rejoined(before, MeantByPieces(rest));
    }
  }

  lemma Rejoined(before: string, rest: string)
    ensures before + [QUOTE] + ("" + rest) == before + ([QUOTE] + rest)
  {
  }

  lemma NoPieces(s: string, pos: nat, before: string)
    requires PiecesAt(s, pos, before, [])
    ensures Quoted(s, pos) == Some((before + MeantByPieces([]), pos + |before| + |WrittenPieces([])| + 1))
  {
    hide Quoted, FindQuote;
    QuotedReadsPlain(s, pos, before);
    assert before + "" == before;
  }

  lemma PlainNext(s: string, pos: nat, before: string, t: string, ps: seq<Piece>)
    requires PiecesAt(s, pos, before, [Plain(t)] + ps)
    ensures PiecesAt(s, pos, before + t, ps)
    ensures MeantByPieces([Plain(t)] + ps) == t + MeantByPieces(ps)
    ensures |WrittenPieces([Plain(t)] + ps)| == |t| + |WrittenPieces(ps)|
  {
    hide StandsAt, PiecesOk, WrittenPieces, MeantByPieces;
    PiecesHead(Plain(t), ps);
    StandsInParts(s, pos + |before|, t, WrittenPieces(ps));
    StandsInParts(s, pos, before, t);
    assert |before + t| == |before| + |t|;
  }

  lemma SlashedNext(s: string, pos: nat, before: string, ps: seq<Piece>)
    requires PiecesAt(s, pos, before, [Slashed] + ps)
    ensures PiecesAt(s, pos + |before| + 2, "", ps)
    ensures Quoted(s, pos) == After(before + [QUOTE], Quoted(s, pos + |before| + 2))
    ensures MeantByPieces([Slashed] + ps) == [QUOTE] + MeantByPieces(ps)
    ensures |WrittenPieces([Slashed] + ps)| == 2 + |WrittenPieces(ps)|
  {
    hide Quoted, PiecesOk, WrittenPieces, MeantByPieces;
    PiecesHead(Slashed, ps);
    StandsInParts(s, pos + |before|, [SLASH, QUOTE], WrittenPieces(ps));
    QuotedSkips(s, pos, before);
  }

  lemma DoubledNext(s: string, pos: nat, before: string, ps: seq<Piece>)
    requires PiecesAt(s, pos, before, [Doubled] + ps)
    ensures PiecesAt(s, pos + |before| + 2, "", ps)
    ensures Quoted(s, pos) == After(before + [QUOTE], Quoted(s, pos + |before| + 2))
    ensures MeantByPieces([Doubled] + ps) == [QUOTE] + MeantByPieces(ps)
    ensures |WrittenPieces([Doubled] + ps)| == 2 + |WrittenPieces(ps)|
  {
    hide Quoted, PiecesOk, WrittenPieces, MeantByPieces;
    PiecesHead(Doubled, ps);
    StandsInParts(s, pos + |before|, [QUOTE, QUOTE], WrittenPieces(ps));
    QuotedDoubles(s, pos, before);
  }

  // ----- reading a parameter -----

  lemma {:induction false} SkipIs(l: Locale, s: string, i: nat, j: nat)
    requires i <= j <= |s| && (forall k | i <= k < j :: l.isSpace(s[k])) && (j < |s| ==> !l.isSpace(s[j]))
    ensures SkipSpaces(l, s, i) == j
    decreases j - i
  {
    if i < j { SkipIs(l, s, i + 1, j); }
  }

  lemma {:induction false} StopIs(l: Locale, s: string, i: nat, j: nat)
    requires i <= j <= |s| && (forall k | i <= k < j :: !l.isSpace(s[k]) && s[k] != QUOTE)
    requires j < |s| ==> l.isSpace(s[j]) || s[j] == QUOTE
    ensures FindStop(l, s, i) == j
    decreases j - i
  {
    if i < j { StopIs(l, s, i + 1, j); }
  }

  /** What may follow a parameter. */
  predicate MayFollow(l: Locale, s: string, end: nat, behind: Behind) {
    match behind
    case BehindName => end >= |s| || l.isSpace(s[end])
    case BehindWord => end >= |s| || l.isSpace(s[end]) || s[end] == QUOTE
    case BehindQuote => CharAt(s, end) != QUOTE
  }

  predicate SpacedAt(s: string, start: nat, e: Spaced) {
    StandsAt(s, start, e.gap) && StandsAt(s, start + |e.gap|, Written(e.item))
  }

  function EndOf(start: nat, e: Spaced): nat {
    start + |e.gap| + |Written(e.item)|
  }

  lemma GapIsSkipped(l: Locale, s: string, start: nat, gap: string)
    requires Blanks(l, gap) && StandsAt(s, start, gap) && start + |gap| < |s| && !l.isSpace(s[start + |gap|])
    ensures SkipSpaces(l, s, start) == start + |gap|
  {
    forall k | start <= k < start + |gap| ensures l.isSpace(s[k]) { assert s[k] == gap[k - start]; }
    SkipIs(l, s, start, start + |gap|);
  }

  /** A word behind blanks and before a blank, a quote or the end is read as exactly that word, and reading
      goes on right after it. */
  lemma WordReads(l: Locale, s: string, start: nat, gap: string, t: string, res: ParseResult)
    requires !l.isSpace(QUOTE) && Blanks(l, gap) && ItemOk(l, Word(t))
    requires StandsAt(s, start, gap) && StandsAt(s, start + |gap|, t)
    requires MayFollow(l, s, start + |gap| + |t|, BehindWord)
    ensures start <= |s| && Extract(l, s, start, res) == (start + |gap| + |t|, res.(param := res.param + [t]))
  {
    hide SkipSpaces, FindStop;
    var i := start + |gap|;
    forall k | i <= k < i + |t| ensures !l.isSpace(s[k]) && s[k] != QUOTE { assert s[k] == t[k - i] && t[k - i] in t; }
    GapIsSkipped(l, s, start, gap);
    StopIs(l, s, i, i + |t|);
    SliceAt(s, i, t);
  }

  /** So is a quoted parameter, as the text its pieces mean. */
  lemma QuoteReads(l: Locale, s: string, start: nat, gap: string, ps: seq<Piece>, res: ParseResult)
    requires !l.isSpace(QUOTE) && Blanks(l, gap) && PiecesOk("", ps)
    requires StandsAt(s, start, gap) && StandsAt(s, start + |gap|, Written(Quote(ps)))
    requires CharAt(s, start + |gap| + 2 + |WrittenPieces(ps)|) != QUOTE
    ensures start <= |s|
    ensures Extract(l, s, start, res) ==
            (start + |gap| + 2 + |WrittenPieces(ps)|, res.(param := res.param + [MeantByPieces(ps)]))
  {
    hide Quoted, SkipSpaces, FindStop, WrittenPieces, MeantByPieces;
    var i := start + |gap|;
    StandsInParts(s, i, [QUOTE] + WrittenPieces(ps), [QUOTE]);
    StandsInParts(s, i, [QUOTE], WrittenPieces(ps));
    assert s[i] == [QUOTE][0];
    GapIsSkipped(l, s, start, gap);
    PiecesRead(s, i + 1, "", ps);
    assert "" + MeantByPieces(ps) == MeantByPieces(ps);
  }

  lemma ItemReads(l: Locale, s: string, start: nat, e: Spaced, res: ParseResult)
    requires !l.isSpace(QUOTE) && Blanks(l, e.gap) && ItemOk(l, e.item) && SpacedAt(s, start, e)
    requires MayFollow(l, s, EndOf(start, e), Kind(e.item))
    ensures start < EndOf(start, e) <= |s|
    ensures Extract(l, s, start, res) == (EndOf(start, e), res.(param := res.param + [Meant(e.item)]))
  {
    hide Extract, WrittenPieces, MeantByPieces, PiecesOk;
    match e.item
    case Word(t) => WordReads(l, s, start, e.gap, t, res);
    case Quote(ps) => QuoteReads(l, s, start, e.gap, ps, res);
  }

  lemma NextMayFollow(l: Locale, s: string, end: nat, behind: Behind, es: seq<Spaced>, tail: string)
    requires !l.isSpace(QUOTE) && behind != BehindName && ItemsOk(l, behind, es) && Blanks(l, tail)
    requires StandsAt(s, end, WrittenItems(es) + tail) && end + |WrittenItems(es) + tail| == |s|
    ensures MayFollow(l, s, end, behind)
  {
    var t := WrittenItems(es) + tail;
    if t != "" {
      assert s[end] == t[0];
      if es == [] {
        assert t[0] in tail;
      } else if es[0].gap != "" {
        assert t[0] == es[0].gap[0] && t[0] in es[0].gap;
      } else {
        var w := Written(es[0].item);
        assert t[0] == w[0] && w[0] in w;
      }
    }
  }

  lemma {:induction false} ItemsRead(l: Locale, s: string, start: nat, behind: Behind, es: seq<Spaced>, tail: string,
                                     res: ParseResult)
    requires !l.isSpace(QUOTE) && ItemsOk(l, behind, es) && Blanks(l, tail)
    requires StandsAt(s, start, WrittenItems(es) + tail) && start + |WrittenItems(es) + tail| == |s|
    ensures ExtractAll(l, s, start, res) == res.(param := res.param + MeantBy(es))
    decreases es
  {
    hide Extract, ExtractAll, Written, ItemOk, MayFollow;
    if es == [] {
      BlankRest(l, s, start, tail, res);
      assert res.param + [] == res.param;
    } else {
      var e, rest := es[0], es[1..];
      var t := WrittenItems(rest) + tail;
      assert WrittenItems(es) + tail == e.gap + (Written(e.item) + t);
      StandsInParts(s, start, e.gap, Written(e.item) + t);
      StandsInParts(s, start + |e.gap|, Written(e.item), t);
      var end := EndOf(start, e);
      NextMayFollow(l, s, end, Kind(e.item), rest, tail);
      ItemReads(l, s, start, e, res);
      var res1 := res.(param := res.param + [Meant(e.item)]);
      ExtractAllStep(l, s, start, res, end, res1);
      assert res.param + MeantBy(es) == res.param + [Meant(e.item)] + MeantBy(rest);
      if end == |s| {
        NothingLeft(l, Kind(e.item), rest, tail);
      } else {
        ItemsRead(l, s, end, Kind(e.item), rest, tail, res1);
      }
    }
  }

  lemma NothingLeft(l: Locale, behind: Behind, es: seq<Spaced>, tail: string)
    requires ItemsOk(l, behind, es) && WrittenItems(es) + tail == ""
    ensures MeantBy(es) == []
  {
  }

  lemma BlankRest(l: Locale, s: string, start: nat, tail: string, res: ParseResult)
    requires Blanks(l, tail) && StandsAt(s, start, "" + tail) && start + |tail| == |s|
    ensures ExtractAll(l, s, start, res) == res
  {
    forall k | start <= k < |s| ensures l.isSpace(s[k]) { assert s[k] == ("" + tail)[k - start]; }
    SkipIs(l, s, start, |s|);
  }

  /** Every instruction of the language parses: its name is judged, and its parameters are the texts meant. */
  lemma InstructionParses(l: Locale, s: string, name: string, es: seq<Spaced>, tail: string)
    requires !l.isSpace(QUOTE) && Instruction(l, s, name, es, tail)
    ensures Parse(l, s) == if ValidName(l, name) then ParseResult(name, MeantBy(es), NoError)
                           else ParseResult("", MeantBy(es), InvalidName)
  {
    hide ValidName, ExtractAll;
    assert s == name + (WrittenItems(es) + tail) && StandsAt(s, 0, s);
    StandsInParts(s, 0, name, WrittenItems(es) + tail);
    SliceAt(s, 0, name);
    forall k | 0 <= k < |name| ensures !l.isSpace(s[k]) { assert s[k] == name[k - 0] && name[k - 0] in name; }
    BlankFirst(l, s, |name|, es, tail);
    FindSpaceIs(l, s, |name|);
    ItemsRead(l, s, |name|, BehindName, es, tail, Named(l, name));
    assert [] + MeantBy(es) == MeantBy(es);
  }

  lemma BlankFirst(l: Locale, s: string, start: nat, es: seq<Spaced>, tail: string)
    requires ItemsOk(l, BehindName, es) && Blanks(l, tail)
    requires StandsAt(s, start, WrittenItems(es) + tail) && start + |WrittenItems(es) + tail| == |s|
    ensures start < |s| ==> l.isSpace(s[start])
  {
    var t := WrittenItems(es) + tail;
    if start < |s| {
      assert s[start] == t[0];
      if es == [] { assert t[0] in tail; } else { assert t[0] == es[0].gap[0] && t[0] in es[0].gap; }
    }
  }

  // ----- every text without an unterminated quote is such an instruction -----

  lemma SliceIsClean(s: string, pos: nat, q: nat)
    requires pos <= q <= |s| && forall k | pos <= k < q :: s[k] != QUOTE
    ensures QUOTE !in s[pos..q]
  {
  }

  lemma LastOfSlice(s: string, pos: nat, q: nat)
    requires 0 < pos <= q <= |s| && s[pos - 1] == QUOTE
    ensures s[q - 1] == SLASH <==> EndsInSlash(s[pos..q])
  {
    if pos < q { assert s[pos..q][q - pos - 1] == s[q - 1]; }
  }

  lemma TwoPieces(t: string, p: Piece, ps: seq<Piece>)
    requires p.Slashed? || p.Doubled?
    ensures var all := [Plain(t)] + ([p] + ps);
            && WrittenPieces(all) == t + ((if p.Slashed? then [SLASH, QUOTE] else [QUOTE, QUOTE]) + WrittenPieces(ps))
            && MeantByPieces(all) == t + ([QUOTE] + MeantByPieces(ps))
            && (QUOTE !in t && (p.Doubled? ==> !EndsInSlash(t)) && PiecesOk("", ps) ==> PiecesOk("", all))
  {
    PiecesHead(Plain(t), [p] + ps);
    PiecesHead(p, ps);
    assert "" + t == t;
  }

  lemma OnePiece(t: string)
    ensures WrittenPieces([Plain(t)]) == t && MeantByPieces([Plain(t)]) == t
    ensures QUOTE !in t && !EndsInSlash(t) ==> PiecesOk("", [Plain(t)])
  {
    PiecesHead(Plain(t), []);
    assert [Plain(t)] + [] == [Plain(t)] && t + "" == t && "" + t == t;
  }

  /** The inside of a quoted parameter that was read, taken apart. */
  predicate PiecesOf(s: string, pos: nat, text: string, end: nat, ps: seq<Piece>) {
    && PiecesOk("", ps) && text == MeantByPieces(ps) && pos <= end <= |s|
    && s[pos..end] == WrittenPieces(ps) + [QUOTE] && CharAt(s, end) != QUOTE
  }

  lemma {:induction false} QuotedIsWritten(s: string, pos: nat) returns (ps: seq<Piece>)
    requires 0 < pos <= |s| && s[pos - 1] == QUOTE && Quoted(s, pos).Some?
    ensures PiecesOf(s, pos, Quoted(s, pos).value.0, Quoted(s, pos).value.1, ps)
    decreases |s| - pos
  {
    hide Quoted, FindQuote, PiecesOk, WrittenPieces, MeantByPieces;
    QuotedCases(s, pos);
    var q := FindQuote(s, pos);
    SliceIsClean(s, pos, q);
    LastOfSlice(s, pos, q);
    if s[q - 1] == SLASH {
      var rest := QuotedIsWritten(s, q + 1);
      ps := [Plain(s[pos..q - 1])] + ([Slashed] + rest);
      SliceIsClean(s, pos, q - 1);
      TwoPieces(s[pos..q - 1], Slashed, rest);
      var end := Quoted(s, q + 1).value.1;
      assert s[pos..end] == s[pos..q - 1] + ([SLASH, QUOTE] + s[q + 1..end]);
      assert s[pos..end] == WrittenPieces(ps) + [QUOTE];
      assert s[pos..q - 1] + [QUOTE] + MeantByPieces(rest) == MeantByPieces(ps);
    } else if CharAt(s, q + 1) == QUOTE {
      var rest := QuotedIsWritten(s, q + 2);
      ps := [Plain(s[pos..q])] + ([Doubled] + rest);
      TwoPieces(s[pos..q], Doubled, rest);
      var end := Quoted(s, q + 2).value.1;
      assert s[pos..end] == s[pos..q] + ([QUOTE, QUOTE] + s[q + 2..end]);
      assert s[pos..q + 1] == s[pos..q] + [QUOTE];
      assert s[pos..end] == WrittenPieces(ps) + [QUOTE];
      assert s[pos..q + 1] + MeantByPieces(rest) == MeantByPieces(ps);
    } else {
      ps := [Plain(s[pos..q])];
      OnePiece(s[pos..q]);
      assert s[pos..q + 1] == s[pos..q] + [QUOTE];
    }
  }

  lemma {:induction false} SkippedBlanks(l: Locale, s: string, i: nat)
    requires i <= |s|
    ensures Blanks(l, s[i..SkipSpaces(l, s, i)])
    decreases |s| - i
  {
    if i < |s| && l.isSpace(s[i]) {
      SkippedBlanks(l, s, i + 1);
      assert s[i..SkipSpaces(l, s, i)] == [s[i]] + s[i + 1..SkipSpaces(l, s, i)];
    }
  }

  /** The parameter that extract_parameter took from start to end. */
  predicate Took(l: Locale, s: string, start: nat, end: nat, behind: Behind, e: Spaced) {
    && start < end <= |s| && s[start..end] == e.gap + Written(e.item)
    && Blanks(l, e.gap) && ItemOk(l, e.item)
    && (e.gap == "" ==> behind != BehindName && behind != Kind(e.item))
    && MayFollow(l, s, end, Kind(e.item))
  }

  lemma OneIsWritten(l: Locale, s: string, start: nat, behind: Behind, res: ParseResult) returns (e: Spaced)
    requires !l.isSpace(QUOTE) && start <= |s| && MayFollow(l, s, start, behind)
    requires SkipSpaces(l, s, start) < |s|
    requires s[SkipSpaces(l, s, start)] == QUOTE ==> Quoted(s, SkipSpaces(l, s, start) + 1).Some?
    ensures Took(l, s, start, Extract(l, s, start, res).0, behind, e)
  {
    hide Quoted, FindStop, SkipSpaces, PiecesOk, WrittenPieces, MeantByPieces;
    var i := SkipSpaces(l, s, start);
    var gap := s[start..i];
    SkippedBlanks(l, s, start);
    if s[i] == QUOTE {
      var ps := QuotedIsWritten(s, i + 1);
      var end := Quoted(s, i + 1).value.1;
      e := Spaced(gap, Quote(ps));
      assert s[start..end] == gap + ([QUOTE] + s[i + 1..end]);
      assert [QUOTE] + (WrittenPieces(ps) + [QUOTE]) == Written(e.item);
    } else {
      var j := FindStop(l, s, i);
      e := Spaced(gap, Word(s[i..j]));
      assert l.isSpace(s[i]) || j > i;
      forall c | c in s[i..j] ensures !l.isSpace(c) && c != QUOTE {
        var k :| i <= k < j && s[k] == c;
      }
      assert s[start..j] == gap + s[i..j];
    }
  }

  lemma FailsForGood(l: Locale, s: string, start: nat, res: ParseResult)
    requires start <= |s| && SkipSpaces(l, s, start) < |s| && s[SkipSpaces(l, s, start)] == QUOTE
    requires Quoted(s, SkipSpaces(l, s, start) + 1).None?
    ensures ExtractAll(l, s, start, res).error == QuotesError
  {
  }

  lemma {:induction false} AllIsWritten(l: Locale, s: string, start: nat, behind: Behind, res: ParseResult)
    returns (es: seq<Spaced>, tail: string)
    requires !l.isSpace(QUOTE) && start <= |s| && MayFollow(l, s, start, behind)
    requires ExtractAll(l, s, start, res).error != QuotesError
    ensures ItemsOk(l, behind, es) && Blanks(l, tail) && s[start..] == WrittenItems(es) + tail
    decreases |s| - start
  {
    hide Extract, ExtractAll, SkipSpaces, Quoted, Written, ItemOk, MayFollow;
    var i := SkipSpaces(l, s, start);
    if i == |s| {
      SkippedBlanks(l, s, start);
      es, tail := [], s[start..];
      assert s[start..i] == s[start..] && "" + tail == tail;
    } else {
      if s[i] == QUOTE && Quoted(s, i + 1).None? { FailsForGood(l, s, start, res); }
      var e := OneIsWritten(l, s, start, behind, res);
      var (end, res1) := Extract(l, s, start, res);
      ExtractAllStep(l, s, start, res, end, res1);
      if end == |s| {
        es, tail := [e], "";
        assert [e][1..] == [] && e.gap + Written(e.item) + "" + "" == e.gap + Written(e.item);
        assert s[start..] == s[start..end];
      } else {
        es, tail := AllIsWritten(l, s, end, Kind(e.item), res1);
        assert s[start..] == s[start..end] + s[end..];
        assert ([e] + es)[1..] == es;
        assert e.gap + Written(e.item) + (WrittenItems(es) + tail) == WrittenItems([e] + es) + tail;
        es := [e] + es;
      }
    }
  }

  /** Every text that does not end in an unterminated quote is an instruction of the language. */
  lemma ParsedIsInstruction(l: Locale, s: string) returns (name: string, es: seq<Spaced>, tail: string)
    requires !l.isSpace(QUOTE) && Parse(l, s).error != QuotesError
    ensures Instruction(l, s, name, es, tail)
  {
    hide ExtractAll, ValidName;
    var sp := FindSpace(l, s, 0);
    name := s[..sp];
    forall c | c in name ensures !l.isSpace(c) { var k :| 0 <= k < sp && s[k] == c; }
    es, tail := AllIsWritten(l, s, sp, BehindName, Named(l, name));
    assert s == name + s[sp..];
    assert name + (WrittenItems(es) + tail) == name + WrittenItems(es) + tail;
  }

  /** The parser reports an unterminated quote for exactly the texts that are no instructions. */
  lemma QuotesErrorIff(l: Locale, s: string)
    requires !l.isSpace(QUOTE)
    ensures Parse(l, s).error == QuotesError <==>
            !exists name: string, es: seq<Spaced>, tail: string :: Instruction(l, s, name, es, tail)
  {
    hide Instruction, Parse;
    if Parse(l, s).error != QuotesError {
      var name, es, tail := ParsedIsInstruction(l, s);
    }
    forall name: string, es: seq<Spaced>, tail: string | Instruction(l, s, name, es, tail)
      ensures Parse(l, s).error != QuotesError
    {
      InstructionParses(l, s, name, es, tail);
    }
  }

  // ----- names -----

  /** What makes a name valid, letter by letter: nothing decoded is not, one character is if it is a letter,
      and one more keeps it so exactly if it is a letter, a digit or an underscore. */
  lemma ValidNames(l: Locale, name: string, shorter: string, c: char)
    ensures l.decode(name) == "" ==> !ValidName(l, name)
    ensures l.decode(name) == [c] ==> (ValidName(l, name) <==> l.isAlpha(c))
    ensures l.decode(shorter) != "" && l.decode(name) == l.decode(shorter) + [c] ==>
              (ValidName(l, name) <==> ValidName(l, shorter) && (l.isAlnum(c) || c == '_'))
  {
    var w, v := l.decode(name), l.decode(shorter);
    if v != "" && w == v + [c] {
      assert w[1..] == v[1..] + [c];
      assert c in w[1..] && forall d <- v[1..] :: d in w[1..];
    }
  }
}
