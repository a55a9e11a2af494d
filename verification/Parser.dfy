/** SimpleInstructionParser: operator instructions of a name and parameters, and a printer whose
    output it reads back. */
module Parser {
  import opened Common

  datatype ErrorCode = NoError | InvalidName | QuotesError

  datatype ParseResult = ParseResult(name: string, param: seq<string>, error: ErrorCode)

  /** The character classes of the locale and the string decoder. */
  datatype Locale = Locale(isSpace: char -> bool, isAlpha: char -> bool, isAlnum: char -> bool,
    decode: string -> string)

  const QUOTE := '\"'
  const SLASH := '\\'

  /** The character at an iterator; the one at the end reads as NUL. */
  function CharAt(s: string, i: nat): char {
    if i < |s| then s[i] else '\0'
  }

  // ----- std::find_if on the rest of the string -----

  function SkipSpaces(l: Locale, s: string, i: nat): (j: nat)
    requires i <= |s|
    ensures i <= j <= |s|
    ensures j < |s| ==> !l.isSpace(s[j])
    decreases |s| - i
  {
    if i < |s| && l.isSpace(s[i]) then SkipSpaces(l, s, i + 1) else i
  }

  function FindSpace(l: Locale, s: string, i: nat): (j: nat)
    requires i <= |s|
    ensures i <= j <= |s|
    ensures forall k | i <= k < j :: !l.isSpace(s[k])
    ensures j < |s| ==> l.isSpace(s[j])
    decreases |s| - i
  {
    if i < |s| && !l.isSpace(s[i]) then FindSpace(l, s, i + 1) else i
  }

  function FindStop(l: Locale, s: string, i: nat): (j: nat)
    requires i <= |s|
    ensures i <= j <= |s|
    ensures forall k | i <= k < j :: !l.isSpace(s[k]) && s[k] != QUOTE
    ensures j < |s| ==> l.isSpace(s[j]) || s[j] == QUOTE
    decreases |s| - i
  {
    if i < |s| && !l.isSpace(s[i]) && s[i] != QUOTE then FindStop(l, s, i + 1) else i
  }

  function FindQuote(s: string, i: nat): (j: nat)
    requires i <= |s|
    ensures i <= j <= |s|
    ensures forall k | i <= k < j :: s[k] != QUOTE
    ensures j < |s| ==> s[j] == QUOTE
    decreases |s| - i
  {
    if i < |s| && s[i] != QUOTE then FindQuote(s, i + 1) else i
  }

  // ----- the parser -----

  predicate ValidName(l: Locale, name: string) {
    var w := l.decode(name);
    w != [] && l.isAlpha(w[0]) && forall c <- w[1..] :: l.isAlnum(c) || c == '_'
  }

  /** A piece of a parameter before what the rest of it reads as. */
  function After(piece: string, rest: Option<(string, nat)>): Option<(string, nat)> {
    if rest.Some? then Some((piece + rest.value.0, rest.value.1)) else None
  }

  /** The inside of a quoted parameter from pos on: the text and the position after the closing quote.
      A quote is taken back by a backslash before it, else by a second quote after it. */
  function Quoted(s: string, pos: nat): (r: Option<(string, nat)>)
    requires 0 < pos <= |s| && s[pos - 1] == QUOTE
    ensures r.Some? ==> pos < r.value.1 <= |s|
    decreases |s| - pos
  {
    var q := FindQuote(s, pos);
    if q == |s| then None
    else if s[q - 1] == SLASH then After(s[pos..q - 1] + [QUOTE], Quoted(s, q + 1))
    else if CharAt(s, q + 1) == QUOTE then After(s[pos..q + 1], Quoted(s, q + 2))
    else Some((s[pos..q], q + 1))
  }

  /** extract_parameter: the position to go on from and the result so far. */
  function Extract(l: Locale, s: string, start: nat, res: ParseResult): (r: (nat, ParseResult))
    requires start <= |s|
    ensures start <= r.0 <= |s|
    ensures start < |s| ==> start < r.0
  {
    var i := SkipSpaces(l, s, start);
    if i == |s| then (|s|, res)
    else if s[i] == QUOTE then
      match Quoted(s, i + 1)
      case None => (|s|, res.(error := QuotesError))
      case Some(p) => (p.1, res.(param := res.param + [p.0]))
    else
      var j := FindStop(l, s, i);
      assert l.isSpace(s[i]) || j > i;
      (j, res.(param := res.param + [s[i..j]]))
  }

  /** The loop of parse; a first turn is always made. */
  function ExtractAll(l: Locale, s: string, start: nat, res: ParseResult): ParseResult
    requires start <= |s|
    decreases |s| - start
  {
    var (next, res1) := Extract(l, s, start, res);
    if next == |s| then res1 else ExtractAll(l, s, next, res1)
  }

  function Named(l: Locale, name: string): ParseResult {
    if ValidName(l, name) then ParseResult(name, [], NoError) else ParseResult("", [], InvalidName)
  }

  function Parse(l: Locale, s: string): ParseResult {
    var sp := FindSpace(l, s, 0);
    ExtractAll(l, s, sp, Named(l, s[..sp]))
  }

  // ----- the loops as they run -----

  lemma AfterNothing(rest: Option<(string, nat)>)
    ensures After("", rest) == rest
  {
    if rest.Some? { assert "" + rest.value.0 == rest.value.0; }
  }

  lemma AfterTwice(a: string, b: string, rest: Option<(string, nat)>)
    ensures After(a, After(b, rest)) == After(a + b, rest)
  {
    if rest.Some? { assert a + (b + rest.value.0) == a + b + rest.value.0; }
  }

  /** The inside of a quoted parameter up to the next quote. */
  lemma QuotedCases(s: string, pos: nat)
    requires 0 < pos <= |s| && s[pos - 1] == QUOTE
    ensures var q := FindQuote(s, pos);
            Quoted(s, pos) ==
            if q == |s| then None
            else if s[q - 1] == SLASH then After(s[pos..q - 1] + [QUOTE], Quoted(s, q + 1))
            else if CharAt(s, q + 1) == QUOTE then After(s[pos..q + 1], Quoted(s, q + 2))
            else Some((s[pos..q], q + 1))
  {
  }

  /** The branch of extract_parameter for a quoted parameter; the opening quote is behind first. */
  method ReadQuoted(s: string, first: nat) returns (r: Option<(string, nat)>)
    requires 0 < first <= |s| && s[first - 1] == QUOTE
    ensures r == Quoted(s, first)
  {
    hide Quoted, FindQuote;
    var next, end, par := first, first, "";
    AfterNothing(Quoted(s, first));
    while true
      invariant 0 < next == end <= |s| && s[next - 1] == QUOTE
      invariant After(par, Quoted(s, next)) == Quoted(s, first)
      decreases |s| - next
    {
      QuotedCases(s, next);
      end := FindQuote(s, end);
      if end == |s| { return None; }
      if s[end - 1] == SLASH {
        AfterTwice(par, s[next..end - 1] + [QUOTE], Quoted(s, end + 1));
        par := par + (s[next..end - 1] + [QUOTE]);
        end := end + 1;
        next := end;
      } else if CharAt(s, end + 1) == QUOTE {
        AfterTwice(par, s[next..end + 1], Quoted(s, end + 2));
        par := par + s[next..end + 1];
        end := end + 2;
        next := end;
      } else {
        return Some((par + s[next..end], end + 1));
      }
    }
  }

  method ExtractParameter(l: Locale, s: string, start: nat, res: ParseResult) returns (next: nat, res': ParseResult)
    requires start <= |s|
    ensures (next, res') == Extract(l, s, start, res)
  {
    res' := res;
    next := SkipSpaces(l, s, start);
    if next == |s| { return; }
    if s[next] == QUOTE {
      var quoted := ReadQuoted(s, next + 1);
      match quoted {
        case None => return |s|, res'.(error := QuotesError);
        case Some(p) => return p.1, res'.(param := res'.param + [p.0]);
      }
    } else {
      var end := FindStop(l, s, next);
      res' := res'.(param := res'.param + [s[next..end]]);
      next := end;
    }
  }

  method ParseInstruction(l: Locale, s: string) returns (res: ParseResult)
    ensures res == Parse(l, s)
  {
    var next := FindSpace(l, s, 0);
    var name := s[..next];
    res := if ValidName(l, name) then ParseResult(name, [], NoError) else ParseResult("", [], InvalidName);
    next, res := ExtractParameter(l, s, next, res);
    while next != |s|
      invariant next <= |s|
      invariant (if next == |s| then res else ExtractAll(l, s, next, res)) == Parse(l, s)
      decreases |s| - next
    {
      next, res := ExtractParameter(l, s, next, res);
    }
  }

  // ----- what parameters look like -----

  predicate EndsInSlash(p: string) {
    p != "" && p[|p| - 1] == SLASH
  }

  predicate Bare(l: Locale, p: string) {
    p != "" && forall c <- p :: !l.isSpace(c) && c != QUOTE
  }

  /** A parameter that can be written at all: no backslash at its end, or nothing to quote in it. */
  predicate Normal(l: Locale, p: string) {
    !EndsInSlash(p) || Bare(l, p)
  }

  predicate AllNormal(l: Locale, ps: seq<string>) {
    forall p <- ps :: Normal(l, p)
  }

  lemma EndsWellAfter(piece: string, rest: string)
    requires !EndsInSlash(rest) && !EndsInSlash(piece)
    ensures !EndsInSlash(piece + rest)
  {
    if rest == "" { assert piece + rest == piece; }
  }

  /** A quoted parameter never ends in a backslash. */
  lemma {:induction false} QuotedEndsWell(s: string, pos: nat)
    requires 0 < pos <= |s| && s[pos - 1] == QUOTE
    ensures Quoted(s, pos).Some? ==> !EndsInSlash(Quoted(s, pos).value.0)
    decreases |s| - pos
  {
    hide Quoted, FindQuote;
    QuotedCases(s, pos);
    var q := FindQuote(s, pos);
    if q < |s| {
      if s[q - 1] == SLASH {
        QuotedEndsWell(s, q + 1);
        if Quoted(s, q + 1).Some? { EndsWellAfter(s[pos..q - 1] + [QUOTE], Quoted(s, q + 1).value.0); }
      } else if CharAt(s, q + 1) == QUOTE {
        QuotedEndsWell(s, q + 2);
        if Quoted(s, q + 2).Some? { EndsWellAfter(s[pos..q + 1], Quoted(s, q + 2).value.0); }
      }
    }
  }

  lemma ExtractNormal(l: Locale, s: string, start: nat, res: ParseResult)
    requires start <= |s| && AllNormal(l, res.param)
    ensures AllNormal(l, Extract(l, s, start, res).1.param)
  {
    var i := SkipSpaces(l, s, start);
    if i < |s| && s[i] == QUOTE { QuotedEndsWell(s, i + 1); }
  }

  lemma {:induction false} ExtractAllNormal(l: Locale, s: string, start: nat, res: ParseResult)
    requires start <= |s| && AllNormal(l, res.param)
    ensures AllNormal(l, ExtractAll(l, s, start, res).param) && ExtractAll(l, s, start, res).name == res.name
    ensures ExtractAll(l, s, start, res).error == NoError ==> res.error == NoError
    decreases |s| - start
  {
    ExtractNormal(l, s, start, res);
    var (next, res1) := Extract(l, s, start, res);
    if next < |s| { ExtractAllNormal(l, s, next, res1); }
  }

  /** Every parameter of every instruction is normal, and an accepted name has no space in it. */
  lemma ParsedIsNormal(l: Locale, s: string)
    ensures AllNormal(l, Parse(l, s).param)
    ensures Parse(l, s).error == NoError ==> ValidName(l, Parse(l, s).name) && SpaceFree(l, Parse(l, s).name)
  {
    var sp := FindSpace(l, s, 0);
    ExtractAllNormal(l, s, sp, Named(l, s[..sp]));
  }

  predicate SpaceFree(l: Locale, name: string) {
    forall c <- name :: !l.isSpace(c)
  }

  // ----- the printer -----

  function Escape(p: string): string {
    if p == "" then ""
    else if p[0] == QUOTE then [SLASH, QUOTE] + Escape(p[1..])
    else [p[0]] + Escape(p[1..])
  }

  function PrintParam(p: string): string {
    if EndsInSlash(p) then p else [QUOTE] + Escape(p) + [QUOTE]
  }

  function PrintParams(ps: seq<string>): string {
    if ps == [] then "" else " " + PrintParam(ps[0]) + PrintParams(ps[1..])
  }

  function Print(name: string, ps: seq<string>): string {
    name + PrintParams(ps)
  }

  /** A blank separates words, a quote does not. */
  predicate Sensible(l: Locale) {
    l.isSpace(' ') && !l.isSpace(QUOTE)
  }

  // ----- text at a position -----

  /** The text t stands in s at position i. */
  predicate StandsAt(s: string, i: nat, t: string) {
    i + |t| <= |s| && forall k {:trigger s[k]} | i <= k < i + |t| :: s[k] == t[k - i]
  }

  lemma StandsInParts(s: string, i: nat, a: string, b: string)
    ensures StandsAt(s, i, a + b) <==> StandsAt(s, i, a) && StandsAt(s, i + |a|, b)
  {
    if StandsAt(s, i, a + b) {
      forall k | i <= k < i + |a| ensures s[k] == a[k - i] { assert (a + b)[k - i] == a[k - i]; }
      forall k | i + |a| <= k < i + |a| + |b|
        ensures s[k] == b[k - i - |a|] { assert (a + b)[k - i] == b[k - i - |a|]; }
    }
  }

  lemma SliceAt(s: string, i: nat, t: string)
    requires StandsAt(s, i, t)
    ensures s[i..i + |t|] == t
  {
  }

  // ----- reading quoted text back -----

  lemma {:induction false} EscapePrefix(p: string, k: nat)
    requires k <= |p| && forall j | 0 <= j < k :: p[j] != QUOTE
    ensures Escape(p) == p[..k] + Escape(p[k..])
    decreases k
  {
    if k == 0 {
      EmptyPrefix(p);
    } else {
      EscapePrefix(p[1..], k - 1);
      OneFurther(p, k, Escape(p[k..]));
    }
  }

  lemma EmptyPrefix(p: string)
    ensures p[0..] == p && p[..0] + Escape(p) == Escape(p)
  {
  }

  lemma OneFurther(p: string, k: nat, rest: string)
    requires 0 < k <= |p|
    ensures p[1..][k - 1..] == p[k..] && [p[0]] + (p[1..][..k - 1] + rest) == p[..k] + rest
  {
  }

  lemma FindQuoteIs(s: string, i: nat, q: nat)
    requires i <= q < |s| && s[q] == QUOTE && forall k | i <= k < q :: s[k] != QUOTE
    ensures FindQuote(s, i) == q
  {
  }

  lemma FindQuoteAfter(s: string, i: nat, t: string)
    requires StandsAt(s, i, t) && (forall k | 0 <= k < |t| :: t[k] != QUOTE) && i + |t| < |s| && s[i + |t|] == QUOTE
    ensures FindQuote(s, i) == i + |t|
  {
    FindQuoteIs(s, i, i + |t|);
  }

  lemma FindStopIs(l: Locale, s: string, i: nat, j: nat)
    requires i <= j <= |s| && (forall k | i <= k < j :: !l.isSpace(s[k]) && s[k] != QUOTE)
    requires j < |s| ==> l.isSpace(s[j])
    ensures FindStop(l, s, i) == j
  {
  }

  lemma QuotedReadsPlain(s: string, pos: nat, p: string)
    requires 0 < pos <= |s| && s[pos - 1] == QUOTE && !EndsInSlash(p) && forall k | 0 <= k < |p| :: p[k] != QUOTE
    requires StandsAt(s, pos, p) && StandsAt(s, pos + |p|, [QUOTE]) && CharAt(s, pos + |p| + 1) != QUOTE
    ensures Quoted(s, pos) == Some((p, pos + |p| + 1))
  {
    assert s[pos + |p|] == [QUOTE][0];
    FindQuoteAfter(s, pos, p);
    SliceAt(s, pos, p);
    if p != "" { assert s[pos + |p| - 1] == p[|p| - 1]; }
  }

  /** Up to and with the first quote of the parameter. */
  lemma QuotedSkips(s: string, pos: nat, a: string)
    requires 0 < pos <= |s| && s[pos - 1] == QUOTE && forall k | 0 <= k < |a| :: a[k] != QUOTE
    requires StandsAt(s, pos, a) && StandsAt(s, pos + |a|, [SLASH, QUOTE])
    ensures s[pos + |a| + 1] == QUOTE
    ensures Quoted(s, pos) == After(a + [QUOTE], Quoted(s, pos + |a| + 2))
  {
    var t := [SLASH, QUOTE];
    assert s[pos + |a|] == t[0] && s[pos + |a| + 1] == t[1];
    FindQuoteFrom(s, pos, a);
    SliceAt(s, pos, a);
  }

  lemma FindQuoteFrom(s: string, pos: nat, a: string)
    requires (forall k | 0 <= k < |a| :: a[k] != QUOTE) && StandsAt(s, pos, a)
    requires pos + |a| + 1 < |s| && s[pos + |a|] == SLASH && s[pos + |a| + 1] == QUOTE
    ensures FindQuote(s, pos) == pos + |a| + 1
  {
    assert forall k | pos <= k < pos + |a| + 1 :: s[k] != QUOTE;
    FindQuoteIs(s, pos, pos + |a| + 1);
  }

  lemma EscapeNothing(p: string)
    requires forall j | 0 <= j < |p| :: p[j] != QUOTE
    ensures Escape(p) == p
  {
    EscapePrefix(p, |p|);
  }

  lemma EscapeQuote(p: string)
    requires p != "" && p[0] == QUOTE
    ensures Escape(p) == [SLASH, QUOTE] + Escape(p[1..])
  {
  }

  lemma SplitAt(p: string, k: nat)
    requires k < |p|
    ensures p == p[..k] + [p[k]] + p[k + 1..] && p[k..][1..] == p[k + 1..]
  {
  }

  lemma EscapeAt(p: string, k: nat)
    requires k < |p| && p[k] == QUOTE && forall j | 0 <= j < k :: p[j] != QUOTE
    ensures Escape(p) == p[..k] + ([SLASH, QUOTE] + Escape(p[k + 1..]))
    ensures p == p[..k] + [QUOTE] + p[k + 1..]
  {
    hide Escape;
    EscapePrefix(p, k);
    EscapeQuote(p[k..]);
    SplitAt(p, k);
  }

  /** Reading back an escaped parameter that does not end in a backslash. */
  lemma {:induction false} QuotedReadsEscaped(s: string, pos: nat, p: string)
    requires 0 < pos <= |s| && s[pos - 1] == QUOTE && !EndsInSlash(p)
    requires StandsAt(s, pos, Escape(p)) && StandsAt(s, pos + |Escape(p)|, [QUOTE]) &&
             CharAt(s, pos + |Escape(p)| + 1) != QUOTE
    ensures Quoted(s, pos) == Some((p, pos + |Escape(p)| + 1))
    decreases |p|, 1
  {
    hide Quoted, Escape;
    var k := FindQuote(p, 0);
    if k == |p| {
      EscapeNothing(p);
      QuotedReadsPlain(s, pos, p);
    } else {
      EscapeAt(p, k);
      QuotedReadsOn(s, pos, p[..k], p[k + 1..], p);
    }
  }

  /** The same for a parameter p made of a, a quote, and the rest. */
  lemma {:induction false} QuotedReadsOn(s: string, pos: nat, a: string, rest: string, p: string)
    requires 0 < pos <= |s| && s[pos - 1] == QUOTE && p == a + [QUOTE] + rest && !EndsInSlash(p)
    requires forall k | 0 <= k < |a| :: a[k] != QUOTE
    requires var e := a + ([SLASH, QUOTE] + Escape(rest));
             StandsAt(s, pos, e) && StandsAt(s, pos + |e|, [QUOTE]) && CharAt(s, pos + |e| + 1) != QUOTE
    ensures Quoted(s, pos) == Some((p, pos + |a| + 2 + |Escape(rest)| + 1))
    decreases |p|, 0
  {
    hide Quoted, Escape;
    StandsInParts(s, pos, a, [SLASH, QUOTE] + Escape(rest));
    StandsInParts(s, pos + |a|, [SLASH, QUOTE], Escape(rest));
    QuotedSkips(s, pos, a);
    RestEndsWell(a + [QUOTE], rest);
    QuotedReadsEscaped(s, pos + |a| + 2, rest);
  }

  lemma RestEndsWell(a: string, rest: string)
    requires !EndsInSlash(a + rest)
    ensures !EndsInSlash(rest)
  {
  }

  // ----- printing and parsing -----

  /** A printed parameter stands at start, behind a blank, before a blank or the end. */
  predicate PrintedAt(s: string, start: nat, p: string) {
    var end := start + 1 + |PrintParam(p)|;
    StandsAt(s, start, " " + PrintParam(p)) && (end < |s| ==> s[end] == ' ')
  }

  /** What extract_parameter makes of it. */
  predicate Reads(l: Locale, s: string, start: nat, res: ParseResult, p: string) {
    start <= |s| && Extract(l, s, start, res) == (start + 1 + |PrintParam(p)|, res.(param := res.param + [p]))
  }

  lemma BareReads(l: Locale, s: string, start: nat, res: ParseResult, p: string)
    requires Sensible(l) && PrintedAt(s, start, p) && EndsInSlash(p) && Bare(l, p)
    ensures Reads(l, s, start, res, p)
  {
    StandsInParts(s, start, " ", p);
    assert s[start] == " "[0];
    forall k | start + 1 <= k < start + 1 + |p| ensures !l.isSpace(s[k]) && s[k] != QUOTE {
      assert p[k - (start + 1)] in p;
    }
    assert SkipSpaces(l, s, start) == start + 1;
    FindStopIs(l, s, start + 1, start + 1 + |p|);
    SliceAt(s, start + 1, p);
  }

  lemma QuotesStand(s: string, start: nat, e: string)
    requires StandsAt(s, start, " " + ([QUOTE] + e + [QUOTE]))
    ensures s[start] == ' ' && s[start + 1] == QUOTE && StandsAt(s, start + 2, e) &&
            StandsAt(s, start + 2 + |e|, [QUOTE])
  {
    StandsInParts(s, start, " ", [QUOTE] + e + [QUOTE]);
    StandsInParts(s, start + 1, [QUOTE] + e, [QUOTE]);
    StandsInParts(s, start + 1, [QUOTE], e);
    assert s[start] == " "[0] && s[start + 1] == [QUOTE][0];
  }

  lemma QuotedReads(l: Locale, s: string, start: nat, res: ParseResult, p: string)
    requires Sensible(l) && PrintedAt(s, start, p) && !EndsInSlash(p)
    ensures Reads(l, s, start, res, p)
  {
    hide Quoted, Escape;
    QuotesStand(s, start, Escape(p));
    assert SkipSpaces(l, s, start) == start + 1;
    QuotedReadsEscaped(s, start + 2, p);
  }

  lemma OneReads(l: Locale, s: string, start: nat, res: ParseResult, p: string)
    requires Sensible(l) && PrintedAt(s, start, p) && Normal(l, p)
    ensures Reads(l, s, start, res, p)
  {
    hide Reads, PrintedAt;
    if EndsInSlash(p) { BareReads(l, s, start, res, p); } else { QuotedReads(l, s, start, res, p); }
  }

  lemma ExtractAllStep(l: Locale, s: string, start: nat, res: ParseResult, next: nat, res1: ParseResult)
    requires start <= |s| && next <= |s| && Extract(l, s, start, res) == (next, res1)
    ensures ExtractAll(l, s, start, res) == if next == |s| then res1 else ExtractAll(l, s, next, res1)
  {
  }

  lemma StartsWithBlank(ps: seq<string>)
    ensures if ps == [] then PrintParams(ps) == "" else |PrintParams(ps)| > 0 && PrintParams(ps)[0] == ' '
  {
  }

  lemma NothingReads(l: Locale, s: string, res: ParseResult)
    ensures ExtractAll(l, s, |s|, res) == res
  {
  }

  /** The printed parameters make up the rest of s. */
  predicate PrintedRest(s: string, start: nat, ps: seq<string>) {
    StandsAt(s, start, PrintParams(ps)) && start + |PrintParams(ps)| == |s|
  }

  lemma FirstPrinted(s: string, start: nat, ps: seq<string>)
    requires PrintedRest(s, start, ps) && ps != []
    ensures PrintedAt(s, start, ps[0]) && PrintedRest(s, start + 1 + |PrintParam(ps[0])|, ps[1..])
  {
    hide PrintParam, Escape;
    var a, rest := " " + PrintParam(ps[0]), PrintParams(ps[1..]);
    StandsInParts(s, start, a, rest);
    StartsWithBlank(ps[1..]);
    if rest != "" { assert s[start + |a|] == rest[0]; }
  }

  lemma {:induction false} ParamsRead(l: Locale, s: string, start: nat, res: ParseResult, ps: seq<string>)
    requires Sensible(l) && AllNormal(l, ps) && PrintedRest(s, start, ps)
    ensures ExtractAll(l, s, start, res) == res.(param := res.param + ps)
    decreases ps
  {
    hide Extract, ExtractAll, PrintParam;
    if ps == [] {
      NothingReads(l, s, res);
      assert res.param + ps == res.param;
    } else {
      var end := start + 1 + |PrintParam(ps[0])|;
      var res1 := res.(param := res.param + [ps[0]]);
      FirstPrinted(s, start, ps);
      OneReads(l, s, start, res, ps[0]);
      ExtractAllStep(l, s, start, res, end, res1);
      AppendFirst(res.param, ps);
      if end < |s| { ParamsRead(l, s, end, res1, ps[1..]); } else { StartsWithBlank(ps[1..]); }
    }
  }

  lemma AppendFirst<T>(a: seq<T>, b: seq<T>)
    requires b != []
    ensures a + b == a + [b[0]] + b[1..]
  {
  }

  lemma FindSpaceIs(l: Locale, s: string, j: nat)
    requires j <= |s| && (forall k | 0 <= k < j :: !l.isSpace(s[k])) && (j < |s| ==> l.isSpace(s[j]))
    ensures FindSpace(l, s, 0) == j
  {
  }

  /** A valid name and normal parameters, printed, parse back without an error. */
  lemma PrintParse(l: Locale, name: string, ps: seq<string>)
    requires Sensible(l) && ValidName(l, name) && SpaceFree(l, name) && AllNormal(l, ps)
    ensures Parse(l, Print(name, ps)) == ParseResult(name, ps, NoError)
  {
    var s := Print(name, ps);
    assert StandsAt(s, 0, s);
    StandsInParts(s, 0, name, PrintParams(ps));
    SliceAt(s, 0, name);
    StartsWithBlank(ps);
    if ps != [] { assert s[|name|] == PrintParams(ps)[0]; }
    forall k | 0 <= k < |name| ensures !l.isSpace(s[k]) { assert name[k - 0] in name; }
    FindSpaceIs(l, s, |name|);
    ParamsRead(l, s, |name|, ParseResult(name, [], NoError), ps);
    assert [] + ps == ps;
  }

  /** parse after print after parse is parse. */
  lemma ParsePrintParse(l: Locale, s: string)
    requires Sensible(l) && Parse(l, s).error == NoError
    ensures Parse(l, Print(Parse(l, s).name, Parse(l, s).param)) == Parse(l, s)
  {
    ParsedIsNormal(l, s);
    PrintParse(l, Parse(l, s).name, Parse(l, s).param);
  }

  /** The parameter lists that can be written are exactly the normal ones. */
  lemma NormalIffWritable(l: Locale, name: string, ps: seq<string>)
    requires Sensible(l) && ValidName(l, name) && SpaceFree(l, name)
    ensures (exists s :: Parse(l, s) == ParseResult(name, ps, NoError)) <==> AllNormal(l, ps)
  {
    forall s | Parse(l, s) == ParseResult(name, ps, NoError) ensures AllNormal(l, ps) {
      ParsedIsNormal(l, s);
    }
    if AllNormal(l, ps) { PrintParse(l, name, ps); }
  }
}
