/** Numeric citation tokens such as `[1, 3-5]`: where they occur in a text, which
    numbers they name and how they are cut at their digit groups. */
module Citations {
  import opened PyText

  // ----- The bracket pattern `\[([0-9][0-9,\s\-–]*)\]`

  predicate IsTokenChar(c: char) {
    IsDigit(c) || c == ',' || IsSpace(c) || c == '-' || c == '\U{2013}'
  }

  /** The length of the longest prefix of token characters. */
  function TokenRun(s: string): (n: nat)
    ensures n <= |s|
  {
    if s != "" && IsTokenChar(s[0]) then 1 + TokenRun(s[1..]) else 0
  }

  /** The length of the bracket token that starts at the head of `s`; 0 if none does. */
  function MatchLen(s: string): (n: nat)
    ensures n <= |s|
    ensures n > 0 ==> n >= 3 && s[0] == '[' && IsDigit(s[1])
  {
    if |s| >= 3 && s[0] == '[' && IsDigit(s[1]) then
      var k := TokenRun(s[1..]);
      if 1 + k < |s| && s[1 + k] == ']' then k + 2 else 0
    else 0
  }

  lemma {:induction false} TokenRunExact(s: string, n: nat)
    requires n < |s|
    ensures TokenRun(s) == n <==> !IsTokenChar(s[n]) && forall i | 0 <= i < n :: IsTokenChar(s[i])
  {
    if n == 0 {
    } else if IsTokenChar(s[0]) {
      TokenRunExact(s[1..], n - 1);
      assert forall i | 1 <= i <= n :: s[i] == s[1..][i - 1];
      assert forall i | 0 <= i < n :: s[1..][i] == s[i + 1];
    }
  }

  /** The pattern, read as a set of strings: an opening bracket, a digit, token
      characters, and the first closing bracket after them. */
  lemma {:induction false} MatchShape(s: string, n: nat)
    requires 3 <= n <= |s|
    ensures MatchLen(s) == n <==>
              && s[0] == '[' && IsDigit(s[1]) && s[n - 1] == ']'
              && forall i | 1 <= i < n - 1 :: IsTokenChar(s[i])
  {
    TokenRunExact(s[1..], n - 2);
    assert forall i | 0 <= i < n - 1 :: s[1..][i] == s[i + 1];
    assert forall i | 1 <= i < n :: s[i] == s[1..][i - 1];
  }

  /** A token is recognised from its own characters alone: what follows it makes no
      difference. */
  lemma {:induction false} MatchLocal(s: string, t: string, n: nat)
    requires MatchLen(s) == n > 0
    requires n <= |t| && t[..n] == s[..n]
    ensures MatchLen(t) == n
  {
    MatchShape(s, n);
    MatchShape(t, n);
    assert forall i | 0 <= i < n :: t[i] == t[..n][i] && s[i] == s[..n][i];
  }

  // ----- `parse_citation_token`

  function Range(a: nat, b: nat): (r: seq<nat>)
    decreases if a <= b then b - a else a - b
  {
    if a == b then [a] else [a] + Range(if a < b then a + 1 else a - 1, b)
  }

  /** A range lists exactly the numbers between its ends, each once, from the first
      end to the second, whichever of them is larger. */
  lemma {:induction false} RangeMembers(a: nat, b: nat)
    ensures var r := Range(a, b);
            && |r| == (if a <= b then b - a else a - b) + 1
            && (forall k | 0 <= k < |r| :: r[k] == if a <= b then a + k else a - k)
    decreases if a <= b then b - a else a - b
  {
    if a != b { RangeMembers(if a < b then a + 1 else a - 1, b); }
  }

  function PartNums(part: string): seq<nat> {
    if part == "" then []
    else if AllDigits(part) then [Val(part)]
    else
      var n := DigitPrefix(part);
      var s := LStrip(part[n..]);
      if n > 0 && s != "" && (s[0] == '-' || s[0] == '\U{2013}') then
        var t := LStrip(s[1..]);
        if t != "" && AllDigits(t) then Range(Val(part[..n]), Val(t)) else []
      else []
  }

  function CommaPrefix(s: string): (n: nat)
    ensures n <= |s| && (n < |s| ==> s[n] == ',')
  {
    if s == "" || s[0] == ',' then 0 else 1 + CommaPrefix(s[1..])
  }

  function PartsNums(s: string): seq<nat>
    decreases |s|
  {
    var n := CommaPrefix(s);
    PartNums(Strip(s[..n])) + if n < |s| then PartsNums(s[n + 1..]) else []
  }

  /** The numbers named by a token, brackets included. */
  function Nums(token: string): seq<nat> {
    if |token| < 2 then [] else PartsNums(token[1..|token| - 1])
  }

  predicate NamesNumbers(token: string) { Nums(token) != [] }

  predicate Linkable(token: string, avail: set<nat>) {
    NamesNumbers(token) && forall n | n in Nums(token) :: n in avail
  }

  // ----- Tokens found in a text

  /** Which bracket tokens are of interest. */
  type Want = string -> bool

  /** The audit wants the tokens that name a number. */
  function Audited(): Want { token => NamesNumbers(token) }

  /** The linker wants the tokens all of whose numbers have a reference. */
  function Available(avail: set<nat>): Want { token => Linkable(token, avail) }

  predicate At(s: string, want: Want) { MatchLen(s) > 0 && want(s[..MatchLen(s)]) }

  /** The wanted tokens of a text, from left to right. */
  function Found(s: string, want: Want): seq<string> {
    if s == "" then []
    else Head(s, want) + Found(s[1..], want)
  }

  /** The wanted token at the very start of a text, if there is one. */
  function Head(s: string, want: Want): seq<string> {
    if At(s, want) then [s[..MatchLen(s)]] else []
  }

  /** The tokens one reader wants and another does not. */
  function Minus(lax: Want, strict: Want): Want { token => lax(token) && !strict(token) }

  /** Two readers, one stricter than the other, differ by the tokens only the laxer wants. */
  lemma {:induction false} FoundSplit(s: string, lax: Want, strict: Want)
    requires forall t: string :: strict(t) ==> lax(t)
    ensures |Found(s, lax)| == |Found(s, strict)| + |Found(s, Minus(lax, strict))|
  {
    if s != "" { FoundSplit(s[1..], lax, strict); }
  }

  /** A found token starts with a bracket of the text. */
  lemma {:induction false} FoundBracket(s: string, want: Want)
    requires Found(s, want) != []
    ensures '[' in s
  {
    if Head(s, want) == [] { FoundBracket(s[1..], want); }
  }

  /** Joining texts keeps every token of each part; new ones may appear across the
      joint, none is lost. Read with the reader that wants one given token, this
      bounds the multiplicity of that token. */
  lemma {:induction false} FoundJoin(a: string, b: string, want: Want)
    ensures |Found(a, want)| + |Found(b, want)| <= |Found(a + b, want)|
  {
    if a == "" {
      assert a + b == b;
    } else {
      FoundJoin(a[1..], b, want);
      HeadJoin(a, b, want);
      FoundStep(a, want);
      FoundStep(a + b, want);
      assert (a + b)[1..] == a[1..] + b;
    }
  }

  lemma {:induction false} FoundStep(s: string, want: Want)
    requires s != ""
    ensures Found(s, want) == Head(s, want) + Found(s[1..], want)
  {
  }

  lemma {:induction false} HeadJoin(a: string, b: string, want: Want)
    ensures Head(a, want) != [] ==> Head(a + b, want) == Head(a, want)
  {
    var n := MatchLen(a);
    assert (a + b)[..n] == a[..n];
    if At(a, want) { MatchLocal(a, a + b, n); }
  }

  /** A stretch without an opening bracket starts no token. */
  lemma {:induction false} FoundSkip(s: string, want: Want, k: nat)
    requires k <= |s| && forall i | 0 <= i < k :: s[i] != '['
    ensures Found(s, want) == Found(s[k..], want)
    decreases k
  {
    if k > 0 {
      FoundSkip(s[1..], want, k - 1);
      assert s[1..][k - 1..] == s[k..];
    }
  }

  /** Inside a token no other token starts. */
  lemma {:induction false} FoundAfterToken(s: string, want: Want)
    requires At(s, want)
    ensures Found(s, want) == [s[..MatchLen(s)]] + Found(s[MatchLen(s)..], want)
  {
    var n := MatchLen(s);
    MatchShape(s, n);
    assert forall i | 0 <= i < n - 1 :: s[1..][i] == s[i + 1];
    FoundSkip(s[1..], want, n - 1);
    assert s[1..][n - 1..] == s[n..];
  }

  // ----- The cut of a text at its wanted tokens

  /** The offset of the first wanted token; |s| if there is none. */
  function First(s: string, want: Want): (k: nat)
    ensures k <= |s|
  {
    if s == "" || At(s, want) then 0 else 1 + First(s[1..], want)
  }

  lemma {:induction false} Slices<T>(s: seq<T>, k: nat)
    requires 0 < k <= |s|
    ensures s[..k] + s[k..] == s
    ensures s[..k][1..] == s[1..][..k - 1]
    ensures s[1..][k - 1..] == s[k..]
  {
  }

  /** The text before the first wanted token holds none, even read by itself. */
  lemma {:induction false} FirstSplits(s: string, want: Want)
    ensures var k := First(s, want);
            && Found(s[..k], want) == []
            && Found(s, want) == Found(s[k..], want)
            && (k < |s| ==> At(s[k..], want))
  {
    var k := First(s, want);
    if s == "" || At(s, want) {
      assert s[k..] == s;
    } else {
      FirstSplits(s[1..], want);
      assert Head(s, want) == [] && k == 1 + First(s[1..], want);
      hide Found, First, At, Head;
      Slices(s, k);
      HeadJoin(s[..k], s[k..], want);
      FoundStep(s, want);
      FoundStep(s[..k], want);
    }
  }

  datatype Piece = Plain(text: string) | Citation(text: string)

  function Pieces(s: string, want: Want): seq<Piece>
    decreases |s|, 1
  {
    var k := First(s, want);
    if k == 0 then PiecesFromToken(s, want)
    else [Plain(s[..k])] + PiecesFromToken(s[k..], want)
  }

  /** The pieces of a text that is empty or starts with a wanted token. */
  function PiecesFromToken(s: string, want: Want): seq<Piece>
    decreases |s|, 0
  {
    if At(s, want) then
      var n := MatchLen(s);
      [Citation(s[..n])] + Pieces(s[n..], want)
    else []
  }

  function PiecesText(ps: seq<Piece>): string {
    if ps == [] then "" else ps[0].text + PiecesText(ps[1..])
  }

  /** The texts of the citation pieces. */
  function CitationTexts(ps: seq<Piece>): seq<string> {
    if ps == [] then []
    else (if ps[0].Citation? then [ps[0].text] else []) + CitationTexts(ps[1..])
  }

  /** What a piece of a cut looks like: a citation is one whole wanted token and
      the text between citations holds no wanted token of its own. */
  ghost predicate PieceOk(p: Piece, want: Want) {
    && p.text != ""
    && (p.Plain? ==> Found(p.text, want) == [])
    && (p.Citation? ==> MatchLen(p.text) == |p.text| && want(p.text))
  }

  ghost predicate PiecesOk(ps: seq<Piece>, want: Want) {
    ps == [] || (PieceOk(ps[0], want) && PiecesOk(ps[1..], want))
  }

  /** The cut loses no character, and its citation pieces are the wanted tokens,
      all of them and in order. */
  lemma {:induction false} PiecesCut(s: string, want: Want)
    ensures PiecesText(Pieces(s, want)) == s
    ensures PiecesOk(Pieces(s, want), want)
    ensures CitationTexts(Pieces(s, want)) == Found(s, want)
    decreases |s|, 1
  {
    var k := First(s, want);
    FirstSplits(s, want);
    SplitAt(s, k);
    if k == 0 {
      PiecesFromTokenCut(s, want);
    } else {
      PiecesFromTokenCut(s[k..], want);
      PiecesCons(Plain(s[..k]), PiecesFromToken(s[k..], want), want);
    }
  }

  lemma {:induction false} PiecesFromTokenCut(s: string, want: Want)
    requires s != "" ==> At(s, want)
    ensures PiecesText(PiecesFromToken(s, want)) == s
    ensures PiecesOk(PiecesFromToken(s, want), want)
    ensures CitationTexts(PiecesFromToken(s, want)) == Found(s, want)
    decreases |s|, 0
  {
    if s != "" {
      var n := MatchLen(s);
      PiecesCut(s[n..], want);
      FoundAfterToken(s, want);
      MatchLocal(s, s[..n], n);
      SplitAt(s, n);
      PiecesCons(Citation(s[..n]), Pieces(s[n..], want), want);
    }
  }

  lemma {:induction false} PiecesCons(p: Piece, rest: seq<Piece>, want: Want)
    ensures PiecesText([p] + rest) == p.text + PiecesText(rest)
    ensures CitationTexts([p] + rest) == (if p.Citation? then [p.text] else []) + CitationTexts(rest)
    ensures PiecesOk([p] + rest, want) <==> PieceOk(p, want) && PiecesOk(rest, want)
  {
    assert ([p] + rest)[1..] == rest;
  }

  lemma {:induction false} SplitAt<T>(s: seq<T>, n: nat)
    requires n <= |s|
    ensures s == s[..n] + s[n..]
  {
  }

  // ----- The cut of a token at its digit groups

  datatype Segment = Gap(text: string) | Digits(text: string)

  function Segments(s: string): seq<Segment>
    decreases |s|
  {
    if s == "" then []
    else if IsDigit(s[0]) then
      var n := DigitPrefix(s);
      [Digits(s[..n])] + Segments(s[n..])
    else
      var n := GapPrefix(s);
      [Gap(s[..n])] + Segments(s[n..])
  }

  function SegmentsText(ss: seq<Segment>): string {
    if ss == [] then "" else ss[0].text + SegmentsText(ss[1..])
  }

  ghost predicate SegmentOk(g: Segment) {
    && g.text != ""
    && (g.Digits? ==> AllDigits(g.text))
    && (g.Gap? ==> forall i | 0 <= i < |g.text| :: !IsDigit(g.text[i]))
  }

  ghost predicate SegmentsOk(ss: seq<Segment>) {
    ss == [] || (SegmentOk(ss[0]) && SegmentsOk(ss[1..]))
  }

  lemma {:induction false} SegmentsCons(g: Segment, rest: seq<Segment>)
    ensures SegmentsText([g] + rest) == g.text + SegmentsText(rest)
    ensures SegmentsOk([g] + rest) <==> SegmentOk(g) && SegmentsOk(rest)
  {
    assert ([g] + rest)[1..] == rest;
  }

  lemma {:induction false} SegmentsCut(s: string)
    ensures SegmentsText(Segments(s)) == s
    ensures SegmentsOk(Segments(s))
    decreases |s|
  {
    if s != "" {
      var n := if IsDigit(s[0]) then DigitPrefix(s) else GapPrefix(s);
      SegmentsCut(s[n..]);
      SegmentsCons(Segments(s)[0], Segments(s[n..]));
      SplitAt(s, n);
    }
  }

  /** A segment of a token is too short to be a token: it has no bracket together
      with a digit. */
  lemma {:induction false} SegmentInert(g: Segment, want: Want)
    requires SegmentOk(g)
    ensures Found(g.text, want) == []
  {
    if g.Digits? {
      FoundSkip(g.text, want, |g.text|);
    } else {
      NoDigitNoToken(g.text, want);
    }
  }

  lemma {:induction false} NoDigitNoToken(s: string, want: Want)
    requires forall i | 0 <= i < |s| :: !IsDigit(s[i])
    ensures Found(s, want) == []
  {
    if s != "" { NoDigitNoToken(s[1..], want); }
  }
}
