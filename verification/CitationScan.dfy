/** The scanning loops: the matcher's left-to-right search, the cut of a text at its
    linkable tokens, the digit groups of a token and the numbers it names. Each loop
    computes what `Citations` defines. */
module CitationScan {
  import opened PyText
  import opened Citations

  /** Non-overlapping matches from `pos` on, as start and end offsets. */
  function Matches(s: string, pos: nat): seq<(nat, nat)>
    requires pos <= |s|
    decreases |s| - pos
  {
    if pos == |s| then []
    else
      var n := MatchLen(s[pos..]);
      if n > 0 then [(pos, pos + n)] + Matches(s, pos + n) else Matches(s, pos + 1)
  }

  method FindMatches(s: string) returns (ms: seq<(nat, nat)>)
    ensures ms == Matches(s, 0)
  {
    hide MatchLen;
    ms := [];
    var pos := 0;
    while pos < |s|
      invariant pos <= |s|
      invariant ms + Matches(s, pos) == Matches(s, 0)
    {
      var n := MatchLen(s[pos..]);
      if n > 0 {
        assert ms + ([(pos, pos + n)] + Matches(s, pos + n)) == ms + [(pos, pos + n)] + Matches(s, pos + n);
        ms := ms + [(pos, pos + n)];
        pos := pos + n;
      } else {
        pos := pos + 1;
      }
    }
  }

  ghost predicate Within(ms: seq<(nat, nat)>, from: nat, end: nat) {
    && from <= end
    && (ms != [] ==> from <= ms[0].0 < ms[0].1 <= end && Within(ms[1..], ms[0].1, end))
  }

  lemma {:induction false} MatchesWithin(s: string, pos: nat)
    requires pos <= |s|
    ensures Within(Matches(s, pos), pos, |s|)
    decreases |s| - pos
  {
    hide MatchLen;
    if pos < |s| {
      var n := MatchLen(s[pos..]);
      if n > 0 {
        MatchesWithin(s, pos + n);
        assert Matches(s, pos)[1..] == Matches(s, pos + n);
      } else {
        MatchesWithin(s, pos + 1);
        WithinEarlier(Matches(s, pos + 1), pos, pos + 1, |s|);
      }
    }
  }

  lemma {:induction false} WithinEarlier(ms: seq<(nat, nat)>, a: nat, b: nat, end: nat)
    requires a <= b && Within(ms, b, end)
    ensures Within(ms, a, end)
  {
  }

  /** The pieces cut by the loop over the matches `ms` with `last` as the end of the
      previous citation. */
  function CutFrom(s: string, ms: seq<(nat, nat)>, want: Want, last: nat): seq<Piece>
    requires last <= |s| && exists from: nat :: last <= from && Within(ms, from, |s|)
    decreases |ms|
  {
    if ms == [] then (if last < |s| then [Plain(s[last..])] else [])
    else
      var (start, end) := ms[0];
      assert Within(ms[1..], end, |s|);
      var token := s[start..end];
      if !want(token) then CutFrom(s, ms[1..], want, last)
      else (if last < start then [Plain(s[last..start])] else []) + [Citation(token)] + CutFrom(s, ms[1..], want, end)
  }

  /** Cutting at the matches is cutting at the wanted tokens. */
  lemma {:induction false} CutFromMatches(s: string, pos: nat, want: Want, last: nat)
    requires last <= pos <= |s|
    requires First(s[last..], want) >= pos - last
    ensures Within(Matches(s, pos), pos, |s|)
    ensures CutFrom(s, Matches(s, pos), want, last) == Pieces(s[last..], want)
    decreases |s| - pos
  {
    hide MatchLen, Within, Pieces, First, CutFrom;
    MatchesWithin(s, pos);
    FirstBeyond(s, last, pos, want);
    if pos == |s| {
      CutEnd(s, want, last);
    } else {
      var n := MatchLen(s[pos..]);
      assert s[pos..pos + n] == s[pos..][..n];
      if n == 0 {
        CutFromMatches(s, pos + 1, want, last);
      } else {
        MatchesWithin(s, pos + n);
        assert Matches(s, pos) == [(pos, pos + n)] + Matches(s, pos + n);
        CutFromCons(s, pos, pos + n, Matches(s, pos + n), want, last);
        if want(s[pos..pos + n]) {
          CutFromMatches(s, pos + n, want, pos + n);
          PiecesAt(s, last, pos, want);
        } else {
          InsideToken(s, pos, want, last);
          CutFromMatches(s, pos + n, want, last);
        }
      }
    }
  }

  /** One turn of the loop over the matches. */
  lemma CutFromCons(s: string, start: nat, end: nat, ms: seq<(nat, nat)>, want: Want, last: nat)
    requires last <= start < end <= |s| && Within(ms, end, |s|)
    ensures Within([(start, end)] + ms, start, |s|)
    ensures var token := s[start..end];
            CutFrom(s, [(start, end)] + ms, want, last) ==
              if !want(token) then CutFrom(s, ms, want, last)
              else
                (if last < start then [Plain(s[last..start])] else []) + [Citation(token)] + CutFrom(s, ms, want, end)
  {
    assert ([(start, end)] + ms)[1..] == ms;
  }

  lemma {:induction false} CutEnd(s: string, want: Want, last: nat)
    requires last <= |s| && First(s[last..], want) == |s| - last
    ensures Within([], |s|, |s|)
    ensures CutFrom(s, [], want, last) == Pieces(s[last..], want)
  {
    FirstSplits(s[last..], want);
    assert s[last..][..|s| - last] == s[last..];
    assert s[last..][|s| - last..] == "";
    assert [Plain(s[last..])] + [] == [Plain(s[last..])];
  }

  /** The first wanted token is not before `pos`; where it is at `pos`, and where not. */
  lemma {:induction false} FirstBeyond(s: string, last: nat, pos: nat, want: Want)
    requires last <= pos <= |s| && First(s[last..], want) >= pos - last
    ensures pos < |s| ==> (At(s[pos..], want) <==> First(s[last..], want) == pos - last)
    ensures pos == |s| ==> First(s[last..], want) == pos - last
    decreases pos - last
  {
    hide At;
    if last < pos {
      assert s[last..][1..] == s[last + 1..];
      FirstBeyond(s, last + 1, pos, want);
    }
  }

  lemma {:induction false} PiecesAt(s: string, last: nat, pos: nat, want: Want)
    requires last <= pos < |s| && At(s[pos..], want) && First(s[last..], want) == pos - last
    ensures var n := MatchLen(s[pos..]);
            Pieces(s[last..], want) ==
              (if last < pos then [Plain(s[last..pos])] else []) + [Citation(s[pos..pos + n])] + Pieces(s[pos + n..], want)
  {
    hide At, MatchLen;
    var n := MatchLen(s[pos..]);
    assert s[last..][pos - last..] == s[pos..];
    assert s[last..][..pos - last] == s[last..pos];
    TokenOf(s, pos, want);
    assert pos == last ==> s[last..] == s[pos..];
    var tail := Pieces(s[pos + n..], want);
    assert [Plain(s[last..pos])] + ([Citation(s[pos..pos + n])] + tail)
        == [Plain(s[last..pos])] + [Citation(s[pos..pos + n])] + tail;
    assert [] + [Citation(s[pos..pos + n])] + tail == [Citation(s[pos..pos + n])] + tail;
  }

  lemma {:induction false} TokenOf(s: string, pos: nat, want: Want)
    requires pos < |s| && At(s[pos..], want)
    ensures var n := MatchLen(s[pos..]);
            PiecesFromToken(s[pos..], want) == [Citation(s[pos..pos + n])] + Pieces(s[pos + n..], want)
  {
    hide MatchLen, Pieces;
    var n := MatchLen(s[pos..]);
    assert s[pos..][..n] == s[pos..pos + n];
    assert s[pos..][n..] == s[pos + n..];
  }

  /** No wanted token starts inside an unwanted one. */
  lemma {:induction false} InsideToken(s: string, pos: nat, want: Want, last: nat)
    requires last <= pos < |s| && MatchLen(s[pos..]) > 0 && !At(s[pos..], want)
    requires First(s[last..], want) >= pos - last
    ensures First(s[last..], want) >= pos - last + MatchLen(s[pos..])
    decreases pos - last
  {
    var n := MatchLen(s[pos..]);
    if last < pos {
      assert s[last..][1..] == s[last + 1..];
      hide MatchLen;
      InsideToken(s, pos, want, last + 1);
    } else {
      MatchShape(s[pos..], n);
      var t, u := s[pos..], s[pos..][1..];
      forall i | 0 <= i < n - 1 ensures u[i] != '[' { assert u[i] == t[i + 1]; }
      NoBracketNoToken(u, n - 1, want);
    }
  }

  lemma {:induction false} NoBracketNoToken(s: string, k: nat, want: Want)
    requires k <= |s| && forall i | 0 <= i < k :: s[i] != '['
    ensures First(s, want) >= k
    decreases k
  {
    if k > 0 {
      assert forall i | 0 <= i < k - 1 :: s[1..][i] == s[i + 1];
      NoBracketNoToken(s[1..], k - 1, want);
    }
  }

  /** The cut of a run's text: the pieces, and how many of them are citations. */
  method CutPieces(full: string, avail: set<nat>) returns (pieces: seq<Piece>, changes: nat)
    ensures changes == |Found(full, Available(avail))|
    ensures changes > 0 ==> pieces == Pieces(full, Available(avail))
  {
    hide MatchLen, Found, Pieces, Matches, Within, Linkable, CutFrom, CitationTexts;
    var want := Available(avail);
    var ms := FindMatches(full);
    CutFromMatches(full, 0, want, 0);
    assert full[0..] == full && ms[0..] == ms;
    PiecesCut(full, want);
    pieces, changes := [], 0;
    CitationTextsJoin([], []);
    var last, k := 0, 0;
    ghost var from := 0;
    while k < |ms|
      invariant k <= |ms| && last <= from <= |full| && Within(ms[k..], from, |full|)
      invariant pieces + CutFrom(full, ms[k..], want, last) == Pieces(full, want)
      invariant changes == |CitationTexts(pieces)|
    {
      var (start, end) := ms[k];
      CutStep(full, ms[k..], want, last, from);
      var token := full[start..end];
      assert ms[k..][1..] == ms[k + 1..];
      if Linkable(token, avail) {
        var added := (if last < start then [Plain(full[last..start])] else []) + [Citation(token)];
        CitationTextsJoin(pieces, added);
        Regroup(pieces, added, CutFrom(full, ms[k + 1..], want, end));
        pieces := pieces + added;
        last := end;
        changes := changes + 1;
      }
      from := end;
      k := k + 1;
    }
    assert ms[k..] == [];
    CutLast(full, want, last);
    var added := if last < |full| then [Plain(full[last..])] else [];
    CitationTextsJoin(pieces, added);
    pieces := pieces + added;
  }

  lemma {:induction false} Regroup<T>(a: seq<T>, b: seq<T>, c: seq<T>)
    ensures a + (b + c) == a + b + c
  {
  }

  lemma {:induction false} CutStep(s: string, ms: seq<(nat, nat)>, want: Want, last: nat, from: nat)
    requires last <= from <= |s| && Within(ms, from, |s|) && ms != []
    ensures from <= ms[0].0 < ms[0].1 <= |s| && Within(ms[1..], ms[0].1, |s|)
    ensures var (start, end) := ms[0];
            CutFrom(s, ms, want, last) ==
              if want(s[start..end]) then
                (if last < start then [Plain(s[last..start])] else []) + [Citation(s[start..end])]
                + CutFrom(s, ms[1..], want, end)
              else CutFrom(s, ms[1..], want, last)
    ensures var (start, end) := ms[0];
            CitationTexts((if last < start then [Plain(s[last..start])] else []) + [Citation(s[start..end])])
              == [s[start..end]]
  {
    var (start, end) := ms[0];
    var c := Citation(s[start..end]);
    assert [c][1..] == [] && CitationTexts([c]) == [c.text];
    if last < start {
      var p := Plain(s[last..start]);
      assert [p][1..] == [] && CitationTexts([p]) == [];
      CitationTextsJoin([p], [c]);
    } else {
      CitationTextsJoin([], [c]);
    }
  }

  lemma {:induction false} CutLast(s: string, want: Want, last: nat)
    requires last <= |s| && Within([], |s|, |s|)
    ensures CutFrom(s, [], want, last) == (if last < |s| then [Plain(s[last..])] else [])
    ensures CitationTexts(CutFrom(s, [], want, last)) == []
  {
  }

  lemma {:induction false} CitationTextsJoin(a: seq<Piece>, b: seq<Piece>)
    ensures CitationTexts(a + b) == CitationTexts(a) + CitationTexts(b)
    decreases |a|
  {
    if a == [] {
      assert a + b == b;
    } else {
      CitationTextsJoin(a[1..], b);
      assert (a + b)[1..] == a[1..] + b;
    }
  }

  /** `parse_citation_token`: the numbers named between the brackets, part by part. */
  method ParseToken(inner: string) returns (nums: seq<nat>)
    ensures nums == PartsNums(inner)
  {
    hide PartNums, CommaPrefix;
    nums := [];
    var rest := inner;
    while true
      invariant nums + PartsNums(rest) == PartsNums(inner)
      decreases |rest|
    {
      var n := CommaPrefix(rest);
      var part := PartNums(Strip(rest[..n]));
      if n == |rest| {
        assert part + [] == part;
        nums := nums + part;
        return;
      }
      assert nums + (part + PartsNums(rest[n + 1..])) == nums + part + PartsNums(rest[n + 1..]);
      nums := nums + part;
      rest := rest[n + 1..];
    }
  }
}
