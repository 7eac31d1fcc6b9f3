/** Which numbers a citation token names. */
module CitationNumbers {
  import opened PyText
  import opened Citations

  ghost predicate Numeral(part: string, n: nat) { part != "" && AllDigits(part) && Val(part) == n }

  /** The part is a numeral of n or a range around n. */
  ghost predicate Shows(part: string, n: nat) { Numeral(part, n) || RangeAround(part, n) }

  predicate Spaces(s: string) { forall i | 0 <= i < |s| :: IsSpace(s[i]) }

  predicate Dash(c: char) { c == '-' || c == '\U{2013}' }

  /** The part is two numerals with a dash between them, and n lies between the numbers. */
  ghost predicate RangeAround(part: string, n: nat) {
    exists a, x, d, y, b | RangeOf(part, a, x, d, y, b) :: Val(a) <= n <= Val(b) || Val(b) <= n <= Val(a)
  }

  ghost predicate RangeOf(part: string, a: string, x: string, d: char, y: string, b: string) {
    && part == a + x + [d] + y + b
    && a != "" && AllDigits(a) && Spaces(x) && Dash(d) && Spaces(y) && b != "" && AllDigits(b)
  }

  // ----- One part

  lemma {:induction false} LStripSplits(s: string) returns (w: string)
    ensures s == w + LStrip(s) && Spaces(w)
  {
    if s != "" && IsSpace(s[0]) {
      var v := LStripSplits(s[1..]);
      w := [s[0]] + v;
    } else {
      w := "";
    }
  }

  lemma {:induction false} LStripSkips(w: string, s: string)
    requires Spaces(w) && s != "" && !IsSpace(s[0])
    ensures LStrip(w + s) == s
    decreases |w|
  {
    if w == "" {
      assert w + s == s;
    } else {
      assert (w + s)[1..] == w[1..] + s;
      LStripSkips(w[1..], s);
    }
  }

  lemma {:induction false} DigitPrefixIs(a: string, rest: string)
    requires AllDigits(a) && rest != "" && !IsDigit(rest[0])
    ensures DigitPrefix(a + rest) == |a|
    decreases |a|
  {
    hide IsDigit;
    if a == "" {
      assert a + rest == rest;
    } else {
      var s := a + rest;
      assert s[0] == a[0] && s[1..] == a[1..] + rest && AllDigits(a[1..]);
      DigitPrefixIs(a[1..], rest);
      hide AllDigits;
      DigitPrefixStep(s);
    }
  }

  lemma DigitPrefixStep(s: string)
    requires s != "" && IsDigit(s[0])
    ensures DigitPrefix(s) == DigitPrefix(s[1..]) + 1
  {
  }

  lemma {:induction false} RangeHas(a: nat, b: nat, n: nat)
    ensures n in Range(a, b) <==> a <= n <= b || b <= n <= a
  {
    RangeMembers(a, b);
    var r := Range(a, b);
    if a <= n <= b { assert r[n - a] == n; }
    if b <= n <= a { assert r[a - n] == n; }
  }

  lemma {:induction false} RangeRead(part: string, a: string, x: string, d: char, y: string, b: string)
    requires RangeOf(part, a, x, d, y, b)
    ensures !AllDigits(part) && PartNums(part) == Range(Val(a), Val(b))
  {
    hide LStrip, DigitPrefix, Range, Val;
    var s := [d] + (y + b);
    var rest := x + s;
    assert part == a + rest && rest[0] == if x == "" then d else x[0];
    DigitPrefixIs(a, rest);
    assert part[|a|] == rest[0] && part[..|a|] == a && part[|a|..] == rest;
    LStripSkips(x, s);
    assert s[1..] == y + b && IsDigit(b[0]);
    LStripSkips(y, b);
  }

  /** What a part that is no numeral must look like to name numbers. */
  lemma {:induction false} RangeFound(part: string) returns (a: string, x: string, d: char, y: string, b: string)
    requires PartNums(part) != [] && !AllDigits(part)
    ensures RangeOf(part, a, x, d, y, b) && PartNums(part) == Range(Val(a), Val(b))
  {
    hide LStrip, DigitPrefix, Range, Val;
    var k := DigitPrefix(part);
    var s := LStrip(part[k..]);
    a, d, b := part[..k], s[0], LStrip(s[1..]);
    x := LStripSplits(part[k..]);
    y := LStripSplits(s[1..]);
    assert s == [d] + s[1..];
    Regrouped(part, k, x, s, d, y, b);
  }

  lemma Regrouped(part: string, k: nat, x: string, s: string, d: char, y: string, b: string)
    requires k <= |part| && part[k..] == x + s && s == [d] + (y + b)
    ensures part == part[..k] + x + [d] + y + b
  {
    assert part == part[..k] + part[k..];
  }

  /** A part names n exactly when it is a numeral of n or a range around n. */
  lemma {:induction false} PartNumsExactly(part: string, n: nat)
    ensures n in PartNums(part) <==> Shows(part, n)
  {
    hide Range;
    if a, x, d, y, b :| RangeOf(part, a, x, d, y, b)
                        && (Val(a) <= n <= Val(b) || Val(b) <= n <= Val(a)) {
      RangeRead(part, a, x, d, y, b);
      RangeHas(Val(a), Val(b), n);
    }
    if n in PartNums(part) && !AllDigits(part) {
      var a, x, d, y, b := RangeFound(part);
      RangeHas(Val(a), Val(b), n);
    }
  }

  // ----- All parts

  /** `s[i..j]` stands between two commas or the ends. */
  predicate PartAt(s: string, i: int, j: int) {
    && 0 <= i <= j <= |s| && (forall k | i <= k < j :: s[k] != ',')
    && (i == 0 || s[i - 1] == ',') && (j == |s| || s[j] == ',')
  }

  ghost predicate PartNames(s: string, n: nat) {
    exists i, j | PartAt(s, i, j) :: n in PartNums(Strip(s[i..j]))
  }

  lemma {:induction false} CommaPrefixIs(s: string)
    ensures PartAt(s, 0, CommaPrefix(s))
  {
    if s != "" && s[0] != ',' {
      CommaPrefixIs(s[1..]);
      var m := CommaPrefix(s[1..]);
      assert forall k | 1 <= k < m + 1 :: s[k] == s[1..][k - 1];
    }
  }

  lemma {:induction false} PartsNumsExactly(s: string, n: nat)
    ensures n in PartsNums(s) <==> PartNames(s, n)
    decreases |s|
  {
    hide PartNums, Strip;
    var m := CommaPrefix(s);
    CommaPrefixIs(s);
    if m < |s| {
      PartsNumsExactly(s[m + 1..], n);
      LaterParts(s, m, n);
    } else {
      OnlyPart(s, n);
    }
  }

  lemma OnlyPart(s: string, n: nat)
    requires PartAt(s, 0, |s|)
    ensures PartNames(s, n) <==> n in PartNums(Strip(s[..|s|]))
  {
    hide PartNums, Strip;
    if i, j :| PartAt(s, i, j) && n in PartNums(Strip(s[i..j])) {
      assert i == 0 && j == |s|;
    }
    if n in PartNums(Strip(s[..|s|])) { assert s[0..|s|] == s[..|s|]; }
  }

  lemma PartShifted(s: string, m: nat, i: int, j: int)
    requires m < |s| && s[m] == ',' && 0 <= i <= j <= |s| - m - 1
    ensures PartAt(s[m + 1..], i, j) <==> PartAt(s, i + m + 1, j + m + 1)
    ensures s[m + 1..][i..j] == s[i + m + 1..j + m + 1]
  {
    var rest := s[m + 1..];
    assert forall k | 0 <= k < |rest| :: rest[k] == s[k + m + 1];
    if PartAt(rest, i, j) {
      forall k | i + m + 1 <= k < j + m + 1 ensures s[k] != ',' { assert rest[k - m - 1] == s[k]; }
    }
    if PartAt(s, i + m + 1, j + m + 1) {
      forall k | i <= k < j ensures rest[k] != ',' { assert s[k + m + 1] == rest[k]; }
    }
  }

  lemma LaterParts(s: string, m: nat, n: nat)
    requires m < |s| && PartAt(s, 0, m) && s[m] == ','
    ensures PartNames(s, n) <==> n in PartNums(Strip(s[..m])) || PartNames(s[m + 1..], n)
  {
    hide PartNums, Strip;
    if i, j :| PartAt(s, i, j) && n in PartNums(Strip(s[i..j])) {
      if i == 0 {
        assert j == m && s[0..m] == s[..m];
      } else {
        assert s[i - 1] == ',' && i - 1 >= m;
        PartShifted(s, m, i - m - 1, j - m - 1);
      }
    }
    if n in PartNums(Strip(s[..m])) { assert s[0..m] == s[..m]; }
    var rest := s[m + 1..];
    if i, j :| PartAt(rest, i, j) && n in PartNums(Strip(rest[i..j])) {
      PartShifted(s, m, i, j);
    }
  }

  /** One of the comma-separated parts, stripped, is a numeral of n or a range whose ends enclose n. */
  ghost predicate SomePartShows(s: string, n: nat) { exists i, j | PartAt(s, i, j) :: Shows(Strip(s[i..j]), n) }

  /** Which numbers a token names, brackets taken off. */
  lemma {:induction false} NumsExactly(token: string, n: nat)
    requires |token| >= 2
    ensures n in Nums(token) <==> SomePartShows(token[1..|token| - 1], n)
  {
    hide PartNums, Strip, Shows, PartsNums;
    var inner := token[1..|token| - 1];
    PartsNumsExactly(inner, n);
    if i, j :| PartAt(inner, i, j) && n in PartNums(Strip(inner[i..j])) {
      PartNumsExactly(Strip(inner[i..j]), n);
    }
    if i, j :| PartAt(inner, i, j) && Shows(Strip(inner[i..j]), n) {
      PartNumsExactly(Strip(inner[i..j]), n);
    }
  }
}
