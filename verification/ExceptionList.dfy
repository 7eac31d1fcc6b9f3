/** The exception list of the audit gate: a line parser for `- key: value` records. */
module ExceptionList {
  import opened PyText

  type Record = map<string, string>

  /** `Failed`: a record opened by a line without a colon, on which the tool raises. */
  datatype State = Reading(done: seq<Record>, current: Option<Record>) | Failed

  const START := Reading([], None)

  // ----- One line

  /** The position of the first colon, or the length. */
  function Colon(s: string): (n: nat)
    ensures n <= |s| && forall i | 0 <= i < n :: s[i] != ':'
    ensures n < |s| ==> s[n] == ':'
  {
    if s == "" || s[0] == ':' then 0 else 1 + Colon(s[1..])
  }

  predicate Quoted(v: string, q: char) { v != "" && v[0] == q && v[|v| - 1] == q }

  /** Drops one pair of quotes; a lone quote counts as a pair. */
  function Unquote(v: string): string {
    if !Quoted(v, '"') && !Quoted(v, '\'') then v else if |v| < 2 then "" else v[1..|v| - 1]
  }

  datatype Pair = Pair(key: string, value: string)

  function SplitKv(line: string): Option<Pair> {
    var n := Colon(line);
    if n == |line| then None else Some(Pair(Strip(line[..n]), Unquote(Strip(line[n + 1..]))))
  }

  function Flushed(done: seq<Record>, current: Option<Record>): seq<Record> {
    if current.Some? && current.value != map[] then done + [current.value] else done
  }

  function OpenRecord(done: seq<Record>, rest: string): State {
    if rest == "" then Reading(done, Some(map[]))
    else
      match SplitKv(rest)
      case None => Failed
      case Some(p) => Reading(done, Some(map[p.key := p.value]))
  }

  predicate Header(line: string) { StartsWith(line, "version:") || StartsWith(line, "exceptions:") }

  function Step(st: State, raw: string): State {
    if st.Failed? then st
    else
      var line := Strip(raw);
      if line == "" || StartsWith(line, "#") || Header(line) then st
      else if StartsWith(line, "- ") then OpenRecord(Flushed(st.done, st.current), Strip(line[2..]))
      else
        match SplitKv(line)
        case Some(p) => if st.current.None? then st else st.(current := Some(st.current.value[p.key := p.value]))
        case None => st
  }

  function Fold(st: State, lines: seq<string>): State {
    if lines == [] then st else Step(Fold(st, lines[..|lines| - 1]), lines[|lines| - 1])
  }

  /** The records of the list; `None` when the tool raises. */
  function Parse(lines: seq<string>): Option<seq<Record>> {
    var st := Fold(START, lines);
    if st.Failed? then None else Some(Flushed(st.done, st.current))
  }

  method ParseExceptions(lines: seq<string>) returns (exceptions: Option<seq<Record>>)
    ensures exceptions == Parse(lines)
  {
    hide Strip, SplitKv, Header;
    var done: seq<Record> := [];
    var current: Option<Record> := None;
    for k := 0 to |lines|
      invariant Fold(START, lines[..k]) == Reading(done, current)
    {
      FoldSnoc(START, lines[..k], lines[k]);
      assert lines[..k + 1] == lines[..k] + [lines[k]];
      FoldFailed(lines, k + 1);
      var line := Strip(lines[k]);
      if line == "" || StartsWith(line, "#") || Header(line) {
        continue;
      }
      if StartsWith(line, "- ") {
        if current.Some? && current.value != map[] { done := done + [current.value]; }
        current := Some(map[]);
        line := Strip(line[2..]);
        if line != "" {
          var p := SplitKv(line);
          if p.None? {
            return None;
          }
          current := Some(map[p.value.key := p.value.value]);
        }
      } else if current.Some? {
        var p := SplitKv(line);
        if p.Some? { current := Some(current.value[p.value.key := p.value.value]); }
      }
    }
    assert lines[..|lines|] == lines;
    exceptions := Some(Flushed(done, current));
  }

  lemma FoldSnoc(st: State, lines: seq<string>, raw: string)
    ensures Fold(st, lines + [raw]) == Step(Fold(st, lines), raw)
  {
    assert (lines + [raw])[..|lines|] == lines;
  }

  lemma {:induction false} FoldFailed(lines: seq<string>, k: nat)
    requires k <= |lines|
    ensures Fold(START, lines[..k]).Failed? ==> Fold(START, lines).Failed?
    decreases |lines| - k
  {
    hide Step, Fold;
    if k < |lines| {
      FoldFailed(lines, k + 1);
      FoldSnoc(START, lines[..k], lines[k]);
      assert lines[..k + 1] == lines[..k] + [lines[k]];
      StepFailed(lines[k]);
    } else {
      assert lines[..k] == lines;
    }
  }

  lemma StepFailed(raw: string)
    ensures Step(Failed, raw) == Failed
  {
  }

  /** A dash line always has text after the dash: a dash alone loses its blank to stripping, so it is no dash line. */
  lemma {:induction false} DashHasText(raw: string)
    requires StartsWith(Strip(raw), "- ")
    ensures Strip(Strip(raw)[2..]) != ""
  {
    var line := Strip(raw);
    StripTrimmed(raw);
    var c := line[|line| - 1];
    assert line[..2][1] == ' ';
    assert c in line[2..] by { assert line[2..][|line| - 3] == c; }
    StripKeeps(line[2..], c);
  }

  // ----- Lines that are skipped

  /** Blank lines, comments, the two headers, and lines that neither open a record nor have a colon. */
  predicate Ignored(raw: string) {
    var line := Strip(raw);
    || line == "" || StartsWith(line, "#") || StartsWith(line, "version:") || StartsWith(line, "exceptions:")
    || (!StartsWith(line, "- ") && ':' !in line)
  }

  function Kept(lines: seq<string>): seq<string> {
    if lines == [] then []
    else
      var r := Kept(lines[..|lines| - 1]);
      if Ignored(lines[|lines| - 1]) then r else r + [lines[|lines| - 1]]
  }

  /** Blank lines, comments, the headers and lines without a colon change nothing, wherever they stand. */
  lemma {:induction false} NoiseIgnored(st: State, lines: seq<string>)
    ensures Fold(st, Kept(lines)) == Fold(st, lines)
  {
    hide Step, Ignored;
    if lines != [] {
      var raw, front := lines[|lines| - 1], lines[..|lines| - 1];
      NoiseIgnored(st, front);
      if Ignored(raw) {
        IgnoredStep(Fold(st, front), raw);
      } else {
        FoldSnoc(st, Kept(front), raw);
      }
    }
  }

  lemma IgnoredStep(st: State, raw: string)
    requires Ignored(raw)
    ensures Step(st, raw) == st
  {
    hide Strip;
    ColonThere(Strip(raw));
  }

  lemma ColonThere(s: string)
    ensures Colon(s) < |s| <==> ':' in s
  {
    if Colon(s) < |s| { assert s[Colon(s)] == ':'; }
  }

  // ----- When the tool raises

  /** The line opens a record and has no colon. */
  predicate Broken(raw: string) { StartsWith(Strip(raw), "- ") && ':' !in Strip(raw) }

  lemma {:induction false} StepRaises(st: State, raw: string)
    requires st.Reading?
    ensures Step(st, raw).Failed? <==> Broken(raw)
  {
    hide Strip, Flushed;
    var line := Strip(raw);
    if StartsWith(line, "- ") {
      DashIsNoHeader(line);
      DashHasText(raw);
      StripKeeps(line[2..], ':');
      assert line == line[..2] + line[2..] && ':' !in line[..2];
      ColonThere(Strip(line[2..]));
    }
  }

  lemma DashIsNoHeader(line: string)
    requires StartsWith(line, "- ")
    ensures line != "" && !StartsWith(line, "#") && !Header(line)
  {
    assert line[..2][0] == '-' && line[0] == '-';
    assert !StartsWith(line, "#") by { assert line[..1] == "-"; }
    assert !StartsWith(line, "version:") by { if |line| >= 8 { assert line[..8][0] == '-'; } }
    assert !StartsWith(line, "exceptions:") by { if |line| >= 11 { assert line[..11][0] == '-'; } }
  }

  lemma {:induction false} FoldRaises(lines: seq<string>)
    ensures Fold(START, lines).Failed? <==> exists k | 0 <= k < |lines| :: Broken(lines[k])
    decreases |lines|
  {
    hide Step, Broken;
    if lines != [] {
      var n := |lines| - 1;
      FoldRaises(lines[..n]);
      if Fold(START, lines[..n]).Failed? {
        StepFailed(lines[n]);
        assert lines[..n] + [lines[n]] == lines;
      } else {
        StepRaises(Fold(START, lines[..n]), lines[n]);
      }
    }
  }

  /** Reading a list raises exactly when some line opens a record and has no colon. */
  lemma {:induction false} RaisesExactly(lines: seq<string>)
    ensures Parse(lines).None? <==> exists k | 0 <= k < |lines| :: Broken(lines[k])
  {
    hide Fold, Broken;
    FoldRaises(lines);
  }

  // ----- Writing a list

  datatype Style = Plain | Double | Single

  datatype Entry = Entry(key: string, value: string, style: Style)

  function Written(e: Entry): string {
    match e.style
    case Plain => e.value
    case Double => "\"" + e.value + "\""
    case Single => "'" + e.value + "'"
  }

  /** The text has no line break: the tool reads its file line by line. */
  predicate OneLine(s: string) { '\n' !in s && '\r' !in s }

  predicate CleanKey(key: string) { Strip(key) == key && ':' !in key && OneLine(key) }

  /** A key that may start a line: the line must not look like a comment, a header or a new record. */
  predicate LeadingKey(key: string) {
    !StartsWith(key, "#") && !StartsWith(key, "- ") && key != "version" && key != "exceptions"
  }

  /** A value that can stand without quotes. */
  predicate Bare(value: string) { Strip(value) == value && !Quoted(value, '"') && !Quoted(value, '\'') }

  predicate CleanValue(e: Entry) { OneLine(e.value) && (e.style.Plain? ==> Bare(e.value)) }

  predicate CleanRecord(entries: seq<Entry>) {
    && entries != []
    && forall k | 0 <= k < |entries| ::
         CleanKey(entries[k].key) && CleanValue(entries[k]) && (k > 0 ==> LeadingKey(entries[k].key))
  }

  function RenderEntry(e: Entry, first: bool): string {
    (if first then "- " else "  ") + e.key + ": " + Written(e)
  }

  function RenderRecord(entries: seq<Entry>): seq<string> {
    if entries == [] then []
    else
      var n := |entries| - 1;
      RenderRecord(entries[..n]) + [RenderEntry(entries[n], n == 0)]
  }

  function RenderAll(records: seq<seq<Entry>>): seq<string> {
    if records == [] then [] else RenderAll(records[..|records| - 1]) + RenderRecord(records[|records| - 1])
  }

  /** The dictionary of a record: a key written twice keeps its last value. */
  function RecordOf(entries: seq<Entry>): Record {
    if entries == [] then map[]
    else
      var e := entries[|entries| - 1];
      RecordOf(entries[..|entries| - 1])[e.key := e.value]
  }

  function RecordsOf(records: seq<seq<Entry>>): (r: seq<Record>)
    ensures |r| == |records|
  {
    seq(|records|, k requires 0 <= k < |records| => RecordOf(records[k]))
  }

  // ----- Reading back one entry

  lemma {:induction false} ColonAfter(key: string, rest: string)
    requires ':' !in key
    ensures Colon(key + ":" + rest) == |key|
  {
    var s := key + ":" + rest;
    assert s[|key|] == ':';
    assert forall i | 0 <= i < |key| :: s[i] == key[i] && key[i] in key;
  }

  lemma {:induction false} LeadingSpace(s: string)
    ensures Strip(" " + s) == Strip(s)
  {
    assert (" " + s)[1..] == s;
  }

  lemma UnquoteWritten(e: Entry)
    requires CleanValue(e)
    ensures Strip(Written(e)) == Written(e) && Unquote(Written(e)) == e.value
  {
    if !e.style.Plain? { StripFixed(Written(e)); }
  }

  /** A plain value survives exactly when it is trimmed and does not look quoted. */
  lemma {:induction false} PlainReadsBack(key: string, value: string)
    requires CleanKey(key)
    ensures SplitKv(key + ": " + value) == Some(Pair(key, value)) <==> Bare(value)
  {
    hide Bare, Strip, Unquote, OneLine;
    var line := key + ":" + (" " + value);
    assert key + ": " + value == line;
    ColonAfter(key, " " + value);
    assert line[..|key|] == key && line[|key| + 1..] == " " + value;
    LeadingSpace(value);
    assert SplitKv(line) == Some(Pair(key, Unquote(Strip(value))));
    UnquoteFixed(value);
  }

  lemma UnquoteFixed(value: string)
    ensures Unquote(Strip(value)) == value <==> Bare(value)
  {
    hide Strip;
    StripShorter(value);
  }

  lemma {:induction false} StripShorter(s: string)
    ensures |Strip(s)| <= |s|
  {
  }

  lemma {:induction false} SplitWritten(e: Entry)
    requires CleanKey(e.key) && CleanValue(e)
    ensures var tail := if Written(e) == "" then "" else " " + Written(e);
            SplitKv(e.key + ":" + tail) == Some(Pair(e.key, e.value))
  {
    hide Written, Unquote, Strip, CleanValue;
    var tail := if Written(e) == "" then "" else " " + Written(e);
    ColonAfter(e.key, tail);
    var line := e.key + ":" + tail;
    assert line[..|e.key|] == e.key && line[|e.key| + 1..] == tail;
    LeadingSpace(Written(e));
    UnquoteWritten(e);
  }

  /** The text of an entry line once its blanks are stripped. */
  function Text(e: Entry): string { e.key + ":" + if Written(e) == "" then "" else " " + Written(e) }

  lemma {:induction false} TextTrimmed(e: Entry)
    requires CleanKey(e.key) && CleanValue(e)
    ensures Text(e) != "" && !IsSpace(Text(e)[0]) && !IsSpace(Text(e)[|Text(e)| - 1])
  {
    hide Written, Strip, CleanValue;
    UnquoteWritten(e);
    StripTrimmed(e.key);
    StripTrimmed(Written(e));
    var t := Text(e);
    if e.key != "" { assert t[0] == e.key[0]; }
    if Written(e) != "" { assert t[|t| - 1] == Written(e)[|Written(e)| - 1]; }
  }

  lemma {:induction false} TrailingSpace(s: string)
    requires s != "" && !IsSpace(s[0]) && !IsSpace(s[|s| - 1])
    ensures Strip(s + " ") == s && Strip(s) == s
  {
    assert (s + " ")[..|s|] == s;
    assert LStrip(s + " ") == s + " ";
    assert RStrip(s + " ") == RStrip(s) == s;
  }

  lemma {:induction false} StripRendered(e: Entry, first: bool)
    requires CleanKey(e.key) && CleanValue(e)
    ensures Strip(RenderEntry(e, first)) == (if first then "- " else "") + Text(e)
  {
    hide Written, CleanValue, CleanKey, Strip;
    TextTrimmed(e);
    var t := (if first then "- " else "") + Text(e);
    assert t != "" && !IsSpace(t[0]) && t[|t| - 1] == Text(e)[|Text(e)| - 1];
    TrailingSpace(t);
    var shown := (if first then "- " else "") + e.key + ": " + Written(e);
    assert shown == if Written(e) == "" then t + " " else t;
    if !first {
      assert RenderEntry(e, first) == " " + (" " + shown);
      LeadingSpace(" " + shown);
      LeadingSpace(shown);
    }
  }

  lemma {:induction false} StepFirst(done: seq<Record>, current: Option<Record>, e: Entry)
    requires CleanKey(e.key) && CleanValue(e)
    ensures Step(Reading(done, current), RenderEntry(e, true))
         == Reading(Flushed(done, current), Some(map[e.key := e.value]))
  {
    hide Written, CleanValue, CleanKey, Strip, RenderEntry, SplitKv, Flushed;
    StripRendered(e, true);
    var line := "- " + Text(e);
    TextTrimmed(e);
    assert line[0] == '-' && line[1] == ' ' && line[..2] == "- " && line[2..] == Text(e);
    StripFixed(Text(e));
    SplitWritten(e);
  }

  lemma {:induction false} LeadingText(e: Entry)
    requires CleanKey(e.key) && LeadingKey(e.key)
    ensures !StartsWith(Text(e), "#") && !StartsWith(Text(e), "- ") && !Header(Text(e))
  {
    hide Written, Strip;
    var t, key := Text(e), e.key;
    PrefixOfKey(key, t, "#");
    PrefixOfKey(key, t, "- ");
    if StartsWith(t, "version:") { HeaderKey(key, t, "version"); }
    if StartsWith(t, "exceptions:") { HeaderKey(key, t, "exceptions"); }
  }

  lemma {:induction false} PrefixOfKey(key: string, t: string, p: string)
    requires ':' !in p && |key| < |t| && t[..|key|] == key && t[|key|] == ':'
    ensures StartsWith(t, p) <==> StartsWith(key, p)
  {
    if StartsWith(t, p) {
      assert forall i | 0 <= i < |p| :: p[i] == t[..|p|][i] == t[i] && p[i] in p;
      assert |p| <= |key|;
      assert key[..|p|] == t[..|p|];
    }
    if StartsWith(key, p) { assert t[..|p|] == key[..|p|]; }
  }

  lemma {:induction false} HeaderKey(key: string, t: string, word: string)
    requires ':' !in key && ':' !in word && |key| < |t| && t[..|key|] == key && t[|key|] == ':'
    requires StartsWith(t, word + ":")
    ensures key == word
  {
    var w := word + ":";
    assert forall i | 0 <= i < |w| :: t[i] == t[..|w|][i] == w[i];
    assert forall i | 0 <= i < |key| :: t[i] == key[i] && key[i] in key;
    assert forall i | 0 <= i < |word| :: w[i] == word[i] && word[i] in word;
    assert w[|word|] == ':';
  }

  lemma StepLine(done: seq<Record>, current: Record, raw: string, p: Pair)
    requires var line := Strip(raw);
             && line != "" && !StartsWith(line, "#") && !StartsWith(line, "- ") && !Header(line)
             && SplitKv(line) == Some(p)
    ensures Step(Reading(done, Some(current)), raw) == Reading(done, Some(current[p.key := p.value]))
  {
    hide Strip, SplitKv, StartsWith, Header;
  }

  lemma {:induction false} StepNext(done: seq<Record>, current: Record, e: Entry)
    requires CleanKey(e.key) && CleanValue(e) && LeadingKey(e.key)
    ensures Step(Reading(done, Some(current)), RenderEntry(e, false)) == Reading(done, Some(current[e.key := e.value]))
  {
    hide Written, CleanValue, Strip, RenderEntry, SplitKv, LeadingKey, Header, CleanKey, StartsWith, Step;
    StripRendered(e, false);
    assert "" + Text(e) == Text(e);
    TextTrimmed(e);
    LeadingText(e);
    SplitWritten(e);
    assert Text(e) == e.key + ":" + if Written(e) == "" then "" else " " + Written(e);
    StepLine(done, current, RenderEntry(e, false), Pair(e.key, e.value));
  }

  // ----- The round trip

  lemma {:induction false} FoldRecord(done: seq<Record>, current: Option<Record>, entries: seq<Entry>)
    requires CleanRecord(entries)
    ensures Fold(Reading(done, current), RenderRecord(entries))
         == Reading(Flushed(done, current), Some(RecordOf(entries)))
    decreases |entries|
  {
    hide CleanKey, CleanValue, LeadingKey, RenderEntry, Step, Flushed;
    var n := |entries| - 1;
    var st := Reading(done, current);
    FoldSnoc(st, RenderRecord(entries[..n]), RenderEntry(entries[n], n == 0));
    if n == 0 {
      assert RecordOf(entries) == map[entries[0].key := entries[0].value];
      StepFirst(done, current, entries[0]);
    } else {
      FoldRecord(done, current, entries[..n]);
      StepNext(Flushed(done, current), RecordOf(entries[..n]), entries[n]);
    }
  }

  lemma {:induction false} FoldAppend(st: State, front: seq<string>, back: seq<string>)
    ensures Fold(st, front + back) == Fold(Fold(st, front), back)
    decreases |back|
  {
    hide Step;
    if back == [] {
      assert front + back == front;
    } else {
      var n := |back| - 1;
      assert front + back == (front + back[..n]) + [back[n]];
      FoldAppend(st, front, back[..n]);
      FoldSnoc(st, front + back[..n], back[n]);
    }
  }

  ghost predicate CleanAll(records: seq<seq<Entry>>) {
    forall k | 0 <= k < |records| :: CleanRecord(records[k])
  }

  lemma {:induction false} RecordOfNonempty(entries: seq<Entry>)
    requires entries != []
    ensures RecordOf(entries) != map[]
  {
    var e := entries[|entries| - 1];
    assert e.key in RecordOf(entries);
  }

  lemma {:induction false} FoldAll(records: seq<seq<Entry>>)
    requires CleanAll(records)
    ensures match Fold(START, RenderAll(records))
            case Failed => false
            case Reading(done, current) => Flushed(done, current) == RecordsOf(records)
    decreases |records|
  {
    hide CleanRecord, RenderRecord, Step;
    if records != [] {
      var n := |records| - 1;
      FoldAll(records[..n]);
      var st := Fold(START, RenderAll(records[..n]));
      FoldAppend(START, RenderAll(records[..n]), RenderRecord(records[n]));
      FoldRecord(st.done, st.current, records[n]);
      CleanNonempty(records[n]);
      RecordOfNonempty(records[n]);
      assert RecordsOf(records) == RecordsOf(records[..n]) + [RecordOf(records[n])];
    }
  }

  lemma CleanNonempty(entries: seq<Entry>)
    requires CleanRecord(entries)
    ensures entries != []
  {
  }

  /** Reading a written list returns its records, whatever blank lines, comments and headers are put between the
      lines and however the values are quoted. */
  lemma {:induction false} RoundTrip(records: seq<seq<Entry>>, lines: seq<string>)
    requires CleanAll(records)
    ensures Kept(lines) == RenderAll(records) ==> Parse(lines) == Some(RecordsOf(records))
  {
    hide CleanAll, Kept, RenderAll, Step, Fold;
    NoiseIgnored(START, lines);
    FoldAll(records);
  }

  // ----- Written lines are single lines, and never noise

  lemma {:induction false} RecordLines(entries: seq<Entry>)
    requires CleanRecord(entries) || entries == []
    ensures forall k | 0 <= k < |RenderRecord(entries)| :: OneLine(RenderRecord(entries)[k])
    decreases |entries|
  {
    hide LeadingKey, Bare, Strip, RenderEntry;
    if entries != [] {
      var n := |entries| - 1;
      RecordLines(entries[..n]);
      EntryLine(entries[n], n == 0);
    }
  }

  lemma EntryLine(e: Entry, first: bool)
    requires OneLine(e.key) && OneLine(e.value)
    ensures OneLine(RenderEntry(e, first))
  {
  }

  /** A written list is a list of single lines, so a file keeps them apart. */
  lemma {:induction false} WrittenLines(records: seq<seq<Entry>>)
    requires CleanAll(records)
    ensures forall k | 0 <= k < |RenderAll(records)| :: OneLine(RenderAll(records)[k])
    decreases |records|
  {
    hide CleanRecord, RenderRecord, OneLine;
    if records != [] {
      var n := |records| - 1;
      WrittenLines(records[..n]);
      RecordLines(records[n]);
    }
  }

  lemma {:induction false} EntryKept(e: Entry, first: bool)
    requires CleanKey(e.key) && CleanValue(e) && (first || LeadingKey(e.key))
    ensures !Ignored(RenderEntry(e, first))
  {
    hide Written, CleanValue, Strip, RenderEntry, LeadingKey;
    StripRendered(e, first);
    TextTrimmed(e);
    if first {
      var line := "- " + Text(e);
      assert line[0] == '-' && line[..2] == "- ";
      assert !StartsWith(line, "#") by { assert line[..1] == "-"; }
      assert !StartsWith(line, "version:") by { if |line| >= 8 { assert line[..8][0] == '-'; } }
      assert !StartsWith(line, "exceptions:") by { if |line| >= 11 { assert line[..11][0] == '-'; } }
    } else {
      assert "" + Text(e) == Text(e);
      LeadingText(e);
      SplitWritten(e);
    }
  }

  lemma {:induction false} KeptRecord(entries: seq<Entry>)
    requires CleanRecord(entries) || entries == []
    ensures Kept(RenderRecord(entries)) == RenderRecord(entries)
    decreases |entries|
  {
    hide CleanKey, CleanValue, LeadingKey, RenderEntry, Ignored;
    if entries != [] {
      var n := |entries| - 1;
      KeptRecord(entries[..n]);
      EntryKept(entries[n], n == 0);
      KeptSnoc(RenderRecord(entries[..n]), RenderEntry(entries[n], n == 0));
    }
  }

  lemma KeptSnoc(lines: seq<string>, raw: string)
    ensures Kept(lines + [raw]) == Kept(lines) + if Ignored(raw) then [] else [raw]
  {
    hide Ignored;
    assert (lines + [raw])[..|lines|] == lines;
  }

  lemma {:induction false} KeptAppend(front: seq<string>, back: seq<string>)
    ensures Kept(front + back) == Kept(front) + Kept(back)
    decreases |back|
  {
    hide Ignored;
    if back == [] {
      assert front + back == front;
    } else {
      var n := |back| - 1;
      assert front + back == (front + back[..n]) + [back[n]];
      KeptAppend(front, back[..n]);
      KeptSnoc(front + back[..n], back[n]);
    }
  }

  lemma {:induction false} KeptAll(records: seq<seq<Entry>>)
    requires CleanAll(records)
    ensures Kept(RenderAll(records)) == RenderAll(records)
    decreases |records|
  {
    hide CleanRecord, RenderRecord, Kept;
    if records == [] {
      KeptEmpty();
    } else {
      var n := |records| - 1;
      KeptAll(records[..n]);
      KeptRecord(records[n]);
      KeptAppend(RenderAll(records[..n]), RenderRecord(records[n]));
    }
  }

  lemma KeptEmpty()
    ensures Kept([]) == []
  {
  }

  /** A noise line may be put anywhere into a list. */
  lemma {:induction false} NoiseAnywhere(front: seq<string>, noise: string, back: seq<string>)
    requires Ignored(noise)
    ensures Kept(front + [noise] + back) == Kept(front + back)
  {
    hide Ignored;
    KeptSnoc(front, noise);
    KeptAppend(front + [noise], back);
    KeptAppend(front, back);
  }
}
