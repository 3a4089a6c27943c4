/** The provenance manifest of a comparison report: rendered as a table, parsed back, compared by field. */
module Provenance {
  import opened Outcomes
  import opened Text

  type Manifest = map<string, string>

  const FIELDS: seq<string> := [
    "harness_sha", "scorer_schema", "eval_bin_sha", "index_bin_sha",
    "dataset_sha", "agent_iterations", "modes", "max_mb",
    "n_attempted", "n_indexed", "timestamp_utc"]

  /** The fields two reports must agree on to be comparable. */
  const COMPARED: seq<string> := [
    "harness_sha", "scorer_schema", "eval_bin_sha", "index_bin_sha",
    "dataset_sha", "agent_iterations", "modes", "max_mb"]

  const HEADING := "## Provenance manifest"

  function Get(m: Manifest, key: string, absent: string): string {
    if key in m then m[key] else absent
  }

  function Row(key: string, value: string): string {
    "| " + key + " | `" + value + "` |"
  }

  function Rows(keys: seq<string>, m: Manifest): (rows: seq<string>)
    ensures |rows| == |keys| && forall i :: 0 <= i < |keys| ==> rows[i] == Row(keys[i], Get(m, keys[i], ""))
  {
    seq(|keys|, i requires 0 <= i < |keys| => Row(keys[i], Get(m, keys[i], "")))
  }

  function Opening(): seq<string> {
    [HEADING, "", "| field | value |", "|---|---|"]
  }

  function Table(m: Manifest): seq<string> {
    Opening() + Rows(FIELDS, m) + [""]
  }

  method RenderProvenanceTable(m: Manifest) returns (lines: seq<string>)
    ensures lines == Table(m)
  {
    lines := [HEADING, ""];
    lines := lines + ["| field | value |"];
    lines := lines + ["|---|---|"];
    for i := 0 to |FIELDS|
      invariant lines == Opening() + Rows(FIELDS, m)[..i]
    {
      lines := lines + [Row(FIELDS[i], Get(m, FIELDS[i], ""))];
    }
    assert Rows(FIELDS, m)[..|FIELDS|] == Rows(FIELDS, m);
    lines := lines + [""];
  }

  predicate IsHeading(line: string) {
    StartsWith(line, HEADING)
  }

  predicate IsRow(line: string) {
    StartsWith(line, "|") && !StartsWith(line, "|---") && !StartsWith(line, "| field")
  }

  /** A row's first two cells, the second without its backticks. */
  function RowField(line: string): Option<(string, string)> {
    var parts := Split(StripBoth(StripSpace(line), '|'), '|');
    if |parts| < 2 then None else Some((StripSpace(parts[0]), StripBoth(StripSpace(parts[1]), '`')))
  }

  function AddField(line: string, fields: Manifest): Manifest {
    match RowField(line)
    case None => fields
    case Some((key, value)) => fields[key := value]
  }

  /** The fields found from here on, with the table already entered or not. */
  function ParseLines(lines: seq<string>, inTable: bool, fields: Manifest): Manifest {
    if lines == [] then fields
    else if IsHeading(lines[0]) then ParseLines(lines[1..], true, fields)
    else if !inTable then ParseLines(lines[1..], false, fields)
    else if StartsWith(lines[0], "##") then fields
    else ParseLines(lines[1..], true, if IsRow(lines[0]) then AddField(lines[0], fields) else fields)
  }

  /** An earlier report that cannot be read has no text; one without rows has no manifest. */
  function ParseManifest(text: Option<string>): Option<Manifest> {
    if text.None? then None
    else
      var fields := ParseLines(SplitLines(text.value), false, map[]);
      if fields == map[] then None else Some(fields)
  }

  method ParseProvenanceManifest(text: Option<string>) returns (manifest: Option<Manifest>)
    ensures manifest == ParseManifest(text)
  {
    if text.None? {
      return None;
    }
    var lines := SplitLines(text.value);
    var inTable := false;
    var fields: Manifest := map[];
    var i := 0;
    while i < |lines|
      invariant i <= |lines|
      invariant ParseLines(lines[i..], inTable, fields) == ParseLines(lines, false, map[])
    {
      var line := lines[i];
      assert lines[i..][1..] == lines[i + 1..];
      i := i + 1;
      if IsHeading(line) {
        inTable := true;
        continue;
      }
      if inTable {
        if StartsWith(line, "##") {
          break;
        }
        if IsRow(line) {
          var parts := Split(StripBoth(StripSpace(line), '|'), '|');
          if |parts| >= 2 {
            fields := fields[StripSpace(parts[0]) := StripBoth(StripSpace(parts[1]), '`')];
          }
        }
      }
    }
    manifest := if fields == map[] then None else Some(fields);
  }

  // ---- What a parsed value can be ----

  /** Free of pipes, line breaks and edge backticks. */
  predicate Clean(value: string) {
    && '|' !in value
    && !HasBreak(value)
    && (value != "" ==> value[0] != '`' && value[|value| - 1] != '`')
  }

  lemma {:induction false} StripBothIsWithin(s: string, c: char)
    ensures forall d :: d in StripBoth(s, c) ==> d in s
    ensures StripBoth(s, c) != "" ==> StripBoth(s, c)[0] != c && StripBoth(s, c)[|StripBoth(s, c)| - 1] != c
  {
    var l := StripLeft(s, c);
    StripLeftIsWithin(s, c);
    var r := StripRight(l, c);
    if r != "" {
      assert r[0] == l[0];
    }
  }

  lemma {:induction false} StripLeftIsWithin(s: string, c: char)
    ensures forall d :: d in StripLeft(s, c) ==> d in s
  {
    if s != [] && s[0] == c {
      StripLeftIsWithin(s[1..], c);
    }
  }

  lemma {:induction false} WithinHasNoBreak(part: string, s: string)
    requires !HasBreak(s) && forall c :: c in part ==> c in s
    ensures !HasBreak(part)
  {
    forall i | 0 <= i < |part| ensures !IsBreak(part[i]) {
      assert part[i] in part;
      var j :| 0 <= j < |s| && s[j] == part[i];
    }
  }

  lemma {:induction false} SplitIsWithin(s: string, c: char, k: nat)
    requires k < |Split(s, c)|
    ensures forall d :: d in Split(s, c)[k] ==> d in s
    decreases |s|
  {
    if c in s && k > 0 {
      SplitIsWithin(s[IndexOf(s, c) + 1..], c, k - 1);
    }
  }

  lemma {:induction false} ParsedValueIsClean(line: string)
    requires !HasBreak(line) && RowField(line).Some?
    ensures Clean(RowField(line).value.1)
  {
    var cells := StripBoth(StripSpace(line), '|');
    var cell := Split(cells, '|')[1];
    StripBothIsWithin(StripSpace(line), '|');
    SplitIsWithin(cells, '|', 1);
    StripBothIsWithin(StripSpace(cell), '`');
    WithinHasNoBreak(StripBoth(StripSpace(cell), '`'), line);
  }

  ghost predicate AllClean(m: Manifest) {
    forall k :: k in m ==> Clean(m[k])
  }

  lemma {:induction false} ParsedIsClean(lines: seq<string>, inTable: bool, fields: Manifest)
    requires AllClean(fields) && NoBreaks(lines)
    ensures AllClean(ParseLines(lines, inTable, fields))
  {
    if lines != [] {
      if RowField(lines[0]).Some? {
        ParsedValueIsClean(lines[0]);
      }
      if IsHeading(lines[0]) {
        ParsedIsClean(lines[1..], true, fields);
      } else if !inTable {
        ParsedIsClean(lines[1..], false, fields);
      } else if !StartsWith(lines[0], "##") {
        ParsedIsClean(lines[1..], true, if IsRow(lines[0]) then AddField(lines[0], fields) else fields);
      }
    }
  }

  /** Whatever text is read, every value the parser returns is clean. */
  lemma {:induction false} ManifestsAreClean(text: Option<string>)
    requires ParseManifest(text).Some?
    ensures AllClean(ParseManifest(text).value)
  {
    ParsedIsClean(SplitLines(text.value), false, map[]);
  }

  // ---- Parsing what was rendered ----

  /** Keys made of lower-case letters and underscores, not starting like the column title. */
  predicate GoodKey(key: string) {
    && key != "" && key[0] != 'f'
    && forall i :: 0 <= i < |key| ==> 'a' <= key[i] <= 'z' || key[i] == '_'
  }

  lemma {:induction false} FieldsAreGood(i: nat)
    requires i < |FIELDS|
    ensures GoodKey(FIELDS[i])
  {
  }

  lemma {:induction false} StripPadded(x: string)
    requires x != "" && !IsSpace(x[0]) && !IsSpace(x[|x| - 1])
    ensures StripSpace(" " + x + " ") == x
  {
    var s := " " + x + " ";
    assert s[1..] == x + " ";
    assert (x + " ")[..|x|] == x;
  }

  /** The two padded cells of a row, between its outer pipes. */
  function Cells(key: string, ticked: string): string {
    (" " + key + " ") + "|" + (" " + ticked + " ")
  }

  lemma {:induction false} RowIsCells(key: string, value: string)
    ensures StripBoth(StripSpace(Row(key, value)), '|') == Cells(key, "`" + value + "`")
  {
    var cells := Cells(key, "`" + value + "`");
    assert Row(key, value) == "|" + cells + "|";
    assert cells[0] == ' ' && cells[|cells| - 1] == ' ';
    StripBothOne(cells, '|');
  }

  lemma {:induction false} CellsSplit(key: string, ticked: string)
    requires '|' !in key && '|' !in ticked
    ensures Split(Cells(key, ticked), '|') == [" " + key + " ", " " + ticked + " "]
  {
    SplitAppend(" " + key + " ", '|', " " + ticked + " ");
  }

  lemma {:induction false} GoodKeyStrips(key: string)
    requires GoodKey(key)
    ensures '|' !in key && StripSpace(" " + key + " ") == key
  {
    StripPadded(key);
  }

  lemma {:induction false} RowRoundTrip(key: string, value: string)
    requires GoodKey(key) && Clean(value)
    ensures RowField(Row(key, value)) == Some((key, value))
  {
    var ticked := "`" + value + "`";
    RowIsCells(key, value);
    GoodKeyStrips(key);
    CellsSplit(key, ticked);
    StripPadded(ticked);
    StripBothOne(value, '`');
  }

  lemma {:induction false} RowIsPlain(key: string, value: string)
    requires GoodKey(key) && Clean(value)
    ensures var row := Row(key, value); IsRow(row) && !IsHeading(row) && !StartsWith(row, "##") && !HasBreak(row)
  {
    var row := Row(key, value);
    assert row[0] == '|' && row[1] == ' ' && row[2] == key[0];
    assert "| field"[2] == 'f' && "|---"[1] == '-';
    assert HEADING[0] == '#';
    forall i | 0 <= i < |row| ensures !IsBreak(row[i]) {
      if 2 <= i < 2 + |key| {
        assert row[i] == key[i - 2];
      } else if 6 + |key| <= i < 6 + |key| + |value| {
        assert row[i] == value[i - 6 - |key|];
      }
    }
  }

  /** A manifest as the table shows it: the eleven fields, a missing one empty. */
  function Shown(m: Manifest): Manifest {
    map k | k in FIELDS :: Get(m, k, "")
  }

  function Fill(keys: seq<string>, m: Manifest, fields: Manifest): Manifest {
    if keys == [] then fields else Fill(keys[1..], m, fields[keys[0] := Get(m, keys[0], "")])
  }

  lemma {:induction false} FillIs(keys: seq<string>, m: Manifest, fields: Manifest, k: string)
    ensures k in Fill(keys, m, fields) <==> k in keys || k in fields
    ensures k in keys ==> Fill(keys, m, fields)[k] == Get(m, k, "")
    ensures k !in keys && k in fields ==> Fill(keys, m, fields)[k] == fields[k]
    decreases |keys|
  {
    if keys != [] {
      var next := fields[keys[0] := Get(m, keys[0], "")];
      FillIs(keys[1..], m, next, k);
      assert keys == [keys[0]] + keys[1..];
    }
  }

  lemma {:induction false} FilledIsShown(m: Manifest)
    ensures Fill(FIELDS, m, map[]) == Shown(m)
  {
    forall k ensures k in Fill(FIELDS, m, map[]) <==> k in Shown(m) {
      FillIs(FIELDS, m, map[], k);
    }
    forall k | k in Shown(m) ensures Fill(FIELDS, m, map[])[k] == Shown(m)[k] {
      FillIs(FIELDS, m, map[], k);
    }
  }

  ghost predicate CleanAt(keys: seq<string>, m: Manifest) {
    forall i :: 0 <= i < |keys| ==> GoodKey(keys[i]) && Clean(Get(m, keys[i], ""))
  }

  lemma {:induction false} ParseRows(keys: seq<string>, m: Manifest, more: seq<string>, fields: Manifest)
    requires CleanAt(keys, m)
    ensures ParseLines(Rows(keys, m) + more, true, fields) == ParseLines(more, true, Fill(keys, m, fields))
    decreases |keys|
  {
    if keys == [] {
      assert Rows(keys, m) + more == more;
    } else {
      var value := Get(m, keys[0], "");
      RowRoundTrip(keys[0], value);
      RowIsPlain(keys[0], value);
      var rest := Rows(keys[1..], m) + more;
      assert Rows(keys, m) + more == [Row(keys[0], value)] + rest;
      assert ([Row(keys[0], value)] + rest)[1..] == rest;
      ParseRows(keys[1..], m, more, fields[keys[0] := value]);
    }
  }

  lemma {:induction false} ParseHead(head: seq<string>, more: seq<string>)
    requires forall i :: 0 <= i < |head| ==> !IsHeading(head[i])
    ensures ParseLines(head + more, false, map[]) == ParseLines(more, false, map[])
  {
    if head == [] {
      assert head + more == more;
    } else {
      assert (head + more)[1..] == head[1..] + more;
      ParseHead(head[1..], more);
    }
  }

  lemma {:induction false} ParseOpening(more: seq<string>)
    ensures ParseLines(Opening() + more, false, map[]) == ParseLines(more, true, map[])
  {
    var title, rule := "| field | value |", "|---|---|";
    assert StartsWith(title, "| field") && StartsWith(rule, "|---");
    assert HEADING[0] == '#' && title[0] == '|' && rule[0] == '|';
    assert (Opening() + more)[1..] == ["", title, rule] + more;
    assert (["", title, rule] + more)[1..] == [title, rule] + more;
    assert ([title, rule] + more)[1..] == [rule] + more;
    assert ([rule] + more)[1..] == more;
    assert ParseLines([rule] + more, true, map[]) == ParseLines(more, true, map[]);
    assert ParseLines([title, rule] + more, true, map[]) == ParseLines([rule] + more, true, map[]);
    assert ParseLines(["", title, rule] + more, true, map[]) == ParseLines([title, rule] + more, true, map[]);
  }

  /** The first line of the section behind the table. */
  predicate IsSection(line: string) {
    StartsWith(line, "##") && !IsHeading(line) && !HasBreak(line)
  }

  lemma {:induction false} Assoc(a: seq<string>, b: seq<string>, c: seq<string>)
    ensures (a + b) + c == a + (b + c)
  {
  }

  lemma {:induction false} TableThen(m: Manifest, more: seq<string>)
    ensures Table(m) + more == Opening() + (Rows(FIELDS, m) + ([""] + more))
  {
    Assoc(Opening() + Rows(FIELDS, m), [""], more);
    Assoc(Opening(), Rows(FIELDS, m), [""] + more);
  }

  lemma {:induction false} ParseTable(head: seq<string>, m: Manifest, section: string, rest: seq<string>)
    requires forall i :: 0 <= i < |head| ==> !IsHeading(head[i])
    requires CleanAt(FIELDS, m) && IsSection(section)
    ensures ParseLines(head + (Table(m) + ([section] + rest)), false, map[]) == Shown(m)
  {
    var end := [""] + ([section] + rest);
    ParseHead(head, Table(m) + ([section] + rest));
    TableThen(m, [section] + rest);
    ParseOpening(Rows(FIELDS, m) + end);
    ParseRows(FIELDS, m, end, map[]);
    FilledIsShown(m);
  }

  /** A report: lines before the table, the table, and a further section with whatever follows. */
  function ReportText(head: seq<string>, m: Manifest, section: string, rest: seq<string>): string {
    Join(head + (Table(m) + ([section] + rest)), '\n') + "\n"
  }

  predicate PlainHead(head: seq<string>) {
    NoBreaks(head) && forall i :: 0 <= i < |head| ==> !IsHeading(head[i])
  }

  lemma {:induction false} PrintableHasNoBreak(s: string)
    requires forall i :: 0 <= i < |s| ==> ' ' <= s[i] <= '~'
    ensures !HasBreak(s)
  {
  }

  lemma {:induction false} OpeningHasNoBreak(i: nat)
    requires i < |Opening()|
    ensures !HasBreak(Opening()[i])
  {
    PrintableHasNoBreak(Opening()[i]);
  }

  lemma {:induction false} TableHasNoBreaks(m: Manifest)
    requires CleanAt(FIELDS, m)
    ensures NoBreaks(Table(m))
  {
    forall i | 0 <= i < 4 ensures !HasBreak(Opening()[i]) {
      OpeningHasNoBreak(i);
    }
    forall i | 0 <= i < |FIELDS| ensures !HasBreak(Rows(FIELDS, m)[i]) {
      RowIsPlain(FIELDS[i], Get(m, FIELDS[i], ""));
    }
    NoBreaksAppend(Opening(), Rows(FIELDS, m));
    NoBreaksAppend(Opening() + Rows(FIELDS, m), [""]);
  }

  lemma {:induction false} ReportFirst(head: seq<string>, m: Manifest, section: string, rest: seq<string>)
    ensures head + (Table(m) + ([section] + rest)) == head + (Table(m) + [section]) + rest
  {
    Assoc(Table(m), [section], rest);
    Assoc(head, Table(m) + [section], rest);
  }

  lemma {:induction false} ReportLines(head: seq<string>, m: Manifest, section: string, rest: seq<string>)
    requires PlainHead(head) && CleanAt(FIELDS, m) && IsSection(section)
    ensures SplitLines(ReportText(head, m, section, rest))
         == head + (Table(m) + ([section] + SplitLines(Lines(rest, ""))))
  {
    var first := head + (Table(m) + [section]);
    ReportFirst(head, m, section, rest);
    ReportFirst(head, m, section, SplitLines(Lines(rest, "")));
    TableHasNoBreaks(m);
    NoBreaksAppend(Table(m), [section]);
    NoBreaksAppend(head, Table(m) + [section]);
    SplitJoined(first, rest);
  }

  ghost predicate CleanManifest(m: Manifest) {
    forall k :: k in FIELDS ==> Clean(Get(m, k, ""))
  }

  /**
   * Round trip: reading a written report gives back exactly the eleven fields
   * of its manifest, if and only if every value is free of pipes, line breaks
   * and edge backticks.
   */
  lemma {:induction false} RoundTrip(head: seq<string>, m: Manifest, section: string, rest: seq<string>)
    requires PlainHead(head) && IsSection(section)
    ensures ParseManifest(Some(ReportText(head, m, section, rest))) == Some(Shown(m)) <==> CleanManifest(m)
  {
    var text := Some(ReportText(head, m, section, rest));
    if CleanManifest(m) {
      forall i | 0 <= i < |FIELDS| ensures GoodKey(FIELDS[i]) && Clean(Get(m, FIELDS[i], "")) {
        FieldsAreGood(i);
        assert FIELDS[i] in FIELDS;
      }
      ReportLines(head, m, section, rest);
      ParseTable(head, m, section, SplitLines(Lines(rest, "")));
      assert FIELDS[0] in Shown(m);
    }
    if ParseManifest(text) == Some(Shown(m)) {
      ManifestsAreClean(text);
      forall k | k in FIELDS ensures Clean(Get(m, k, "")) {
        assert k in Shown(m) && Shown(m)[k] == Get(m, k, "");
      }
    }
  }

  // ---- Comparing two manifests ----

  datatype Mismatch = Mismatch(key: string, current: string, baseline: string)

  function MismatchAt(current: Manifest, baseline: Manifest, key: string): seq<Mismatch> {
    var c, b := Get(current, key, "<absent>"), Get(baseline, key, "<absent>");
    if c != b then [Mismatch(key, c, b)] else []
  }

  /** The differing fields among these keys, in their order. */
  function Mismatches(current: Manifest, baseline: Manifest, keys: seq<string>): seq<Mismatch> {
    if keys == [] then []
    else Mismatches(current, baseline, keys[..|keys| - 1]) + MismatchAt(current, baseline, keys[|keys| - 1])
  }

  method CheckProvenanceMatch(current: Manifest, baseline: Manifest) returns (out: seq<Mismatch>)
    ensures out == Mismatches(current, baseline, COMPARED)
  {
    out := [];
    for i := 0 to |COMPARED|
      invariant out == Mismatches(current, baseline, COMPARED[..i])
    {
      var cur, base := Get(current, COMPARED[i], "<absent>"), Get(baseline, COMPARED[i], "<absent>");
      assert COMPARED[..i + 1][..i] == COMPARED[..i];
      if cur != base {
        out := out + [Mismatch(COMPARED[i], cur, base)];
      }
    }
    assert COMPARED[..|COMPARED|] == COMPARED;
  }

  predicate Differs(current: Manifest, baseline: Manifest, key: string) {
    Get(current, key, "<absent>") != Get(baseline, key, "<absent>")
  }

  lemma {:induction false} MismatchesExactly(current: Manifest, baseline: Manifest, keys: seq<string>)
    ensures Mismatches(current, baseline, keys) == [] <==> forall k :: k in keys ==> !Differs(current, baseline, k)
    ensures forall x :: x in Mismatches(current, baseline, keys) ==> x.key in keys && Differs(current, baseline, x.key)
    decreases |keys|
  {
    if keys != [] {
      var front, k := keys[..|keys| - 1], keys[|keys| - 1];
      MismatchesExactly(current, baseline, front);
      assert keys == front + [k];
      assert k in keys && forall j :: j in keys <==> j in front || j == k;
      assert MismatchAt(current, baseline, k) != [] <==> Differs(current, baseline, k);
    }
  }

  ghost predicate Complete(m: Manifest) {
    forall k :: k in FIELDS ==> k in m
  }

  /**
   * End to end: comparing a run with an earlier written report objects exactly
   * when some compared field of the two manifests differs.
   */
  lemma {:induction false} ObjectsExactly(current: Manifest, head: seq<string>, m: Manifest, section: string,
          rest: seq<string>)
    requires Complete(current) && Complete(m) && CleanManifest(m)
    requires PlainHead(head) && IsSection(section)
    ensures var baseline := ParseManifest(Some(ReportText(head, m, section, rest)));
            && baseline.Some?
            && (Mismatches(current, baseline.value, COMPARED) != [] <==>
              exists k :: k in COMPARED && current[k] != m[k])
  {
    RoundTrip(head, m, section, rest);
    MismatchesExactly(current, Shown(m), COMPARED);
    forall k | k in COMPARED ensures k in FIELDS {
      ComparedIsField(k);
    }
    assert forall k :: k in COMPARED ==> (Differs(current, Shown(m), k) <==> current[k] != m[k]);
  }

  lemma {:induction false} ComparedIsField(k: string)
    requires k in COMPARED
    ensures k in FIELDS
  {
    var i :| 0 <= i < |COMPARED| && COMPARED[i] == k;
    assert FIELDS[i] == k;
  }

  lemma {:induction false} AbsentIsClean()
    ensures Clean("<absent>")
  {
    PrintableHasNoBreak("<absent>");
  }

  /** A run whose own compared value is not clean is objected to by every earlier report, its own included. */
  lemma {:induction false} UncleanAlwaysObjected(current: Manifest, text: Option<string>, k: string)
    requires k in COMPARED && k in current && !Clean(current[k])
    requires ParseManifest(text).Some?
    ensures Mismatches(current, ParseManifest(text).value, COMPARED) != []
  {
    var baseline := ParseManifest(text).value;
    ManifestsAreClean(text);
    MismatchesExactly(current, baseline, COMPARED);
    AbsentIsClean();
    assert Differs(current, baseline, k);
  }
}
