/** The model-forward-rule editor: text to rows and passthrough lines, and back. */
module ForwardRules {
  import opened Text

  datatype Row = Row(source: string, target: string)

  datatype Rules = Rules(rows: seq<Row>, passthrough: seq<string>) {
    function Then(next: Rules): Rules {
      Rules(rows + next.rows, passthrough + next.passthrough)
    }
  }

  const NO_RULES := Rules([], [])

  // ---------------------------------------------------------------- parsing

  /** What one line contributes. */
  function ParseLine(line: string): Rules {
    ParseTrimmed(Trim(JavaScript, line))
  }

  function ParseTrimmed(trimmed: string): Rules {
    if trimmed == "" then NO_RULES
    else if StartsWith(trimmed, "#") then Rules([], [trimmed])
    else
      var separator := if Contains(trimmed, "=>") then "=>" else "=";
      var pair := Split(trimmed, separator);
      if |pair| < 2 then Rules([], [trimmed])
      else Rules([Row(Trim(JavaScript, pair[0]), Trim(JavaScript, Join(pair[1..], separator)))], [])
  }

  /** Cuts at every line feed, taking a carriage return before it along. */
  function SplitLines(raw: string): seq<string>
    decreases |raw|
  {
    match Find(raw, "\n")
    case None => [raw]
    case Some(i) => [DropCarriageReturn(raw[..i])] + SplitLines(raw[i + 1..])
  }

  function ParseLines(lines: seq<string>): Rules {
    if lines == [] then NO_RULES else ParseLine(lines[0]).Then(ParseLines(lines[1..]))
  }

  function Parse(raw: string): Rules {
    ParseLines(SplitLines(raw))
  }

  lemma ParseNoLines()
    ensures ParseLines([]) == NO_RULES
  {
  }

  lemma ThenAssociative(a: Rules, b: Rules, c: Rules)
    ensures a.Then(b).Then(c) == a.Then(b.Then(c))
  {
    assert (a.rows + b.rows) + c.rows == a.rows + (b.rows + c.rows);
    assert (a.passthrough + b.passthrough) + c.passthrough == a.passthrough + (b.passthrough + c.passthrough);
  }

  lemma ThenNothing(a: Rules)
    ensures a.Then(NO_RULES) == a && NO_RULES.Then(a) == a
  {
  }

  lemma {:induction false} ParseLinesAppend(a: seq<string>, b: seq<string>)
    ensures ParseLines(a + b) == ParseLines(a).Then(ParseLines(b))
  {
    if a == [] {
      assert a + b == b;
    } else {
      assert (a + b)[1..] == a[1..] + b;
      ParseLinesAppend(a[1..], b);
      ThenAssociative(ParseLine(a[0]), ParseLines(a[1..]), ParseLines(b));
    }
  }

  lemma ParseLinesSnoc(lines: seq<string>, n: nat)
    requires n < |lines|
    ensures ParseLines(lines[..n + 1]) == ParseLines(lines[..n]).Then(ParseLine(lines[n]))
  {
    hide ParseLine;
    ThenNothing(ParseLine(lines[n]));
    assert lines[..n + 1] == lines[..n] + [lines[n]];
    ParseLinesAppend(lines[..n], [lines[n]]);
    assert ParseLines([lines[n]]) == ParseLine(lines[n]).Then(ParseLines([]));
  }

  method ParseModelForwardRuleRows(raw: string) returns (rows: seq<Row>, passthroughLines: seq<string>)
    ensures Rules(rows, passthroughLines) == Parse(raw)
  {
    hide Trim, Split, Join, Contains, ParseLines;
    rows, passthroughLines := [], [];
    ParseNoLines();
    var lines := SplitLines(raw);
    for n := 0 to |lines|
      invariant Rules(rows, passthroughLines) == ParseLines(lines[..n])
    {
      ParseLinesSnoc(lines, n);
      var trimmed := Trim(JavaScript, lines[n]);
      if trimmed == "" {
        continue;
      }
      if StartsWith(trimmed, "#") {
        passthroughLines := passthroughLines + [trimmed];
        continue;
      }
      var pair := if Contains(trimmed, "=>") then Split(trimmed, "=>") else Split(trimmed, "=");
      if |pair| < 2 {
        passthroughLines := passthroughLines + [trimmed];
        continue;
      }
      var target := Join(pair[1..], if Contains(trimmed, "=>") then "=>" else "=");
      rows := rows + [Row(Trim(JavaScript, pair[0]), Trim(JavaScript, target))];
    }
    assert lines[..|lines|] == lines;
  }

  // --------------------------------------------------------------- printing

  function PrintRow(row: Row): string {
    row.source + "=" + row.target
  }

  /** Rows with an empty side are not printed. */
  function RowLines(rows: seq<Row>): seq<string> {
    if rows == [] then []
    else
      var row := Row(Trim(JavaScript, rows[0].source), Trim(JavaScript, rows[0].target));
      (if row.source != "" && row.target != "" then [PrintRow(row)] else []) + RowLines(rows[1..])
  }

  function NonBlank(lines: seq<string>): seq<string> {
    if lines == [] then []
    else
      var line := Trim(JavaScript, lines[0]);
      (if line != "" then [line] else []) + NonBlank(lines[1..])
  }

  function PrintedLines(rules: Rules): seq<string> {
    NonBlank(rules.passthrough) + RowLines(rules.rows)
  }

  function Serialize(rules: Rules): string {
    Join(PrintedLines(rules), "\n")
  }

  // ------------------------------------------------- what the parser returns

  predicate CleanRow(row: Row) {
    && Trimmed(JavaScript, row.source) && Trimmed(JavaScript, row.target)
    && LineFree(row.source) && LineFree(row.target)
  }

  predicate CommentOrPlain(line: string) {
    && line != "" && Trimmed(JavaScript, line) && LineFree(line)
    && (StartsWith(line, "#") || '=' !in line)
  }

  predicate CleanRows(rows: seq<Row>) {
    forall k :: 0 <= k < |rows| ==> CleanRow(rows[k]) && !StartsWith(rows[k].source, "#")
  }

  predicate CommentsOrPlain(lines: seq<string>) {
    forall k :: 0 <= k < |lines| ==> CommentOrPlain(lines[k])
  }

  predicate Clean(rules: Rules) {
    CleanRows(rules.rows) && CommentsOrPlain(rules.passthrough)
  }

  function Separator(trimmed: string): string {
    if Contains(trimmed, "=>") then "=>" else "="
  }

  predicate IsRule(trimmed: string) {
    trimmed != "" && trimmed[0] != '#' && '=' in trimmed
  }

  lemma ArrowHasEquals(s: string)
    ensures Contains(s, "=>") ==> var i := Find(s, "=>").value; i + 1 < |s| && s[i] == '=' && s[i + 1] == '>'
  {
    if Contains(s, "=>") {
      var i := Find(s, "=>").value;
      assert s[i] == s[i..i + 2][0] && s[i + 1] == s[i..i + 2][1];
    }
  }

  lemma StartsWithChar(s: string, c: char)
    ensures StartsWith(s, [c]) <==> s != "" && s[0] == c
  {
  }

  /** A rule line is cut at its first separator. */
  lemma RuleCut(t: string)
    requires IsRule(t)
    ensures Contains(t, Separator(t))
    ensures var i := Find(t, Separator(t)).value;
            ParseTrimmed(t) == Rules([Row(Trim(JavaScript, t[..i]), Trim(JavaScript, t[i + |Separator(t)|..]))], [])
  {
    FindChar(t, '=');
    SplitHeadTail(t, Separator(t));
    StartsWithChar(t, '#');
  }

  lemma NonRuleKept(t: string)
    requires t != "" && !IsRule(t)
    ensures ParseTrimmed(t) == Rules([], [t])
  {
    FindChar(t, '=');
    ArrowHasEquals(t);
    SplitHeadTail(t, "=");
    StartsWithChar(t, '#');
  }

  lemma BlankLine(t: string)
    requires t == ""
    ensures ParseTrimmed(t) == NO_RULES
  {
  }

  lemma CutRowClean(t: string, i: nat, j: nat)
    requires LineFree(t) && Trimmed(JavaScript, t) && t != "" && t[0] != '#'
    requires i <= |t| && j <= |t|
    ensures CleanRows([Row(Trim(JavaScript, t[..i]), Trim(JavaScript, t[j..]))])
  {
    hide TrimStart, TrimEnd;
    var source, target := Trim(JavaScript, t[..i]), Trim(JavaScript, t[j..]);
    TrimMembers(JavaScript, t[..i]);
    TrimMembers(JavaScript, t[j..]);
    assert LineFree(t[..i]) && LineFree(t[j..]);
    assert CleanRow(Row(source, target));
    StartsWithChar(source, '#');
    if i > 0 { TrimKeeps(JavaScript, t[..i], 0); }
  }

  lemma ParseTrimmedClean(t: string)
    requires LineFree(t) && Trimmed(JavaScript, t)
    ensures Clean(ParseTrimmed(t))
  {
    hide ParseTrimmed, Trim, FindFrom, Contains, CleanRow, StartsWith;
    if t == "" {
      BlankLine(t);
    } else if IsRule(t) {
      RuleCut(t);
      var i := Find(t, Separator(t)).value;
      CutRowClean(t, i, i + |Separator(t)|);
    } else {
      NonRuleKept(t);
      StartsWithChar(t, '#');
    }
  }

  lemma {:induction false} SplitLinesFree(raw: string)
    ensures forall k :: 0 <= k < |SplitLines(raw)| ==> LineFree(SplitLines(raw)[k])
    decreases |raw|
  {
    FindChar(raw, '\n');
    match Find(raw, "\n")
    case None =>
    case Some(i) => SplitLinesFree(raw[i + 1..]);
  }

  lemma {:induction false} ParseLinesClean(lines: seq<string>)
    requires forall k :: 0 <= k < |lines| ==> LineFree(lines[k])
    ensures Clean(ParseLines(lines))
  {
    if lines != [] {
      TrimMembers(JavaScript, lines[0]);
      ParseTrimmedClean(Trim(JavaScript, lines[0]));
      ParseLinesClean(lines[1..]);
    }
  }

  /** Whatever the text, the parser returns trimmed one-line pieces, and no source is a comment. */
  lemma ParseClean(raw: string)
    ensures Clean(Parse(raw))
  {
    SplitLinesFree(raw);
    ParseLinesClean(SplitLines(raw));
  }

  // ------------------------------------------------ printed text splits back

  predicate SolidLine(line: string) {
    line != "" && Trimmed(JavaScript, line) && LineFree(line)
  }

  lemma SolidLineTrimmed(line: string)
    requires SolidLine(line)
    ensures Trim(JavaScript, line) == line
  {
  }

  predicate SolidLines(lines: seq<string>) {
    forall k :: 0 <= k < |lines| ==> SolidLine(lines[k])
  }

  lemma {:induction false} SplitLinesOfJoin(lines: seq<string>)
    requires lines != [] && SolidLines(lines)
    ensures SplitLines(Join(lines, "\n")) == lines
  {
    var raw := Join(lines, "\n");
    FindChar(raw, '\n');
    assert SolidLine(lines[0]);
    if |lines| > 1 {
      var i := |lines[0]|;
      assert raw[..i] == lines[0];
      FindCharIs(raw, '\n', i);
      assert raw[i + 1..] == Join(lines[1..], "\n");
      SplitLinesOfJoin(lines[1..]);
      assert lines == [lines[0]] + lines[1..];
    }
  }

  /** Parsing printed lines is parsing them one by one. */
  lemma ParsePrinted(lines: seq<string>)
    requires SolidLines(lines)
    ensures Parse(Join(lines, "\n")) == ParseLines(lines)
  {
    if lines == [] {
      FindChar("", '\n');
      assert SplitLines("") == [""];
      ThenNothing(ParseLine(""));
    } else {
      SplitLinesOfJoin(lines);
    }
  }

  lemma {:induction false} NonBlankSolid(lines: seq<string>)
    requires SolidLines(lines)
    ensures NonBlank(lines) == lines
  {
    if lines != [] {
      assert SolidLine(lines[0]);
      NonBlankSolid(lines[1..]);
    }
  }

  lemma PassthroughKept(line: string)
    requires CommentOrPlain(line)
    ensures ParseLine(line) == Rules([], [line])
  {
    NonRuleKept(line);
  }

  lemma {:induction false} ParsePassthrough(lines: seq<string>)
    requires CommentsOrPlain(lines)
    ensures ParseLines(lines) == Rules([], lines)
  {
    hide ParseTrimmed, TrimStart, TrimEnd, CommentOrPlain;
    if lines != [] {
      PassthroughKept(lines[0]);
      ParsePassthrough(lines[1..]);
      assert lines == [lines[0]] + lines[1..];
    }
  }

  lemma PrintRowSolid(row: Row)
    requires CleanRow(row) && row.source != "" && row.target != ""
    ensures SolidLine(PrintRow(row))
    ensures PrintRow(row)[|row.source|] == '='
    ensures PrintRow(row)[..|row.source|] == row.source && PrintRow(row)[|row.source| + 1..] == row.target
  {
    assert PrintRow(row)[0] == row.source[0];
  }

  function PrintedRow(row: Row): seq<string> {
    if row.source != "" && row.target != "" then [PrintRow(row)] else []
  }

  lemma RowLinesCons(rows: seq<Row>)
    requires rows != [] && CleanRow(rows[0])
    ensures RowLines(rows) == PrintedRow(rows[0]) + RowLines(rows[1..])
  {
    hide Trim;
    assert Row(Trim(JavaScript, rows[0].source), Trim(JavaScript, rows[0].target)) == rows[0];
  }

  lemma {:induction false} RowLinesSolid(rows: seq<Row>)
    requires forall k :: 0 <= k < |rows| ==> CleanRow(rows[k])
    ensures SolidLines(RowLines(rows))
  {
    hide PrintRow, SolidLine, CleanRow, Trim;
    if rows != [] {
      RowLinesCons(rows);
      if rows[0].source != "" && rows[0].target != "" { PrintRowSolid(rows[0]); }
      RowLinesSolid(rows[1..]);
    }
  }

  /** Reading back a printed set of rules: the passthrough lines, and then whatever the row lines give. */
  lemma ParseSerialized(rules: Rules)
    requires forall k :: 0 <= k < |rules.rows| ==> CleanRow(rules.rows[k])
    requires CommentsOrPlain(rules.passthrough)
    ensures PrintedLines(rules) == rules.passthrough + RowLines(rules.rows)
    ensures Parse(Serialize(rules)) == Rules([], rules.passthrough).Then(ParseLines(RowLines(rules.rows)))
  {
    hide ParseLines, Parse, RowLines, NonBlank, SplitLines, Join;
    NonBlankSolid(rules.passthrough);
    RowLinesSolid(rules.rows);
    ParsePrinted(PrintedLines(rules));
    ParseLinesAppend(rules.passthrough, RowLines(rules.rows));
    ParsePassthrough(rules.passthrough);
  }

  // ------------------------------------------------------ exact round trip

  /** Rows the printed form can carry. */
  predicate PrintableRow(row: Row) {
    && CleanRow(row) && row.source != "" && row.target != ""
    && '=' !in row.source && row.source[0] != '#'
    && !Contains(row.target, "=>") && row.target[0] != '>'
  }

  predicate Printable(rules: Rules) {
    && (forall k :: 0 <= k < |rules.rows| ==> PrintableRow(rules.rows[k]))
    && CommentsOrPlain(rules.passthrough)
  }

  predicate ArrowAt(s: string, i: nat) {
    i + 1 < |s| && s[i] == '=' && s[i + 1] == '>'
  }

  lemma ContainsArrow(s: string)
    ensures Contains(s, "=>") <==> exists i: nat :: ArrowAt(s, i)
  {
    forall i: nat ensures At(s, "=>", i) <==> ArrowAt(s, i) {
      AtPair(s, '=', '>', i);
    }
  }

  /** Where an arrow of a printed row can lie. */
  lemma ArrowInRow(row: Row)
    requires row.target != "" && !Contains(row.source, "=>")
    ensures Contains(PrintRow(row), "=>") <==> Contains(row.target, "=>") || row.target[0] == '>'
  {
    hide Contains;
    var line, target, n := PrintRow(row), row.target, |row.source|;
    ContainsArrow(line);
    ContainsArrow(target);
    ContainsArrow(row.source);
    assert line[..n] == row.source && line[n] == '=' && line[n + 1..] == target;
    forall i: nat ensures ArrowAt(line, n + 1 + i) <==> ArrowAt(target, i) {}
    assert ArrowAt(line, n) <==> target[0] == '>';
    forall i: nat | i < n ensures !ArrowAt(line, i) {
      assert line[i] == row.source[i];
      if i + 1 < n { assert line[i + 1] == row.source[i + 1]; assert !ArrowAt(row.source, i); }
    }
    if i: nat :| ArrowAt(line, i) {
      if i > n { assert ArrowAt(target, i - n - 1); }
    }
  }

  lemma NoEqualsNoArrow(s: string)
    requires '=' !in s
    ensures !Contains(s, "=>")
  {
    ArrowHasEquals(s);
  }

  lemma PrintableRowReturns(row: Row)
    requires PrintableRow(row)
    ensures ParseLine(PrintRow(row)) == Rules([row], [])
  {
    hide ParseTrimmed, FindFrom, Contains, Trim, StartsWith;
    PrintRowSolid(row);
    NoEqualsNoArrow(row.source);
    ArrowInRow(row);
    FindCharIs(PrintRow(row), '=', |row.source|);
    TrimExact(row.source);
    TrimExact(row.target);
    SolidLineTrimmed(PrintRow(row));
    RuleCut(PrintRow(row));
  }

  /** If a printed row reads back as itself, it was cut at the sign the printer put there. */
  lemma ReturnedRowCut(row: Row)
    requires CleanRow(row) && row.source != "" && row.target != ""
    requires ParseLine(PrintRow(row)) == Rules([row], [])
    ensures IsRule(PrintRow(row)) && Separator(PrintRow(row)) == "="
    ensures Find(PrintRow(row), "=") == Some(|row.source|)
  {
    hide ParseTrimmed, FindFrom, Contains, Trim;
    var line, n := PrintRow(row), |row.source|;
    PrintRowSolid(row);
    assert ParseTrimmed(line).rows[0] == row;
    assert IsRule(line) by { if !IsRule(line) { NonRuleKept(line); } }
    RuleCut(line);
    var sep := Separator(line);
    var i := Find(line, sep).value;
    assert Trim(JavaScript, line[..i]) == row.source;
    assert Trim(JavaScript, line[i + |sep|..]) == row.target;
    TrimPrefixKeeps(JavaScript, line, i, n);
  }

  lemma ReturnedRowPrintable(row: Row)
    requires CleanRow(row) && row.source != "" && row.target != ""
    requires ParseLine(PrintRow(row)) == Rules([row], [])
    ensures PrintableRow(row)
  {
    ReturnedRowCut(row);
    PrintRowSolid(row);
    FindChar(PrintRow(row), '=');
    NoEqualsNoArrow(row.source);
    ArrowInRow(row);
  }

  /** A row line gives at most one row. */
  lemma ParseLineSmall(line: string)
    ensures |ParseLine(line).rows| + |ParseLine(line).passthrough| <= 1
  {
    var t := Trim(JavaScript, line);
    if IsRule(t) { RuleCut(t); } else if t != "" { NonRuleKept(t); }
  }

  lemma {:induction false} ParseLinesSmall(lines: seq<string>)
    ensures |ParseLines(lines).rows| <= |lines|
  {
    hide ParseLine;
    if lines != [] {
      ParseLineSmall(lines[0]);
      ParseLinesSmall(lines[1..]);
    }
  }

  lemma {:induction false} RowLinesSmall(rows: seq<Row>)
    ensures |RowLines(rows)| <= |rows|
  {
    hide Trim, PrintRow;
    if rows != [] { RowLinesSmall(rows[1..]); }
  }

  lemma RowRoundTrip(row: Row)
    requires CleanRow(row) && row.source != "" && row.target != ""
    ensures ParseLine(PrintRow(row)) == Rules([row], []) <==> PrintableRow(row)
  {
    hide ParseLine, PrintableRow, PrintRow;
    if PrintableRow(row) { PrintableRowReturns(row); }
    if ParseLine(PrintRow(row)) == Rules([row], []) { ReturnedRowPrintable(row); }
  }

  lemma ParseRowLinesCons(rows: seq<Row>)
    requires rows != [] && CleanRow(rows[0])
    ensures var row, rest := rows[0], ParseLines(RowLines(rows[1..]));
            ParseLines(RowLines(rows)) ==
              if row.source != "" && row.target != "" then ParseLine(PrintRow(row)).Then(rest) else rest
  {
    hide Trim, PrintRow, CleanRow, ParseLine, ParseLines, RowLines;
    RowLinesCons(rows);
    var row, rest := rows[0], RowLines(rows[1..]);
    if row.source != "" && row.target != "" {
      ParseLinesOne(PrintRow(row), rest);
    } else {
      assert [] + rest == rest;
    }
  }

  lemma ParseLinesOne(line: string, rest: seq<string>)
    ensures ParseLines([line] + rest) == ParseLine(line).Then(ParseLines(rest))
  {
    hide ParseLine;
    assert ([line] + rest)[1..] == rest;
  }

  lemma {:induction false} RowsRoundTrip(rows: seq<Row>)
    requires forall k :: 0 <= k < |rows| ==> CleanRow(rows[k])
    ensures ParseLines(RowLines(rows)) == Rules(rows, []) <==> forall k :: 0 <= k < |rows| ==> PrintableRow(rows[k])
  {
    hide Trim, PrintRow, CleanRow, ParseLine, RowLines;
    if rows == [] {
      hide *;
      RowLinesSmall(rows);
      assert RowLines(rows) == [];
      ParseNoLines();
    } else {
      var row, rest := rows[0], ParseLines(RowLines(rows[1..]));
      ParseRowLinesCons(rows);
      RowsRoundTrip(rows[1..]);
      RowLinesSmall(rows[1..]);
      ParseLinesSmall(RowLines(rows[1..]));
      if row.source != "" && row.target != "" {
        RowRoundTrip(row);
        ParseLineSmall(PrintRow(row));
        ConsExact(ParseLine(PrintRow(row)), rest, row, rows[1..]);
      }
      assert (forall k :: 0 <= k < |rows| ==> PrintableRow(rows[k])) <==>
             PrintableRow(row) && forall k :: 0 <= k < |rows[1..]| ==> PrintableRow(rows[1..][k]);
    }
  }

  lemma ConsExact(first: Rules, rest: Rules, row: Row, rows: seq<Row>)
    requires |first.rows| + |first.passthrough| <= 1 && |rest.rows| <= |rows|
    ensures first.Then(rest) == Rules([row] + rows, []) <==> first == Rules([row], []) && rest == Rules(rows, [])
  {
    if first.Then(rest) == Rules([row] + rows, []) {
      assert |first.rows| == 1;
      assert first.rows[0] == first.Then(rest).rows[0];
      assert rest.rows == first.Then(rest).rows[1..];
    }
  }

  /**
   * The exact round trip, for every table of rows and every list of passthrough lines: printing
   * and parsing gives the same rules back precisely when each piece is one the text form can carry.
   */
  lemma RoundTrip(rules: Rules)
    ensures Parse(Serialize(rules)) == rules <==> Printable(rules)
  {
    hide ParseLines, RowLines, Serialize, PrintableRow, CommentOrPlain, CleanRow;
    ParseClean(Serialize(rules));
    var rows, passthrough := rules.rows, rules.passthrough;
    if CommentsOrPlain(passthrough) && forall k :: 0 <= k < |rows| ==> CleanRow(rows[k]) {
      ParseSerialized(rules);
      RowsRoundTrip(rows);
      var rest := ParseLines(RowLines(rows));
      assert Rules([], passthrough).Then(rest) == rules ==> rest.rows == rows && |rest.passthrough| == 0;
      ThenNothing(Rules(rows, passthrough));
    } else {
      forall k | 0 <= k < |rows| && PrintableRow(rows[k]) ensures CleanRow(rows[k]) { PrintableIsClean(rows[k]); }
    }
  }

  lemma PrintableIsClean(row: Row)
    requires PrintableRow(row)
    ensures CleanRow(row)
  {
  }

  // ------------------------------------------------------------ convergence

  /** One round of reading the stored text into the editor and storing it again. */
  function Normalize(raw: string): string {
    Serialize(Parse(raw))
  }

  function Normalized(n: nat, raw: string): string {
    if n == 0 then raw else Normalize(Normalized(n - 1, raw))
  }

  /** Length of the text the lines make up, counting one line feed each. */
  function Cost(lines: seq<string>): nat {
    if lines == [] then 0 else |lines[0]| + 1 + Cost(lines[1..])
  }

  lemma {:induction false} CostAppend(a: seq<string>, b: seq<string>)
    ensures Cost(a + b) == Cost(a) + Cost(b)
  {
    if a == [] {
      assert a + b == b;
    } else {
      assert (a + b)[1..] == a[1..] + b;
      CostAppend(a[1..], b);
    }
  }

  lemma {:induction false} JoinCost(lines: seq<string>)
    ensures lines != [] ==> |Join(lines, "\n")| + 1 == Cost(lines)
  {
    if |lines| > 1 { JoinCost(lines[1..]); }
  }

  lemma {:induction false} SplitLinesCost(raw: string)
    ensures Cost(SplitLines(raw)) <= |raw| + 1
    decreases |raw|
  {
    FindChar(raw, '\n');
    match Find(raw, "\n")
    case None =>
    case Some(i) =>
      SplitLinesCost(raw[i + 1..]);
      CostAppend([DropCarriageReturn(raw[..i])], SplitLines(raw[i + 1..]));
  }

  predicate RuleLines(lines: seq<string>) {
    forall k :: 0 <= k < |lines| ==> SolidLine(lines[k]) && IsRule(lines[k])
  }

  lemma PrintRowIsRule(row: Row)
    requires CleanRow(row) && row.source != "" && row.target != "" && row.source[0] != '#'
    ensures SolidLine(PrintRow(row)) && IsRule(PrintRow(row))
  {
    PrintRowSolid(row);
    assert PrintRow(row)[0] == row.source[0];
  }

  lemma {:induction false} RowLinesAreRules(rows: seq<Row>)
    requires CleanRows(rows)
    ensures RuleLines(RowLines(rows))
  {
    hide PrintRow, CleanRow, Trim, SolidLine, IsRule;
    if rows != [] {
      RowLinesCons(rows);
      StartsWithChar(rows[0].source, '#');
      if rows[0].source != "" && rows[0].target != "" { PrintRowIsRule(rows[0]); }
      RowLinesAreRules(rows[1..]);
    }
  }

  lemma Glue(t: string, i: nat)
    requires i < |t| && t[i] == '='
    ensures PrintRow(Row(t[..i], t[i + 1..])) == t
  {
  }

  lemma PrintLength(row: Row)
    ensures |PrintRow(row)| == |row.source| + 1 + |row.target|
  {
  }

  lemma PrintCut(t: string, i: nat, width: nat)
    requires 1 <= width && i + width <= |t| && t[i] == '='
    ensures var row := Row(Trim(JavaScript, t[..i]), Trim(JavaScript, t[i + width..]));
            PrintRow(row) == t || |PrintRow(row)| < |t|
  {
    hide Trim, PrintRow;
    var row := Row(Trim(JavaScript, t[..i]), Trim(JavaScript, t[i + width..]));
    PrintLength(row);
    if |PrintRow(row)| >= |t| {
      TrimSameLength(JavaScript, t[..i]);
      TrimSameLength(JavaScript, t[i + width..]);
      Glue(t, i);
    }
  }

  /** Reading and printing one rule line drops it, keeps it, or makes it shorter. */
  lemma ReprintLine(t: string) returns (row: Row)
    requires SolidLine(t) && IsRule(t)
    ensures ParseTrimmed(t) == Rules([row], []) && CleanRows([row])
    ensures PrintedRow(row) == [t] || Cost(PrintedRow(row)) < |t| + 1
  {
    hide ParseTrimmed, Trim, FindFrom, Contains, CleanRow, PrintRow;
    RuleCut(t);
    FindChar(t, '=');
    ArrowHasEquals(t);
    var i, width := Find(t, Separator(t)).value, |Separator(t)|;
    row := Row(Trim(JavaScript, t[..i]), Trim(JavaScript, t[i + width..]));
    CutRowClean(t, i, i + width);
    PrintCut(t, i, width);
  }

  lemma PrependRow(row: Row, rest: seq<Row>)
    requires CleanRows([row])
    ensures RowLines([row] + rest) == PrintedRow(row) + RowLines(rest)
    ensures Cost(RowLines([row] + rest)) == Cost(PrintedRow(row)) + Cost(RowLines(rest))
    ensures CleanRows(rest) ==> CleanRows([row] + rest)
  {
    hide CleanRow, PrintedRow, RowLines, Cost, StartsWith;
    assert CleanRow([row][0]);
    assert ([row] + rest)[1..] == rest;
    RowLinesCons([row] + rest);
    CostAppend(PrintedRow(row), RowLines(rest));
  }

  lemma {:induction false} ReprintRules(lines: seq<string>)
    requires RuleLines(lines)
    ensures ParseLines(lines).passthrough == [] && CleanRows(ParseLines(lines).rows)
    ensures RowLines(ParseLines(lines).rows) == lines || Cost(RowLines(ParseLines(lines).rows)) < Cost(lines)
  {
    hide SolidLine, IsRule, CleanRow, RowLines, PrintRow, ParseTrimmed, Trim;
    if lines == [] {
      RowLinesSmall([]);
    } else {
      SolidLineTrimmed(lines[0]);
      var row := ReprintLine(lines[0]);
      var rest := ParseLines(lines[1..]).rows;
      ReprintRules(lines[1..]);
      assert ParseLines(lines).rows == [row] + rest;
      PrependRow(row, rest);
      CostAppend([lines[0]], lines[1..]);
      assert [lines[0]] + lines[1..] == lines;
    }
  }

  /** What one more round makes of a text the printer wrote. */
  lemma RoundFromPrinted(rules: Rules)
    requires Clean(rules)
    ensures Parse(Serialize(rules)).passthrough == rules.passthrough
    ensures Normalize(Serialize(rules)) == Serialize(rules) || |Normalize(Serialize(rules))| < |Serialize(rules)|
    ensures Normalize(Serialize(rules)) == Serialize(rules) <==> AllSettled(RowLines(rules.rows))
  {
    hide CleanRow, CommentOrPlain, Parse, ParseLines, RowLines, Join, SolidLine, IsRule, NonBlank, StartsWith,
         AllSettled;
    var lines := RowLines(rules.rows);
    ParseSerialized(rules);
    RowLinesAreRules(rules.rows);
    ReprintRules(lines);
    ReprintAllExact(lines);
    var next := Rules(ParseLines(lines).rows, rules.passthrough);
    assert Parse(Serialize(rules)) == next;
    ParseSerialized(next);
    var was, now := rules.passthrough + lines, rules.passthrough + RowLines(next.rows);
    if RowLines(next.rows) != lines {
      CostAppend(rules.passthrough, lines);
      CostAppend(rules.passthrough, RowLines(next.rows));
      JoinCost(was);
      JoinCost(now);
      SolidCost(lines);
      JoinNothing();
    }
  }

  lemma SolidCost(lines: seq<string>)
    requires RuleLines(lines)
    ensures lines != [] ==> Cost(lines) >= 2
  {
    if lines != [] { assert SolidLine(lines[0]); }
  }

  lemma TrimSolid(line: string)
    requires LineFree(line)
    ensures Trim(JavaScript, line) == "" || SolidLine(Trim(JavaScript, line))
  {
    TrimMembers(JavaScript, line);
  }

  lemma {:induction false} PrintedCost(lines: seq<string>)
    requires forall k :: 0 <= k < |lines| ==> LineFree(lines[k])
    ensures Cost(ParseLines(lines).passthrough) + Cost(RowLines(ParseLines(lines).rows)) <= Cost(lines)
  {
    hide ParseTrimmed, Trim, PrintRow, RowLines, CleanRow, SolidLine, IsRule;
    if lines == [] {
      RowLinesSmall([]);
    } else {
      var t, rest := Trim(JavaScript, lines[0]), ParseLines(lines[1..]);
      PrintedCost(lines[1..]);
      TrimSolid(lines[0]);
      if t == "" {
        assert ParseTrimmed(t) == NO_RULES by { BlankLine(t); }
        ThenNothing(rest);
      } else if IsRule(t) {
        var row := ReprintLine(t);
        PrependRow(row, rest.rows);
        assert [] + rest.passthrough == rest.passthrough;
      } else {
        NonRuleKept(t);
        CostAppend([t], rest.passthrough);
        assert [] + rest.rows == rest.rows;
      }
    }
  }

  /** No round ever makes the text longer. */
  lemma NormalizeShrinks(raw: string)
    ensures |Normalize(raw)| <= |raw|
  {
    hide CleanRow, CommentOrPlain, ParseLines, RowLines, Join, SplitLines, NonBlank, StartsWith;
    var lines := SplitLines(raw);
    var rules := ParseLines(lines);
    SplitLinesFree(raw);
    SplitLinesCost(raw);
    ParseClean(raw);
    ParseSerialized(rules);
    PrintedCost(lines);
    CostAppend(rules.passthrough, RowLines(rules.rows));
    JoinCost(PrintedLines(rules));
    JoinNothing();
  }

  lemma JoinNothing()
    ensures Join([], "\n") == ""
  {
  }

  /** From the second round on, a round changes nothing or shortens the text, and it keeps every passthrough line. */
  lemma RoundShortens(raw: string)
    ensures var text := Normalize(raw);
            (Normalize(text) == text || |Normalize(text)| < |text|) && Parse(text).passthrough == Parse(raw).passthrough
  {
    hide Parse, Serialize;
    ParseClean(raw);
    RoundFromPrinted(Parse(raw));
  }

  lemma {:induction false} NormalizedReaches(raw: string, bound: nat) returns (n: nat)
    requires |Normalize(raw)| <= bound
    ensures n <= bound && Normalize(Normalized(n + 1, raw)) == Normalized(n + 1, raw)
    decreases bound
  {
    hide Normalize;
    RoundShortens(raw);
    var text := Normalize(raw);
    if Normalize(text) == text {
      n := 0;
      assert Normalized(1, raw) == Normalize(Normalized(0, raw));
    } else {
      n := NormalizedReaches(text, bound - 1);
      NormalizedShift(n + 1, raw);
      n := n + 1;
    }
  }

  lemma {:induction false} NormalizedShift(n: nat, raw: string)
    ensures Normalized(n, Normalize(raw)) == Normalized(n + 1, raw)
  {
    hide Normalize;
    if n > 0 { NormalizedShift(n - 1, raw); }
  }

  /** Storing and reloading settles: some round number up to the text's length plus one is a fixed point. */
  lemma Converges(raw: string)
    ensures exists n: nat :: n <= |raw| + 1 && Normalize(Normalized(n, raw)) == Normalized(n, raw)
  {
    hide Normalize, Normalized;
    NormalizeShrinks(raw);
    var n := NormalizedReaches(raw, |raw|);
    assert n + 1 <= |raw| + 1;
  }

  /** Every round keeps all comment and passthrough lines, in their order. */
  lemma {:induction false} PassthroughSurvives(n: nat, raw: string)
    ensures Parse(Normalized(n, raw)).passthrough == Parse(raw).passthrough
  {
    hide Normalize, Parse;
    if n > 0 {
      PassthroughSurvives(n - 1, raw);
      RoundShortens(Normalized(n - 1, raw));
    }
  }

  // ---------------------------------------------------------- fixed points

  /** A rule line the editor leaves alone: no arrow, and no blanks or nothing at all around its first `=`. */
  predicate Settled(t: string) {
    SolidLine(t) && IsRule(t) && !Contains(t, "=>") &&
    Find(t, "=").Some? &&
    var i := Find(t, "=").value;
    t[..i] != "" && t[i + 1..] != "" && Trimmed(JavaScript, t[..i]) && Trimmed(JavaScript, t[i + 1..])
  }

  lemma TrimExact(s: string)
    ensures |Trim(JavaScript, s)| <= |s|
    ensures |Trim(JavaScript, s)| == |s| ==> Trim(JavaScript, s) == s
    ensures Trim(JavaScript, s) == s <==> Trimmed(JavaScript, s)
  {
    if |Trim(JavaScript, s)| == |s| { TrimSameLength(JavaScript, s); }
  }

  /** A rule line is read and printed unchanged exactly if it is settled. */
  lemma ReprintExact(t: string) returns (row: Row)
    requires SolidLine(t) && IsRule(t)
    ensures ParseTrimmed(t) == Rules([row], []) && CleanRows([row])
    ensures PrintedRow(row) == [t] <==> Settled(t)
  {
    hide ParseTrimmed, Trim, Trimmed, FindFrom, Contains, CleanRow, PrintRow, SolidLine;
    row := ReprintLine(t);
    RuleCut(t);
    FindChar(t, '=');
    ArrowHasEquals(t);
    var i, width := Find(t, Separator(t)).value, |Separator(t)|;
    assert row == Row(Trim(JavaScript, t[..i]), Trim(JavaScript, t[i + width..])) by {
      assert Rules([row], []).rows[0] == row;
    }
    TrimExact(t[..i]);
    TrimExact(t[i + width..]);
    PrintLength(row);
    Glue(t, i);
  }

  predicate AllSettled(lines: seq<string>) {
    forall k :: 0 <= k < |lines| ==> Settled(lines[k])
  }

  lemma SettledCons(lines: seq<string>)
    requires lines != []
    ensures AllSettled(lines) <==> Settled(lines[0]) && AllSettled(lines[1..])
  {
    hide Settled;
    assert lines == [lines[0]] + lines[1..];
  }

  lemma {:induction false} ReprintAllExact(lines: seq<string>)
    requires RuleLines(lines)
    ensures RowLines(ParseLines(lines).rows) == lines <==> AllSettled(lines)
  {
    hide SolidLine, IsRule, CleanRow, RowLines, PrintRow, ParseTrimmed, Trim, Settled, AllSettled, PrintedRow,
         StartsWith;
    if lines == [] {
      RowLinesSmall([]);
      NoneSettled();
    } else {
      var t, rest := lines[0], ParseLines(lines[1..]).rows;
      SolidLineTrimmed(t);
      var row := ReprintExact(t);
      PrintedRowCost(t, row);
      ReprintAllExact(lines[1..]);
      ReprintRules(lines[1..]);
      SettledCons(lines);
      assert ParseLines(lines).rows == [row] + rest;
      PrependRow(row, rest);
      CostAppend([t], lines[1..]);
      assert [t] + lines[1..] == lines;
      if PrintedRow(row) == [t] {
        assert RowLines([row] + rest)[1..] == RowLines(rest);
      }
    }
  }

  lemma NoneSettled()
    ensures AllSettled([])
  {
  }

  lemma PrintedRowCost(t: string, row: Row)
    requires SolidLine(t) && IsRule(t) && ParseTrimmed(t) == Rules([row], [])
    ensures PrintedRow(row) == [t] || Cost(PrintedRow(row)) < |t| + 1
  {
    hide ParseTrimmed, SolidLine, IsRule, PrintedRow, CleanRow;
    var same := ReprintLine(t);
    assert Rules([row], []).rows[0] == Rules([same], []).rows[0];
  }

  /** Comment and plain lines first, then settled rule lines. */
  ghost predicate LaidOut(raw: string, comments: seq<string>, lines: seq<string>) {
    raw == Join(comments + lines, "\n") && CommentsOrPlain(comments) && AllSettled(lines)
  }

  /**
   * The fixed points of reading and storing, exactly: texts of comment and plain lines followed by
   * settled rule lines, and no others.
   */
  lemma FixedPoints(raw: string)
    ensures Normalize(raw) == raw <==> exists comments, lines :: LaidOut(raw, comments, lines)
  {
    hide ParseLines, Parse, RowLines, CleanRow, CommentOrPlain, Settled, Join, IsRule, SolidLine;
    if Normalize(raw) == raw {
      var rules := Parse(raw);
      var lines := RowLines(rules.rows);
      ParseClean(raw);
      ParseSerialized(rules);
      RowLinesAreRules(rules.rows);
      ReprintRules(lines);
      assert ParseLines(lines).rows == rules.rows;
      ReprintAllExact(lines);
      assert LaidOut(raw, rules.passthrough, lines);
    }
    if comments, lines :| LaidOut(raw, comments, lines) {
      LaidOutStays(raw, comments, lines);
    }
  }

  lemma LaidOutStays(raw: string, comments: seq<string>, lines: seq<string>)
    requires LaidOut(raw, comments, lines)
    ensures Normalize(raw) == raw
  {
    hide ParseLines, Parse, RowLines, CleanRow, CommentOrPlain, Settled, Join, IsRule, SolidLine, StartsWith;
    forall k | 0 <= k < |lines| ensures SolidLine(lines[k]) && IsRule(lines[k]) { SettledIsRule(lines[k]); }
    forall k | 0 <= k < |comments| ensures SolidLine(comments[k]) { PlainIsSolid(comments[k]); }
    ReprintAllExact(lines);
    ReprintRules(lines);
    ParsePrinted(comments + lines);
    ParseLinesAppend(comments, lines);
    ParsePassthrough(comments);
    var rules := Rules(ParseLines(lines).rows, comments);
    assert Parse(raw) == rules;
    ParseSerialized(rules);
  }

  lemma SettledIsRule(t: string)
    requires Settled(t)
    ensures SolidLine(t) && IsRule(t)
  {
  }

  lemma PlainIsSolid(line: string)
    requires CommentOrPlain(line)
    ensures SolidLine(line)
  {
  }

  lemma FindArrow(source: string, target: string)
    requires '=' !in source
    ensures Find(source + "=>" + target, "=>") == Some(|source|)
  {
    var t, n := source + "=>" + target, |source|;
    forall i: nat ensures At(t, "=>", i) <==> ArrowAt(t, i) {
      AtPair(t, '=', '>', i);
    }
    assert forall k :: 0 <= k < n ==> t[k] in source;
    FindIs(t, "=>", n);
  }

  lemma ArrowSolid(source: string, target: string)
    requires CleanRow(Row(source, target)) && source != "" && target != "" && source[0] != '#'
    ensures var t := source + "=>" + target;
            SolidLine(t) && IsRule(t) && t[..|source|] == source && t[|source| + 2..] == target
  {
    var t := source + "=>" + target;
    assert t[0] == source[0] && t[|t| - 1] == target[|target| - 1] && t[|source|] == '=';
  }

  lemma ArrowLine(source: string, target: string)
    requires CleanRow(Row(source, target)) && source != "" && target != "" && source[0] != '#' && '=' !in source
    ensures SolidLine(source + "=>" + target)
    ensures ParseLine(source + "=>" + target) == Rules([Row(source, target)], [])
  {
    hide ParseTrimmed, Trim, FindFrom, SolidLine, IsRule, LineFree;
    var t := source + "=>" + target;
    FindArrow(source, target);
    ArrowSolid(source, target);
    SolidLineTrimmed(t);
    TrimExact(source);
    TrimExact(target);
    RuleCut(t);
  }

  /** A text of one arrow line loses the `>`. */
  lemma OneArrow(source: string, target: string)
    requires CleanRow(Row(source, target)) && source != "" && target != "" && source[0] != '#' && '=' !in source
    ensures Normalize(source + "=>" + target) == source + "=" + target
  {
    hide ParseLine, Parse, ParseLines, CleanRow, RowLines, NonBlank, SolidLine;
    var t, row := source + "=>" + target, Row(source, target);
    ArrowLine(source, target);
    ParsePrinted([t]);
    ParseLinesOne(t, []);
    ParseNoLines();
    ThenNothing(Rules([row], []));
    assert [t] + [] == [t];
    RowLinesCons([row]);
    RowLinesSmall([]);
    NonBlankSolid([]);
    assert PrintedLines(Rules([row], [])) == [PrintRow(row)];
  }

  /** One round is not always enough. */
  lemma OneRoundIsNotEnough()
    ensures Normalize("a=>>b") == "a=>b" && Normalize("a=>b") == "a=b"
  {
    hide Normalize;
    OneArrow("a", ">b");
    OneArrow("a", "b");
    assert "a" + "=>" + ">b" == "a=>>b" && "a" + "=" + ">b" == "a=>b";
    assert "a" + "=>" + "b" == "a=>b" && "a" + "=" + "b" == "a=b";
  }

  // ------------------------------------------------ when one round is enough

  /** Space around the first equals sign that a parsed source may still hold. */
  predicate TightSource(source: string) {
    match Find(source, "=")
    case None => true
    case Some(i) => i > 0 && !IsSpace(JavaScript, source[i - 1])
                    && (i + 1 < |source| ==> !IsSpace(JavaScript, source[i + 1]))
  }

  /** A row whose line the next round prints the same: no arrow arises, and the first cut leaves nothing to trim. */
  predicate QuietRow(row: Row) {
    TightSource(row.source) && !Contains(row.target, "=>") && (row.target != "" ==> row.target[0] != '>')
  }

  predicate Kept(row: Row) {
    row.source != "" && row.target != ""
  }

  /** What the parser makes of sources: an arrow is always cut away. */
  predicate ArrowFree(rows: seq<Row>) {
    forall k :: 0 <= k < |rows| ==> !Contains(rows[k].source, "=>")
  }

  lemma SliceArrowFree(s: string, lo: nat, hi: nat)
    requires lo <= hi <= |s| && forall j: nat :: ArrowAt(s, j) ==> hi < j + 2
    ensures !Contains(s[lo..hi], "=>")
  {
    ContainsArrow(s[lo..hi]);
    if j: nat :| ArrowAt(s[lo..hi], j) { assert ArrowAt(s, lo + j); }
  }

  /** The cut lies before the end of any arrow. */
  lemma CutBeforeArrow(t: string)
    requires Contains(t, Separator(t))
    ensures forall j: nat :: ArrowAt(t, j) ==> Find(t, Separator(t)).value < j + 2
  {
    forall j: nat | ArrowAt(t, j) ensures Find(t, Separator(t)).value < j + 2 {
      AtPair(t, '=', '>', j);
      assert Contains(t, "=>");
    }
  }

  lemma TrimArrowFree(t: string, i: nat)
    requires i <= |t| && forall j: nat :: ArrowAt(t, j) ==> i < j + 2
    ensures !Contains(Trim(JavaScript, t[..i]), "=>")
  {
    hide Contains, ArrowAt, Trim, Lead;
    var source := Trim(JavaScript, t[..i]);
    TrimIsSlice(JavaScript, t[..i]);
    var lo := Lead(JavaScript, t[..i]);
    assert t[..i][lo..lo + |source|] == t[lo..lo + |source|];
    SliceArrowFree(t, lo, lo + |source|);
  }

  lemma CutSourceArrowFree(t: string)
    requires IsRule(t)
    ensures ArrowFree(ParseTrimmed(t).rows)
  {
    hide ParseTrimmed, Trim, FindFrom, ArrowAt, IsRule, Contains;
    RuleCut(t);
    var i := Find(t, Separator(t)).value;
    CutBeforeArrow(t);
    TrimArrowFree(t, i);
  }

  lemma {:induction false} ParsedArrowFree(lines: seq<string>)
    ensures ArrowFree(ParseLines(lines).rows)
  {
    hide ParseTrimmed, Trim, Contains, IsRule;
    if lines != [] {
      var t := Trim(JavaScript, lines[0]);
      ParsedArrowFree(lines[1..]);
      if IsRule(t) {
        CutSourceArrowFree(t);
      } else if t == "" {
        BlankLine(t);
      } else {
        NonRuleKept(t);
      }
    }
  }

  /** The first equals sign of a printed row. */
  lemma FirstEquals(row: Row)
    ensures Find(PrintRow(row), "=") ==
              Some(if Find(row.source, "=").Some? then Find(row.source, "=").value else |row.source|)
  {
    hide FindFrom;
    var line := PrintRow(row);
    FindChar(row.source, '=');
    var i := if Find(row.source, "=").Some? then Find(row.source, "=").value else |row.source|;
    assert forall k :: 0 <= k < |row.source| ==> line[k] == row.source[k];
    assert line[..i] == row.source[..i];
    FindCharIs(line, '=', i);
  }

  /** A printed row is a settled line exactly if the row is quiet. */
  lemma SettledRow(row: Row)
    requires CleanRow(row) && Kept(row) && row.source[0] != '#' && !Contains(row.source, "=>")
    ensures Settled(PrintRow(row)) <==> QuietRow(row)
  {
    hide Contains, FindFrom, SolidLine, IsRule, PrintRow;
    var line, n := PrintRow(row), |row.source|;
    PrintRowIsRule(row);
    PrintRowSolid(row);
    PrintLength(row);
    ArrowInRow(row);
    FirstEquals(row);
    FindChar(row.source, '=');
    var i := Find(line, "=").value;
    SideTrimmed(row, i);
  }

  lemma SideTrimmed(row: Row, i: nat)
    requires CleanRow(row) && Kept(row) && i <= |row.source| && PrintRow(row)[i] == '='
    ensures var line := PrintRow(row);
            && (Trimmed(JavaScript, line[..i]) <==> i == 0 || !IsSpace(JavaScript, row.source[i - 1]))
            && line[i + 1..] != ""
            && (Trimmed(JavaScript, line[i + 1..]) <==>
              i + 1 >= |row.source| || !IsSpace(JavaScript, row.source[i + 1]))
  {
    var line, n := PrintRow(row), |row.source|;
    assert line[..i] == row.source[..i];
    assert line[i + 1..][|line| - i - 2] == row.target[|row.target| - 1];
    assert line[i + 1..][0] == if i + 1 < n then row.source[i + 1] else if i + 1 == n then '=' else row.target[0];
  }

  predicate AllQuiet(rows: seq<Row>) {
    forall k :: 0 <= k < |rows| && Kept(rows[k]) ==> QuietRow(rows[k])
  }

  lemma {:induction false} SettledRows(rows: seq<Row>)
    requires CleanRows(rows) && ArrowFree(rows)
    ensures AllSettled(RowLines(rows)) <==> AllQuiet(rows)
  {
    hide CleanRow, Settled, AllSettled, QuietRow, PrintRow, RowLines, Contains, StartsWith;
    if rows == [] {
      RowLinesSmall(rows);
      NoneSettled();
    } else {
      var row, rest := rows[0], rows[1..];
      RowLinesCons(rows);
      SettledRows(rest);
      StartsWithChar(row.source, '#');
      assert AllQuiet(rows) <==> (Kept(row) ==> QuietRow(row)) && AllQuiet(rest) by {
        assert rows == [row] + rest;
      }
      if Kept(row) {
        SettledRow(row);
        SettledCons(RowLines(rows));
        assert RowLines(rows)[1..] == RowLines(rest);
      } else {
        assert RowLines(rows) == RowLines(rest);
      }
    }
  }

  /**
   * One round is enough exactly if every row that is read and kept is quiet: its target neither
   * holds an arrow nor starts with `>`, and an equals sign left in its source has no space at either
   * side and is not the first character.
   */
  lemma OneRoundIsEnough(raw: string)
    ensures Normalize(Normalize(raw)) == Normalize(raw) <==> AllQuiet(Parse(raw).rows)
  {
    hide Serialize, ParseLines, SplitLines, AllSettled, AllQuiet, RowLines, Contains;
    var rules := Parse(raw);
    ParseClean(raw);
    ParsedArrowFree(SplitLines(raw));
    RoundFromPrinted(rules);
    SettledRows(rules.rows);
  }

  // ------------------------------------------------------- texts of many lines

  /** Blanks around a line do not count. */
  lemma PaddedLine(before: string, line: string, behind: string)
    requires Blank(JavaScript, before) && Blank(JavaScript, behind)
    ensures ParseLine(before + line + behind) == ParseLine(line)
  {
    hide ParseTrimmed, Trim;
    TrimIgnoresPadding(JavaScript, before, line, behind);
  }

  lemma CarriageReturnDropped(line: string)
    ensures ParseLine(DropCarriageReturn(line)) == ParseLine(line)
  {
    hide ParseLine;
    if line != "" && line[|line| - 1] == '\r' {
      assert line == "" + line[..|line| - 1] + "\r";
      PaddedLine("", line[..|line| - 1], "\r");
    }
  }

  lemma ParseOneLine(line: string)
    requires LineFree(line)
    ensures Parse(line) == ParseLine(line)
  {
    hide ParseLine;
    FindChar(line, '\n');
    assert SplitLines(line) == [line];
    ParseLinesOne(line, []);
    assert [line] + [] == [line];
    ParseNoLines();
    ThenNothing(ParseLine(line));
  }

  lemma ParseFirstLine(line: string, rest: string)
    requires LineFree(line)
    ensures Parse(line + "\n" + rest) == ParseLine(line).Then(Parse(rest))
  {
    hide ParseLine, FindFrom;
    var text := line + "\n" + rest;
    assert text[..|line|] == line && text[|line| + 1..] == rest;
    FindCharIs(text, '\n', |line|);
    assert SplitLines(text) == [DropCarriageReturn(line)] + SplitLines(rest);
    ParseLinesOne(DropCarriageReturn(line), SplitLines(rest));
    CarriageReturnDropped(line);
  }

  /** Reading two texts with a line feed between them is reading one after the other, for all texts. */
  lemma {:induction false} ParseTwo(a: string, b: string)
    ensures Parse(a + "\n" + b) == Parse(a).Then(Parse(b))
    decreases |a|
  {
    hide Parse, ParseLine, FindFrom;
    FindChar(a, '\n');
    match Find(a, "\n")
    case None =>
      ParseOneLine(a);
      ParseFirstLine(a, b);
    case Some(i) =>
      var line, rest := a[..i], a[i + 1..];
      LineBefore(a, i);
      assert a + "\n" + b == line + "\n" + (rest + "\n" + b);
      ParseFirstLine(line, rest);
      ParseFirstLine(line, rest + "\n" + b);
      ParseTwo(rest, b);
      ThenAssociative(ParseLine(line), Parse(rest), Parse(b));
  }

  lemma LineBefore(a: string, i: nat)
    requires Find(a, "\n") == Some(i)
    ensures i < |a| && LineFree(a[..i]) && a == a[..i] + "\n" + a[i + 1..]
  {
    forall k | 0 <= k < i ensures a[k] != '\n' { AtChar(a, '\n', k); }
    AtChar(a, '\n', i);
  }

  /** Line feeds at the end, empty lines and carriage returns add nothing. */
  lemma BlankLinesAddNothing(text: string, blank: string)
    requires Blank(JavaScript, blank) && LineFree(blank)
    ensures Parse(text + "\n" + blank) == Parse(text) && Parse(blank + "\n" + text) == Parse(text)
  {
    hide Parse, Trim;
    ParseTwo(text, blank);
    ParseTwo(blank, text);
    ParseOneLine(blank);
    assert blank == blank + "" + "";
    PaddedLine(blank, "", "");
    EmptyLine();
    ThenNothing(Parse(text));
  }

  lemma EmptyLine()
    ensures ParseLine("") == NO_RULES
  {
    BlankLine("");
  }

  // ------------------------------------------------ printing untidy rules

  function TidyRow(row: Row): Row {
    Row(Trim(JavaScript, row.source), Trim(JavaScript, row.target))
  }

  /** Rows and lines trimmed, and those with nothing left dropped. */
  function TidyRows(rows: seq<Row>): seq<Row> {
    if rows == [] then []
    else (if Kept(TidyRow(rows[0])) then [TidyRow(rows[0])] else []) + TidyRows(rows[1..])
  }

  function TidyLines(lines: seq<string>): seq<string> {
    if lines == [] then []
    else (if Trim(JavaScript, lines[0]) != "" then [Trim(JavaScript, lines[0])] else []) + TidyLines(lines[1..])
  }

  function Tidy(rules: Rules): Rules {
    Rules(TidyRows(rules.rows), TidyLines(rules.passthrough))
  }

  lemma {:induction false} TidyRowLines(rows: seq<Row>)
    ensures RowLines(TidyRows(rows)) == RowLines(rows)
  {
    hide Trim, PrintRow;
    if rows != [] {
      var row, rest := TidyRow(rows[0]), TidyRows(rows[1..]);
      TidyRowLines(rows[1..]);
      TrimOfTrimmed(JavaScript, row.source);
      TrimOfTrimmed(JavaScript, row.target);
      if Kept(row) { assert ([row] + rest)[1..] == rest; } else { assert [] + rest == rest; }
    }
  }

  lemma {:induction false} TidyNonBlank(lines: seq<string>)
    ensures NonBlank(TidyLines(lines)) == TidyLines(lines) == NonBlank(lines)
  {
    hide Trim;
    if lines != [] {
      var line, rest := Trim(JavaScript, lines[0]), TidyLines(lines[1..]);
      TidyNonBlank(lines[1..]);
      TrimOfTrimmed(JavaScript, line);
      if line != "" { assert ([line] + rest)[1..] == rest; } else { assert [] + rest == rest; }
    }
  }

  /**
   * Rules as the editor holds them: blanks around a piece and rows with an empty side are not printed,
   * and what comes back is exactly the tidied rules, precisely when those are printable.
   */
  lemma TidyRoundTrip(rules: Rules)
    ensures Serialize(rules) == Serialize(Tidy(rules))
    ensures Parse(Serialize(rules)) == Tidy(rules) <==> Printable(Tidy(rules))
  {
    hide Parse, Printable, RowLines, NonBlank, TidyRows, TidyLines, Join;
    TidyRowLines(rules.rows);
    TidyNonBlank(rules.passthrough);
    RoundTrip(Tidy(rules));
  }
}
