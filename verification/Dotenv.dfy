/** Loading a dotenv file into the process environment. */
module Dotenv {
  import opened Text

  type Variables = map<string, string>

  datatype Binding = Binding(key: string, value: string)

  /** Only a blank followed by a hash starts a comment. */
  function StripInlineComment(value: string): string {
    match Find(value, " #")
    case None => value
    case Some(pos) => TrimEnd(Rust, value[..pos])
  }

  predicate Quoted(value: string, quote: char) {
    |value| >= 2 && value[0] == quote && value[|value| - 1] == quote
  }

  function ParseValue(rawValue: string): string {
    var value := Trim(Rust, rawValue);
    if Quoted(value, '\"') || Quoted(value, '\'') then value[1..|value| - 1] else StripInlineComment(value)
  }

  function ParseAssignment(line: string): Option<Binding> {
    match Find(line, "=")
    case None => None
    case Some(i) =>
      var key := Trim(Rust, line[..i]);
      if key == "" then None else Some(Binding(key, ParseValue(line[i + 1..])))
  }

  function DropExport(line: string): string {
    if StartsWith(line, "export ") then Trim(Rust, line[7..]) else line
  }

  predicate Comment(line: string) {
    line == "" || line[0] == '#' || line[0] == ';'
  }

  function ParseKeyValue(line: string): Option<Binding> {
    var trimmed := Trim(Rust, line);
    if Comment(trimmed) then None else ParseAssignment(DropExport(trimmed))
  }

  /** Rust's lines: a final line feed opens no further line. */
  function Lines(text: string): seq<string>
    decreases |text|
  {
    match Find(text, "\n")
    case None => if text == "" then [] else [text]
    case Some(i) => [DropCarriageReturn(text[..i])] + Lines(text[i + 1..])
  }

  // ------------------------------------------------------------- the loop

  function Bound(vars: Variables, line: string): Variables {
    match ParseKeyValue(line)
    case None => vars
    case Some(b) => if b.key in vars then vars else vars[b.key := b.value]
  }

  function LoadLines(vars: Variables, lines: seq<string>): Variables {
    if lines == [] then vars else Bound(LoadLines(vars, lines[..|lines| - 1]), lines[|lines| - 1])
  }

  class Environment {
    var vars: Variables

    constructor (vars: Variables)
      ensures this.vars == vars
    {
      this.vars := vars;
    }

    method Load(text: string)
      modifies this
      ensures vars == LoadLines(old(vars), Lines(text))
    {
      hide ParseKeyValue;
      var lines := Lines(text);
      for n := 0 to |lines|
        invariant vars == LoadLines(old(vars), lines[..n])
      {
        assert lines[..n + 1][..n] == lines[..n];
        var parsed := ParseKeyValue(lines[n]);
        if parsed.None? {
          continue;
        }
        if parsed.value.key in vars {
          continue;
        }
        vars := vars[parsed.value.key := parsed.value.value];
      }
      assert lines[..|lines|] == lines;
    }
  }

  predicate Binds(line: string, key: string) {
    ParseKeyValue(line).Some? && ParseKeyValue(line).value.key == key
  }

  /** The first line that binds the key. */
  function FirstBinding(lines: seq<string>, key: string): Option<string> {
    if lines == [] then None
    else if Binds(lines[0], key) then Some(ParseKeyValue(lines[0]).value.value)
    else FirstBinding(lines[1..], key)
  }

  lemma {:induction false} FirstBindingSnoc(lines: seq<string>, line: string, key: string)
    ensures FirstBinding(lines + [line], key) ==
              var first := FirstBinding(lines, key);
              if first.Some? then first else if Binds(line, key) then Some(ParseKeyValue(line).value.value) else None
  {
    hide ParseKeyValue;
    if lines == [] {
      assert lines + [line] == [line];
      assert [line][1..] == [];
    } else {
      assert (lines + [line])[1..] == lines[1..] + [line];
      FirstBindingSnoc(lines[1..], line, key);
    }
  }

  /** Loading gives each key its old value if it had one, and otherwise the first binding in the file. */
  lemma {:induction false} LoadIsFirstBinding(vars: Variables, lines: seq<string>, key: string)
    ensures var loaded := LoadLines(vars, lines);
            && (key in loaded <==> key in vars || FirstBinding(lines, key).Some?)
            && (key in loaded ==> loaded[key] == if key in vars then vars[key] else FirstBinding(lines, key).value)
  {
    hide ParseKeyValue;
    if lines != [] {
      var last := |lines| - 1;
      LoadIsFirstBinding(vars, lines[..last], key);
      FirstBindingSnoc(lines[..last], lines[last], key);
      assert lines == lines[..last] + [lines[last]];
    }
  }

  /** Loading the same file again changes nothing. */
  lemma LoadIsIdempotent(vars: Variables, lines: seq<string>)
    ensures LoadLines(LoadLines(vars, lines), lines) == LoadLines(vars, lines)
  {
    hide LoadLines;
    var once := LoadLines(vars, lines);
    var twice := LoadLines(once, lines);
    forall key ensures (key in twice <==> key in once) && (key in once ==> twice[key] == once[key]) {
      LoadIsFirstBinding(vars, lines, key);
      LoadIsFirstBinding(once, lines, key);
    }
  }

  // ---------------------------------------------------------- quoted values

  function QuotedLine(key: string, value: string): string {
    key + "=\"" + value + "\""
  }

  predicate GoodKey(key: string) {
    && key != "" && Trimmed(Rust, key) && '=' !in key
    && key[0] != '#' && key[0] != ';' && !StartsWith(key, "export ")
  }

  lemma QuotedLineShape(key: string, value: string)
    ensures var line := QuotedLine(key, value);
            && line[|key|] == '=' && line[..|key|] == key && line[|key| + 1..] == "\"" + value + "\""
            && line[|line| - 1] == '\"' && |line| == |key| + |value| + 3
  {
  }

  lemma QuotedValueReads(value: string)
    ensures ParseValue("\"" + value + "\"") == value
  {
    hide TrimStart, TrimEnd;
    var quoted := "\"" + value + "\"";
    assert Trimmed(Rust, quoted);
    assert quoted[1..|quoted| - 1] == value;
  }

  lemma GoodKeyReads(key: string, value: string)
    requires GoodKey(key)
    ensures ParseKeyValue(QuotedLine(key, value)) == Some(Binding(key, value))
  {
    hide TrimStart, TrimEnd, FindFrom, ParseValue, QuotedLine;
    var line := QuotedLine(key, value);
    QuotedLineShape(key, value);
    assert line[0] == line[..|key|][0];
    assert Trimmed(Rust, line);
    ExportBeforeEquals(line, |key|);
    FindCharIs(line, '=', |key|);
    QuotedValueReads(value);
  }

  lemma ExportBeforeEquals(line: string, n: nat)
    requires n < |line| && line[n] == '='
    ensures StartsWith(line, "export ") <==> StartsWith(line[..n], "export ")
  {
    if StartsWith(line, "export ") {
      assert '=' !in "export ";
      forall k | 0 <= k < 7 ensures line[k] != '=' { assert line[k] == line[..7][k]; }
      assert line[..n][..7] == line[..7];
    }
  }

  /** Parsed keys are trimmed and never longer than what stands before the first equals sign. */
  lemma ParsedKey(line: string)
    ensures var r := ParseKeyValue(line);
            r.Some? ==>
              var t := Trim(Rust, line);
              && Trimmed(Rust, r.value.key) && r.value.key != "" && '=' !in r.value.key
              && !Comment(t) && '=' in DropExport(t)
              && |r.value.key| <= Find(DropExport(t), "=").value
  {
    hide TrimStart, TrimEnd, FindFrom, ParseValue;
    var t := DropExport(Trim(Rust, line));
    FindChar(t, '=');
    match Find(t, "=")
    case None =>
    case Some(i) => TrimMembers(Rust, t[..i]);
  }

  lemma ExportedEquals(line: string, n: nat)
    requires 7 <= n < |line| - 1 && line[n] == '=' && line[|line| - 1] == '\"'
    ensures Find(Trim(Rust, line[7..]), "=").Some? && Find(Trim(Rust, line[7..]), "=").value <= n - 7
  {
    hide Trim, TrimStart, FindFrom;
    var rest := line[7..];
    var kept := TrimStart(Rust, rest);
    assert rest[n - 7] == '=' && rest[|rest| - 1] == '\"';
    TrimSolidEnd(Rust, rest);
    TrimStartKeeps(Rust, rest, n - 7);
    EqualsWithin(kept, n - 7 - (|rest| - |kept|));
  }

  lemma EqualsWithin(s: string, at: nat)
    requires at < |s| && s[at] == '='
    ensures Find(s, "=").Some? && Find(s, "=").value <= at
  {
    AtChar(s, '=', at);
  }

  /**
   * The exact quoting law: `key="value"` parses back to that key and value, whatever the value
   * holds, precisely for the good keys.
   */
  lemma QuotedLineReadsBack(key: string, value: string)
    ensures ParseKeyValue(QuotedLine(key, value)) == Some(Binding(key, value)) <==> GoodKey(key)
  {
    hide Trim, TrimStart, TrimEnd, FindFrom, Find, ParseKeyValue, QuotedLine;
    var line := QuotedLine(key, value);
    QuotedLineShape(key, value);
    if GoodKey(key) { GoodKeyReads(key, value); }
    ParsedKey(line);
    if ParseKeyValue(line) == Some(Binding(key, value)) {
      assert line[0] == line[..|key|][0];
      TrimOfTrimmed(Rust, line);
      ExportBeforeEquals(line, |key|);
      if StartsWith(key, "export ") { ExportedEquals(line, |key|); }
    }
  }

  // ---------------------------------------------------------- whole files

  function Rendered(bindings: seq<Binding>): (r: seq<string>)
    ensures |r| == |bindings| && forall k :: 0 <= k < |r| ==> r[k] == QuotedLine(bindings[k].key, bindings[k].value)
  {
    seq(|bindings|, k requires 0 <= k < |bindings| => QuotedLine(bindings[k].key, bindings[k].value))
  }

  predicate Storable(b: Binding) {
    GoodKey(b.key) && LineFree(b.key) && LineFree(b.value)
  }

  lemma LinesCons(line: string, rest: string)
    requires LineFree(line) && line != "" && line[|line| - 1] != '\r'
    ensures Lines(line + "\n" + rest) == [line] + Lines(rest)
  {
    hide FindFrom;
    var text := line + "\n" + rest;
    assert text[..|line|] == line && text[|line| + 1..] == rest;
    FindCharIs(text, '\n', |line|);
  }

  lemma LinesOne(line: string)
    requires LineFree(line) && line != ""
    ensures Lines(line) == [line]
  {
    FindChar(line, '\n');
  }

  predicate WholeLine(line: string) {
    LineFree(line) && line != "" && line[|line| - 1] != '\r'
  }

  lemma {:induction false} LinesOfJoin(lines: seq<string>)
    requires forall k :: 0 <= k < |lines| ==> WholeLine(lines[k])
    ensures Lines(Join(lines, "\n")) == lines
  {
    hide Lines;
    if lines == [] {
      NoLines();
    } else if |lines| == 1 {
      LinesOne(lines[0]);
    } else {
      assert WholeLine(lines[0]);
      LinesCons(lines[0], Join(lines[1..], "\n"));
      LinesOfJoin(lines[1..]);
    }
  }

  lemma NoLines()
    ensures Lines("") == []
  {
    FindChar("", '\n');
  }

  lemma QuotedLineSolid(key: string, value: string)
    requires LineFree(key) && LineFree(value)
    ensures LineFree(QuotedLine(key, value))
  {
  }

  /** The first value given for a key. */
  function FirstValue(bindings: seq<Binding>, key: string): Option<string> {
    if bindings == [] then None
    else if bindings[0].key == key then Some(bindings[0].value)
    else FirstValue(bindings[1..], key)
  }

  lemma {:induction false} RenderedBindings(bindings: seq<Binding>, key: string)
    requires forall k :: 0 <= k < |bindings| ==> Storable(bindings[k])
    ensures FirstBinding(Rendered(bindings), key) == FirstValue(bindings, key)
  {
    hide ParseKeyValue, QuotedLine, GoodKey;
    if bindings != [] {
      assert Storable(bindings[0]);
      QuotedLineReadsBack(bindings[0].key, bindings[0].value);
      assert Rendered(bindings)[1..] == Rendered(bindings[1..]);
      RenderedBindings(bindings[1..], key);
    }
  }

  /**
   * A file written with one quoted line per binding loads as those bindings: existing variables win,
   * then the first value given for a key.
   */
  lemma WrittenFileLoads(vars: Variables, bindings: seq<Binding>, key: string)
    requires forall k :: 0 <= k < |bindings| ==> Storable(bindings[k])
    ensures var loaded := LoadLines(vars, Lines(Join(Rendered(bindings), "\n")));
            && (key in loaded <==> key in vars || FirstValue(bindings, key).Some?)
            && (key in loaded ==> loaded[key] == if key in vars then vars[key] else FirstValue(bindings, key).value)
  {
    hide LoadLines, Lines, Join, FirstBinding, FirstValue, QuotedLine, GoodKey;
    var lines := Rendered(bindings);
    forall k | 0 <= k < |lines| ensures WholeLine(lines[k]) {
      assert Storable(bindings[k]);
      QuotedLineShape(bindings[k].key, bindings[k].value);
      QuotedLineSolid(bindings[k].key, bindings[k].value);
    }
    LinesOfJoin(lines);
    LoadIsFirstBinding(vars, lines, key);
    RenderedBindings(bindings, key);
  }

  // ------------------------------------------------------ every kind of line

  /** Blanks around a line do not count. */
  lemma PaddedLine(before: string, line: string, behind: string)
    requires Blank(Rust, before) && Blank(Rust, behind)
    ensures ParseKeyValue(before + line + behind) == ParseKeyValue(line)
  {
    hide Trim;
    TrimIgnoresPadding(Rust, before, line, behind);
  }

  lemma LineStep(line: string)
    ensures var t := Trim(Rust, line);
            ParseKeyValue(line) == if Comment(t) then None else ParseAssignment(DropExport(t))
  {
  }

  lemma AssignStep(key: string, rest: string)
    requires '=' !in key
    ensures var name := Trim(Rust, key);
            ParseAssignment(key + "=" + rest) == if name == "" then None else Some(Binding(name, ParseValue(rest)))
  {
    hide Trim, FindFrom, ParseValue;
    var line := key + "=" + rest;
    assert line[..|key|] == key && line[|key| + 1..] == rest;
    FindCharIs(line, '=', |key|);
  }

  lemma ValueStep(raw: string)
    ensures var value := Trim(Rust, raw);
            ParseValue(raw) == if Quotes(value) then value[1..|value| - 1] else StripInlineComment(value)
  {
    hide Trim;
  }

  lemma GoodKeyTrims(key: string, value: string)
    requires GoodKey(key)
    ensures Trim(Rust, key + "=" + value) == key + "=" + TrimEnd(Rust, value)
    ensures var t := Trim(Rust, key + "=" + value); !Comment(t) && !StartsWith(t, "export ")
  {
    hide TrimStart, TrimEnd, IsSpace, Trim;
    var line, kept := key + "=" + value, TrimEnd(Rust, value);
    assert line == (key + "=") + value;
    EqualsIsSolid();
    TrimEndInto(Rust, key + "=", value);
    assert line[0] == key[0];
    TrimNoStart(line);
    var t := key + "=" + kept;
    assert t[..|key|] == key && t[0] == key[0] && t[|key|] == '=';
    ExportBeforeEquals(t, |key|);
  }

  lemma GoodKeyAssigns(key: string, value: string)
    requires GoodKey(key)
    ensures ParseKeyValue(key + "=" + value) == Some(Binding(key, ParseValue(TrimEnd(Rust, value))))
  {
    hide TrimEnd, Trim, ParseValue, ParseKeyValue, ParseAssignment, Comment;
    GoodKeyTrims(key, value);
    LineStep(key + "=" + value);
    AssignStep(key, TrimEnd(Rust, value));
    TrimOfTrimmed(Rust, key);
  }

  lemma EqualsIsSolid()
    ensures !IsSpace(Rust, '=')
  {
  }

  lemma TrimNoStart(s: string)
    requires s != "" && !IsSpace(Rust, s[0])
    ensures Trim(Rust, s) == TrimEnd(Rust, s)
  {
  }

  predicate Quotes(value: string) {
    Quoted(value, '\"') || Quoted(value, '\'')
  }

  lemma PlainValue(value: string)
    requires Trimmed(Rust, value) && !Quotes(value) && !Contains(value, " #")
    ensures ParseValue(TrimEnd(Rust, value)) == value
  {
    hide Trim, TrimEnd, ParseValue, FindFrom, Quotes;
    TrimOfTrimmed(Rust, value);
    TrimmedEnd(value);
    ValueStep(value);
  }

  lemma TrimmedEnd(value: string)
    requires Trimmed(Rust, value)
    ensures TrimEnd(Rust, value) == value
  {
  }

  /** An unquoted value is bound as it is, with any `#` that has no blank before it. */
  lemma PlainLineReads(key: string, value: string)
    requires GoodKey(key) && Trimmed(Rust, value) && !Quotes(value) && !Contains(value, " #")
    ensures ParseKeyValue(key + "=" + value) == Some(Binding(key, value))
  {
    hide ParseKeyValue, ParseValue, Trim, TrimEnd, Contains;
    GoodKeyAssigns(key, value);
    PlainValue(value);
  }

  lemma FirstComment(value: string, rest: string)
    requires !Contains(value, " #")
    ensures Find(value + " #" + rest, " #") == Some(|value|)
  {
    hide FindFrom;
    var s, n := value + " #" + rest, |value|;
    AtPair(s, ' ', '#', n);
    forall j: nat | j < n ensures !At(s, " #", j) {
      AtPair(s, ' ', '#', j);
      AtPair(value, ' ', '#', j);
      if j + 1 == n { assert s[n] == ' '; }
    }
    FindIs(s, " #", n);
  }

  lemma CommentedValue(value: string, comment: string)
    requires value != "" && !IsSpace(Rust, value[0]) && !Contains(value, " #")
    requires !Quotes(TrimEnd(Rust, value + " #" + comment))
    ensures ParseValue(TrimEnd(Rust, value + " #" + comment)) == TrimEnd(Rust, value)
  {
    hide TrimStart, TrimEnd, Trim, FindFrom, Find, Contains, Quotes, IsSpace, ParseValue;
    var text, rest := value + " #" + comment, TrimEnd(Rust, comment);
    assert text == (value + " #") + comment;
    HashIsSolid();
    assert (value + " #")[|value| + 1] == '#';
    TrimEndInto(Rust, value + " #", comment);
    var kept := value + " #" + rest;
    assert TrimEnd(Rust, text) == kept;
    assert kept[0] == value[0];
    TrimNoStart(kept);
    TrimEndTwice(Rust, text);
    ValueStep(kept);
    FirstComment(value, rest);
    assert kept[..|value|] == value;
  }

  lemma HashIsSolid()
    ensures !IsSpace(Rust, '#')
  {
  }

  /** What stands before the first ` #` is the value, without the blanks at its end. */
  lemma CommentedLineReads(key: string, value: string, comment: string)
    requires GoodKey(key) && value != "" && !IsSpace(Rust, value[0]) && !Contains(value, " #")
    requires !Quotes(TrimEnd(Rust, value + " #" + comment))
    ensures ParseKeyValue(key + "=" + value + " #" + comment) == Some(Binding(key, TrimEnd(Rust, value)))
  {
    hide ParseKeyValue, ParseValue, Trim, TrimEnd, Contains, GoodKey;
    assert key + "=" + value + " #" + comment == key + "=" + (value + " #" + comment);
    GoodKeyAssigns(key, value + " #" + comment);
    CommentedValue(value, comment);
  }

  /** With nothing before the comment, the comment becomes the value: the blank before it has been trimmed away. */
  lemma CommentAloneIsValue(key: string, comment: string)
    requires GoodKey(key) && Trimmed(Rust, comment) && !Contains("#" + comment, " #")
    ensures ParseKeyValue(key + "= #" + comment) == Some(Binding(key, "#" + comment))
  {
    hide ParseKeyValue, ParseValue, Trim, TrimEnd, Contains, GoodKey, IsSpace;
    var text := " #" + comment;
    assert key + "= #" + comment == key + "=" + text;
    GoodKeyAssigns(key, text);
    HashIsSolid();
    assert Trimmed(Rust, "#" + comment);
    TrimmedEnd("#" + comment);
    assert text == " " + ("#" + comment);
    TrimEndPieces(Rust, " ", "#" + comment);
    LeadingBlank("#" + comment);
  }

  lemma LeadingBlank(value: string)
    requires value != "" && value[0] == '#' && Trimmed(Rust, value) && !Contains(value, " #")
    ensures ParseValue(" " + value) == value
  {
    hide Trim, ParseValue, FindFrom;
    assert " " + value == " " + value + "";
    TrimPadded(Rust, " ", value, "");
    ValueStep(" " + value);
  }

  lemma EmptyBeforeComment(comment: string)
    ensures ParseValue(TrimEnd(Rust, " #" + comment)) != ""
  {
    hide TrimStart, TrimEnd, Trim, FindFrom, ParseValue, IsSpace;
    var text, rest := " #" + comment, TrimEnd(Rust, comment);
    HashIsSolid();
    assert text == " #" + comment && " #"[1] == '#';
    TrimEndInto(Rust, " #", comment);
    var kept, value := " #" + rest, "#" + rest;
    assert kept == " " + value + "";
    TrimEndInto(Rust, "#", comment);
    assert value == TrimEnd(Rust, "#" + comment);
    assert Trimmed(Rust, value);
    BlankIsBlank();
    TrimPadded(Rust, " ", value, "");
    ValueStep(kept);
    NotEmptied(value);
  }

  lemma BlankIsBlank()
    ensures Blank(Rust, " ") && Blank(Rust, "")
  {
  }

  lemma NotEmptied(value: string)
    requires value != "" && value[0] == '#'
    ensures !Quotes(value) && StripInlineComment(value) != ""
  {
    hide TrimEnd, FindFrom, IsSpace;
    HashIsSolid();
    match Find(value, " #")
    case None =>
    case Some(pos) =>
      AtPair(value, ' ', '#', pos);
      assert value[..pos] == "#" + value[1..pos];
      TrimEndInto(Rust, "#", value[1..pos]);
  }

  lemma QuotedKeepsComment(value: string, rest: string)
    requires value != "" && !Contains(value, " #") && Quotes(value + " #" + rest)
    ensures var kept := value + " #" + rest; kept[1..|kept| - 1] != TrimEnd(Rust, value)
  {
    hide FindFrom;
    var kept, n := value + " #" + rest, |value|;
    var inner, cut := kept[1..|kept| - 1], TrimEnd(Rust, value);
    assert kept[n] == ' ' && kept[n + 1] == '#' && |kept| > n + 2;
    AtPair(inner, ' ', '#', n - 1);
    AtPair(value, ' ', '#', n - 1);
    assert |cut| <= n && value[..|cut|] == cut;
  }

  /**
   * Exactly when a comment is cut off an assignment: something must stand before it, and the text from
   * the first character of the value to the end of the line must not look quoted.
   */
  lemma CommentIsCut(key: string, value: string, comment: string)
    requires GoodKey(key) && (value != "" ==> !IsSpace(Rust, value[0])) && !Contains(value, " #")
    ensures ParseKeyValue(key + "=" + value + " #" + comment) == Some(Binding(key, TrimEnd(Rust, value))) <==>
              value != "" && !Quotes(TrimEnd(Rust, value + " #" + comment))
  {
    hide ParseKeyValue, ParseValue, Trim, TrimEnd, Contains, GoodKey, Quotes, IsSpace;
    var text := value + " #" + comment;
    assert key + "=" + value + " #" + comment == key + "=" + text;
    GoodKeyAssigns(key, text);
    if value == "" {
      assert text == " #" + comment;
      EmptyBeforeComment(comment);
      TrimmedEnd("");
    } else if Quotes(TrimEnd(Rust, text)) {
      QuotedIsInner(value, comment);
    } else {
      CommentedValue(value, comment);
    }
  }

  lemma QuotedIsInner(value: string, comment: string)
    requires value != "" && !IsSpace(Rust, value[0]) && !Contains(value, " #")
    requires Quotes(TrimEnd(Rust, value + " #" + comment))
    ensures ParseValue(TrimEnd(Rust, value + " #" + comment)) != TrimEnd(Rust, value)
  {
    hide TrimStart, TrimEnd, Trim, FindFrom, Find, Contains, Quotes, IsSpace, ParseValue;
    var rest := TrimEnd(Rust, comment);
    HashIsSolid();
    assert value + " #" + comment == (value + " #") + comment && (value + " #")[|value| + 1] == '#';
    TrimEndInto(Rust, value + " #", comment);
    var kept := value + " #" + rest;
    TrimEndTwice(Rust, value + " #" + comment);
    assert kept[0] == value[0];
    TrimNoStart(kept);
    ValueStep(kept);
    QuotedKeepsComment(value, rest);
  }

  /** Single quotes work like double ones. */
  lemma SingleQuotedLineReads(key: string, value: string)
    requires GoodKey(key)
    ensures ParseKeyValue(key + "='" + value + "'") == Some(Binding(key, value))
  {
    hide ParseKeyValue, ParseValue, Trim, TrimEnd, GoodKey;
    var quoted := "'" + value + "'";
    assert key + "='" + value + "'" == key + "=" + quoted;
    GoodKeyAssigns(key, quoted);
    SingleQuotes(value);
  }

  lemma SingleQuotes(value: string)
    ensures var quoted := "'" + value + "'"; ParseValue(TrimEnd(Rust, quoted)) == value
  {
    hide Trim, TrimEnd, ParseValue, StripInlineComment;
    var quoted := "'" + value + "'";
    assert quoted[0] == '\'' && quoted[|quoted| - 1] == '\'';
    assert Trimmed(Rust, quoted);
    TrimmedEnd(quoted);
    TrimOfTrimmed(Rust, quoted);
    ValueStep(quoted);
    assert quoted[1..|quoted| - 1] == value;
  }

  /** `export ` in front of a line that is not a comment or an export itself changes nothing. */
  lemma ExportedLineReads(line: string)
    requires var t := Trim(Rust, line); !Comment(t) && !StartsWith(t, "export ")
    ensures ParseKeyValue("export " + line) == ParseKeyValue(line)
  {
    hide Trim, TrimEnd, ParseAssignment, ParseKeyValue, IsSpace;
    var t := Trim(Rust, line);
    var before, behind := TrimSplits(Rust, line);
    var exported := "export " + before + t;
    LetterIsSolid();
    assert "export " + line == "" + exported + behind;
    assert |"export "| == 7 && exported[..7] == "export " && exported[7..] == "" + (before + t);
    assert exported[0] == 'e' && exported[|exported| - 1] == t[|t| - 1];
    TrimPadded(Rust, "", exported, behind);
    assert before + t == before + t + "";
    TrimPadded(Rust, before, t, "");
    assert exported[7..] == before + t;
    assert DropExport(exported) == t;
    LineStep(line);
    LineStep("export " + line);
  }

  lemma LetterIsSolid()
    ensures !IsSpace(Rust, 'e')
  {
  }

  /** Exactly these lines bind nothing: blank ones, comments, and those without a key or an equals sign. */
  lemma BindsNothing(line: string)
    ensures var t := Trim(Rust, line);
            ParseKeyValue(line).None? <==>
              t == "" || t[0] == '#' || t[0] == ';' || !Assigns(DropExport(t))
  {
    hide Trim, ParseAssignment, Assigns;
    LineStep(line);
    AssignsIs(DropExport(Trim(Rust, line)));
  }

  /** There is an equals sign, and something before the first one that is not a blank. */
  predicate Assigns(t: string) {
    exists n: nat :: n < |t| && t[n] == '=' && '=' !in t[..n] && !Blank(Rust, t[..n])
  }

  lemma AssignsIs(t: string)
    ensures ParseAssignment(t).Some? <==> Assigns(t)
  {
    hide Trim, FindFrom, ParseValue, Blank;
    FindChar(t, '=');
    if Find(t, "=").Some? {
      var i := Find(t, "=").value;
      TrimToNothing(t[..i]);
      AtChar(t, '=', i);
      forall k | 0 <= k < i ensures t[k] != '=' { AtChar(t, '=', k); }
      forall n: nat | n < |t| && t[n] == '=' && '=' !in t[..n] ensures n == i {}
    }
  }

  lemma TrimToNothing(s: string)
    ensures Trim(Rust, s) == "" <==> Blank(Rust, s)
  {
    hide TrimStart, TrimEnd;
    TrimStartBlank(Rust, s);
    if TrimStart(Rust, s) != "" {
      var solid := TrimStart(Rust, s);
      TrimEndPieces(Rust, "", solid);
      assert "" + solid == solid;
    }
  }

  // ------------------------------------------------------- files of all kinds

  datatype Line =
    | PlainLine(key: string, value: string)
    | CommentedLine(key: string, value: string, comment: string)
    | SingleQuotedLine(key: string, value: string)
    | DoubleQuotedLine(key: string, value: string)
    | ExportedLine(of: Line)
    | EmptyOrComment(text: string)

  predicate WellFormed(line: Line) {
    match line
    case PlainLine(key, value) => GoodKey(key) && Trimmed(Rust, value) && !Quotes(value) && !Contains(value, " #")
    case CommentedLine(key, value, comment) =>
      GoodKey(key) && value != "" && !IsSpace(Rust, value[0]) && !Contains(value, " #")
      && !Quotes(TrimEnd(Rust, value + " #" + comment))
    case SingleQuotedLine(key, _) => GoodKey(key)
    case DoubleQuotedLine(key, _) => GoodKey(key)
    case ExportedLine(of) => WellFormed(of) && !of.ExportedLine? && !of.EmptyOrComment?
    case EmptyOrComment(text) => var t := Trim(Rust, text); t == "" || t[0] == '#' || t[0] == ';'
  }

  function Written(line: Line): string {
    match line
    case PlainLine(key, value) => key + "=" + value
    case CommentedLine(key, value, comment) => key + "=" + value + " #" + comment
    case SingleQuotedLine(key, value) => key + "='" + value + "'"
    case DoubleQuotedLine(key, value) => key + "=\"" + value + "\""
    case ExportedLine(of) => "export " + Written(of)
    case EmptyOrComment(text) => text
  }

  function Meaning(line: Line): Option<Binding> {
    match line
    case CommentedLine(key, value, _) => Some(Binding(key, TrimEnd(Rust, value)))
    case EmptyOrComment(_) => None
    case ExportedLine(of) => Meaning(of)
    case _ => Some(Binding(line.key, line.value))
  }

  /** A line with a good key, up to its equals sign. */
  lemma AssignmentShape(line: Line) returns (value: string)
    requires WellFormed(line) && !line.ExportedLine? && !line.EmptyOrComment?
    ensures GoodKey(line.key) && Written(line) == line.key + "=" + value
  {
    hide GoodKey;
    match line
    case PlainLine(_, v) => value := v;
    case CommentedLine(_, v, comment) => value := v + " #" + comment;
    case SingleQuotedLine(_, v) => value := "'" + v + "'";
    case DoubleQuotedLine(_, v) => value := "\"" + v + "\"";
  }

  lemma {:induction false} LineReads(line: Line)
    requires WellFormed(line)
    ensures ParseKeyValue(Written(line)) == Meaning(line)
  {
    hide ParseKeyValue, Trim, TrimEnd, Contains, GoodKey, Quotes, IsSpace;
    match line
    case PlainLine(key, value) => PlainLineReads(key, value);
    case CommentedLine(key, value, comment) => CommentedLineReads(key, value, comment);
    case SingleQuotedLine(key, value) => SingleQuotedLineReads(key, value);
    case DoubleQuotedLine(key, value) => QuotedLineReadsBack(key, value);
    case ExportedLine(of) =>
      LineReads(of);
      var value := AssignmentShape(of);
      GoodKeyTrims(of.key, value);
      ExportedLineReads(Written(of));
    case EmptyOrComment(text) => BindsNothing(text);
  }

  /** A text of lines, each closed by a line feed. */
  function Closed(lines: seq<string>): string {
    if lines == [] then "" else lines[0] + "\n" + Closed(lines[1..])
  }

  lemma {:induction false} LinesOfClosed(lines: seq<string>)
    requires forall k :: 0 <= k < |lines| ==> LineFree(lines[k])
    ensures |Lines(Closed(lines))| == |lines|
    ensures forall k :: 0 <= k < |lines| ==> Lines(Closed(lines))[k] == DropCarriageReturn(lines[k])
  {
    hide FindFrom;
    if lines == [] {
      NoLines();
    } else {
      var text, n := Closed(lines), |lines[0]|;
      assert text[..n] == lines[0] && text[n + 1..] == Closed(lines[1..]);
      FindCharIs(text, '\n', n);
      LinesOfClosed(lines[1..]);
    }
  }

  lemma CarriageReturnDropped(line: string)
    ensures ParseKeyValue(DropCarriageReturn(line)) == ParseKeyValue(line)
  {
    hide ParseKeyValue;
    if line != "" && line[|line| - 1] == '\r' {
      assert line == "" + line[..|line| - 1] + "\r";
      PaddedLine("", line[..|line| - 1], "\r");
    }
  }

  function Rendering(lines: seq<Line>): (r: seq<string>)
    ensures |r| == |lines| && forall k :: 0 <= k < |r| ==> r[k] == Written(lines[k])
  {
    seq(|lines|, k requires 0 <= k < |lines| => Written(lines[k]))
  }

  /** The first value a line gives the key. */
  function FirstMeaning(lines: seq<Line>, key: string): Option<string> {
    if lines == [] then None
    else
      match Meaning(lines[0])
      case None => FirstMeaning(lines[1..], key)
      case Some(b) => if b.key == key then Some(b.value) else FirstMeaning(lines[1..], key)
  }

  lemma {:induction false} FirstMeaningIs(lines: seq<Line>, texts: seq<string>, key: string)
    requires |texts| == |lines| && forall k :: 0 <= k < |lines| ==> ParseKeyValue(texts[k]) == Meaning(lines[k])
    ensures FirstBinding(texts, key) == FirstMeaning(lines, key)
  {
    hide ParseKeyValue, Meaning;
    if lines != [] {
      FirstMeaningIs(lines[1..], texts[1..], key);
    }
  }

  /**
   * A file that mixes all kinds of lines loads as what its lines mean: existing variables win, then
   * the first line that gives the key a value.
   */
  lemma MixedFileLoads(vars: Variables, lines: seq<Line>, key: string)
    requires forall k :: 0 <= k < |lines| ==> WellFormed(lines[k]) && LineFree(Written(lines[k]))
    ensures var loaded := LoadLines(vars, Lines(Closed(Rendering(lines))));
            && (key in loaded <==> key in vars || FirstMeaning(lines, key).Some?)
            && (key in loaded ==> loaded[key] == if key in vars then vars[key] else FirstMeaning(lines, key).value)
  {
    hide LoadLines, Lines, Closed, FirstBinding, FirstMeaning, Written, WellFormed, ParseKeyValue, Meaning;
    var texts := Rendering(lines);
    var read := Lines(Closed(texts));
    LinesOfClosed(texts);
    forall k | 0 <= k < |lines| ensures ParseKeyValue(read[k]) == Meaning(lines[k]) {
      LineReads(lines[k]);
      CarriageReturnDropped(texts[k]);
    }
    FirstMeaningIs(lines, read, key);
    LoadIsFirstBinding(vars, read, key);
  }
}
