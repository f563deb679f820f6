/** Strings as the repository's TypeScript and Rust code handles them. */
module Text {

  datatype Option<+T> = None | Some(value: T)

  /** The two runtimes agree on every whitespace character but two. */
  datatype Dialect = JavaScript | Rust

  predicate IsSpace(d: Dialect, c: char) {
    || '\t' <= c <= '\r'
    || c == ' '
    || c == '\U{00A0}'
    || c == '\U{1680}'
    || '\U{2000}' <= c <= '\U{200A}'
    || c == '\U{2028}' || c == '\U{2029}' || c == '\U{202F}' || c == '\U{205F}' || c == '\U{3000}'
    || (d == JavaScript && c == '\U{FEFF}')
    || (d == Rust && c == '\U{0085}')
  }

  predicate Trimmed(d: Dialect, s: string) {
    s == "" || (!IsSpace(d, s[0]) && !IsSpace(d, s[|s| - 1]))
  }

  function TrimStart(d: Dialect, s: string): (r: string)
    ensures |r| <= |s| && r == s[|s| - |r|..]
    ensures r == "" || !IsSpace(d, r[0])
  {
    if s != "" && IsSpace(d, s[0]) then TrimStart(d, s[1..]) else s
  }

  function TrimEnd(d: Dialect, s: string): (r: string)
    ensures |r| <= |s| && r == s[..|r|]
    ensures r == "" || !IsSpace(d, r[|r| - 1])
  {
    if s != "" && IsSpace(d, s[|s| - 1]) then TrimEnd(d, s[..|s| - 1]) else s
  }

  function Trim(d: Dialect, s: string): (r: string)
    ensures Trimmed(d, r)
    ensures |r| <= |s|
    ensures Trimmed(d, s) ==> r == s
  {
    TrimEnd(d, TrimStart(d, s))
  }

  lemma TrimOfTrimmed(d: Dialect, s: string)
    requires Trimmed(d, s)
    ensures Trim(d, s) == s
  {
  }

  lemma TrimMembers(d: Dialect, s: string)
    ensures forall c :: c in Trim(d, s) ==> c in s
  {
    assert TrimStart(d, s) == s[|s| - |TrimStart(d, s)|..];
  }

  lemma TrimSameLength(d: Dialect, s: string)
    requires |Trim(d, s)| == |s|
    ensures Trim(d, s) == s
  {
  }

  lemma {:induction false} TrimStartKeeps(d: Dialect, s: string, k: nat)
    requires k < |s| && !IsSpace(d, s[k])
    ensures |TrimStart(d, s)| >= |s| - k
  {
    if k > 0 && IsSpace(d, s[0]) { TrimStartKeeps(d, s[1..], k - 1); }
  }

  lemma {:induction false} TrimEndKeeps(d: Dialect, s: string, k: nat)
    requires k < |s| && !IsSpace(d, s[k])
    ensures |TrimEnd(d, s)| > k
  {
    if k < |s| - 1 && IsSpace(d, s[|s| - 1]) { TrimEndKeeps(d, s[..|s| - 1], k); }
  }

  /** With a solid first character, trimming cuts only at the end, and not before a solid character. */
  lemma TrimKeeps(d: Dialect, s: string, k: nat)
    requires k < |s| && !IsSpace(d, s[0]) && !IsSpace(d, s[k])
    ensures |Trim(d, s)| > k && Trim(d, s) == s[..|Trim(d, s)|]
  {
    TrimEndKeeps(d, s, k);
  }

  predicate Blank(d: Dialect, s: string) {
    forall k :: 0 <= k < |s| ==> IsSpace(d, s[k])
  }

  lemma TrimStartCons(d: Dialect, c: char, rest: string)
    ensures TrimStart(d, [c] + rest) == if IsSpace(d, c) then TrimStart(d, rest) else [c] + rest
  {
    assert ([c] + rest)[1..] == rest;
  }

  lemma TrimEndStep(d: Dialect, s: string)
    ensures TrimEnd(d, s) == if s != "" && IsSpace(d, s[|s| - 1]) then TrimEnd(d, s[..|s| - 1]) else s
  {
  }

  /** Leading space before a solid character is all that goes. */
  lemma {:induction false} TrimStartInto(d: Dialect, s: string, solid: string)
    requires solid != "" && !IsSpace(d, solid[0])
    ensures TrimStart(d, s + solid) == TrimStart(d, s) + solid
  {
    hide TrimStart, IsSpace;
    if s == "" {
      assert s + solid == solid;
      assert solid == [solid[0]] + solid[1..];
      TrimStartCons(d, solid[0], solid[1..]);
      TrimStartNothing(d);
    } else {
      var c, rest := s[0], s[1..];
      assert s == [c] + rest;
      assert s + solid == [c] + (rest + solid);
      TrimStartCons(d, c, rest);
      TrimStartCons(d, c, rest + solid);
      if IsSpace(d, c) { TrimStartInto(d, rest, solid); }
    }
  }

  lemma TrimStartNothing(d: Dialect)
    ensures TrimStart(d, "") == ""
  {
  }

  lemma {:induction false} TrimEndInto(d: Dialect, solid: string, s: string)
    requires solid != "" && !IsSpace(d, solid[|solid| - 1])
    ensures TrimEnd(d, solid + s) == solid + TrimEnd(d, s)
  {
    hide TrimEnd, IsSpace;
    TrimEndStep(d, s);
    TrimEndStep(d, solid + s);
    if s == "" {
      assert solid + s == solid;
    } else if IsSpace(d, s[|s| - 1]) {
      assert (solid + s)[..|solid + s| - 1] == solid + s[..|s| - 1];
      TrimEndInto(d, solid, s[..|s| - 1]);
    }
  }

  lemma {:induction false} TrimStartBlank(d: Dialect, s: string)
    ensures TrimStart(d, s) == "" <==> Blank(d, s)
  {
    if s != "" && IsSpace(d, s[0]) {
      TrimStartBlank(d, s[1..]);
      assert Blank(d, s[1..]) ==> Blank(d, s) by {
        if Blank(d, s[1..]) {
          forall k | 0 <= k < |s| ensures IsSpace(d, s[k]) { if k > 0 { assert s[k] == s[1..][k - 1]; } }
        }
      }
    }
  }

  lemma {:induction false} TrimEndBlank(d: Dialect, s: string)
    requires Blank(d, s)
    ensures TrimEnd(d, s) == ""
  {
    if s != "" { TrimEndBlank(d, s[..|s| - 1]); }
  }

  lemma TrimStartDropsBlank(d: Dialect, space: string, solid: string)
    requires Blank(d, space) && solid != "" && !IsSpace(d, solid[0])
    ensures TrimStart(d, space + solid) == solid
  {
    hide TrimStart;
    TrimStartInto(d, space, solid);
    TrimStartBlank(d, space);
  }

  lemma TrimEndPieces(d: Dialect, space: string, solid: string)
    requires solid != "" && !IsSpace(d, solid[0])
    ensures TrimEnd(d, space + solid) == space + TrimEnd(d, solid)
    ensures TrimEnd(d, solid) != "" && TrimEnd(d, solid)[0] == solid[0]
  {
    hide TrimEnd;
    var first, rest := [solid[0]], solid[1..];
    assert solid == first + rest;
    assert space + solid == (space + first) + rest;
    TrimEndInto(d, space + first, rest);
    TrimEndInto(d, first, rest);
    assert (space + first) + TrimEnd(d, rest) == space + (first + TrimEnd(d, rest));
  }

  /** Trimming the end first changes nothing. */
  lemma TrimEndThenTrim(d: Dialect, s: string)
    ensures Trim(d, TrimEnd(d, s)) == Trim(d, s)
  {
    hide TrimStart, TrimEnd, Blank, IsSpace;
    var solid := TrimStart(d, s);
    var space := s[..|s| - |solid|];
    if solid == "" {
      TrimStartBlank(d, s);
      TrimEndBlank(d, s);
    } else {
      assert s == space + solid;
      TrimEndPieces(d, space, solid);
      TrimStartLead(d, s);
      TrimStartDropsBlank(d, space, TrimEnd(d, solid));
      TrimEndTwice(d, solid);
    }
  }

  lemma {:induction false} TrimEndTwice(d: Dialect, s: string)
    ensures TrimEnd(d, TrimEnd(d, s)) == TrimEnd(d, s)
  {
  }

  lemma {:induction false} TrimStartLead(d: Dialect, s: string)
    ensures Blank(d, s[..|s| - |TrimStart(d, s)|])
  {
    if s != "" && IsSpace(d, s[0]) {
      TrimStartLead(d, s[1..]);
      var n := |s| - |TrimStart(d, s)|;
      forall k | 0 <= k < n ensures IsSpace(d, s[..n][k]) {
        if k > 0 { assert s[..n][k] == s[1..][..n - 1][k - 1]; }
      }
    }
  }

  lemma TrimSolidEnd(d: Dialect, s: string)
    requires s != "" && !IsSpace(d, s[|s| - 1])
    ensures Trim(d, s) == TrimStart(d, s)
  {
    hide TrimStart;
    TrimStartKeeps(d, s, |s| - 1);
  }

  /** Blanks around a trimmed text go, and nothing else. */
  lemma TrimPadded(d: Dialect, before: string, text: string, behind: string)
    requires Blank(d, before) && Blank(d, behind) && Trimmed(d, text)
    ensures Trim(d, before + text + behind) == text
  {
    hide TrimStart, TrimEnd, IsSpace;
    var padded := before + text + behind;
    if text == "" {
      assert Blank(d, padded);
      TrimStartBlank(d, padded);
      TrimEndBlank(d, "");
    } else {
      assert padded == before + (text + behind);
      TrimStartDropsBlank(d, before, text + behind);
      TrimEndInto(d, text, behind);
      TrimEndBlank(d, behind);
    }
  }

  /** Every text is its trimmed self between blanks. */
  lemma TrimSplits(d: Dialect, s: string) returns (before: string, behind: string)
    ensures Blank(d, before) && Blank(d, behind) && s == before + Trim(d, s) + behind
  {
    hide TrimStart, TrimEnd, IsSpace;
    var solid := TrimStart(d, s);
    before, behind := s[..|s| - |solid|], solid[|TrimEnd(d, solid)|..];
    TrimStartLead(d, s);
    TrimEndTail(d, solid);
  }

  lemma {:induction false} TrimEndTail(d: Dialect, s: string)
    ensures Blank(d, s[|TrimEnd(d, s)|..])
  {
    if s != "" && IsSpace(d, s[|s| - 1]) {
      TrimEndTail(d, s[..|s| - 1]);
      var n := |TrimEnd(d, s)|;
      forall k | 0 <= k < |s[n..]| ensures IsSpace(d, s[n..][k]) {
        if n + k < |s| - 1 { assert s[n..][k] == s[..|s| - 1][n..][k]; }
      }
    }
  }

  /** Blanks put around a text do not change what trimming leaves. */
  lemma TrimIgnoresPadding(d: Dialect, before: string, s: string, behind: string)
    requires Blank(d, before) && Blank(d, behind)
    ensures Trim(d, before + s + behind) == Trim(d, s)
  {
    hide Trim;
    var x, y := TrimSplits(d, s);
    var t := Trim(d, s);
    TrimOfTrimmed(d, t);
    assert before + (x + t + y) + behind == (before + x) + t + (y + behind);
    TrimPadded(d, before + x, t, y + behind);
  }

  function Lead(d: Dialect, s: string): nat {
    |s| - |TrimStart(d, s)|
  }

  lemma TrimIsSlice(d: Dialect, s: string)
    ensures Lead(d, s) + |Trim(d, s)| <= |s| && Trim(d, s) == s[Lead(d, s)..Lead(d, s) + |Trim(d, s)|]
  {
    hide TrimStart, TrimEnd;
  }

  lemma TrimPrefixKeeps(d: Dialect, s: string, i: nat, k: nat)
    requires k < |s| && i <= |s| && !IsSpace(d, s[0]) && !IsSpace(d, s[k])
    ensures i > k ==> |Trim(d, s[..i])| > k
  {
    if i > k { TrimKeeps(d, s[..i], k); }
  }

  /** `pat` occurs in `s` at position `i`. */
  predicate At(s: string, pat: string, i: nat) {
    i + |pat| <= |s| && s[i..i + |pat|] == pat
  }

  /** Position of the first occurrence. */
  function Find(s: string, pat: string): (r: Option<nat>)
    ensures r.Some? ==> At(s, pat, r.value) && forall j: nat :: j < r.value ==> !At(s, pat, j)
    ensures r.None? ==> forall j: nat :: !At(s, pat, j)
  {
    FindFrom(s, pat, 0)
  }

  function FindFrom(s: string, pat: string, i: nat): (r: Option<nat>)
    ensures r.Some? ==> r.value >= i && At(s, pat, r.value) && forall j: nat :: i <= j < r.value ==> !At(s, pat, j)
    ensures r.None? ==> forall j: nat :: i <= j ==> !At(s, pat, j)
    decreases |s| - i
  {
    if i + |pat| > |s| then None
    else if At(s, pat, i) then Some(i)
    else FindFrom(s, pat, i + 1)
  }

  predicate Contains(s: string, pat: string) {
    Find(s, pat).Some?
  }

  lemma FindIs(s: string, pat: string, i: nat)
    requires At(s, pat, i) && forall j: nat :: j < i ==> !At(s, pat, j)
    ensures Find(s, pat) == Some(i)
  {
  }

  /** One-character patterns occur exactly where the character does. */
  lemma AtChar(s: string, c: char, i: nat)
    ensures At(s, [c], i) <==> i < |s| && s[i] == c
  {
    if i < |s| {
      assert s[i..i + 1] == [s[i]];
    }
  }

  lemma AtPair(s: string, a: char, b: char, i: nat)
    ensures At(s, [a, b], i) <==> i + 1 < |s| && s[i] == a && s[i + 1] == b
  {
    if i + 1 < |s| {
      assert s[i..i + 2] == [s[i], s[i + 1]];
    }
  }

  lemma FindChar(s: string, c: char)
    ensures Find(s, [c]).Some? <==> c in s
    ensures c in s ==> var i := Find(s, [c]).value; i < |s| && s[i] == c && c !in s[..i]
  {
    forall i: nat ensures At(s, [c], i) <==> i < |s| && s[i] == c { AtChar(s, c, i); }
    if c in s {
      var i :| 0 <= i < |s| && s[i] == c;
      assert At(s, [c], i);
    }
  }

  lemma FindCharIs(s: string, c: char, i: nat)
    requires i < |s| && s[i] == c && c !in s[..i]
    ensures Find(s, [c]) == Some(i)
  {
    forall j: nat ensures At(s, [c], j) <==> j < |s| && s[j] == c { AtChar(s, c, j); }
    forall j: nat | j < i ensures !At(s, [c], j) { assert s[..i][j] == s[j]; }
    FindIs(s, [c], i);
  }

  function Split(s: string, sep: string): (r: seq<string>)
    requires sep != ""
    ensures |r| >= 1
    decreases |s|
  {
    match Find(s, sep)
    case None => [s]
    case Some(i) => [s[..i]] + Split(s[i + |sep|..], sep)
  }

  function Join(parts: seq<string>, sep: string): string {
    if parts == [] then ""
    else if |parts| == 1 then parts[0]
    else parts[0] + sep + Join(parts[1..], sep)
  }

  lemma {:induction false} JoinSplit(s: string, sep: string)
    requires sep != ""
    ensures Join(Split(s, sep), sep) == s
    decreases |s|
  {
    match Find(s, sep)
    case None =>
    case Some(i) =>
      var rest := Split(s[i + |sep|..], sep);
      JoinSplit(s[i + |sep|..], sep);
      assert ([s[..i]] + rest)[1..] == rest;
      assert s == s[..i] + s[i..i + |sep|] + s[i + |sep|..];
  }

  /** Splitting off the first field and joining the others again cuts at the first separator. */
  lemma SplitHeadTail(s: string, sep: string)
    requires sep != ""
    ensures |Split(s, sep)| >= 2 <==> Contains(s, sep)
    ensures Contains(s, sep) ==>
              var i := Find(s, sep).value;
              Split(s, sep)[0] == s[..i] && Join(Split(s, sep)[1..], sep) == s[i + |sep|..]
  {
    match Find(s, sep)
    case None =>
    case Some(i) =>
      JoinSplit(s[i + |sep|..], sep);
      assert Split(s, sep)[1..] == Split(s[i + |sep|..], sep);
  }

  lemma {:induction false} SplitOfJoin(parts: seq<string>, c: char)
    requires parts != []
    requires forall p :: p in parts ==> c !in p
    ensures Split(Join(parts, [c]), [c]) == parts
  {
    var s := Join(parts, [c]);
    if |parts| == 1 {
      FindChar(s, c);
    } else {
      var i := |parts[0]|;
      assert s[..i] == parts[0];
      FindCharIs(s, c, i);
      assert s[i + 1..] == Join(parts[1..], [c]);
      SplitOfJoin(parts[1..], c);
      assert parts == [parts[0]] + parts[1..];
    }
  }

  lemma {:induction false} JoinAppend(a: seq<string>, b: seq<string>, sep: string)
    requires a != [] && b != []
    ensures Join(a + b, sep) == Join(a, sep) + sep + Join(b, sep)
  {
    if |a| == 1 {
      assert (a + b)[1..] == b;
    } else {
      assert (a + b)[1..] == a[1..] + b;
      JoinAppend(a[1..], b, sep);
    }
  }

  /** Every occurrence, from left to right and without overlaps. */
  function ReplaceAll(s: string, pat: string, with: string): string
    requires pat != ""
    decreases |s|
  {
    match Find(s, pat)
    case None => s
    case Some(i) => s[..i] + with + ReplaceAll(s[i + |pat|..], pat, with)
  }

  /** Replacing is cutting at the pattern and joining with the other text. */
  lemma {:induction false} ReplaceIsJoin(s: string, pat: string, with: string)
    requires pat != ""
    ensures ReplaceAll(s, pat, with) == Join(Split(s, pat), with)
    decreases |s|
  {
    match Find(s, pat)
    case None =>
    case Some(i) =>
      ReplaceIsJoin(s[i + |pat|..], pat, with);
      assert ([s[..i]] + Split(s[i + |pat|..], pat))[1..] == Split(s[i + |pat|..], pat);
  }

  function DropCarriageReturn(line: string): string {
    if line != "" && line[|line| - 1] == '\r' then line[..|line| - 1] else line
  }

  predicate LineFree(s: string) {
    '\n' !in s
  }

  function ToLower(s: string): (r: string)
    ensures |r| == |s|
    ensures forall k :: 0 <= k < |s| ==> r[k] == if 'A' <= s[k] <= 'Z' then s[k] - 'A' + 'a' else s[k]
  {
    seq(|s|, k requires 0 <= k < |s| => if 'A' <= s[k] <= 'Z' then s[k] - 'A' + 'a' else s[k])
  }

  predicate StartsWith(s: string, prefix: string) {
    prefix <= s
  }

  /** Every occurrence of one character, from left to right. */
  function ReplaceChar(s: string, c: char, with: string): string {
    if s == "" then ""
    else (if s[0] == c then with else [s[0]]) + ReplaceChar(s[1..], c, with)
  }

  lemma {:induction false} ReplaceCharAppend(a: string, b: string, c: char, with: string)
    ensures ReplaceChar(a + b, c, with) == ReplaceChar(a, c, with) + ReplaceChar(b, c, with)
  {
    if a == "" {
      assert a + b == b;
    } else {
      assert (a + b)[1..] == a[1..] + b;
      ReplaceCharAppend(a[1..], b, c, with);
    }
  }

  lemma {:induction false} ReplaceCharAbsent(s: string, c: char, with: string)
    requires c !in s
    ensures ReplaceChar(s, c, with) == s
  {
    if s != "" { ReplaceCharAbsent(s[1..], c, with); }
  }

  predicate IsDigit(c: char) {
    '0' <= c <= '9'
  }

  predicate AllDigits(s: string) {
    forall k :: 0 <= k < |s| ==> IsDigit(s[k])
  }

  /** Decimal notation without leading zeros. */
  function Decimal(n: nat): (r: string)
    ensures r != "" && AllDigits(r)
  {
    if n < 10 then ['0' + n as char] else Decimal(n / 10) + ['0' + (n % 10) as char]
  }

  function DecimalValue(s: string): nat
    requires AllDigits(s)
  {
    if s == "" then 0 else DecimalValue(s[..|s| - 1]) * 10 + (s[|s| - 1] - '0') as nat
  }

  lemma {:induction false} DecimalRoundTrip(n: nat)
    ensures DecimalValue(Decimal(n)) == n
  {
    if n >= 10 {
      DecimalRoundTrip(n / 10);
      var front, s := Decimal(n / 10), Decimal(n);
      assert s[..|s| - 1] == front && s[|s| - 1] == '0' + (n % 10) as char;
    }
  }
}
