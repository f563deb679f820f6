/** Structured account ids: printing them, reading them back, and finding the account they belong to. */
module AccountIdentity {
  import opened Text

  function NormalizeNonEmpty(value: Option<string>): (r: Option<string>)
    ensures r.Some? ==> r.value != "" && Trimmed(Rust, r.value)
  {
    match value
    case None => None
    case Some(v) => if Trim(Rust, v) == "" then None else Some(Trim(Rust, v))
  }

  function NormalizeIdPart(value: Option<string>): Option<string> {
    match NormalizeNonEmpty(value)
    case None => None
    case Some(raw) => Some(ReplaceAll(raw, "::", "_"))
  }

  /** Blanks around an id do not count, blank is as good as missing, and every `::` inside becomes `_`. */
  lemma PartIsCleaned(before: string, text: string, behind: string)
    requires Blank(Rust, before) && Blank(Rust, behind) && Trimmed(Rust, text)
    ensures NormalizeNonEmpty(Some(before + text + behind)) == if text == "" then None else Some(text)
    ensures NormalizeIdPart(Some(before + text + behind))
         == if text == "" then None else Some(Join(Split(text, "::"), "_"))
  {
    hide Trim, ReplaceAll;
    TrimPadded(Rust, before, text, behind);
    ReplaceIsJoin(text, "::", "_");
  }

  predicate SameNormalized(lhs: Option<string>, rhs: Option<string>) {
    NormalizeNonEmpty(lhs) == NormalizeNonEmpty(rhs)
  }

  // ------------------------------------------------------------- printing

  /** The parts of a storage id after normalisation. */
  datatype Identity = Identity(base: string, chatgpt: Option<string>, workspace: Option<string>, tag: Option<string>)

  function ScopeHint(chatgpt: Option<string>, workspace: Option<string>): Option<string> {
    match (chatgpt, workspace)
    case (Some(c), Some(w)) => if c != w then Some("cgpt=" + c + "|ws=" + w) else Some("cgpt=" + c)
    case (Some(c), None) => Some("cgpt=" + c)
    case (None, Some(w)) => Some("ws=" + w)
    case (None, None) => None
  }

  function BuildScopeIdentityHint(chatgptAccountId: Option<string>, workspaceId: Option<string>): Option<string> {
    ScopeHint(NormalizeIdPart(chatgptAccountId), NormalizeIdPart(workspaceId))
  }

  lemma JoinOne(a: string)
    ensures Join([a], "|") == a
  {
  }

  lemma JoinTwo(a: string, b: string)
    ensures Join([a] + [b], "|") == a + "|" + b
  {
    assert ([a] + [b])[1..] == [b];
  }

  method BuildAccountStorageId(subjectAccountId: string, chatgptAccountId: Option<string>, workspaceId: Option<string>,
                               tags: Option<string>) returns (id: string)
    ensures id == Print(Normal(subjectAccountId, chatgptAccountId, workspaceId, tags))
  {
    hide NormalizeIdPart, Trim, Join;
    var base := Trim(Rust, subjectAccountId);
    var suffixParts: seq<string> := [];
    var hint := BuildScopeIdentityHint(chatgptAccountId, workspaceId);
    if hint.Some? {
      suffixParts := suffixParts + [hint.value];
    }
    var tag := NormalizeIdPart(tags);
    if tag.Some? {
      suffixParts := suffixParts + [tag.value];
    }
    if suffixParts == [] {
      return base;
    }
    if hint.Some? && tag.Some? {
      JoinTwo(hint.value, tag.value);
      assert suffixParts == [hint.value] + [tag.value];
    } else {
      JoinOne(suffixParts[0]);
      assert suffixParts == [suffixParts[0]];
    }
    return base + "::" + Join(suffixParts, "|");
  }

  /** A workspace equal to the chatgpt id is not printed. */
  function Normal(subject: string, chatgpt: Option<string>, workspace: Option<string>, tags: Option<string>): Identity {
    var c, w := NormalizeIdPart(chatgpt), NormalizeIdPart(workspace);
    Identity(Trim(Rust, subject), c, if c.Some? && w == c then None else w, NormalizeIdPart(tags))
  }

  predicate HasSuffix(n: Identity) {
    n.chatgpt.Some? || n.workspace.Some? || n.tag.Some?
  }

  function Suffix(n: Identity): string {
    match (ScopeHint(n.chatgpt, n.workspace), n.tag)
    case (None, None) => ""
    case (None, Some(tag)) => tag
    case (Some(hint), None) => hint
    case (Some(hint), Some(tag)) => hint + "|" + tag
  }

  function Print(n: Identity): string {
    if HasSuffix(n) then n.base + "::" + Suffix(n) else n.base
  }

  // ----------------------------------------------------------- reading back

  /** `text` up to the first bar, and what follows it if there is one. */
  function Cut(text: string): (string, Option<string>) {
    match Find(text, "|")
    case None => (text, None)
    case Some(i) => (text[..i], Some(text[i + 1..]))
  }

  function ReadWorkspace(base: string, chatgpt: Option<string>, rest: Option<string>): Identity {
    if rest.Some? && StartsWith(rest.value, "ws=") then
      var (workspace, tag) := Cut(rest.value[3..]);
      Identity(base, chatgpt, Some(workspace), tag)
    else Identity(base, chatgpt, None, rest)
  }

  function ReadSuffix(base: string, suffix: string): Identity {
    if StartsWith(suffix, "cgpt=") then
      var (chatgpt, rest) := Cut(suffix[5..]);
      ReadWorkspace(base, Some(chatgpt), rest)
    else ReadWorkspace(base, None, Some(suffix))
  }

  function Read(id: string): Identity {
    match Find(id, "::")
    case None => Identity(id, None, None, None)
    case Some(i) => ReadSuffix(id[..i], id[i + 2..])
  }

  // ------------------------------------------------- exactly when ids read back

  predicate NoBar(part: Option<string>) {
    part.Some? ==> '|' !in part.value
  }

  predicate BaseReads(n: Identity) {
    && !Contains(n.base, "::")
    && (HasSuffix(n) && n.base != "" ==> n.base[|n.base| - 1] != ':')
  }

  /** The tag is not mistaken for a scope field that is absent. */
  predicate TagReads(n: Identity) {
    n.tag.Some? && n.workspace.None? ==>
      !StartsWith(n.tag.value, "ws=") && (n.chatgpt.None? ==> !StartsWith(n.tag.value, "cgpt="))
  }

  predicate Readable(n: Identity) {
    BaseReads(n) && NoBar(n.chatgpt) && NoBar(n.workspace) && TagReads(n)
  }

  predicate Collapsed(n: Identity) {
    n.chatgpt.Some? ==> n.workspace != n.chatgpt
  }

  function Field(value: string, rest: Option<string>): string {
    if rest.Some? then value + "|" + rest.value else value
  }

  lemma CutField(value: string, rest: Option<string>)
    ensures Cut(Field(value, rest)) == (value, rest) <==> '|' !in value
    ensures '|' in value ==> Cut(Field(value, rest)).0 != value
  {
    hide FindFrom;
    var text := Field(value, rest);
    FindChar(text, '|');
    if '|' !in value {
      if rest.Some? {
        assert text[..|value|] == value && text[|value| + 1..] == rest.value;
        FindCharIs(text, '|', |value|);
      }
    } else {
      var k :| 0 <= k < |value| && value[k] == '|';
      assert text[k] == '|';
    }
  }

  /** What follows the chatgpt field. */
  function WorkspaceField(n: Identity): Option<string> {
    if n.workspace.Some? then Some("ws=" + Field(n.workspace.value, n.tag)) else n.tag
  }

  lemma SuffixIs(n: Identity)
    requires Collapsed(n) && HasSuffix(n)
    ensures n.chatgpt.Some? ==> Suffix(n) == "cgpt=" + Field(n.chatgpt.value, WorkspaceField(n))
    ensures n.chatgpt.None? ==> WorkspaceField(n) == Some(Suffix(n))
  {
    if n.chatgpt.Some? && n.workspace.Some? && n.tag.Some? {
      var c, w, t := n.chatgpt.value, n.workspace.value, n.tag.value;
      assert ("cgpt=" + c + "|ws=" + w) + "|" + t == "cgpt=" + (c + "|" + ("ws=" + (w + "|" + t)));
    } else if n.chatgpt.Some? && n.workspace.Some? {
      var c, w := n.chatgpt.value, n.workspace.value;
      assert "cgpt=" + c + "|ws=" + w == "cgpt=" + (c + "|" + ("ws=" + w));
    } else if n.workspace.Some? && n.tag.Some? {
      var w, t := n.workspace.value, n.tag.value;
      assert ("ws=" + w) + "|" + t == "ws=" + (w + "|" + t);
    } else if n.chatgpt.Some? && n.tag.Some? {
      var c, t := n.chatgpt.value, n.tag.value;
      assert ("cgpt=" + c) + "|" + t == "cgpt=" + (c + "|" + t);
    }
  }

  lemma ReadWorkspaceExact(base: string, n: Identity)
    ensures ReadWorkspace(base, n.chatgpt, WorkspaceField(n)) == n.(base := base) <==>
              NoBar(n.workspace) && (n.tag.Some? && n.workspace.None? ==> !StartsWith(n.tag.value, "ws="))
  {
    hide Cut, Field;
    if n.workspace.Some? {
      var field := Field(n.workspace.value, n.tag);
      assert ("ws=" + field)[3..] == field;
      CutField(n.workspace.value, n.tag);
    }
  }

  lemma ReadSuffixExact(base: string, n: Identity)
    requires Collapsed(n) && HasSuffix(n)
    ensures ReadSuffix(base, Suffix(n)) == n.(base := base) <==> NoBar(n.chatgpt) && NoBar(n.workspace) && TagReads(n)
  {
    hide Cut, Field, ReadWorkspace, Suffix;
    SuffixIs(n);
    ReadWorkspaceExact(base, n);
    if n.chatgpt.Some? {
      var field := Field(n.chatgpt.value, WorkspaceField(n));
      assert ("cgpt=" + field)[5..] == field;
      CutField(n.chatgpt.value, WorkspaceField(n));
      ReadKeepsChatgpt(base, Some(Cut(field).0), Cut(field).1);
    } else {
      assert n.workspace.Some? ==> Suffix(n)[0] == 'w';
      if StartsWith(Suffix(n), "cgpt=") {
        var (chatgpt, rest) := Cut(Suffix(n)[5..]);
        ReadKeepsChatgpt(base, Some(chatgpt), rest);
      }
    }
  }

  lemma ReadKeepsChatgpt(base: string, chatgpt: Option<string>, rest: Option<string>)
    ensures ReadWorkspace(base, chatgpt, rest).chatgpt == chatgpt
  {
  }

  lemma FindColons(base: string, suffix: string)
    ensures var id := base + "::" + suffix;
            Find(id, "::") == Some(|base|) <==> !Contains(base, "::") && (base != "" ==> base[|base| - 1] != ':')
    ensures Contains(base + "::" + suffix, "::") && Find(base + "::" + suffix, "::").value <= |base|
  {
    var id := base + "::" + suffix;
    assert id[|base|..|base| + 2] == "::";
    assert At(id, "::", |base|);
    forall j: nat ensures j + 2 <= |base| ==> (At(base, "::", j) <==> At(id, "::", j)) {
      if j + 2 <= |base| { assert base[j..j + 2] == id[j..j + 2]; }
    }
    if base != "" {
      var j := |base| - 1;
      assert id[j..j + 2] == [base[j], ':'];
      assert At(id, "::", j) <==> base[j] == ':';
    }
  }

  /**
   * Reading a printed id gives back its parts exactly when the base can be told from the suffix, no
   * scope field holds a bar, and the tag does not look like a missing scope field. In particular two
   * readable identities with the same storage id are the same.
   */
  lemma ReadsBackExactly(n: Identity)
    requires Collapsed(n)
    ensures Read(Print(n)) == n <==> Readable(n)
  {
    hide ReadSuffix, Suffix, Find, Contains;
    var id := Print(n);
    if HasSuffix(n) {
      FindColons(n.base, Suffix(n));
      ReadSuffixExact(n.base, n);
      var i := Find(id, "::").value;
      ReadSuffixBase(id[..i], id[i + 2..]);
      if i == |n.base| {
        assert id[..i] == n.base && id[i + 2..] == Suffix(n);
      }
    } else {
      NoSuffixReads(n.base);
    }
  }

  lemma ReadSuffixBase(base: string, suffix: string)
    ensures ReadSuffix(base, suffix).base == base
  {
  }

  lemma NoSuffixReads(base: string)
    ensures Read(base) == Identity(base, None, None, None) <==> !Contains(base, "::")
  {
    if Contains(base, "::") {
      var i := Find(base, "::").value;
      ReadSuffixBase(base[..i], base[i + 2..]);
    }
  }

  /** Equal storage ids of readable accounts come from equal base, scope and tag. */
  lemma StorageIdsDecodeUniquely(a: Identity, b: Identity)
    requires Collapsed(a) && Collapsed(b) && Readable(a) && Readable(b)
    requires Print(a) == Print(b)
    ensures a == b
  {
    ReadsBackExactly(a);
    ReadsBackExactly(b);
  }

  // ------------------------------------------------------- shared storage ids

  predicate Part(text: string) {
    text != "" && Trimmed(Rust, text) && !Contains(text, "::")
  }

  predicate PartIfAny(part: Option<string>) {
    part.Some? ==> Part(part.value)
  }

  /** What normalisation can yield. */
  predicate Possible(n: Identity) {
    Collapsed(n) && Trimmed(Rust, n.base) && PartIfAny(n.chatgpt) && PartIfAny(n.workspace) && PartIfAny(n.tag)
  }

  lemma NoColonsGlued(a: string, sep: char, b: string)
    requires !Contains(a, "::") && !Contains(b, "::") && sep != ':'
    ensures !Contains(a + [sep] + b, "::")
  {
    hide FindFrom;
    var s, n := a + [sep] + b, |a|;
    forall j: nat ensures !At(s, "::", j) {
      AtPair(s, ':', ':', j);
      AtPair(a, ':', ':', j);
      if j > n { AtPair(b, ':', ':', j - n - 1); }
    }
  }

  lemma GluedPart(a: string, sep: char, b: string)
    requires a != "" && !IsSpace(Rust, a[0]) && !Contains(a, "::") && sep != ':' && Part(b)
    ensures Part(a + [sep] + b)
  {
    hide IsSpace, Contains;
    NoColonsGlued(a, sep, b);
    assert (a + [sep] + b)[0] == a[0] && (a + [sep] + b)[|a| + |b|] == b[|b| - 1];
  }

  lemma {:induction false} ReplacedHasNoColons(s: string)
    ensures !Contains(ReplaceAll(s, "::", "_"), "::")
    ensures s != "" ==>
              var r := ReplaceAll(s, "::", "_");
              r != "" && (r[0] == s[0] || r[0] == '_') && (r[|r| - 1] == s[|s| - 1] || r[|r| - 1] == '_')
    decreases |s|
  {
    hide FindFrom;
    match Find(s, "::")
    case None =>
    case Some(i) =>
      var rest := s[i + 2..];
      ReplacedHasNoColons(rest);
      SliceHasNoColonsBefore(s, i);
      NoColonsGlued(s[..i], '_', ReplaceAll(rest, "::", "_"));
  }

  lemma SliceHasNoColonsBefore(s: string, i: nat)
    requires Find(s, "::") == Some(i)
    ensures i <= |s| && !Contains(s[..i], "::")
  {
    forall j: nat ensures !At(s[..i], "::", j) {
      AtPair(s[..i], ':', ':', j);
      AtPair(s, ':', ':', j);
    }
  }

  lemma NormalPart(value: Option<string>)
    ensures PartIfAny(NormalizeIdPart(value))
  {
    hide Trim, Contains, ReplaceAll;
    if NormalizeNonEmpty(value).Some? {
      ReplacedHasNoColons(NormalizeNonEmpty(value).value);
    }
  }

  lemma NormalIsPossible(subject: string, chatgpt: Option<string>, workspace: Option<string>, tags: Option<string>)
    ensures Possible(Normal(subject, chatgpt, workspace, tags))
  {
    hide NormalizeIdPart, Part;
    NormalPart(chatgpt);
    NormalPart(workspace);
    NormalPart(tags);
  }

  lemma PartIsNormal(part: Option<string>)
    requires PartIfAny(part)
    ensures NormalizeIdPart(part) == part
  {
  }

  lemma PossibleIsNormal(n: Identity)
    requires Possible(n)
    ensures Normal(n.base, n.chatgpt, n.workspace, n.tag) == n
  {
    hide NormalizeIdPart, Part;
    PartIsNormal(n.chatgpt);
    PartIsNormal(n.workspace);
    PartIsNormal(n.tag);
    TrimOfTrimmed(Rust, n.base);
  }

  lemma FieldIsPart(value: string, rest: Option<string>)
    requires Part(value) && PartIfAny(rest)
    ensures Part(Field(value, rest))
  {
    hide Contains, IsSpace;
    if rest.Some? { GluedPart(value, '|', rest.value); }
  }

  lemma NoColonInside(s: string)
    requires ':' !in s
    ensures !Contains(s, "::")
  {
    ColonsHaveColon(s);
  }

  /** A printed suffix is a text that could also be a tag. */
  lemma SuffixIsPart(n: Identity)
    requires Possible(n) && HasSuffix(n)
    ensures Part(Suffix(n))
  {
    hide Part, Field, Suffix, Contains;
    SuffixIs(n);
    NoColonInside("cgpt");
    NoColonInside("ws");
    if n.workspace.Some? {
      var field := Field(n.workspace.value, n.tag);
      FieldIsPart(n.workspace.value, n.tag);
      GluedPart("ws", '=', field);
      assert "ws" + ['='] + field == "ws=" + field;
    }
    if n.chatgpt.Some? {
      var field := Field(n.chatgpt.value, WorkspaceField(n));
      FieldIsPart(n.chatgpt.value, WorkspaceField(n));
      GluedPart("cgpt", '=', field);
      assert "cgpt" + ['='] + field == "cgpt=" + field;
    }
  }

  /** The subject can be cut so that its end could be a tag. */
  predicate SplitsAt(base: string, i: nat) {
    At(base, "::", i) && Trimmed(Rust, base[..i]) && Part(base[i + 2..])
  }

  /** Another account with this one's storage id. */
  predicate Shares(n: Identity, m: Identity) {
    Possible(m) && m != n && Print(m) == Print(n)
  }

  lemma PrintedIsTrimmed(n: Identity)
    requires Possible(n) && HasSuffix(n)
    ensures Trimmed(Rust, Print(n))
  {
    hide Suffix, Contains;
    SuffixIsPart(n);
    var id := Print(n);
    assert id[|id| - 1] == Suffix(n)[|Suffix(n)| - 1];
    assert id[0] == if n.base == "" then ':' else n.base[0];
  }

  lemma SubjectShares(n: Identity)
    requires Possible(n) && HasSuffix(n)
    ensures Shares(n, Identity(Print(n), None, None, None))
  {
    hide Suffix, Contains, Part;
    PrintedIsTrimmed(n);
  }

  lemma SharedBySplit(n: Identity, m: Identity)
    requires !HasSuffix(n) && Shares(n, m)
    ensures SplitsAt(n.base, |m.base|)
  {
    hide Suffix, Contains, Part;
    if !HasSuffix(m) {
      assert false;
    } else {
      SuffixIsPart(m);
      var i := |m.base|;
      assert n.base == m.base + "::" + Suffix(m);
      assert n.base[..i] == m.base && n.base[i..i + 2] == "::" && n.base[i + 2..] == Suffix(m);
    }
  }

  /** The other subject is the whole id, or the other tag is what this subject ends with. */
  lemma SharedAnywhere(n: Identity)
    requires Possible(n)
    ensures (exists m :: Shares(n, m)) <==> HasSuffix(n) || exists i: nat :: SplitsAt(n.base, i)
  {
    hide Shares, SplitsAt, Possible, HasSuffix;
    if HasSuffix(n) {
      SubjectShares(n);
    } else if i: nat :| SplitsAt(n.base, i) {
      var m := SplitShares(n, i);
    } else if m :| Shares(n, m) {
      SharedBySplit(n, m);
    }
  }

  lemma SplitShares(n: Identity, i: nat) returns (m: Identity)
    requires Possible(n) && !HasSuffix(n) && SplitsAt(n.base, i)
    ensures Shares(n, m)
  {
    hide Part;
    m := Identity(n.base[..i], None, None, Some(n.base[i + 2..]));
    assert n.base == n.base[..i] + "::" + n.base[i + 2..];
  }

  /** The tag reads as a scope field that normalisation would not change. */
  predicate SpellsScope(tag: string) {
    || (|tag| > 5 && StartsWith(tag, "cgpt=") && !IsSpace(Rust, tag[5]))
    || (|tag| > 3 && StartsWith(tag, "ws=") && !IsSpace(Rust, tag[3]))
  }

  predicate CanShare(n: Identity) {
    n.chatgpt.Some? || n.workspace.Some? || (n.tag.Some? && SpellsScope(n.tag.value))
  }

  lemma TailIsPart(text: string, k: nat)
    requires Part(text) && k < |text| && !IsSpace(Rust, text[k])
    ensures Part(text[k..])
  {
    hide IsSpace;
    assert text[k..] == text[k..|text|];
    SliceHasNoColons(text, k, |text|);
  }

  /** A scoped account gives way to an unscoped one, and an unscoped one to a scoped one. */
  function Twin(n: Identity): Identity {
    if n.chatgpt.Some? || n.workspace.Some? then Identity(n.base, None, None, Some(Suffix(n)))
    else if n.tag.Some? && StartsWith(n.tag.value, "cgpt=") then Identity(n.base, Some(n.tag.value[5..]), None, None)
    else if n.tag.Some? && StartsWith(n.tag.value, "ws=") then Identity(n.base, None, Some(n.tag.value[3..]), None)
    else n
  }

  lemma TwinShares(n: Identity)
    requires Possible(n) && CanShare(n)
    ensures Shares(n, Twin(n)) && HasSuffix(Twin(n)) && HasSuffix(n) && Twin(n).base == n.base
  {
    hide Contains, Part, IsSpace;
    if n.chatgpt.Some? || n.workspace.Some? {
      SuffixIsPart(n);
    } else {
      var tag := n.tag.value;
      TagTwin(n);
    }
  }

  lemma TagTwin(n: Identity)
    requires Possible(n) && n.chatgpt.None? && n.workspace.None? && n.tag.Some? && SpellsScope(n.tag.value)
    ensures Shares(n, Twin(n)) && HasSuffix(Twin(n))
  {
    hide Contains, Part, IsSpace;
    var tag := n.tag.value;
    if StartsWith(tag, "cgpt=") {
      CgptIsNotWs(tag);
      TailIsPart(tag, 5);
      assert tag == "cgpt=" + tag[5..];
    } else {
      TailIsPart(tag, 3);
      assert tag == "ws=" + tag[3..];
    }
  }

  lemma CgptIsNotWs(tag: string)
    requires StartsWith(tag, "cgpt=")
    ensures !StartsWith(tag, "ws=")
  {
    assert tag[0] == "cgpt="[0];
  }

  lemma SameSuffix(n: Identity, m: Identity)
    requires BaseReads(n) && BaseReads(m) && Print(n) == Print(m)
    ensures n.base == m.base && HasSuffix(n) == HasSuffix(m) && (HasSuffix(n) ==> Suffix(n) == Suffix(m))
  {
    hide FindFrom, Suffix;
    if HasSuffix(n) { FindColons(n.base, Suffix(n)); }
    if HasSuffix(m) { FindColons(m.base, Suffix(m)); }
    if HasSuffix(n) && HasSuffix(m) {
      var i := |n.base|;
      assert |m.base| == i;
      assert n.base == Print(n)[..i] == m.base;
      assert Suffix(n) == Print(n)[i + 2..] == Suffix(m);
    }
  }

  lemma ScopedSpells(m: Identity)
    requires Possible(m) && (m.chatgpt.Some? || m.workspace.Some?)
    ensures SpellsScope(Suffix(m))
  {
    hide Contains, IsSpace, Suffix;
    SuffixIs(m);
    if m.chatgpt.Some? {
      var field := Field(m.chatgpt.value, WorkspaceField(m));
      assert ("cgpt=" + field)[5] == m.chatgpt.value[0];
      assert ("cgpt=" + field)[..5] == "cgpt=";
    } else {
      var field := Field(m.workspace.value, m.tag);
      assert ("ws=" + field)[3] == m.workspace.value[0];
      assert ("ws=" + field)[..3] == "ws=";
    }
  }

  lemma SharedAmongSeparable(n: Identity)
    requires Possible(n) && BaseReads(n)
    ensures (exists m :: Shares(n, m) && BaseReads(m)) <==> CanShare(n)
  {
    hide Contains, Part, SpellsScope, Suffix, Twin, IsSpace;
    if CanShare(n) {
      TwinShares(n);
      assert BaseReads(Twin(n));
    }
    if m :| Shares(n, m) && BaseReads(m) {
      SameSuffix(n, m);
      if n.chatgpt.None? && n.workspace.None? {
        TagOnly(n);
        if m.chatgpt.None? && m.workspace.None? { TagOnly(m); } else { ScopedSpells(m); }
      }
    }
  }

  lemma TagOnly(n: Identity)
    requires n.chatgpt.None? && n.workspace.None?
    ensures n.tag.Some? ==> Suffix(n) == n.tag.value
    ensures n.tag.Some? <==> HasSuffix(n)
  {
  }

  /**
   * Over all inputs: another account gets the same storage id exactly if this one has a suffix (the
   * other's subject may spell the whole id), or its subject can be cut at two colons.
   */
  lemma StorageIdIsShared(subject: string, chatgpt: Option<string>, workspace: Option<string>, tags: Option<string>)
    ensures var n := Normal(subject, chatgpt, workspace, tags);
            (exists s, c, w, t :: Normal(s, c, w, t) != n && Print(Normal(s, c, w, t)) == Print(n)) <==>
              HasSuffix(n) || exists i: nat :: SplitsAt(n.base, i)
  {
    hide Normal, Print, Possible, HasSuffix, SplitsAt;
    var n := Normal(subject, chatgpt, workspace, tags);
    NormalIsPossible(subject, chatgpt, workspace, tags);
    SharedAnywhere(n);
    if s, c, w, t :| Normal(s, c, w, t) != n && Print(Normal(s, c, w, t)) == Print(n) {
      NormalIsPossible(s, c, w, t);
      assert Shares(n, Normal(s, c, w, t));
    }
    if m :| Shares(n, m) { PossibleIsNormal(m); }
  }

  /**
   * The same among subjects that can be told from their suffix: another such account gets the same
   * storage id exactly if this one has a scope, or a tag that spells one.
   */
  lemma ScopedIdIsShared(subject: string, chatgpt: Option<string>, workspace: Option<string>, tags: Option<string>)
    requires BaseReads(Normal(subject, chatgpt, workspace, tags))
    ensures var n := Normal(subject, chatgpt, workspace, tags);
            (exists s, c, w, t :: BaseReads(Normal(s, c, w, t)) && Normal(s, c, w, t) != n
                                  && Print(Normal(s, c, w, t)) == Print(n)) <==>
              CanShare(n)
  {
    hide Normal, Print, Possible, HasSuffix, CanShare, BaseReads;
    var n := Normal(subject, chatgpt, workspace, tags);
    NormalIsPossible(subject, chatgpt, workspace, tags);
    SharedAmongSeparable(n);
    if s, c, w, t :| BaseReads(Normal(s, c, w, t)) && Normal(s, c, w, t) != n && Print(Normal(s, c, w, t)) == Print(n) {
      NormalIsPossible(s, c, w, t);
      assert Shares(n, Normal(s, c, w, t));
    }
    if m :| Shares(n, m) && BaseReads(m) { PossibleIsNormal(m); }
  }

  /** Without the condition on tags two accounts collide. */
  lemma TagsCanCollide()
    ensures Print(Normal("s", Some("a"), Some("b"), None)) == Print(Normal("s", Some("a"), None, Some("ws=b")))
    ensures Normal("s", Some("a"), Some("b"), None) != Normal("s", Some("a"), None, Some("ws=b"))
  {
    hide NormalizeIdPart, Trim;
    var base := Trim(Rust, "s");
    SinglePart("a");
    SinglePart("b");
    SinglePart("ws=b");
    NoPart();
    assert Normal("s", Some("a"), Some("b"), None) == Identity(base, Some("a"), Some("b"), None);
    assert Normal("s", Some("a"), None, Some("ws=b")) == Identity(base, Some("a"), None, Some("ws=b"));
    assert "cgpt=" + "a" + "|ws=" + "b" == ("cgpt=" + "a") + "|" + "ws=b";
  }

  lemma NoPart()
    ensures NormalizeIdPart(None) == None
  {
  }

  lemma SinglePart(part: string)
    requires part != "" && Trimmed(Rust, part) && ':' !in part
    ensures NormalizeIdPart(Some(part)) == Some(part)
  {
    ColonsHaveColon(part);
  }

  lemma ColonsHaveColon(s: string)
    ensures Contains(s, "::") ==> ':' in s
  {
    if Contains(s, "::") {
      var i := Find(s, "::").value;
      assert s[i] == s[i..i + 2][0];
    }
  }

  // ------------------------------------------------------ the frontend's view

  /** The name the log page shows for an id it does not know. */
  function FallbackAccountNameFromId(accountId: string): string {
    var raw := Trim(JavaScript, accountId);
    if raw == "" then "" else NameBehindColons(raw)
  }

  function NameBehindColons(raw: string): string {
    match Find(raw, "::")
    case None => ""
    case Some(sep) => Trim(JavaScript, raw[sep + 2..])
  }

  lemma TrimPrinted(base: string, suffix: string)
    ensures Trim(JavaScript, base + "::" + suffix) == TrimStart(JavaScript, base) + "::" + TrimEnd(JavaScript, suffix)
  {
    hide TrimStart, TrimEnd;
    var id := base + "::" + suffix;
    TrimStartInto(JavaScript, base, "::" + suffix);
    assert id == base + ("::" + suffix);
    var b := TrimStart(JavaScript, base);
    assert b + ("::" + suffix) == (b + "::") + suffix;
    TrimEndInto(JavaScript, b + "::", suffix);
  }

  /**
   * The frontend shows the printed suffix, trimmed its own way. So it shows exactly that suffix if
   * and only if the suffix neither starts nor ends with a character only JavaScript calls a space.
   */
  lemma FallbackShowsSuffix(n: Identity)
    requires BaseReads(n)
    ensures HasSuffix(n) ==> FallbackAccountNameFromId(Print(n)) == Trim(JavaScript, Suffix(n))
    ensures !HasSuffix(n) ==> FallbackAccountNameFromId(Print(n)) == ""
    ensures FallbackAccountNameFromId(Print(n)) == Suffix(n) <==> Trimmed(JavaScript, Suffix(n))
  {
    hide FallbackAccountNameFromId, Suffix, Contains;
    if HasSuffix(n) {
      FallbackOfPrinted(n.base, Suffix(n));
    } else {
      FallbackOfBase(n.base);
      NoSuffix(n);
    }
  }

  lemma NameBehindPrinted(base: string, suffix: string)
    requires !Contains(base, "::") && (base != "" ==> base[|base| - 1] != ':')
    ensures NameBehindColons(base + "::" + suffix) == Trim(JavaScript, suffix)
  {
    hide Find, Contains, Trim;
    FindColons(base, suffix);
    assert (base + "::" + suffix)[|base| + 2..] == suffix;
  }

  lemma FallbackOfPrinted(base: string, suffix: string)
    requires !Contains(base, "::") && (base != "" ==> base[|base| - 1] != ':')
    ensures FallbackAccountNameFromId(base + "::" + suffix) == Trim(JavaScript, suffix)
  {
    hide Find, Contains, Trim, TrimStart, TrimEnd, IsSpace, NameBehindColons;
    TrimPrinted(base, suffix);
    SuffixOfBase(base, Lead(JavaScript, base));
    NameBehindPrinted(base[Lead(JavaScript, base)..], TrimEnd(JavaScript, suffix));
    TrimEndThenTrim(JavaScript, suffix);
  }

  lemma FallbackOfBase(base: string)
    requires !Contains(base, "::")
    ensures FallbackAccountNameFromId(base) == ""
  {
    hide FindFrom, Contains, Trim, TrimStart, TrimEnd, IsSpace;
    var raw := Trim(JavaScript, base);
    TrimIsSlice(JavaScript, base);
    SliceHasNoColons(base, Lead(JavaScript, base), Lead(JavaScript, base) + |raw|);
  }

  lemma NoSuffix(n: Identity)
    requires !HasSuffix(n)
    ensures Suffix(n) == ""
  {
  }

  lemma SliceHasNoColons(s: string, lo: nat, hi: nat)
    requires lo <= hi <= |s| && !Contains(s, "::")
    ensures Find(s[lo..hi], "::") == None
  {
    forall j: nat ensures !At(s[lo..hi], "::", j) {
      AtPair(s[lo..hi], ':', ':', j);
      AtPair(s, ':', ':', lo + j);
      assert !At(s, "::", lo + j);
    }
  }

  lemma SuffixOfBase(base: string, lo: nat)
    requires lo <= |base| && !Contains(base, "::")
    requires base != "" ==> base[|base| - 1] != ':'
    ensures !Contains(base[lo..], "::")
    ensures base[lo..] != "" ==> base[lo..][|base[lo..]| - 1] != ':'
  {
    assert base[lo..] == base[lo..|base|];
    SliceHasNoColons(base, lo, |base|);
  }
}
