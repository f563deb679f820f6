/** The updater's version order: three components, compared as 32-bit differences. */
module UpdateVersions {
  import opened Text

  function DropLeadingV(s: string): string {
    if s != "" && s[0] == 'v' then DropLeadingV(s[1..]) else s
  }

  function NormalizeVersion(value: string): string {
    DropLeadingV(Trim(Rust, value))
  }

  const MIN32 := -0x8000_0000
  const MAX32 := 0x7FFF_FFFF

  predicate Fits32(n: int) {
    MIN32 <= n <= MAX32
  }

  /** A sign and digits; anything else, and anything out of range, is no number. */
  function ParseI32(part: string): (r: Option<int>)
    ensures r.Some? ==> Fits32(r.value)
  {
    var negative := part != "" && part[0] == '-';
    var digits := if part != "" && (part[0] == '-' || part[0] == '+') then part[1..] else part;
    if digits == "" || !AllDigits(digits) then None
    else
      var magnitude: int := DecimalValue(digits);
      var n := if negative then -magnitude else magnitude;
      if Fits32(n) then Some(n) else None
  }

  function Component(part: string): (r: int)
    ensures Fits32(r)
  {
    if ParseI32(part).Some? then ParseI32(part).value else 0
  }

  datatype Version = Version(major: int, minor: int, patch: int)

  function ComponentAt(parts: seq<string>, k: nat): int {
    if k < |parts| then Component(parts[k]) else 0
  }

  function ParseVersion(value: string): Version {
    var parts := Split(NormalizeVersion(value), ".");
    Version(ComponentAt(parts, 0), ComponentAt(parts, 1), ComponentAt(parts, 2))
  }

  method ParseVersionParts(value: string) returns (out: array<int>)
    ensures fresh(out) && out.Length == 3
    ensures Version(out[0], out[1], out[2]) == ParseVersion(value)
  {
    hide NormalizeVersion, ParseI32;
    out := new int[3](_ => 0);
    var parts := Split(NormalizeVersion(value), ".");
    var index := 0;
    while index < 3 && index < |parts|
      invariant index <= 3 && index <= |parts|
      invariant forall k :: 0 <= k < index ==> out[k] == ComponentAt(parts, k)
      invariant forall k :: index <= k < 3 ==> out[k] == 0
    {
      out[index] := Component(parts[index]);
      index := index + 1;
    }
  }

  /** 32-bit subtraction as a release build does it. */
  function Subtract32(a: int, b: int): int {
    (a - b - MIN32) % 0x1_0000_0000 + MIN32
  }

  function At3(v: Version, k: nat): int {
    if k == 0 then v.major else if k == 1 then v.minor else v.patch
  }

  function CompareFrom(left: Version, right: Version, k: nat): int
    decreases 3 - k
  {
    if k >= 3 then 0
    else
      var delta := Subtract32(At3(left, k), At3(right, k));
      if delta != 0 then delta else CompareFrom(left, right, k + 1)
  }

  function Compare(left: Version, right: Version): int {
    CompareFrom(left, right, 0)
  }

  method CompareVersions(left: string, right: string) returns (r: int)
    ensures r == Compare(ParseVersion(left), ParseVersion(right))
  {
    hide ParseVersion;
    var leftParts := ParseVersionParts(left);
    var rightParts := ParseVersionParts(right);
    ghost var l, m := ParseVersion(left), ParseVersion(right);
    for index := 0 to 3
      invariant Compare(l, m) == CompareFrom(l, m, index)
      invariant Version(leftParts[0], leftParts[1], leftParts[2]) == l
      invariant Version(rightParts[0], rightParts[1], rightParts[2]) == m
    {
      var delta := Subtract32(leftParts[index], rightParts[index]);
      if delta != 0 {
        return delta;
      }
    }
    return 0;
  }

  // ------------------------------------------------------------- the order

  predicate Earlier(a: Version, b: Version) {
    a.major < b.major
    || (a.major == b.major && (a.minor < b.minor || (a.minor == b.minor && a.patch < b.patch)))
  }

  predicate In32(v: Version) {
    Fits32(v.major) && Fits32(v.minor) && Fits32(v.patch)
  }

  /** The difference at the first place where the versions differ; zero if they do not. */
  function FirstDifference(a: Version, b: Version): int {
    if a.major != b.major then a.major - b.major
    else if a.minor != b.minor then a.minor - b.minor
    else a.patch - b.patch
  }

  lemma Subtract32Is(a: int, b: int)
    requires Fits32(a) && Fits32(b)
    ensures Subtract32(a, b) == 0 <==> a == b
    ensures Fits32(a - b) ==> Subtract32(a, b) == a - b
    ensures a - b > MAX32 ==> Subtract32(a, b) < 0
    ensures a - b < MIN32 ==> Subtract32(a, b) > 0
  {
    var d := a - b;
    if d > MAX32 {
      assert (d - MIN32) % 0x1_0000_0000 == d - MIN32 - 0x1_0000_0000;
    } else if d < MIN32 {
      assert (d - MIN32) % 0x1_0000_0000 == d - MIN32 + 0x1_0000_0000;
    } else {
      assert (d - MIN32) % 0x1_0000_0000 == d - MIN32;
    }
  }

  /**
   * The comparison has the sign of the lexicographic order exactly when the difference of the first
   * differing components fits 32 bits; beyond that it has the opposite sign.
   */
  lemma CompareSign(a: Version, b: Version)
    requires In32(a) && In32(b)
    ensures (Compare(a, b) < 0 <==> Earlier(a, b)) && (Compare(a, b) > 0 <==> Earlier(b, a))
            <==> Fits32(FirstDifference(a, b))
    ensures !Fits32(FirstDifference(a, b)) ==>
              (Compare(a, b) < 0 <==> Earlier(b, a)) && (Compare(a, b) > 0 <==> Earlier(a, b))
    ensures Compare(a, b) == 0 <==> a == b
  {
    hide Subtract32;
    Subtract32Is(a.major, b.major);
    Subtract32Is(a.minor, b.minor);
    Subtract32Is(a.patch, b.patch);
    var major, minor := Subtract32(a.major, b.major), Subtract32(a.minor, b.minor);
    assert Compare(a, b) == if major != 0 then major else CompareFrom(a, b, 1);
    assert CompareFrom(a, b, 1) == if minor != 0 then minor else CompareFrom(a, b, 2);
    assert CompareFrom(a, b, 2) == Subtract32(a.patch, b.patch);
  }

  /** So the condition is about every two texts: what is parsed always fits. */
  lemma ParsedIn32(value: string)
    ensures In32(ParseVersion(value))
  {
    hide Component, Split, NormalizeVersion;
  }

  // -------------------------------------------------- released versions

  /** How a release is tagged. */
  function Tag(v: Version): string
    requires Released(v)
  {
    "v" + Decimal(v.major) + "." + Decimal(v.minor) + "." + Decimal(v.patch)
  }

  predicate Released(v: Version) {
    0 <= v.major <= MAX32 && 0 <= v.minor <= MAX32 && 0 <= v.patch <= MAX32
  }

  lemma ComponentOfDecimal(n: nat)
    requires n <= MAX32
    ensures Component(Decimal(n)) == n
  {
    hide Decimal;
    var part := Decimal(n);
    DecimalRoundTrip(n);
    assert IsDigit(part[0]);
  }

  lemma OnePart(text: string)
    requires text != "" && Trimmed(Rust, text) && text[0] != 'v' && '.' !in text
    ensures ParseVersion(text) == Version(Component(text), 0, 0)
  {
    hide TrimStart, TrimEnd, Component;
    FindChar(text, '.');
  }

  /** Two texts each of which compares below the other. */
  lemma NegativeComponentsOverflow()
    ensures var low, high := ParseVersion("-1"), ParseVersion(Decimal(MAX32));
            Compare(low, high) < 0 && Compare(high, low) < 0
  {
    hide ParseVersion, Component, Subtract32, Decimal;
    MinusOne();
    OnePart("-1");
    var text := Decimal(MAX32);
    DecimalRoundTrip(MAX32);
    DigitsHaveNoDot(text);
    assert IsDigit(text[0]) && IsDigit(text[|text| - 1]);
    OnePart(text);
    ComponentOfDecimal(MAX32);
    Subtract32Is(MAX32, -1);
    Subtract32Is(-1, MAX32);
  }

  lemma MinusOne()
    ensures Component("-1") == -1
  {
    assert "-1"[1..] == "1";
    assert "1"[..0] == "";
    assert DecimalValue("1") == 1;
  }

  lemma DigitsHaveNoDot(s: string)
    requires AllDigits(s)
    ensures '.' !in s
  {
  }

  /** A tag parses back to its three components. */
  lemma TagParses(v: Version)
    requires Released(v)
    ensures ParseVersion(Tag(v)) == v
  {
    hide Decimal, Trim, Split, Component;
    var a, b, c := Decimal(v.major), Decimal(v.minor), Decimal(v.patch);
    var parts := [a, b, c];
    DigitsHaveNoDot(a);
    DigitsHaveNoDot(b);
    DigitsHaveNoDot(c);
    assert Join(parts, ".") == a + "." + (b + "." + c) by { JoinThree(a, b, c); }
    SplitOfJoin(parts, '.');
    TagNormal(a, b, c);
    ComponentOfDecimal(v.major);
    ComponentOfDecimal(v.minor);
    ComponentOfDecimal(v.patch);
  }

  lemma JoinThree(a: string, b: string, c: string)
    ensures Join([a, b, c], ".") == a + "." + (b + "." + c)
  {
    assert [a, b, c][1..] == [b, c];
    assert [b, c][1..] == [c];
    assert Join([c], ".") == c;
    assert Join([b, c], ".") == b + "." + c;
    assert Join([a, b, c], ".") == a + "." + Join([b, c], ".");
  }

  lemma TagNormal(a: string, b: string, c: string)
    requires a != "" && AllDigits(a) && c != "" && AllDigits(c)
    ensures NormalizeVersion("v" + a + "." + b + "." + c) == a + "." + (b + "." + c)
  {
    hide TrimStart, TrimEnd;
    var tag := "v" + a + "." + b + "." + c;
    assert tag[|tag| - 1] == c[|c| - 1] && IsDigit(c[|c| - 1]);
    assert Trimmed(Rust, tag);
    assert tag[1..] == a + "." + (b + "." + c);
    assert IsDigit(a[0]) && tag[1..][0] == a[0];
    assert DropLeadingV(tag[1..]) == tag[1..];
    assert Trim(Rust, tag) == tag;
  }

  // ------------------------------------------------- accepted updates

  /** The version the check compares: normalised once by the caller and once by the parser. */
  function Compared(text: string): Version {
    ParseVersion(NormalizeVersion(text))
  }

  /** The check an update passes before anything is downloaded. */
  predicate Accepted(current: string, latest: string) {
    Compare(Compared(current), Compared(latest)) < 0
  }

  lemma EarlierTransitive(a: Version, b: Version, c: Version)
    requires Earlier(a, b) && Earlier(b, c)
    ensures Earlier(a, c)
  {
  }

  lemma NormalizeTag(v: Version)
    requires Released(v)
    ensures ParseVersion(NormalizeVersion(Tag(v))) == v
  {
    hide Decimal, Trim;
    var a, b, c := Decimal(v.major), Decimal(v.minor), Decimal(v.patch);
    TagNormal(a, b, c);
    TagParses(v);
    NormalAgain(a, b, c);
    assert NormalizeVersion(NormalizeVersion(Tag(v))) == NormalizeVersion(Tag(v));
  }

  lemma NormalAgain(a: string, b: string, c: string)
    requires a != "" && AllDigits(a) && c != "" && AllDigits(c)
    ensures NormalizeVersion(a + "." + (b + "." + c)) == a + "." + (b + "." + c)
  {
    hide TrimStart, TrimEnd;
    var text := a + "." + (b + "." + c);
    assert text[0] == a[0] && IsDigit(a[0]);
    assert text[|text| - 1] == c[|c| - 1] && IsDigit(c[|c| - 1]);
  }

  /**
   * For any two texts: the check accepts exactly the later versions if and only if the versions are
   * equal or their first difference fits 32 bits.
   */
  lemma AcceptedExactly(current: string, latest: string)
    ensures var a, b := Compared(current), Compared(latest);
            (Accepted(current, latest) <==> Earlier(a, b)) <==> a == b || Fits32(FirstDifference(a, b))
  {
    hide Compare, ParseVersion, NormalizeVersion;
    ParsedIn32(NormalizeVersion(current));
    ParsedIn32(NormalizeVersion(latest));
    CompareSign(Compared(current), Compared(latest));
  }

  /**
   * Any texts without negative components, each accepted over the one before it: versions strictly
   * increase along the whole chain, so no update ever leads back to an earlier or equal release.
   */
  lemma {:induction false} AcceptedChainsIncrease(texts: seq<string>, i: nat, j: nat)
    requires forall k :: 0 <= k < |texts| ==> Released(Compared(texts[k]))
    requires forall k :: 0 <= k < |texts| - 1 ==> Accepted(texts[k], texts[k + 1])
    requires i < j < |texts|
    ensures Earlier(Compared(texts[i]), Compared(texts[j]))
    decreases j
  {
    hide Accepted, Compared;
    assert Accepted(texts[j - 1], texts[j - 1 + 1]);
    AcceptedExactly(texts[j - 1], texts[j]);
    if i < j - 1 {
      AcceptedChainsIncrease(texts, i, j - 1);
      EarlierTransitive(Compared(texts[i]), Compared(texts[j - 1]), Compared(texts[j]));
    }
  }

  /** In particular along release tags. */
  lemma TagChainsIncrease(versions: seq<Version>, i: nat, j: nat)
    requires forall k :: 0 <= k < |versions| ==> Released(versions[k])
    requires forall k :: 0 <= k < |versions| - 1 ==> Accepted(Tag(versions[k]), Tag(versions[k + 1]))
    requires i < j < |versions|
    ensures Earlier(versions[i], versions[j])
  {
    hide Accepted, Tag, ParseVersion, NormalizeVersion;
    var texts := seq(|versions|, k requires 0 <= k < |versions| => Tag(versions[k]));
    forall k | 0 <= k < |texts| ensures Compared(texts[k]) == versions[k] { NormalizeTag(versions[k]); }
    forall k | 0 <= k < |texts| - 1 ensures Accepted(texts[k], texts[k + 1]) {
      assert Accepted(Tag(versions[k]), Tag(versions[k + 1]));
    }
    AcceptedChainsIncrease(texts, i, j);
  }

  // ------------------------------------------------------- what texts parse to

  /** A number as it may be written: with or without a sign, and with zeros in front. */
  function Written(sign: string, zeros: nat, n: nat): string {
    sign + Zeros(zeros) + Decimal(n)
  }

  function Signed(sign: string, n: int): int {
    if sign == "-" then -n else n
  }

  function Zeros(n: nat): string {
    if n == 0 then "" else "0" + Zeros(n - 1)
  }

  lemma {:induction false} ZerosAdd(zeros: nat, s: string)
    requires AllDigits(s)
    ensures AllDigits(Zeros(zeros) + s) && DecimalValue(Zeros(zeros) + s) == DecimalValue(s)
  {
    if zeros == 0 {
      assert Zeros(0) + s == s;
    } else {
      ZerosAdd(zeros - 1, s);
      assert Zeros(zeros) + s == "0" + (Zeros(zeros - 1) + s);
      ZeroAdds(Zeros(zeros - 1) + s);
    }
  }

  lemma {:induction false} ZeroAdds(s: string)
    requires AllDigits(s)
    ensures AllDigits("0" + s) && DecimalValue("0" + s) == DecimalValue(s)
  {
    if s == "" {
      assert "0" + s == "0";
      assert "0"[..0] == "";
      assert DecimalValue("0") == 0;
    } else {
      assert ("0" + s)[..|s|] == "0" + s[..|s| - 1];
      ZeroAdds(s[..|s| - 1]);
    }
  }

  /** A written number counts as itself if it fits 32 bits, and as zero if it does not. */
  lemma NumberParses(sign: string, zeros: nat, n: nat)
    requires sign in {"", "+", "-"}
    ensures var value := Signed(sign, n);
            Component(Written(sign, zeros, n)) == if Fits32(value) then value else 0
  {
    hide Decimal, DecimalValue, Zeros;
    DecimalRoundTrip(n);
    ZerosAdd(zeros, Decimal(n));
    var digits, text := Zeros(zeros) + Decimal(n), Written(sign, zeros, n);
    assert digits != "" && IsDigit(digits[0]);
    assert text == sign + digits;
    if sign == "" {
      assert text == digits;
    } else {
      assert text[0] == sign[0] && text[1..] == digits;
    }
  }

  /** Anything with a character that is neither a digit nor a sign in front counts as zero. */
  lemma OtherCountsAsZero(text: string)
    requires text == "" || text == "+" || text == "-"
             || exists k :: 0 <= k < |text| && !IsDigit(text[k]) && (k == 0 ==> text[0] != '+' && text[0] != '-')
    ensures Component(text) == 0
  {
    if text != "" && (text[0] == '-' || text[0] == '+') && |text| > 1 {
      var k :| 0 <= k < |text| && !IsDigit(text[k]) && (k == 0 ==> text[0] != '+' && text[0] != '-');
      assert text[1..][k - 1] == text[k];
    }
  }

  /** Blanks around a version and any number of `v` in front do not count. */
  lemma {:induction false} NormalizeDrops(vs: nat, text: string)
    requires text != "" ==> text[0] != 'v'
    ensures DropLeadingV(seq(vs, _ => 'v') + text) == text
  {
    if vs == 0 {
      assert seq(vs, _ => 'v') + text == text;
    } else {
      assert (seq(vs, _ => 'v') + text)[1..] == seq(vs - 1, _ => 'v') + text;
      NormalizeDrops(vs - 1, text);
    }
  }

  /**
   * How any text parses: without blanks and leading `v`, cut at the dots; the first three pieces count,
   * and missing ones are zero.
   */
  lemma AnyTextParses(before: string, vs: nat, parts: seq<string>, behind: string)
    requires Blank(Rust, before) && Blank(Rust, behind) && parts != []
    requires forall k :: 0 <= k < |parts| ==> '.' !in parts[k]
    requires var text := Join(parts, "."); Trimmed(Rust, seq(vs, _ => 'v') + text) && (text != "" ==> text[0] != 'v')
    ensures var v := ParseVersion(before + (seq(vs, _ => 'v') + Join(parts, ".")) + behind);
            && v.major == Component(parts[0])
            && v.minor == (if |parts| > 1 then Component(parts[1]) else 0)
            && v.patch == (if |parts| > 2 then Component(parts[2]) else 0)
  {
    hide Component, Trim, Split;
    var text := Join(parts, ".");
    TrimPadded(Rust, before, seq(vs, _ => 'v') + text, behind);
    NormalizeDrops(vs, text);
    SplitOfJoin(parts, '.');
  }
}
