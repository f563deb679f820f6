/** The plugin page's version order: digit runs of any number, padded with zeros, then the locale. */
module PluginVersions {
  import opened Text

  /** The maximal runs of digits, from left to right. */
  function DigitRuns(s: string): seq<string>
    decreases |s|
  {
    if s == "" then []
    else if !IsDigit(s[0]) then DigitRuns(s[1..])
    else
      var run := LeadingDigits(s);
      [run] + DigitRuns(s[|run|..])
  }

  function LeadingDigits(s: string): (r: string)
    ensures r <= s && AllDigits(r) && (s != "" && IsDigit(s[0]) ==> r != "")
  {
    if s == "" || !IsDigit(s[0]) then "" else [s[0]] + LeadingDigits(s[1..])
  }

  /**
   * What the runtime supplies: the number a digit run stands for (exact or rounded, as long as
   * numbers are totally ordered), and the locale's comparison.
   */
  datatype Runtime = Runtime(number: string -> int, locale: (string, string) -> int)

  /** Swapping the arguments swaps the sign, and the order is transitive. */
  ghost predicate Comparator(compare: (string, string) -> int) {
    && (forall a, b :: compare(a, b) < 0 <==> compare(b, a) > 0)
    && (forall a, b, c :: compare(a, b) <= 0 && compare(b, c) <= 0 ==> compare(a, c) <= 0)
  }

  function Numbers(rt: Runtime, s: string): (r: seq<int>)
    ensures |r| == |DigitRuns(s)|
  {
    var runs := DigitRuns(s);
    seq(|runs|, k requires 0 <= k < |runs| => rt.number(runs[k]))
  }

  /** Missing parts count as zero. */
  function Part(parts: seq<int>, k: nat): int {
    if k < |parts| then parts[k] else 0
  }

  function Longer(a: seq<int>, b: seq<int>): nat {
    if |a| >= |b| then |a| else |b|
  }

  function CompareParts(a: seq<int>, b: seq<int>, k: nat): int
    decreases Longer(a, b) - k
  {
    if k >= Longer(a, b) then 0
    else if Part(a, k) != Part(b, k) then Part(a, k) - Part(b, k)
    else CompareParts(a, b, k + 1)
  }

  function Compare(rt: Runtime, left: string, right: string): int {
    var numeric := CompareParts(Numbers(rt, left), Numbers(rt, right), 0);
    if numeric != 0 then numeric else rt.locale(left, right)
  }

  method CompareVersionStrings(rt: Runtime, left: string, right: string) returns (r: int)
    ensures r == Compare(rt, left, right)
  {
    var leftParts, rightParts := Numbers(rt, left), Numbers(rt, right);
    var length := Longer(leftParts, rightParts);
    for index := 0 to length
      invariant CompareParts(leftParts, rightParts, 0) == CompareParts(leftParts, rightParts, index)
    {
      var leftValue, rightValue := Part(leftParts, index), Part(rightParts, index);
      if leftValue != rightValue {
        return leftValue - rightValue;
      }
    }
    return rt.locale(left, right);
  }

  // ---------------------------------------------------------- the law

  /** `k` is the first place, of all places, where the padded sequences differ. */
  predicate DifferAt(a: seq<int>, b: seq<int>, k: nat) {
    Part(a, k) != Part(b, k) && forall j: nat :: j < k ==> Part(a, j) == Part(b, j)
  }

  ghost predicate SamePadded(a: seq<int>, b: seq<int>) {
    forall j: nat :: Part(a, j) == Part(b, j)
  }

  /** The loop decides by the first difference of the endlessly padded sequences. */
  lemma {:induction false} ComparePartsFrom(a: seq<int>, b: seq<int>, k: nat)
    requires forall j: nat :: j < k ==> Part(a, j) == Part(b, j)
    ensures CompareParts(a, b, k) == 0 <==> SamePadded(a, b)
    ensures forall d: nat :: DifferAt(a, b, d) ==> CompareParts(a, b, k) == Part(a, d) - Part(b, d)
    decreases Longer(a, b) - k
  {
    if k < Longer(a, b) && Part(a, k) == Part(b, k) {
      ComparePartsFrom(a, b, k + 1);
    } else if k < Longer(a, b) {
      assert DifferAt(a, b, k);
    } else {
      forall j: nat ensures Part(a, j) == Part(b, j) {}
    }
  }

  lemma {:induction false} FirstDifference(a: seq<int>, b: seq<int>, k: nat) returns (d: nat)
    requires forall j: nat :: j < k ==> Part(a, j) == Part(b, j)
    requires CompareParts(a, b, k) != 0
    ensures DifferAt(a, b, d)
    decreases Longer(a, b) - k
  {
    if Part(a, k) != Part(b, k) {
      d := k;
    } else {
      d := FirstDifference(a, b, k + 1);
    }
  }

  lemma PartsAntisymmetric(a: seq<int>, b: seq<int>)
    ensures CompareParts(a, b, 0) == -CompareParts(b, a, 0)
  {
    ComparePartsFrom(a, b, 0);
    ComparePartsFrom(b, a, 0);
    if CompareParts(a, b, 0) != 0 {
      var d := FirstDifference(a, b, 0);
      assert DifferAt(b, a, d);
    }
  }

  lemma PartsTransitive(a: seq<int>, b: seq<int>, c: seq<int>)
    requires CompareParts(a, b, 0) <= 0 && CompareParts(b, c, 0) <= 0
    ensures CompareParts(a, c, 0) <= 0
    ensures CompareParts(a, b, 0) < 0 || CompareParts(b, c, 0) < 0 ==> CompareParts(a, c, 0) < 0
  {
    ComparePartsFrom(a, b, 0);
    ComparePartsFrom(b, c, 0);
    ComparePartsFrom(a, c, 0);
    if CompareParts(a, b, 0) < 0 && CompareParts(b, c, 0) < 0 {
      var d := FirstDifference(a, b, 0);
      var e := FirstDifference(b, c, 0);
      assert DifferAt(a, c, if d <= e then d else e);
    } else if CompareParts(a, b, 0) < 0 {
      var d := FirstDifference(a, b, 0);
      assert DifferAt(a, c, d);
    } else if CompareParts(b, c, 0) < 0 {
      var e := FirstDifference(b, c, 0);
      assert DifferAt(a, c, e);
    } else {
      assert forall j: nat :: Part(a, j) == Part(c, j) by {
        forall j: nat ensures Part(a, j) == Part(c, j) { assert Part(a, j) == Part(b, j) == Part(c, j); }
      }
    }
  }

  /**
   * Comparing version strings is a total order up to the locale's own ties: whatever numbers digit
   * runs stand for and however long the strings are, swapping the arguments swaps the sign, and the
   * order is transitive, although numerically equal strings may have different lengths.
   */
  lemma CompareIsOrder(rt: Runtime)
    requires Comparator(rt.locale)
    ensures Comparator((a, b) => Compare(rt, a, b))
  {
    hide Numbers, CompareParts;
    forall a, b ensures Compare(rt, a, b) < 0 <==> Compare(rt, b, a) > 0 {
      PartsAntisymmetric(Numbers(rt, a), Numbers(rt, b));
    }
    forall a, b, c | Compare(rt, a, b) <= 0 && Compare(rt, b, c) <= 0 ensures Compare(rt, a, c) <= 0 {
      CompareTransitive(rt, a, b, c);
    }
  }

  lemma CompareTransitive(rt: Runtime, a: string, b: string, c: string)
    requires Comparator(rt.locale) && Compare(rt, a, b) <= 0 && Compare(rt, b, c) <= 0
    ensures Compare(rt, a, c) <= 0
  {
    hide Numbers, CompareParts;
    var na, nb, nc := Numbers(rt, a), Numbers(rt, b), Numbers(rt, c);
    assert CompareParts(na, nb, 0) <= 0 && CompareParts(nb, nc, 0) <= 0;
    PartsTransitive(na, nb, nc);
  }

  /**
   * Strings compare as equal exactly when their numbers agree up to trailing zeros and the locale
   * sees no difference.
   */
  lemma CompareEqual(rt: Runtime, a: string, b: string)
    ensures Compare(rt, a, b) == 0 <==> SamePadded(Numbers(rt, a), Numbers(rt, b)) && rt.locale(a, b) == 0
  {
    hide Numbers;
    ComparePartsFrom(Numbers(rt, a), Numbers(rt, b), 0);
  }

  // ------------------------------------------------------ printed versions

  function Decimals(parts: seq<nat>): (r: seq<string>)
    ensures |r| == |parts| && forall k :: 0 <= k < |r| ==> r[k] == Decimal(parts[k])
  {
    seq(|parts|, k requires 0 <= k < |parts| => Decimal(parts[k]))
  }

  /** A version as it is usually written. */
  function Dotted(parts: seq<nat>): string {
    Join(Decimals(parts), ".")
  }

  lemma {:induction false} LeadingRun(run: string, rest: string)
    requires AllDigits(run) && (rest != "" ==> !IsDigit(rest[0]))
    ensures LeadingDigits(run + rest) == run
  {
    if run == "" {
      assert run + rest == rest;
    } else {
      assert (run + rest)[1..] == run[1..] + rest;
      LeadingRun(run[1..], rest);
    }
  }

  lemma RunFirst(run: string, rest: string)
    requires run != "" && AllDigits(run) && (rest != "" ==> !IsDigit(rest[0]))
    ensures DigitRuns(run + rest) == [run] + DigitRuns(rest)
  {
    LeadingRun(run, rest);
    assert (run + rest)[|run|..] == rest;
  }

  lemma DotSkipped(rest: string)
    ensures DigitRuns("." + rest) == DigitRuns(rest)
  {
    assert ("." + rest)[1..] == rest;
  }

  /** The digit runs of a dotted text are the decimals it was made of. */
  lemma {:induction false} RunsOfJoin(runs: seq<string>)
    requires forall k :: 0 <= k < |runs| ==> runs[k] != "" && AllDigits(runs[k])
    ensures DigitRuns(Join(runs, ".")) == runs
  {
    if |runs| == 1 {
      RunFirst(runs[0], "");
      assert runs[0] + "" == runs[0];
    } else if |runs| > 1 {
      var rest := Join(runs[1..], ".");
      RunsOfJoin(runs[1..]);
      RunFirst(runs[0], "." + rest);
      DotSkipped(rest);
      assert Join(runs, ".") == runs[0] + ("." + rest);
    }
  }

  lemma DottedReadsBack(rt: Runtime, parts: seq<nat>)
    requires forall k :: 0 <= k < |parts| ==> rt.number(Decimal(parts[k])) == parts[k]
    ensures Numbers(rt, Dotted(parts)) == parts
  {
    hide Decimal, DigitRuns;
    forall k | 0 <= k < |parts| ensures Decimals(parts)[k] != "" && AllDigits(Decimals(parts)[k]) {
      DecimalRoundTrip(parts[k]);
    }
    RunsOfJoin(Decimals(parts));
  }

  /**
   * Versions of any length, written with dots, and numbers the runtime reads exactly: the first place
   * where they differ, missing parts being zero, decides by number and not by text; if there is none,
   * the locale decides.
   */
  lemma DottedCompare(rt: Runtime, a: seq<nat>, b: seq<nat>)
    requires forall k :: 0 <= k < |a| ==> rt.number(Decimal(a[k])) == a[k]
    requires forall k :: 0 <= k < |b| ==> rt.number(Decimal(b[k])) == b[k]
    ensures forall d: nat :: DifferAt(a, b, d) ==> Compare(rt, Dotted(a), Dotted(b)) == Part(a, d) - Part(b, d)
    ensures SamePadded(a, b) ==> Compare(rt, Dotted(a), Dotted(b)) == rt.locale(Dotted(a), Dotted(b))
  {
    hide Numbers, Dotted, CompareParts;
    DottedReadsBack(rt, a);
    DottedReadsBack(rt, b);
    ComparePartsFrom(a, b, 0);
  }

  /** So 1.10 comes after 1.9, which it does not as text. */
  lemma TenAfterNine(rt: Runtime)
    requires forall n: nat :: n <= 10 ==> rt.number(Decimal(n)) == n
    ensures Compare(rt, Dotted([1, 10]), Dotted([1, 9])) == 1
  {
    hide Numbers, Dotted, CompareParts, Decimal;
    var a, b: seq<nat> := [1, 10], [1, 9];
    assert DifferAt(a, b, 1);
    DottedCompare(rt, a, b);
  }

  /** Zeros at the end of a version make no numerical difference: the locale decides. */
  lemma TrailingZeros(rt: Runtime, a: seq<nat>, n: nat)
    requires rt.number(Decimal(0)) == 0 && forall k :: 0 <= k < |a| ==> rt.number(Decimal(a[k])) == a[k]
    ensures var longer := a + seq(n, _ => 0);
            Compare(rt, Dotted(a), Dotted(longer)) == rt.locale(Dotted(a), Dotted(longer))
  {
    hide Numbers, Dotted, CompareParts, Decimal;
    var longer := a + seq(n, _ => 0);
    forall j: nat ensures Part(a, j) == Part(longer, j) {}
    DottedCompare(rt, a, longer);
  }

  // ---------------------------------------------------- any other separators

  predicate NoDigits(s: string) {
    forall k :: 0 <= k < |s| ==> !IsDigit(s[k])
  }

  /** Digit runs, each behind some other text, and what follows the last. */
  function Woven(gaps: seq<string>, runs: seq<string>, tail: string): string
    requires |gaps| == |runs|
  {
    if runs == [] then tail else gaps[0] + runs[0] + Woven(gaps[1..], runs[1..], tail)
  }

  predicate Weavable(gaps: seq<string>, runs: seq<string>, tail: string) {
    && |gaps| == |runs| && NoDigits(tail)
    && (forall k :: 0 <= k < |gaps| ==> NoDigits(gaps[k]) && (k > 0 ==> gaps[k] != ""))
    && (forall k :: 0 <= k < |runs| ==> runs[k] != "" && AllDigits(runs[k]))
  }

  lemma {:induction false} GapSkipped(gap: string, rest: string)
    requires NoDigits(gap)
    ensures DigitRuns(gap + rest) == DigitRuns(rest)
  {
    if gap == "" {
      assert gap + rest == rest;
    } else {
      assert (gap + rest)[1..] == gap[1..] + rest;
      GapSkipped(gap[1..], rest);
    }
  }

  /** Whatever stands between them, exactly the maximal digit runs are read, in order. */
  lemma {:induction false} WovenRuns(gaps: seq<string>, runs: seq<string>, tail: string)
    requires Weavable(gaps, runs, tail)
    ensures DigitRuns(Woven(gaps, runs, tail)) == runs
    decreases |runs|
  {
    if runs == [] {
      GapSkipped(tail, "");
      assert tail + "" == tail;
    } else {
      var rest := Woven(gaps[1..], runs[1..], tail);
      assert gaps[0] + runs[0] + rest == gaps[0] + (runs[0] + rest);
      WeavableTail(gaps, runs, tail);
      WovenRuns(gaps[1..], runs[1..], tail);
      GapSkipped(gaps[0], runs[0] + rest);
      RunFirst(runs[0], rest);
    }
  }

  lemma WeavableTail(gaps: seq<string>, runs: seq<string>, tail: string)
    requires Weavable(gaps, runs, tail) && runs != []
    ensures Weavable(gaps[1..], runs[1..], tail)
    ensures var rest := Woven(gaps[1..], runs[1..], tail); rest != "" ==> !IsDigit(rest[0])
  {
    if |runs| > 1 { assert gaps[1..][0] == gaps[1]; }
  }
}
