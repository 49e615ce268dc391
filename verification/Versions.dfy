/** Dotted versions: two comparators (validator.go, config.go) and the half-open ranges built on them. */
module Versions {
  import opened Basics
  import opened GoStrings
  import opened GoNumbers

  datatype SchemeRange = SchemeRange(from: string, to: string)

  /** A component past the end counts as zero. */
  function At(x: seq<Int64>, i: nat): int {
    if i < |x| then x[i] else 0
  }

  function MaxLength(x: seq<Int64>, y: seq<Int64>): nat {
    if |x| < |y| then |y| else |x|
  }

  /** The difference of the first components that differ, from position i on. */
  function DiffFrom(x: seq<Int64>, y: seq<Int64>, i: nat): Int64
    decreases MaxLength(x, y) - i
  {
    if i >= MaxLength(x, y) then 0
    else if At(x, i) != At(y, i) then Wrap(At(x, i) - At(y, i))
    else DiffFrom(x, y, i + 1)
  }

  function Diff(x: seq<Int64>, y: seq<Int64>): Int64 {
    DiffFrom(x, y, 0)
  }

  // ---------- The two comparators ----------

  function BuildNumbers(s: string): seq<Int64> {
    var parts := Split(s, '.');
    seq(|parts|, i requires 0 <= i < |parts| => AtoiOrNearest(parts[i]))
  }

  method CompareBuilds(a: string, b: string) returns (r: Int64)
    ensures r == Diff(BuildNumbers(a), BuildNumbers(b))
  {
    var aa := Split(a, '.');
    var bb := Split(b, '.');
    ghost var x, y := BuildNumbers(a), BuildNumbers(b);
    hide Atoi, Wrap, Split;
    for i := 0 to if |aa| < |bb| then |bb| else |aa|
      invariant Diff(x, y) == DiffFrom(x, y, i)
    {
      var ai: int, bi: int := 0, 0;
      if i < |aa| {
        ai := AtoiOrNearest(aa[i]);
      }
      if i < |bb| {
        bi := AtoiOrNearest(bb[i]);
      }
      if ai != bi {
        return Wrap(ai - bi);
      }
    }
    return 0;
  }

  function NumberOrZero(s: string): Int64 {
    match Atoi(s)
    case Number(n) => n
    case _ => 0
  }

  /** A blank version has no components; a single component gets a zero after it. */
  function MajorNumbers(s: string): seq<Int64> {
    var t := TrimSpace(s);
    if t == "" then []
    else
      var parts := Split(t, '.');
      var numbers := seq(|parts|, i requires 0 <= i < |parts| => NumberOrZero(parts[i]));
      if |parts| == 1 then numbers + [0] else numbers
  }

  method ParseMajorVersion(s: string) returns (r: seq<Int64>)
    ensures r == MajorNumbers(s)
  {
    var t := TrimSpace(s);
    if t == "" {
      return [];
    }
    var parts := Split(t, '.');
    r := [];
    for i := 0 to |parts|
      invariant |r| == i && forall j | 0 <= j < i :: r[j] == NumberOrZero(parts[j])
    {
      r := r + [NumberOrZero(parts[i])];
    }
    if |r| == 1 {
      r := r + [0];
    }
  }

  predicate IsValidMajorVersion(v: seq<Int64>) {
    |v| > 0 && v[0] > 0
  }

  method CompareMajorVersions(a: seq<Int64>, b: seq<Int64>) returns (r: Int64)
    ensures r == Diff(a, b)
  {
    var maxLen := |a|;
    if |b| > maxLen {
      maxLen := |b|;
    }
    for i := 0 to maxLen
      invariant Diff(a, b) == DiffFrom(a, b, i)
    {
      var va: int, vb: int := 0, 0;
      if i < |a| {
        va := a[i];
      }
      if i < |b| {
        vb := b[i];
      }
      if va != vb {
        return Wrap(va - vb);
      }
    }
    return 0;
  }

  // ---------- Order ----------

  ghost predicate FirstDiffers(x: seq<Int64>, y: seq<Int64>, i: nat) {
    At(x, i) != At(y, i) && forall j: nat | j < i :: At(x, j) == At(y, j)
  }

  ghost predicate SameVersion(x: seq<Int64>, y: seq<Int64>) {
    forall i: nat :: At(x, i) == At(y, i)
  }

  /** x comes before y in the lexicographic order of components. */
  ghost predicate Before(x: seq<Int64>, y: seq<Int64>) {
    exists i: nat :: FirstDiffers(x, y, i) && At(x, i) < At(y, i)
  }

  lemma {:induction false} DiffFromMeaning(x: seq<Int64>, y: seq<Int64>, i: nat) returns (k: nat)
    requires forall j: nat | j < i :: At(x, j) == At(y, j)
    ensures (DiffFrom(x, y, i) == 0 && SameVersion(x, y)) ||
            (FirstDiffers(x, y, k) && DiffFrom(x, y, i) == Wrap(At(x, k) - At(y, k)))
    decreases MaxLength(x, y) - i
  {
    k := i;
    if i < MaxLength(x, y) && At(x, i) == At(y, i) {
      k := DiffFromMeaning(x, y, i + 1);
    }
  }

  /** The comparison is zero exactly for versions that differ in trailing zeros at most. */
  lemma DiffZero(x: seq<Int64>, y: seq<Int64>)
    ensures Diff(x, y) == 0 <==> SameVersion(x, y)
  {
    var k := DiffFromMeaning(x, y, 0);
  }

  /** The sign of the comparison is right if and only if the first difference fits an int. */
  lemma SignIsRightIffDifferenceFits(x: seq<Int64>, y: seq<Int64>, i: nat)
    requires FirstDiffers(x, y, i)
    ensures (Diff(x, y) < 0 <==> At(x, i) < At(y, i)) <==> MIN_INT <= At(x, i) - At(y, i) <= MAX_INT
  {
    var k := DiffFromMeaning(x, y, 0);
    assert k == i by {
      assert At(x, k) != At(y, k) && At(x, i) != At(y, i);
    }
  }

  /** It can be wrong for builds with a negative component. */
  lemma NegativeComponentsMisorder()
    ensures Before(BuildNumbers(Itoa(MIN_INT)), BuildNumbers(Itoa(1)))
    ensures Diff(BuildNumbers(Itoa(MIN_INT)), BuildNumbers(Itoa(1))) > 0
  {
    BuildOfNumber(MIN_INT);
    BuildOfNumber(1);
    assert FirstDiffers([MIN_INT], [1], 0);
  }

  lemma BuildOfNumber(n: Int64)
    ensures BuildNumbers(Itoa(n)) == [n]
  {
    ItoaChars(n);
    SplitWithout(Itoa(n), '.');
    AtoiItoa(n);
  }

  predicate NonNegative(x: seq<Int64>) {
    forall i | 0 <= i < |x| :: x[i] >= 0
  }

  lemma FirstDifferenceIsUnique(x: seq<Int64>, y: seq<Int64>, i: nat, k: nat)
    requires FirstDiffers(x, y, i) && (FirstDiffers(x, y, k) || FirstDiffers(y, x, k))
    ensures i == k && FirstDiffers(y, x, i)
  {
    assert At(x, i) != At(y, i) && At(x, k) != At(y, k);
  }

  /** Over non-negative components the sign says exactly how two versions are ordered. */
  lemma DiffIsLexicographic(x: seq<Int64>, y: seq<Int64>)
    requires NonNegative(x) && NonNegative(y)
    ensures Diff(x, y) < 0 <==> Before(x, y)
    ensures Diff(x, y) > 0 <==> Before(y, x)
    ensures Diff(x, y) == 0 <==> SameVersion(x, y)
    ensures Diff(y, x) == 0 - Diff(x, y)
  {
    hide Wrap, FirstDiffers, Diff;
    DiffZero(x, y);
    DiffZero(y, x);
    if Diff(x, y) == 0 {
      NeitherBefore(x, y);
      NeitherBefore(y, x);
    } else {
      var i := DiffAtFirst(x, y);
      var k := DiffAtFirst(y, x);
      FirstDifferenceIsUnique(x, y, i, k);
      forall j: nat | FirstDiffers(x, y, j) || FirstDiffers(y, x, j) ensures j == i {
        FirstDifferenceIsUnique(x, y, i, j);
      }
    }
  }

  lemma NeitherBefore(x: seq<Int64>, y: seq<Int64>)
    requires SameVersion(x, y)
    ensures !Before(x, y)
  {
  }

  lemma DiffAtFirst(x: seq<Int64>, y: seq<Int64>) returns (k: nat)
    requires NonNegative(x) && NonNegative(y) && Diff(x, y) != 0
    ensures FirstDiffers(x, y, k) && Diff(x, y) == At(x, k) - At(y, k)
  {
    k := DiffFromMeaning(x, y, 0);
    if SameVersion(x, y) {
      DiffZero(x, y);
    }
    hide Wrap;
    WrapOfInt(At(x, k) - At(y, k));
  }

  /** Both comparators are total preorders there. */
  lemma DiffIsTransitive(x: seq<Int64>, y: seq<Int64>, z: seq<Int64>)
    requires NonNegative(x) && NonNegative(y) && NonNegative(z)
    requires Diff(x, y) <= 0 && Diff(y, z) <= 0
    ensures Diff(x, z) <= 0
    ensures Diff(x, y) < 0 || Diff(y, z) < 0 ==> Diff(x, z) < 0
  {
    DiffIsLexicographic(x, y);
    DiffIsLexicographic(y, z);
    DiffIsLexicographic(x, z);
    if Before(x, y) {
      var i: nat :| FirstDiffers(x, y, i) && At(x, i) < At(y, i);
      if Before(y, z) {
        var j: nat :| FirstDiffers(y, z, j) && At(y, j) < At(z, j);
        assert FirstDiffers(x, z, if i < j then i else j);
      } else {
        assert FirstDiffers(x, z, i);
      }
    } else if Before(y, z) {
      var j: nat :| FirstDiffers(y, z, j) && At(y, j) < At(z, j);
      assert FirstDiffers(x, z, j);
    }
  }

  /** Only the padded components matter. */
  lemma DiffDependsOnComponents(x: seq<Int64>, y: seq<Int64>, x': seq<Int64>, y': seq<Int64>)
    requires SameVersion(x, x') && SameVersion(y, y')
    ensures Diff(x, y) == Diff(x', y')
  {
    var k := DiffFromMeaning(x, y, 0);
    var m := DiffFromMeaning(x', y', 0);
    if SameVersion(x, y) {
      assert SameVersion(x', y');
    } else {
      assert At(x, k) == At(x', k) && At(y, k) == At(y', k);
      assert At(x, m) == At(x', m) && At(y, m) == At(y', m);
      assert k == m;
    }
  }

  /** On trimmed, non-empty versions without a component out of range the two comparators agree. */
  lemma ComparatorsAgree(a: string, b: string)
    requires Trimmed(a) && a != "" && Trimmed(b) && b != ""
    requires forall p | p in Split(a, '.') :: !Atoi(p).OutOfRange?
    requires forall p | p in Split(b, '.') :: !Atoi(p).OutOfRange?
    ensures Diff(MajorNumbers(a), MajorNumbers(b)) == Diff(BuildNumbers(a), BuildNumbers(b))
  {
    MajorIsBuild(a);
    MajorIsBuild(b);
    DiffDependsOnComponents(MajorNumbers(a), MajorNumbers(b), BuildNumbers(a), BuildNumbers(b));
  }

  lemma MajorIsBuild(s: string)
    requires Trimmed(s) && s != "" && forall p | p in Split(s, '.') :: !Atoi(p).OutOfRange?
    ensures SameVersion(MajorNumbers(s), BuildNumbers(s))
  {
    TrimSpaceMeaning(s);
    hide TrimSpace, Atoi;
    var parts := Split(s, '.');
    forall i: nat ensures At(MajorNumbers(s), i) == At(BuildNumbers(s), i) {
      if i < |parts| {
        assert parts[i] in parts;
      }
    }
  }

  // ---------- Ranges ----------

  /** [from, to) over builds; an empty bound is open. */
  predicate InBuildRange(r: SchemeRange, build: string) {
    && (r.from == "" || Diff(BuildNumbers(r.from), BuildNumbers(build)) <= 0)
    && (r.to == "" || Diff(BuildNumbers(r.to), BuildNumbers(build)) > 0)
  }

  method AcceptsIn(ranges: seq<SchemeRange>, build: string) returns (ok: bool)
    ensures ok <==> exists r :: r in ranges && InBuildRange(r, build)
  {
    for i := 0 to |ranges|
      invariant forall j | 0 <= j < i :: !InBuildRange(ranges[j], build)
    {
      var r := ranges[i];
      if r.from != "" {
        var c := CompareBuilds(r.from, build);
        if c > 0 {
          continue;
        }
      }
      if r.to != "" {
        var c := CompareBuilds(r.to, build);
        if c <= 0 {
          continue;
        }
      }
      assert InBuildRange(ranges[i], build);
      return true;
    }
    return false;
  }

  /** [from, to) over group versions; an unreadable bound accepts nothing. */
  predicate InVersionRange(r: SchemeRange, version: Int64) {
    && (r.from == "" || (Atoi(r.from).Number? && Atoi(r.from).n <= version))
    && (r.to == "" || (Atoi(r.to).Number? && version < Atoi(r.to).n))
  }

  method AcceptsInVersion(ranges: seq<SchemeRange>, version: Int64) returns (ok: bool)
    ensures ok <==> exists r :: r in ranges && InVersionRange(r, version)
  {
    for i := 0 to |ranges|
      invariant forall j | 0 <= j < i :: !InVersionRange(ranges[j], version)
    {
      var r := ranges[i];
      if r.from != "" {
        var from := Atoi(r.from);
        if !from.Number? || version < from.n {
          continue;
        }
      }
      if r.to != "" {
        var to := Atoi(r.to);
        if !to.Number? || version >= to.n {
          continue;
        }
      }
      assert InVersionRange(ranges[i], version);
      return true;
    }
    return false;
  }

  /** [from, to) over product versions; an invalid bound is open, but not both. */
  predicate AcceptVersion(borders: SchemeRange, current: string) {
    var build, from, to := MajorNumbers(current), MajorNumbers(borders.from), MajorNumbers(borders.to);
    && IsValidMajorVersion(build)
    && (IsValidMajorVersion(from) || IsValidMajorVersion(to))
    && (IsValidMajorVersion(from) ==> Diff(from, build) <= 0)
    && (IsValidMajorVersion(to) ==> Diff(to, build) > 0)
  }

  predicate Matches(borders: Option<SchemeRange>, product: string) {
    borders.Some? && AcceptVersion(borders.value, product)
  }

  lemma InvalidMatchesNothing(versions: seq<Option<SchemeRange>>, product: string)
    requires !IsValidMajorVersion(MajorNumbers(product))
    ensures forall j | 0 <= j < |versions| :: !Matches(versions[j], product)
  {
    hide MajorNumbers, Diff;
  }

  /** The first version whose borders accept the product, else the first of all. */
  method FindMatchingVersion(versions: seq<Option<SchemeRange>>, product: string) returns (r: Option<nat>)
    ensures r.None? <==> versions == []
    ensures r.Some? ==>
              && r.value < |versions|
              && (Matches(versions[r.value], product) || r.value == 0)
              && forall j | 0 <= j < |versions| && Matches(versions[j], product) ::
                r.value <= j && Matches(versions[r.value], product)
  {
    hide MajorNumbers, AcceptVersion;
    if versions == [] {
      return None;
    }
    var build := ParseMajorVersion(product);
    if !IsValidMajorVersion(build) {
      InvalidMatchesNothing(versions, product);
      return Some(0);
    }
    for i := 0 to |versions|
      invariant forall j | 0 <= j < i :: !Matches(versions[j], product)
    {
      if versions[i].None? {
        continue;
      }
      if AcceptVersion(versions[i].value, product) {
        return Some(i);
      }
    }
    return Some(0);
  }

  // ---------- What versions and ranges mean ----------

  function Printed(numbers: seq<Int64>): seq<string> {
    seq(|numbers|, i requires 0 <= i < |numbers| => Itoa(numbers[i]))
  }

  /** The text of a version: its numbers with dots between. */
  function VersionText(numbers: seq<Int64>): string {
    Join(Printed(numbers), '.')
  }

  lemma PrintedSplit(numbers: seq<Int64>)
    requires numbers != []
    ensures Split(VersionText(numbers), '.') == Printed(numbers)
  {
    hide Itoa;
    forall p | p in Printed(numbers) ensures '.' !in p {
      var i :| 0 <= i < |numbers| && p == Itoa(numbers[i]);
      ItoaChars(numbers[i]);
    }
    SplitJoin(Printed(numbers), '.');
  }

  /** The first comparator reads the components of a version as they were printed. */
  lemma BuildOfDotted(numbers: seq<Int64>)
    requires numbers != []
    ensures BuildNumbers(VersionText(numbers)) == numbers
  {
    PrintedSplit(numbers);
    hide Itoa, Atoi, VersionText;
    forall i | 0 <= i < |numbers| ensures AtoiOrNearest(Printed(numbers)[i]) == numbers[i] {
      AtoiItoa(numbers[i]);
    }
  }

  lemma {:induction false} DottedIsTrimmed(numbers: seq<Int64>)
    requires numbers != []
    ensures VersionText(numbers) != "" && Trimmed(VersionText(numbers))
    ensures forall c | c in VersionText(numbers) :: IsDigit(c) || c == '-' || c == '.'
    decreases |numbers|
  {
    hide Itoa;
    ItoaChars(numbers[0]);
    var s := VersionText(numbers);
    if |numbers| > 1 {
      DottedIsTrimmed(numbers[1..]);
      assert Printed(numbers)[1..] == Printed(numbers[1..]);
      assert s == Itoa(numbers[0]) + "." + VersionText(numbers[1..]);
    }
    assert s[0] in s && s[|s| - 1] in s;
  }

  /** So does the second, which adds a zero to a single component; it takes a version for valid iff the first
      component is positive. */
  lemma MajorOfDotted(numbers: seq<Int64>)
    requires numbers != []
    ensures MajorNumbers(VersionText(numbers)) == if |numbers| == 1 then numbers + [0] else numbers
    ensures IsValidMajorVersion(MajorNumbers(VersionText(numbers))) <==> numbers[0] > 0
  {
    PrintedSplit(numbers);
    DottedIsTrimmed(numbers);
    TrimSpaceMeaning(VersionText(numbers));
    hide Itoa, Atoi, VersionText, TrimSpace;
    forall i | 0 <= i < |numbers| ensures NumberOrZero(Printed(numbers)[i]) == numbers[i] {
      AtoiItoa(numbers[i]);
    }
  }

  /** A build is in a range iff it does not come before the lower bound and comes before the upper one: the lower bound
      belongs to the range, the upper one does not, and an empty bound is open. */
  lemma BuildRangeMeaning(from: string, to: string, build: string)
    requires NonNegative(BuildNumbers(from)) && NonNegative(BuildNumbers(to)) && NonNegative(BuildNumbers(build))
    ensures InBuildRange(SchemeRange(from, to), build) <==>
            && (from == "" || !Before(BuildNumbers(build), BuildNumbers(from)))
            && (to == "" || Before(BuildNumbers(build), BuildNumbers(to)))
  {
    hide BuildNumbers, Diff, Before, NonNegative;
    DiffIsLexicographic(BuildNumbers(from), BuildNumbers(build));
    DiffIsLexicographic(BuildNumbers(to), BuildNumbers(build));
  }

  /** The same for product versions, where a bound without a positive first component is open. */
  lemma ProductRangeMeaning(from: string, to: string, product: string)
    requires NonNegative(MajorNumbers(from)) && NonNegative(MajorNumbers(to)) && NonNegative(MajorNumbers(product))
    ensures var v, x, y := MajorNumbers(product), MajorNumbers(from), MajorNumbers(to);
            AcceptVersion(SchemeRange(from, to), product) <==>
            && v != [] && v[0] > 0 && ((|x| > 0 && x[0] > 0) || (|y| > 0 && y[0] > 0))
            && (|x| > 0 && x[0] > 0 ==> !Before(v, x))
            && (|y| > 0 && y[0] > 0 ==> Before(v, y))
  {
    hide MajorNumbers, Diff, Before, NonNegative;
    DiffIsLexicographic(MajorNumbers(from), MajorNumbers(product));
    DiffIsLexicographic(MajorNumbers(to), MajorNumbers(product));
  }

  /** Between printed bounds lie the versions from the lower one up to, but without, the upper one. */
  lemma VersionRangeMeaning(from: Int64, to: Int64, version: Int64)
    ensures InVersionRange(SchemeRange(Itoa(from), Itoa(to)), version) <==> from <= version < to
    ensures InVersionRange(SchemeRange("", Itoa(to)), version) <==> version < to
    ensures InVersionRange(SchemeRange(Itoa(from), ""), version) <==> from <= version
  {
    hide Itoa, Atoi;
    AtoiItoa(from);
    AtoiItoa(to);
    ItoaChars(from);
    ItoaChars(to);
  }

  /** Cutting [a, c) at a b between splits it: a value is in [a, c) iff it is in exactly one of [a, b) and [b, c). */
  lemma BuildRangesSplit(a: string, b: string, c: string, build: string)
    requires NonNegative(BuildNumbers(a)) && NonNegative(BuildNumbers(b))
    requires NonNegative(BuildNumbers(c)) && NonNegative(BuildNumbers(build))
    requires b != "" && (a != "" ==> Diff(BuildNumbers(a), BuildNumbers(b)) <= 0)
    requires c != "" ==> Diff(BuildNumbers(b), BuildNumbers(c)) <= 0
    ensures var lower, upper := InBuildRange(SchemeRange(a, b), build), InBuildRange(SchemeRange(b, c), build);
            !(lower && upper) && (InBuildRange(SchemeRange(a, c), build) <==> lower || upper)
  {
    hide BuildNumbers, Diff;
    var x, y, z, v := BuildNumbers(a), BuildNumbers(b), BuildNumbers(c), BuildNumbers(build);
    if a != "" && Diff(y, v) <= 0 {
      DiffIsTransitive(x, y, v);
    }
    if c != "" && Diff(y, v) > 0 {
      DiffIsLexicographic(y, v);
      DiffIsLexicographic(z, v);
      if Diff(z, v) <= 0 {
        DiffIsTransitive(y, z, v);
      }
    }
  }

  lemma VersionRangesSplit(a: string, b: string, c: string, version: Int64)
    requires Atoi(b).Number?
    requires a != "" ==> Atoi(a).Number? && Atoi(a).n <= Atoi(b).n
    requires c != "" ==> Atoi(c).Number? && Atoi(b).n <= Atoi(c).n
    ensures var lower, upper := InVersionRange(SchemeRange(a, b), version), InVersionRange(SchemeRange(b, c), version);
            !(lower && upper) && (InVersionRange(SchemeRange(a, c), version) <==> lower || upper)
  {
  }

  /** Without a valid bound a product range accepts nothing, although a valid version cuts it into two parts of which
      the upper accepts that version. */
  lemma UnboundedProductRange(a: string, c: string) returns (b: string)
    requires !IsValidMajorVersion(MajorNumbers(a)) && !IsValidMajorVersion(MajorNumbers(c))
    ensures IsValidMajorVersion(MajorNumbers(b)) && AcceptVersion(SchemeRange(b, c), b)
    ensures forall product :: !AcceptVersion(SchemeRange(a, c), product)
  {
    b := Itoa(1);
    MajorOfOne();
    hide Diff, MajorNumbers;
    assert Diff(MajorNumbers(b), MajorNumbers(b)) == 0 by { DiffZero(MajorNumbers(b), MajorNumbers(b)); }
  }

  lemma MajorOfOne()
    ensures MajorNumbers(Itoa(1)) == [1, 0]
  {
    ItoaChars(1);
    SplitWithout(Itoa(1), '.');
    AtoiItoa(1);
    var s := Itoa(1);
    assert s == "1";
    assert Trimmed(s);
    TrimSpaceMeaning(s);
    assert Split(s, '.') == [s];
  }

  /** For product versions the outer range must have a valid bound: with none it accepts nothing, while its parts do. */
  lemma ProductRangesSplit(a: string, b: string, c: string, product: string)
    requires NonNegative(MajorNumbers(a)) && NonNegative(MajorNumbers(b))
    requires NonNegative(MajorNumbers(c)) && NonNegative(MajorNumbers(product))
    requires IsValidMajorVersion(MajorNumbers(b))
    requires IsValidMajorVersion(MajorNumbers(a)) ==> Diff(MajorNumbers(a), MajorNumbers(b)) <= 0
    requires IsValidMajorVersion(MajorNumbers(c)) ==> Diff(MajorNumbers(b), MajorNumbers(c)) <= 0
    ensures var lower, upper := AcceptVersion(SchemeRange(a, b), product), AcceptVersion(SchemeRange(b, c), product);
            && !(lower && upper)
            && (AcceptVersion(SchemeRange(a, c), product) <==>
                (lower || upper) && (IsValidMajorVersion(MajorNumbers(a)) || IsValidMajorVersion(MajorNumbers(c))))
  {
    hide MajorNumbers, Diff, NonNegative;
    var x, y, z, v := MajorNumbers(a), MajorNumbers(b), MajorNumbers(c), MajorNumbers(product);
    if Diff(y, v) <= 0 {
      if IsValidMajorVersion(x) {
        DiffIsTransitive(x, y, v);
      }
    } else if IsValidMajorVersion(z) {
      DiffIsLexicographic(y, v);
      DiffIsLexicographic(z, v);
      if Diff(z, v) <= 0 {
        DiffIsTransitive(y, z, v);
      }
    }
  }
}
