/** The catalog's SemVer dialect: parsing, printing, precedence and version ranges. */
module Semver {
  import opened Prelude
  import opened Text

  const MAX_SAFE_INTEGER: int := 9_007_199_254_740_991

  /** Rust's `u64`: every arithmetic result given this type is checked to fit. */
  type u64 = n: int | 0 <= n < 0x1_0000_0000_0000_0000

  datatype Version = Version(major: u64, minor: u64, patch: u64, pre: seq<string>)

  // --------------------------------------------------------------- parsing

  function Numeric(s: string): (r: Option<u64>)
    ensures r.Some? <==> NoLeadingZero(s) && NumberOf(s) <= MAX_SAFE_INTEGER
    ensures r.Some? ==> r.value == NumberOf(s)
  {
    if s == [] || !AllDigits(s) || (|s| > 1 && s[0] == '0') then None
    else if NumberOf(s) <= MAX_SAFE_INTEGER then Some(NumberOf(s)) else None
  }

  predicate IdentifierChar(c: char) {
    IsDigit(c) || 'a' <= c <= 'z' || 'A' <= c <= 'Z' || c == '-'
  }

  /** A dot-separated pre-release identifier (section 9 of SemVer 2.0.0). */
  predicate Identifier(id: string) {
    && id != []
    && (forall i :: 0 <= i < |id| ==> IdentifierChar(id[i]))
    && !(AllDigits(id) && |id| > 1 && id[0] == '0')
  }

  function Numbers(pieces: seq<string>): Option<seq<u64>> {
    Collect(Numeric, pieces)
  }

  function FromNumbers(nums: seq<u64>, pre: seq<string>): Version
    requires 1 <= |nums| <= 3
  {
    Version(nums[0], if |nums| > 1 then nums[1] else 0, if |nums| > 2 then nums[2] else 0, pre)
  }

  /** A version with one to three numbers, and how many were written. */
  function PartialOf(s: string): (r: Option<(Version, nat)>)
    ensures r.Some? ==> 1 <= r.value.1 <= 3 && Valid(r.value.0)
    ensures r.Some? && r.value.0.pre != [] ==> r.value.1 == 3
    ensures r.Some? && r.value.1 < 3 ==> r.value.0.patch == 0
    ensures r.Some? && r.value.1 < 2 ==> r.value.0.minor == 0
  {
    var cut := SplitOnce(s, '-');
    var base := if cut.Some? then cut.value.0 else s;
    var nums := Numbers(Split(base, '.'));
    if nums.None? || |nums.value| > 3 || (cut.Some? && |nums.value| != 3) then None
    else if cut.None? then Some((FromNumbers(nums.value, []), |nums.value|))
    else
      var ids := Split(cut.value.1, '.');
      if forall i :: 0 <= i < |ids| ==> Identifier(ids[i])
      then Some((FromNumbers(nums.value, ids), 3))
      else None
  }

  method Partial(s: string) returns (r: Option<(Version, nat)>)
    ensures r == PartialOf(s)
  {
    var cut := SplitOnce(s, '-');
    var base := if cut.Some? then cut.value.0 else s;
    var nums := Numbers(Split(base, '.'));
    if nums.None? || |nums.value| > 3 || (cut.Some? && |nums.value| != 3) {
      return None;
    }
    var ids: seq<string> := [];
    if cut.Some? {
      var pieces := Split(cut.value.1, '.');
      for i := 0 to |pieces|
        invariant ids == pieces[..i]
        invariant forall j :: 0 <= j < i ==> Identifier(pieces[j])
      {
        if !Identifier(pieces[i]) { return None; }
        ids := ids + [pieces[i]];
      }
      assert ids == pieces;
    }
    return Some((FromNumbers(nums.value, ids), |nums.value|));
  }

  function ParseVersion(s: string): (r: Option<Version>)
    ensures r.Some? ==> Valid(r.value)
  {
    match PartialOf(s)
    case Some((v, k)) => if k == 3 then Some(v) else None
    case None => None
  }

  // -------------------------------------------------------------- printing

  function Display(v: Version): string {
    Decimal(v.major) + "." + Decimal(v.minor) + "." + Decimal(v.patch)
      + (if v.pre == [] then "" else "-" + Join(v.pre, '.'))
  }

  /** What `ParseVersion` can return. */
  predicate Valid(v: Version) {
    && v.major <= MAX_SAFE_INTEGER && v.minor <= MAX_SAFE_INTEGER && v.patch <= MAX_SAFE_INTEGER
    && forall i :: 0 <= i < |v.pre| ==> Identifier(v.pre[i])
  }

  function CoreText(v: Version): string {
    Join(CoreParts(v), '.')
  }

  function CoreParts(v: Version): seq<string> {
    [Decimal(v.major), Decimal(v.minor), Decimal(v.patch)]
  }

  lemma CoreTextDisplay(v: Version)
    ensures Display(v) == CoreText(v) + (if v.pre == [] then "" else "-" + Join(v.pre, '.'))
    ensures '-' !in CoreText(v)
    ensures Split(CoreText(v), '.') == CoreParts(v)
  {
    hide Decimal, Split, SplitOnce;
    var parts := CoreParts(v);
    JoinCons(parts[0], parts[1..], '.');
    JoinCons(parts[1], parts[2..], '.');
    assert parts == [parts[0]] + parts[1..] && parts[1..] == [parts[1]] + parts[2..];
    SplitJoin(parts, '.');
  }

  lemma DisplayThenParse(v: Version)
    requires Valid(v)
    ensures ParseVersion(Display(v)) == Some(v)
  {
    hide Decimal, Split, Join, SplitOnce, NumberOf, CoreText, Display, Identifier;
    CoreTextDisplay(v);
    var parts := CoreParts(v);
    assert Numeric(parts[0]) == Some(v.major) && Numeric(parts[1]) == Some(v.minor) && Numeric(parts[2]) == Some(v.patch);
    assert Numbers(parts).value == [v.major, v.minor, v.patch];
    if v.pre != [] {
      SplitOnceAt(CoreText(v), '-', Join(v.pre, '.'));
      assert Display(v) == CoreText(v) + ['-'] + Join(v.pre, '.');
      PreSplits(v);
    } else {
      assert Display(v) == CoreText(v);
    }
  }

  lemma PreSplits(v: Version)
    requires Valid(v) && v.pre != []
    ensures Split(Join(v.pre, '.'), '.') == v.pre
  {
    SplitJoin(v.pre, '.');
  }

  lemma NumeralsOf(pieces: seq<string>, v: Version)
    requires |pieces| == 3
    requires Numeric(pieces[0]) == Some(v.major) && Numeric(pieces[1]) == Some(v.minor)
    requires Numeric(pieces[2]) == Some(v.patch)
    ensures pieces == CoreParts(v)
  {
    hide Decimal, NumberOf;
    DecimalOfNumber(pieces[0]);
    DecimalOfNumber(pieces[1]);
    DecimalOfNumber(pieces[2]);
  }

  lemma ParseThenDisplay(s: string)
    requires ParseVersion(s).Some?
    ensures Display(ParseVersion(s).value) == s
  {
    hide Decimal, Split, Join, SplitOnce, NumberOf, Display, Numeric, Identifier;
    var v := ParseVersion(s).value;
    var cut := SplitOnce(s, '-');
    var base := if cut.Some? then cut.value.0 else s;
    var pieces := Split(base, '.');
    JoinSplit(base, '.');
    NumeralsOf(pieces, v);
    CoreTextDisplay(v);
    assert base == CoreText(v);
    if cut.Some? {
      JoinSplit(cut.value.1, '.');
    }
  }

  /** Parsing and printing undo each other, exactly on the values parsing can produce. */
  lemma PrintParseRoundTrip(v: Version)
    ensures ParseVersion(Display(v)) == Some(v) <==> Valid(v)
  {
    if Valid(v) { DisplayThenParse(v); }
  }

  /** What a partial version can be: the numbers that are not written are zero, and only a full one has a pre-release. */
  predicate Shaped(v: Version, k: nat) {
    1 <= k <= 3 && Valid(v) && (k < 3 ==> v.patch == 0 && v.pre == []) && (k < 2 ==> v.minor == 0)
  }

  /** The first `k` numbers and the pre-release, as written. */
  function PartialText(v: Version, k: nat): string
    requires 1 <= k <= 3
  {
    Join(CoreParts(v)[..k], '.') + (if v.pre == [] then "" else "-" + Join(v.pre, '.'))
  }

  lemma SomeNumerals(pieces: seq<string>, v: Version)
    requires 1 <= |pieces| <= 3
    requires Numbers(pieces).Some? && FromNumbers(Numbers(pieces).value, v.pre) == v
    ensures pieces == CoreParts(v)[..|pieces|]
  {
    hide Decimal, NumberOf;
    forall i | 0 <= i < |pieces| ensures pieces[i] == CoreParts(v)[i] {
      DecimalOfNumber(pieces[i]);
    }
  }

  /** The numbers written are those of the version, and all it has. */
  lemma WrittenNumbers(v: Version, k: nat)
    requires Shaped(v, k)
    ensures var parts := CoreParts(v)[..k];
      && (forall p :: p in parts ==> p != [] && AllDigits(p) && '.' !in p)
      && Numbers(parts).Some? && |Numbers(parts).value| == k && FromNumbers(Numbers(parts).value, v.pre) == v
  {
    hide Decimal, NumberOf;
    var parts := CoreParts(v)[..k];
    assert forall i :: 0 <= i < k ==> Numeric(parts[i]).Some?;
  }

  lemma PartialOfText(v: Version, k: nat)
    requires Shaped(v, k)
    ensures PartialOf(PartialText(v, k)) == Some((v, k))
  {
    hide Decimal, Split, Join, SplitOnce, NumberOf, Identifier, CoreText;
    var parts := CoreParts(v)[..k];
    var base := Join(parts, '.');
    forall x | x in base ensures x != '-' { JoinChars(parts, '.', x); }
    SplitJoin(parts, '.');
    WrittenNumbers(v, k);
    hide Numbers, Numeric, FromNumbers, CoreParts;
    if v.pre == [] {
      assert PartialText(v, k) == base;
    } else {
      SplitOnceAt(base, '-', Join(v.pre, '.'));
      assert PartialText(v, k) == base + ['-'] + Join(v.pre, '.');
      PreSplits(v);
    }
  }

  lemma PartialThenText(s: string)
    requires PartialOf(s).Some?
    ensures var (v, k) := PartialOf(s).value; Shaped(v, k) && PartialText(v, k) == s
  {
    hide Decimal, Split, Join, SplitOnce, NumberOf, Numeric, Identifier;
    var (v, k) := PartialOf(s).value;
    var cut := SplitOnce(s, '-');
    var base := if cut.Some? then cut.value.0 else s;
    JoinSplit(base, '.');
    SomeNumerals(Split(base, '.'), v);
    if cut.Some? { JoinSplit(cut.value.1, '.'); }
  }

  /** Which texts are partial versions, and of what: exactly the printed forms of the values of that shape. */
  lemma PartialMeans(s: string, v: Version, k: nat)
    requires 1 <= k <= 3
    ensures PartialOf(s) == Some((v, k)) <==> Shaped(v, k) && s == PartialText(v, k)
  {
    hide PartialOf, Shaped, PartialText;
    if Shaped(v, k) { PartialOfText(v, k); }
    if PartialOf(s).Some? { PartialThenText(s); }
  }

  lemma PartialStarts(version: string)
    requires PartialOf(version).Some?
    ensures version != [] && IsDigit(version[0])
  {
    hide Decimal, Join, Identifier, PartialOf;
    PartialThenText(version);
    var (v, k) := PartialOf(version).value;
    var parts := CoreParts(v)[..k];
    assert parts[0] == Decimal(v.major);
    if k > 1 { assert Join(parts, '.') == parts[0] + ['.'] + Join(parts[1..], '.') by { JoinMore(parts); } }
    if k == 1 { JoinMore(parts); }
  }

  lemma JoinMore(parts: seq<string>)
    requires parts != []
    ensures Join(parts, '.') == if |parts| == 1 then parts[0] else parts[0] + ['.'] + Join(parts[1..], '.')
  {
  }

  /** Two texts of one version are one text. */
  lemma ParseInjective(s: string, t: string)
    requires ParseVersion(s).Some? && ParseVersion(s) == ParseVersion(t)
    ensures s == t
  {
    ParseThenDisplay(s);
    ParseThenDisplay(t);
  }

  /** Version text uses only digits, letters, `-` and `.`. */
  lemma VersionTextChars(s: string, x: char)
    requires ParseVersion(s).Some? && x in s
    ensures IdentifierChar(x) || x == '.'
  {
    hide ParseVersion, Join, Display, Decimal, Split;
    var v := ParseVersion(s).value;
    ParseThenDisplay(s);
    CoreTextDisplay(v);
    if x in CoreText(v) {
      JoinChars(CoreParts(v), '.', x);
    } else if x != '-' {
      JoinChars(v.pre, '.', x);
    }
  }

  // ------------------------------------------------------------ precedence

  function CompareCore(a: Version, b: Version): Ordering {
    CompareInt(a.major, b.major).Then(CompareInt(a.minor, b.minor)).Then(CompareInt(a.patch, b.patch))
  }

  function CompareId(x: string, y: string): Ordering {
    match (AllDigits(x), AllDigits(y))
    case (true, true) => CompareInt(|x|, |y|).Then(CompareText(x, y))
    case (true, false) => Less
    case (false, true) => Greater
    case (false, false) => CompareText(x, y)
  }

  function CompareIds(xs: seq<string>, ys: seq<string>): Ordering {
    if xs == [] || ys == [] then CompareInt(|xs|, |ys|)
    else CompareId(xs[0], ys[0]).Then(CompareIds(xs[1..], ys[1..]))
  }

  function Compare(a: Version, b: Version): Ordering {
    CompareCore(a, b).Then(
      if a.pre == [] && b.pre != [] then Greater
      else if a.pre != [] && b.pre == [] then Less
      else CompareIds(a.pre, b.pre))
  }

  method Cmp(a: Version, b: Version) returns (r: Ordering)
    ensures r == Compare(a, b)
  {
    var core := CompareCore(a, b);
    if core != Equal { return core; }
    if a.pre == [] && b.pre != [] { return Greater; }
    if a.pre != [] && b.pre == [] { return Less; }
    var i := 0;
    while i < |a.pre| && i < |b.pre|
      invariant 0 <= i <= |a.pre| && i <= |b.pre|
      invariant CompareIds(a.pre, b.pre) == CompareIds(a.pre[i..], b.pre[i..])
    {
      var xn, yn := AllDigits(a.pre[i]), AllDigits(b.pre[i]);
      var cmp :=
        if xn && yn then CompareInt(|a.pre[i]|, |b.pre[i]|).Then(CompareText(a.pre[i], b.pre[i]))
        else if xn then Less
        else if yn then Greater
        else CompareText(a.pre[i], b.pre[i]);
      if cmp != Equal { return cmp; }
      assert a.pre[i..][1..] == a.pre[i + 1..] && b.pre[i..][1..] == b.pre[i + 1..];
      i := i + 1;
    }
    return CompareInt(|a.pre|, |b.pre|);
  }

  lemma CompareIdLaws(x: string, y: string)
    ensures CompareId(x, y).Equal? <==> x == y
    ensures CompareId(y, x) == CompareId(x, y).Reverse()
  {
    CompareTextEqual(x, y);
    CompareTextReverse(x, y);
  }

  lemma CompareIdTransitive(x: string, y: string, z: string)
    requires CompareId(x, y).Less? && CompareId(y, z).Less?
    ensures CompareId(x, z).Less?
  {
    CompareTextEqual(x, y);
    CompareTextEqual(y, z);
    if CompareText(x, y).Less? && CompareText(y, z).Less? { CompareTextTransitive(x, y, z); }
  }

  lemma {:induction false} CompareIdsLaws(xs: seq<string>, ys: seq<string>)
    ensures CompareIds(xs, ys).Equal? <==> xs == ys
    ensures CompareIds(ys, xs) == CompareIds(xs, ys).Reverse()
  {
    if xs != [] && ys != [] {
      CompareIdLaws(xs[0], ys[0]);
      CompareIdsLaws(xs[1..], ys[1..]);
      assert xs == [xs[0]] + xs[1..] && ys == [ys[0]] + ys[1..];
    }
  }

  lemma {:induction false} CompareIdsTransitive(xs: seq<string>, ys: seq<string>, zs: seq<string>)
    requires CompareIds(xs, ys).Less? && CompareIds(ys, zs).Less?
    ensures CompareIds(xs, zs).Less?
  {
    if xs != [] && ys != [] && zs != [] {
      CompareIdLaws(xs[0], ys[0]);
      CompareIdLaws(ys[0], zs[0]);
      if xs[0] == ys[0] && ys[0] == zs[0] {
        CompareIdsTransitive(xs[1..], ys[1..], zs[1..]);
      } else if xs[0] != ys[0] && ys[0] != zs[0] {
        CompareIdTransitive(xs[0], ys[0], zs[0]);
      }
    }
  }

  /** `Version::cmp` is a total order that agrees with `==`, on every value. */
  lemma CompareTotalOrder(a: Version, b: Version)
    ensures Compare(a, b).Equal? <==> a == b
    ensures Compare(b, a) == Compare(a, b).Reverse()
  {
    CompareIdsLaws(a.pre, b.pre);
  }

  lemma CompareTransitive(a: Version, b: Version, c: Version)
    requires Compare(a, b).Less? && Compare(b, c).Less?
    ensures Compare(a, c).Less?
  {
    if CompareCore(a, b).Equal? && CompareCore(b, c).Equal?
       && CompareIds(a.pre, b.pre).Less? && CompareIds(b.pre, c.pre).Less? {
      CompareIdsTransitive(a.pre, b.pre, c.pre);
    }
  }

  // ------------------------------------- section 11 of SemVer 2.0.0, as written

  /** Numeric identifiers by value and below alphanumeric ones, which compare as ASCII. */
  ghost predicate LowerIdentifier(x: string, y: string) {
    if AllDigits(x) && AllDigits(y) then NumberOf(x) < NumberOf(y)
    else AllDigits(x) || (!AllDigits(y) && TextBefore(x, y))
  }

  /** At the first difference `i` the left list is lower, or it ended there. */
  ghost predicate LowerAt(xs: seq<string>, ys: seq<string>, i: nat) {
    && i <= |xs| && i < |ys| && xs[..i] == ys[..i]
    && (i == |xs| || LowerIdentifier(xs[i], ys[i]))
  }

  ghost predicate LowerPrecedence(a: Version, b: Version) {
    || a.major < b.major
    || (a.major == b.major && a.minor < b.minor)
    || (a.major == b.major && a.minor == b.minor && a.patch < b.patch)
    || (a.major == b.major && a.minor == b.minor && a.patch == b.patch
        && a.pre != [] && (b.pre == [] || exists i :: LowerAt(a.pre, b.pre, i)))
  }

  lemma CompareIdIsRule11(x: string, y: string)
    requires Identifier(x) && Identifier(y)
    ensures CompareId(x, y).Less? <==> LowerIdentifier(x, y)
  {
    if AllDigits(x) && AllDigits(y) { LengthThenTextIsNumeric(x, y); }
  }

  lemma {:induction false} CompareIdsIsRule11(xs: seq<string>, ys: seq<string>)
    requires forall i :: 0 <= i < |xs| ==> Identifier(xs[i])
    requires forall i :: 0 <= i < |ys| ==> Identifier(ys[i])
    ensures CompareIds(xs, ys).Less? <==> exists i :: LowerAt(xs, ys, i)
  {
    if xs == [] {
      if ys != [] { assert LowerAt(xs, ys, 0); }
    } else if ys != [] {
      CompareIdIsRule11(xs[0], ys[0]);
      CompareIdLaws(xs[0], ys[0]);
      if xs[0] == ys[0] {
        CompareIdsIsRule11(xs[1..], ys[1..]);
        if i: nat :| LowerAt(xs[1..], ys[1..], i) {
          assert xs[..i + 1] == [xs[0]] + xs[1..][..i] && ys[..i + 1] == [ys[0]] + ys[1..][..i];
          assert LowerAt(xs, ys, i + 1);
        }
        if i: nat :| LowerAt(xs, ys, i) {
          assert i > 0;
          assert xs[1..][..i - 1] == xs[..i][1..] && ys[1..][..i - 1] == ys[..i][1..];
          assert LowerAt(xs[1..], ys[1..], i - 1);
        }
      } else {
        if LowerIdentifier(xs[0], ys[0]) { assert LowerAt(xs, ys, 0); }
        if i: nat :| LowerAt(xs, ys, i) {
          assert i > 0 ==> xs[..i][0] == ys[..i][0];
        }
      }
    }
  }

  /** The comparison without any numeric conversion is exactly SemVer precedence. */
  lemma CompareIsSemverPrecedence(a: Version, b: Version)
    requires Valid(a) && Valid(b)
    ensures Compare(a, b).Less? <==> LowerPrecedence(a, b)
  {
    CompareIdsIsRule11(a.pre, b.pre);
  }
}
