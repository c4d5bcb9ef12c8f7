/** Version ranges: comparators, their sets, and which versions satisfy them. */
module VersionRange {
  import opened Prelude
  import opened Semver

  datatype Bound = Bound(
    lo: Option<Version>, hi: Option<Version>, loInclusive: bool, hiInclusive: bool, exact: Option<Version>)

  /** Alternatives (`||`) of conjunctions. */
  type Range = seq<seq<Bound>>

  function Release(a: u64, b: u64, c: u64): Version { Version(a, b, c, []) }

  function Interval(lo: Option<Version>, li: bool, hi: Option<Version>, hii: bool): Bound {
    Bound(lo, hi, li, hii, None)
  }

  function Exactly(v: Version): Bound { Bound(None, None, true, false, Some(v)) }

  predicate StartsWith(s: string, p: string) { |p| <= |s| && s[..|p|] == p }

  datatype Op = Plain | AtLeast | AtMost | Caret | Tilde | Above | Below | Equals
  {
    function Text(): string {
      match this
      case Plain => ""
      case AtLeast => ">="
      case AtMost => "<="
      case Caret => "^"
      case Tilde => "~"
      case Above => ">"
      case Below => "<"
      case Equals => "="
    }
  }

  /** The first operator, in this order, that the text starts with. */
  function Operator(text: string): (op: Op)
    ensures StartsWith(text, op.Text())
  {
    if StartsWith(text, AtLeast.Text()) then AtLeast
    else if StartsWith(text, AtMost.Text()) then AtMost
    else if StartsWith(text, Caret.Text()) then Caret
    else if StartsWith(text, Tilde.Text()) then Tilde
    else if StartsWith(text, Above.Text()) then Above
    else if StartsWith(text, Below.Text()) then Below
    else if StartsWith(text, Equals.Text()) then Equals
    else Plain
  }

  /** The version an operator applies to, with the count of numbers written. */
  function Operand(text: string): Option<(Version, nat)> {
    PartialOf(text[|Operator(text).Text()|..])
  }

  /** No addition here can overflow: `Release` takes `u64`, and parsed numbers are safe integers. */
  function BoundOf(op: Op, lo: Version, k: nat): Option<Bound>
    requires Valid(lo)
  {
    if lo.pre != [] && op != Plain && op != Equals then None
    else
      var next := if k == 1 then Release(lo.major + 1, 0, 0) else Release(lo.major, lo.minor + 1, 0);
      Some(match op
           case Plain | Equals =>
             if k == 3 then Exactly(lo) else Interval(Some(lo), true, Some(next), false)
           case Caret =>
             var hi :=
               if lo.major > 0 || k == 1 then Release(lo.major + 1, 0, 0)
               else if lo.minor > 0 || k == 2 then Release(0, lo.minor + 1, 0)
               else Release(0, 0, lo.patch + 1);
             Interval(Some(lo), true, Some(hi), false)
           case Tilde => Interval(Some(lo), true, Some(next), false)
           case AtLeast => Interval(Some(lo), true, None, false)
           case Above => Interval(Some(if k == 3 then lo else next), k != 3, None, false)
           case Below => Interval(None, true, Some(lo), false)
           case AtMost => Interval(None, true, Some(if k == 3 then lo else next), k == 3))
  }

  function Comparator(text: string): Option<Bound> {
    if text == "*" then Some(Interval(None, true, None, false))
    else
      match Operand(text)
      case None => None
      case Some((lo, k)) => BoundOf(Operator(text), lo, k)
  }

  // ---------------------------------------------------------- satisfaction

  predicate Within(b: Bound, v: Version) {
    match b.exact
    case Some(exact) => v == exact
    case None =>
      && (b.lo.Some? ==> Compare(v, b.lo.value).Greater? || (b.loInclusive && v == b.lo.value))
      && (b.hi.Some? ==> Compare(v, b.hi.value).Less? || (b.hiInclusive && v == b.hi.value))
  }

  predicate SetAdmits(s: seq<Bound>, v: Version) {
    if v.pre != [] then |s| == 1 && s[0].exact == Some(v)
    else forall i :: 0 <= i < |s| ==> Within(s[i], v)
  }

  predicate Satisfies(range: Range, v: Version) {
    exists i :: 0 <= i < |range| && SetAdmits(range[i], v)
  }

  // --------------------------------------------- what the operators intend

  /** Compare only the first `k` of major, minor, patch. */
  function CompareFirst(a: Version, b: Version, k: nat): Ordering {
    (if k >= 1 then CompareInt(a.major, b.major) else Equal)
      .Then(if k >= 2 then CompareInt(a.minor, b.minor) else Equal)
      .Then(if k >= 3 then CompareInt(a.patch, b.patch) else Equal)
  }

  /** Caret keeps everything up to the first written number that is not zero, or all of them. */
  function CaretKeeps(lo: Version, k: nat): nat {
    if lo.major > 0 || k == 1 then 1 else if lo.minor > 0 || k == 2 then 2 else 3
  }

  /** The releases an operator names, given a version with `k` numbers written. */
  predicate Intends(op: Op, lo: Version, k: nat, v: Version) {
    match op
    case Plain | Equals => CompareFirst(v, lo, k).Equal? && lo.pre == []
    case Caret => !CompareFirst(v, lo, 3).Less? && CompareFirst(v, lo, CaretKeeps(lo, k)).Equal?
    case Tilde => !CompareFirst(v, lo, 3).Less? && CompareFirst(v, lo, if k == 1 then 1 else 2).Equal?
    case AtLeast => !CompareFirst(v, lo, k).Less?
    case Above => CompareFirst(v, lo, k).Greater?
    case Below => CompareFirst(v, lo, k).Less?
    case AtMost => !CompareFirst(v, lo, k).Greater?
  }

  lemma CompareReleases(v: Version, w: Version)
    requires v.pre == [] && w.pre == []
    ensures Compare(v, w) == CompareFirst(v, w, 3)
    ensures v == w <==> CompareFirst(v, w, 3).Equal?
  {
  }

  lemma BoundMeaning(op: Op, lo: Version, k: nat, v: Version)
    requires Valid(lo) && 1 <= k <= 3 && v.pre == []
    requires k < 3 ==> lo.patch == 0 && lo.pre == []
    requires k < 2 ==> lo.minor == 0
    requires BoundOf(op, lo, k).Some?
    ensures Within(BoundOf(op, lo, k).value, v) <==> Intends(op, lo, k, v)
  {
    var b := BoundOf(op, lo, k).value;
    if b.lo.Some? { CompareReleases(v, b.lo.value); }
    if b.hi.Some? { CompareReleases(v, b.hi.value); }
  }

  /** Every comparator admits exactly the releases its operator intends. */
  lemma ComparatorMeaning(text: string, v: Version)
    requires text != "*" && Comparator(text).Some? && v.pre == []
    ensures Operand(text).Some?
    ensures var (lo, k) := Operand(text).value;
            Within(Comparator(text).value, v) <==> Intends(Operator(text), lo, k, v)
  {
    var (lo, k) := Operand(text).value;
    BoundMeaning(Operator(text), lo, k, v);
  }

  // ------------------------------------------------------------ range text

  /** Unicode `White_Space`, as `split_whitespace` uses it. */
  predicate IsSpace(c: char) {
    var n := c as int;
    || 0x9 <= n <= 0xD || n == 0x20 || n == 0x85 || n == 0xA0 || n == 0x1680
    || 0x2000 <= n <= 0x200A || n == 0x2028 || n == 0x2029 || n == 0x202F || n == 0x205F || n == 0x3000
  }

  function Words(s: string): (r: seq<string>)
    ensures s != [] && !IsSpace(s[0]) ==> r != []
  {
    if s == [] then []
    else if IsSpace(s[0]) then Words(s[1..])
    else if |s| == 1 || IsSpace(s[1]) then [[s[0]]] + Words(s[1..])
    else
      var rest := Words(s[1..]);
      [[s[0]] + rest[0]] + rest[1..]
  }

  /** `split("||")`. */
  function SplitBars(s: string): (r: seq<string>)
    ensures r != []
  {
    if s == [] then [[]]
    else if |s| >= 2 && s[0] == '|' && s[1] == '|' then [[]] + SplitBars(s[2..])
    else
      var rest := SplitBars(s[1..]);
      [[s[0]] + rest[0]] + rest[1..]
  }

  predicate PrereleaseNotAlone(s: seq<Bound>) {
    |s| > 1 && exists i :: 0 <= i < |s| && s[i].exact.Some? && s[i].exact.value.pre != []
  }

  /** One `||` alternative: `*` and an exact pre-release must stand alone. */
  function SetOf(text: string): Option<seq<Bound>> {
    var parts := Words(text);
    if parts == [] || (|parts| > 1 && "*" in parts) then None
    else
      var bounds := Collect(Comparator, parts);
      if bounds.None? || PrereleaseNotAlone(bounds.value) then None else bounds
  }

  function RangeOf(text: string): Option<Range> {
    Collect(SetOf, SplitBars(text))
  }

  lemma CollectedAll(pieces: seq<string>, sets: Range)
    requires |sets| == |pieces| && forall j :: 0 <= j < |pieces| ==> SetOf(pieces[j]) == Some(sets[j])
    ensures Collect(SetOf, pieces) == Some(sets)
  {
    assert Collect(SetOf, pieces).value == sets;
  }

  method ParseRange(text: string) returns (r: Option<Range>)
    ensures r == RangeOf(text)
  {
    var pieces := SplitBars(text);
    var sets: Range := [];
    for i := 0 to |pieces|
      invariant |sets| == i && forall j :: 0 <= j < i ==> SetOf(pieces[j]) == Some(sets[j])
    {
      var s := SetOf(pieces[i]);
      if s.None? { return None; }
      sets := sets + [s.value];
    }
    CollectedAll(pieces, sets);
    return Some(sets);
  }

  // ------------------------------------------- what a range text means

  /** The operators that may name a pre-release. */
  predicate MayNamePre(op: Op) { op == Plain || op == Equals }

  /** A word by itself: `*`, or an operator in front of a version text it can apply to. */
  ghost predicate GoodWord(w: string) {
    w == "*" || (Operand(w).Some? && (Operand(w).value.0.pre != [] ==> MayNamePre(Operator(w))))
  }

  ghost predicate NamesPre(w: string) { w != "*" && Operand(w).Some? && Operand(w).value.0.pre != [] }

  /** What one word asks of a release. */
  ghost predicate WordAsks(w: string, v: Version) {
    w == "*" || (Operand(w).Some? && Intends(Operator(w), Operand(w).value.0, Operand(w).value.1, v))
  }

  /** One alternative is accepted: it has words, all good, and `*` or a pre-release only by itself. */
  ghost predicate GoodAlternative(piece: string) {
    var ws := Words(piece);
    && ws != [] && (forall w :: w in ws ==> GoodWord(w))
    && (|ws| > 1 ==> forall w :: w in ws ==> w != "*" && !NamesPre(w))
  }

  /** One alternative admits a release by all its words, and a pre-release by being the one word that names it. */
  ghost predicate AlternativeAdmits(piece: string, v: Version) {
    var ws := Words(piece);
    if v.pre == [] then forall w :: w in ws ==> WordAsks(w, v)
    else |ws| == 1 && ws[0] != "*" && Operand(ws[0]) == Some((v, 3))
  }

  lemma WordMeaning(w: string, v: Version)
    ensures Comparator(w).Some? <==> GoodWord(w)
    ensures Comparator(w).Some? && v.pre == [] ==> (Within(Comparator(w).value, v) <==> WordAsks(w, v))
    ensures Comparator(w).Some? ==> (Comparator(w).value.exact.Some? && Comparator(w).value.exact.value.pre != [] <==> NamesPre(w))
    ensures Comparator(w).Some? && v.pre != [] ==> (Comparator(w).value.exact == Some(v) <==> w != "*" && Operand(w) == Some((v, 3)))
  {
    hide PartialOf, Operator, Intends, Compare;
    if w != "*" && Comparator(w).Some? && v.pre == [] { ComparatorMeaning(w, v); }
  }

  lemma AlternativeMeaning(piece: string, v: Version)
    ensures SetOf(piece).Some? <==> GoodAlternative(piece)
    ensures SetOf(piece).Some? ==> (SetAdmits(SetOf(piece).value, v) <==> AlternativeAdmits(piece, v))
  {
    hide Words, Comparator, Within, GoodWord, NamesPre, WordAsks, Operand;
    var ws := Words(piece);
    forall w { WordMeaning(w, v); }
    var bounds := Collect(Comparator, ws);
    if bounds.Some? {
      forall i | 0 <= i < |ws| ensures Comparator(ws[i]) == Some(bounds.value[i]) && ws[i] in ws { }
    }
  }

  /**
   * A range text is accepted exactly when every `||` alternative is; it admits
   * a version exactly when some alternative does: a release by all the words
   * of the alternative, a pre-release by being spelled out alone.
   */
  lemma RangeMeaning(text: string, v: Version)
    ensures RangeOf(text).Some? <==> forall p :: p in SplitBars(text) ==> GoodAlternative(p)
    ensures RangeOf(text).Some? ==>
      (Satisfies(RangeOf(text).value, v) <==> exists p :: p in SplitBars(text) && AlternativeAdmits(p, v))
  {
    hide SetOf, SetAdmits, SplitBars, GoodAlternative, AlternativeAdmits;
    var pieces := SplitBars(text);
    forall p { AlternativeMeaning(p, v); }
    var sets := Collect(SetOf, pieces);
    if sets.Some? {
      forall i | 0 <= i < |pieces| ensures SetOf(pieces[i]) == Some(sets.value[i]) && pieces[i] in pieces { }
      forall p | p in pieces && AlternativeAdmits(p, v) ensures Satisfies(sets.value, v) {
        var i :| 0 <= i < |pieces| && pieces[i] == p;
        assert SetAdmits(sets.value[i], v);
      }
    }
  }

  /** How the operator and its version are read off a word. */
  lemma OperatorReads(op: Op, version: string)
    requires PartialOf(version).Some?
    ensures Operator(op.Text() + version) == op && Operand(op.Text() + version) == PartialOf(version)
  {
    hide PartialOf, Intends;
    PartialStarts(version);
    var w := op.Text() + version;
    assert w[|op.Text()|..] == version;
    assert op.Text() != [] ==> w[0] == op.Text()[0];
    assert |op.Text()| == 1 ==> w[1] == version[0];
    assert op == Plain ==> w == version;
  }

  // ------------------------------------------------ how a range text is cut

  predicate HasBars(s: string) { exists i :: 0 <= i && i + 1 < |s| && s[i] == '|' && s[i + 1] == '|' }

  /** A text without `||` is one alternative. */
  lemma {:induction false} NoBars(s: string)
    requires !HasBars(s)
    ensures SplitBars(s) == [s]
  {
    if s != [] {
      assert s == [s[0]] + s[1..];
      forall i | 0 <= i && i + 1 < |s[1..]| ensures !(s[1..][i] == '|' && s[1..][i + 1] == '|') {
        assert s[1..][i] == s[i + 1];
      }
      NoBars(s[1..]);
    }
  }

  /** The first `||` ends the first alternative. */
  lemma {:induction false} FirstBars(a: string, b: string)
    requires !HasBars(a + "|")
    ensures SplitBars(a + "||" + b) == [a] + SplitBars(b)
  {
    var s := a + "||" + b;
    if a == [] {
      assert s[2..] == b;
    } else {
      assert s[1..] == a[1..] + "||" + b;
      assert !(s[0] == '|' && s[1] == '|') by { assert s[0] == (a + "|")[0] && s[1] == (a + "|")[1]; }
      assert !HasBars(a[1..] + "|") by {
        forall i | 0 <= i && i + 1 < |a[1..] + "|"| ensures !((a[1..] + "|")[i] == '|' && (a[1..] + "|")[i + 1] == '|') {
          assert (a[1..] + "|")[i] == (a + "|")[i + 1] && (a[1..] + "|")[i + 1] == (a + "|")[i + 2];
        }
      }
      FirstBars(a[1..], b);
      assert [a[0]] + a[1..] == a;
    }
  }

  /** White space separates words; the pieces between are words on their own. */
  lemma {:induction false} WordsApart(a: string, c: char, b: string)
    requires IsSpace(c)
    ensures Words(a + [c] + b) == Words(a) + Words(b)
  {
    hide IsSpace;
    var s := a + [c] + b;
    if a == [] {
      assert s[1..] == b;
    } else {
      assert s[1..] == a[1..] + [c] + b;
      assert s[0] == a[0] && s[1] == (a[1..] + [c])[0];
      WordsApart(a[1..], c, b);
      if |a| == 1 { assert a[1..] == []; }
    }
  }

  /** Alternatives add up, whatever stands after the first `||`. */
  lemma Alternatives(a: string, b: string, v: Version)
    requires !HasBars(a + "|")
    ensures RangeOf(a + "||" + b).Some? <==> RangeOf(a).Some? && RangeOf(b).Some?
    ensures RangeOf(a + "||" + b).Some? ==>
      (Satisfies(RangeOf(a + "||" + b).value, v) <==> Satisfies(RangeOf(a).value, v) || Satisfies(RangeOf(b).value, v))
  {
    hide SplitBars, RangeOf, Satisfies, GoodAlternative, AlternativeAdmits;
    FirstBars(a, b);
    WithoutLast(a);
    NoBars(a);
    RangeMeaning(a + "||" + b, v);
    RangeMeaning(a, v);
    RangeMeaning(b, v);
  }

  lemma WithoutLast(a: string)
    requires !HasBars(a + "|")
    ensures !HasBars(a)
  {
    forall i | 0 <= i && i + 1 < |a| ensures !(a[i] == '|' && a[i + 1] == '|') {
      assert a[i] == (a + "|")[i] && a[i + 1] == (a + "|")[i + 1];
    }
  }

  /** Words side by side narrow the range: a release must satisfy both halves. */
  lemma Conjunctions(a: string, c: char, b: string, v: Version)
    requires IsSpace(c) && !HasBars(a) && !HasBars(b) && Words(a) != [] && Words(b) != [] && v.pre == []
    ensures RangeOf(a + [c] + b).Some? ==> RangeOf(a).Some? && RangeOf(b).Some?
    ensures RangeOf(a + [c] + b).Some? ==>
      (Satisfies(RangeOf(a + [c] + b).value, v) <==> Satisfies(RangeOf(a).value, v) && Satisfies(RangeOf(b).value, v))
  {
    hide SplitBars, RangeOf, Satisfies, Words, GoodWord, NamesPre, WordAsks, IsSpace;
    BarsApart(a, c, b);
    NoBars(a);
    NoBars(b);
    NoBars(a + [c] + b);
    WordsApart(a, c, b);
    RangeMeaning(a + [c] + b, v);
    RangeMeaning(a, v);
    RangeMeaning(b, v);
    var whole := a + [c] + b;
    assert forall w :: w in Words(whole) <==> w in Words(a) || w in Words(b);
    assert whole in [whole] && a in [a] && b in [b];
  }

  lemma BarsApart(a: string, c: char, b: string)
    requires IsSpace(c) && !HasBars(a) && !HasBars(b)
    ensures !HasBars(a + [c] + b)
  {
    var s := a + [c] + b;
    forall i | 0 <= i && i + 1 < |s| ensures !(s[i] == '|' && s[i + 1] == '|') {
      if i + 1 < |a| {
        assert s[i] == a[i] && s[i + 1] == a[i + 1];
      } else if i > |a| {
        assert s[i] == b[i - |a| - 1] && s[i + 1] == b[i - |a|];
      } else {
        assert s[|a|] == c;
      }
    }
  }

  // ------------------------------------------- ranges the resolver relies on

  lemma {:induction false} PlainWord(s: string)
    requires s != [] && forall x :: x in s ==> !IsSpace(x)
    ensures Words(s) == [s]
  {
    assert s[0] in s && !IsSpace(s[0]);
    if |s| == 1 {
      assert s == [s[0]] && s[1..] == [];
      assert Words(s) == [[s[0]]] + Words([]);
    } else {
      assert s[1] in s && !IsSpace(s[1]);
      PlainWord(s[1..]);
      var rest := Words(s[1..]);
      assert rest[0] == s[1..] && rest[1..] == [];
      assert [s[0]] + s[1..] == s;
      assert Words(s) == [[s[0]] + rest[0]] + rest[1..];
    }
  }

  lemma OneWordRange(s: string, b: Bound)
    requires s != [] && forall x :: x in s ==> !IsSpace(x) && x != '|'
    requires Comparator(s) == Some(b)
    ensures RangeOf(s) == Some([[b]])
  {
    PlainWord(s);
    assert forall i :: 0 <= i < |s| ==> s[i] in s;
    NoBars(s);
    var bounds := Collect(Comparator, [s]);
    assert [s][0] == s;
    assert bounds.Some? && bounds.value == [b];
    assert SetOf(s) == Some([b]);
    var sets := Collect(SetOf, [s]);
    assert sets.Some? && sets.value == [[b]];
  }

  lemma OneBoundSatisfies(b: Bound, v: Version)
    ensures Satisfies([[b]], v) <==> if v.pre != [] then b.exact == Some(v) else Within(b, v)
  {
    assert [b][0] == b;
    assert SetAdmits([b], v) <==> if v.pre != [] then b.exact == Some(v) else Within(b, v);
    assert [[b]][0] == [b];
  }

  /** `=V` for a full version text `V` admits exactly the version `V` names. */
  lemma ExactRange(text: string, v: Version)
    requires ParseVersion(text).Some?
    ensures RangeOf("=" + text).Some?
    ensures Satisfies(RangeOf("=" + text).value, v) <==> v == ParseVersion(text).value
  {
    hide RangeOf, Satisfies, PartialOf, Words, SplitBars, Collect;
    var s := "=" + text;
    forall x | x in s ensures !IsSpace(x) && x != '|' {
      if x != '=' { VersionTextChars(text, x); }
    }
    assert s[1..] == text && s[0] == '=';
    assert Operator(s) == Equals;
    OneWordRange(s, Exactly(ParseVersion(text).value));
    OneBoundSatisfies(Exactly(ParseVersion(text).value), v);
  }

  /** `*` admits every release and no pre-release. */
  lemma AnyRange(v: Version)
    ensures RangeOf("*").Some?
    ensures Satisfies(RangeOf("*").value, v) <==> v.pre == []
  {
    OneWordRange("*", Interval(None, true, None, false));
    OneBoundSatisfies(Interval(None, true, None, false), v);
  }

  /** A pre-release is admitted only by a range that spells that very version, alone. */
  lemma PrereleaseNeedsExact(range: Range, v: Version)
    requires v.pre != []
    ensures Satisfies(range, v) <==> exists i :: 0 <= i < |range| && |range[i]| == 1 && range[i][0].exact == Some(v)
  {
    forall i | 0 <= i < |range|
      ensures SetAdmits(range[i], v) <==> |range[i]| == 1 && range[i][0].exact == Some(v)
    {
    }
  }
}
