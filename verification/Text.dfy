/** Byte-wise text order, sorted key iteration, splitting and decimal digits. */
module Text {
  import opened Prelude

  // ---------------------------------------------------------------- order

  /** Rust's `str` order: compare character by character, a proper prefix first. */
  function CompareText(a: string, b: string): Ordering {
    if a == [] then (if b == [] then Equal else Less)
    else if b == [] then Greater
    else CompareInt(a[0] as int, b[0] as int).Then(CompareText(a[1..], b[1..]))
  }

  lemma {:induction false} CompareTextEqual(a: string, b: string)
    ensures CompareText(a, b).Equal? <==> a == b
  {
    if a != [] && b != [] {
      CompareTextEqual(a[1..], b[1..]);
      assert a == [a[0]] + a[1..] && b == [b[0]] + b[1..];
    }
  }

  lemma {:induction false} CompareTextReverse(a: string, b: string)
    ensures CompareText(b, a) == CompareText(a, b).Reverse()
  {
    if a != [] && b != [] {
      CompareTextReverse(a[1..], b[1..]);
    }
  }

  lemma {:induction false} CompareTextTransitive(a: string, b: string, c: string)
    requires CompareText(a, b).Less? && CompareText(b, c).Less?
    ensures CompareText(a, c).Less?
  {
    if a != [] && b != [] && c != [] && a[0] == b[0] == c[0] {
      CompareTextTransitive(a[1..], b[1..], c[1..]);
    }
  }

  predicate TextBefore(a: string, b: string) {
    CompareText(a, b).Less?
  }

  lemma TextBeforeTotal(a: string, b: string)
    ensures TextBefore(a, b) || a == b || TextBefore(b, a)
    ensures !(TextBefore(a, b) && TextBefore(b, a))
    ensures !TextBefore(a, a)
  {
    CompareTextEqual(a, b);
    CompareTextReverse(a, b);
    CompareTextEqual(a, a);
  }

  // ---------------------------------------------------- sorted iteration

  predicate Ascending(s: seq<string>) {
    forall i, j :: 0 <= i < j < |s| ==> TextBefore(s[i], s[j])
  }

  ghost predicate IsLeast(k: string, keys: set<string>) {
    k in keys && forall o :: o in keys && o != k ==> TextBefore(k, o)
  }

  lemma {:induction false} LeastExists(keys: set<string>)
    requires keys != {}
    ensures exists k :: IsLeast(k, keys)
  {
    var k :| k in keys;
    var rest := keys - {k};
    if rest == {} {
      assert keys == {k};
      assert IsLeast(k, keys);
    } else {
      LeastExists(rest);
      var m :| IsLeast(m, rest);
      TextBeforeTotal(k, m);
      if TextBefore(m, k) {
        assert IsLeast(m, keys);
      } else {
        forall o | o in keys && o != k ensures TextBefore(k, o) {
          if o != m {
            assert o in rest && TextBefore(m, o);
            CompareTextTransitive(k, m, o);
          }
        }
        assert IsLeast(k, keys);
      }
    }
  }

  function Least(keys: set<string>): (k: string)
    requires keys != {}
    ensures k in keys && forall o :: o in keys && o != k ==> TextBefore(k, o)
  {
    LeastExists(keys);
    assert exists k :: k in keys && forall o :: o in keys && o != k ==> TextBefore(k, o) by {
      var k :| IsLeast(k, keys);
    }
    assert forall a, b :: a in keys && b in keys && a != b ==> !(TextBefore(a, b) && TextBefore(b, a)) by {
      forall a, b { TextBeforeTotal(a, b); }
    }
    var k :| k in keys && forall o :: o in keys && o != k ==> TextBefore(k, o);
    k
  }

  /** The keys of a BTreeMap or BTreeSet in its iteration order. */
  function Sorted(keys: set<string>): (s: seq<string>)
    ensures Ascending(s)
    ensures forall k :: k in s <==> k in keys
    ensures |s| == |keys|
  {
    if keys == {} then [] else
    var k := Least(keys);
    var rest := Sorted(keys - {k});
    assert forall i :: 0 <= i < |rest| ==> rest[i] in rest;
    [k] + rest
  }

  lemma AscendingDistinct(s: seq<string>)
    requires Ascending(s)
    ensures forall i, j :: 0 <= i < j < |s| ==> s[i] != s[j]
  {
    forall i, j | 0 <= i < j < |s| ensures s[i] != s[j] {
      TextBeforeTotal(s[i], s[j]);
    }
  }

  /** What precedes an element of an ascending sequence comes earlier in it. */
  lemma EarlierInOrder(s: seq<string>, i: nat)
    requires Ascending(s) && i < |s|
    ensures forall k :: k in s && TextBefore(k, s[i]) ==> k in s[..i]
  {
    forall k | k in s && TextBefore(k, s[i]) ensures k in s[..i] {
      var j :| 0 <= j < |s| && s[j] == k;
      TextBeforeTotal(s[i], s[j]);
    }
  }

  // ------------------------------------------------------------ splitting

  /** `str::split` on one character: always at least one piece. */
  function Split(s: string, c: char): (parts: seq<string>)
    ensures |parts| >= 1
  {
    if s == [] then [[]]
    else
      var rest := Split(s[1..], c);
      if s[0] == c then [[]] + rest else [[s[0]] + rest[0]] + rest[1..]
  }

  /** `[..].join(c)`. */
  function Join(parts: seq<string>, c: char): string {
    if parts == [] then []
    else if |parts| == 1 then parts[0]
    else parts[0] + [c] + Join(parts[1..], c)
  }

  lemma JoinCons(p: string, rest: seq<string>, c: char)
    requires rest != []
    ensures Join([p] + rest, c) == p + [c] + Join(rest, c)
  {
    assert ([p] + rest)[1..] == rest;
  }

  lemma {:induction false} JoinSplit(s: string, c: char)
    ensures Join(Split(s, c), c) == s
  {
    if s != [] {
      JoinSplit(s[1..], c);
      var rest := Split(s[1..], c);
      if s[0] == c {
        JoinCons([], rest, c);
      } else if |rest| > 1 {
        JoinCons([s[0]] + rest[0], rest[1..], c);
        JoinCons(rest[0], rest[1..], c);
        assert [rest[0]] + rest[1..] == rest;
      }
    }
  }

  lemma SplitStep(s: string, c: char)
    requires s != [] && s[0] != c
    ensures var rest := Split(s[1..], c); Split(s, c) == [[s[0]] + rest[0]] + rest[1..]
  {
  }

  lemma SplitAt(tail: string, c: char)
    ensures Split([], c) == [[]]
    ensures tail != [] && tail[0] == c ==> Split(tail, c) == [[]] + Split(tail[1..], c)
  {
  }

  lemma {:induction false} SplitPiece(p: string, c: char, tail: string)
    requires c !in p
    requires tail == [] || tail[0] == c
    ensures Split(p + tail, c) == [p] + (if tail == [] then [] else Split(tail[1..], c))
  {
    hide Split;
    if p == [] {
      assert p + tail == tail;
      SplitAt(tail, c);
    } else {
      SplitPiece(p[1..], c, tail);
      assert (p + tail)[1..] == p[1..] + tail;
      SplitStep(p + tail, c);
      assert [p[0]] + p[1..] == p;
    }
  }

  lemma {:induction false} SplitJoin(parts: seq<string>, c: char)
    requires parts != []
    requires forall p :: p in parts ==> c !in p
    ensures Split(Join(parts, c), c) == parts
  {
    if |parts| == 1 {
      SplitPiece(parts[0], c, []);
      assert parts[0] + [] == parts[0];
    } else {
      SplitJoin(parts[1..], c);
      var tail := [c] + Join(parts[1..], c);
      SplitPiece(parts[0], c, tail);
      assert parts[0] + [c] + Join(parts[1..], c) == parts[0] + tail;
      assert tail[1..] == Join(parts[1..], c);
      assert parts == [parts[0]] + parts[1..];
    }
  }

  lemma {:induction false} SplitPiecesOmit(s: string, c: char)
    ensures forall p :: p in Split(s, c) ==> c !in p
    ensures forall p, x :: p in Split(s, c) && x in p ==> x in s
  {
    if s != [] {
      SplitPiecesOmit(s[1..], c);
      var rest := Split(s[1..], c);
      assert s == [s[0]] + s[1..];
      forall p | p in Split(s, c) ensures c !in p && forall x :: x in p ==> x in s {
        if s[0] == c {
          assert p == [] || p in rest;
        } else {
          assert p == [s[0]] + rest[0] || p in rest[1..];
          assert p in rest[1..] ==> p in rest;
          assert rest[0] in rest;
        }
      }
    }
  }

  lemma {:induction false} JoinChars(parts: seq<string>, c: char, x: char)
    requires x in Join(parts, c)
    ensures x == c || exists p :: p in parts && x in p
  {
    if |parts| == 1 {
      assert parts[0] in parts;
    } else if |parts| > 1 {
      if x in Join(parts[1..], c) {
        JoinChars(parts[1..], c, x);
        assert forall p :: p in parts[1..] ==> p in parts;
      } else if x in parts[0] {
        assert parts[0] in parts;
      }
    }
  }

  /** A stretch of the text from one `c`, or the start, to the next one, or the end. */
  ghost predicate Piece(s: string, c: char, i: nat, j: nat) {
    && i <= j <= |s| && (i == 0 || s[i - 1] == c) && (j == |s| || s[j] == c)
    && forall k :: i <= k < j ==> s[k] != c
  }

  /** The pieces of a split are exactly these stretches. */
  lemma {:induction false} SplitPieces(s: string, c: char, p: string)
    ensures p in Split(s, c) <==> exists i: nat, j: nat :: Piece(s, c, i, j) && s[i..j] == p
    decreases |s|
  {
    hide Split;
    var cut := SplitOnce(s, c);
    if cut.None? {
      assert s + [] == s;
      SplitPiece(s, c, []);
      assert Piece(s, c, 0, |s|) && s[0..|s|] == s;
      forall i: nat, j: nat | Piece(s, c, i, j) ensures i == 0 && j == |s| {
      }
    } else {
      var (first, rest) := cut.value;
      SplitPiece(first, c, [c] + rest);
      assert first + ([c] + rest) == s && ([c] + rest)[1..] == rest;
      SplitPieces(rest, c, p);
      PiecesAfter(first, c, rest, p);
    }
  }

  lemma PiecesAfter(first: string, c: char, rest: string, p: string)
    requires c !in first
    ensures (exists i: nat, j: nat :: Piece(first + [c] + rest, c, i, j) && (first + [c] + rest)[i..j] == p)
       <==> p == first || exists i: nat, j: nat :: Piece(rest, c, i, j) && rest[i..j] == p
  {
    var (s, n) := (first + [c] + rest, |first| + 1);
    FirstPiece(first, c, rest);
    assert s[0..|first|] == first;
    if i: nat, j: nat :| Piece(rest, c, i, j) && rest[i..j] == p {
      LaterPiece(first, c, rest, i, j);
      assert s[n + i..n + j] == p;
    }
    if i: nat, j: nat :| Piece(s, c, i, j) && s[i..j] == p {
      if i >= n {
        InLaterPiece(first, c, rest, i, j);
        assert rest[i - n..j - n] == p;
      } else {
        InFirstPiece(first, c, rest, i, j);
      }
    }
  }

  lemma FirstPiece(first: string, c: char, rest: string)
    requires c !in first
    ensures Piece(first + [c] + rest, c, 0, |first|)
  {
    assert forall k :: 0 <= k < |first| ==> (first + [c] + rest)[k] == first[k];
  }

  lemma LaterPiece(first: string, c: char, rest: string, i: nat, j: nat)
    requires Piece(rest, c, i, j)
    ensures Piece(first + [c] + rest, c, |first| + 1 + i, |first| + 1 + j)
    ensures (first + [c] + rest)[|first| + 1 + i..|first| + 1 + j] == rest[i..j]
  {
    var s := first + [c] + rest;
    assert s[|first|] == c && s[|first| + 1..] == rest;
    assert forall k :: |first| < k < |s| ==> s[k] == rest[k - |first| - 1];
  }

  lemma InLaterPiece(first: string, c: char, rest: string, i: nat, j: nat)
    requires Piece(first + [c] + rest, c, i, j) && i > |first|
    ensures Piece(rest, c, i - |first| - 1, j - |first| - 1)
    ensures (first + [c] + rest)[i..j] == rest[i - |first| - 1..j - |first| - 1]
  {
    var s := first + [c] + rest;
    assert forall k :: 0 <= k < |rest| ==> s[k + |first| + 1] == rest[k];
    assert s[|first| + 1..] == rest;
  }

  lemma InFirstPiece(first: string, c: char, rest: string, i: nat, j: nat)
    requires c !in first && Piece(first + [c] + rest, c, i, j) && i <= |first|
    ensures i == 0 && j == |first|
  {
    var s := first + [c] + rest;
    assert s[|first|] == c && forall k :: 0 <= k < |first| ==> s[k] == first[k];
  }

  /** `str::split_once(c)`: the text before and after the first `c`. */
  function SplitOnce(s: string, c: char): (r: Option<(string, string)>)
    ensures r.None? <==> c !in s
    ensures r.Some? ==> s == r.value.0 + [c] + r.value.1 && c !in r.value.0
  {
    if s == [] then None
    else if s[0] == c then
      assert s == [] + [c] + s[1..];
      Some(([], s[1..]))
    else
      assert s == [s[0]] + s[1..];
      match SplitOnce(s[1..], c)
      case None => None
      case Some((a, b)) => Some(([s[0]] + a, b))
  }

  lemma {:induction false} SplitOnceAt(a: string, c: char, b: string)
    requires c !in a
    ensures SplitOnce(a + [c] + b, c) == Some((a, b))
  {
    var s := a + [c] + b;
    if a == [] {
      assert s[1..] == b;
    } else {
      SplitOnceAt(a[1..], c, b);
      assert s[1..] == a[1..] + [c] + b;
      assert [a[0]] + a[1..] == a;
    }
  }

  // --------------------------------------------------------------- digits

  predicate IsDigit(c: char) { '0' <= c <= '9' }

  predicate AllDigits(s: string) { forall i :: 0 <= i < |s| ==> IsDigit(s[i]) }

  function DigitValue(c: char): nat
    requires IsDigit(c)
  {
    c as int - '0' as int
  }

  function DigitChar(d: nat): (c: char)
    requires d < 10
    ensures IsDigit(c) && DigitValue(c) == d
  {
    ('0' as int + d) as char
  }

  /** The number a digit string writes in base ten. */
  function NumberOf(s: string): nat
    requires AllDigits(s)
  {
    if s == [] then 0 else 10 * NumberOf(s[..|s| - 1]) + DigitValue(s[|s| - 1])
  }

  /** Base-ten text without leading zeros. */
  function Decimal(n: nat): (s: string)
    ensures s != [] && AllDigits(s)
    ensures NumberOf(s) == n
    ensures |s| > 1 ==> s[0] != '0'
  {
    if n < 10 then
      var s := [DigitChar(n)];
      assert s[..0] == [];
      s
    else
      var front := Decimal(n / 10);
      var s := front + [DigitChar(n % 10)];
      assert s[..|s| - 1] == front;
      assert front[0] == '0' ==> |front| == 1 && NumberOf(front[..0]) == 0;
      s
  }

  predicate NoLeadingZero(s: string) {
    s != [] && AllDigits(s) && (|s| > 1 ==> s[0] != '0')
  }

  function Pow10(k: nat): (p: nat)
    ensures p > 0
  {
    if k == 0 then 1 else 10 * Pow10(k - 1)
  }

  lemma {:induction false} Pow10Monotone(a: nat, b: nat)
    requires a <= b
    ensures Pow10(a) <= Pow10(b)
    decreases b - a
  {
    if a < b { Pow10Monotone(a + 1, b); }
  }

  /** A number without leading zeros lies in the decade its length names. */
  lemma {:induction false} NumberBounds(s: string)
    requires AllDigits(s)
    ensures NumberOf(s) < Pow10(|s|)
    ensures s != [] && s[0] != '0' ==> Pow10(|s| - 1) <= NumberOf(s)
  {
    if |s| > 1 {
      NumberBounds(s[..|s| - 1]);
    } else if |s| == 1 {
      assert s[..0] == [];
    }
  }

  /** Equal-length digit strings: text order is number order. */
  lemma {:induction false} SameLengthOrder(a: string, b: string)
    requires AllDigits(a) && AllDigits(b) && |a| == |b|
    ensures CompareText(a, b) == CompareInt(NumberOf(a), NumberOf(b))
  {
    if a != [] {
      var n := |a| - 1;
      SameLengthOrder(a[..n], b[..n]);
      CompareTextSnoc(a[..n], a[n], b[..n], b[n]);
      assert a == a[..n] + [a[n]] && b == b[..n] + [b[n]];
    }
  }

  lemma {:induction false} CompareTextSnoc(a: string, x: char, b: string, y: char)
    requires |a| == |b|
    ensures CompareText(a + [x], b + [y]) == CompareText(a, b).Then(CompareInt(x as int, y as int))
  {
    if a == [] {
      assert a + [x] == [x] && b + [y] == [y];
      assert [x][1..] == [] && [y][1..] == [];
    } else {
      CompareTextSnoc(a[1..], x, b[1..], y);
      assert (a + [x])[1..] == a[1..] + [x] && (b + [y])[1..] == b[1..] + [y];
    }
  }

  /** Length, then text: the order of leading-zero-free numerals is number order. */
  lemma LengthThenTextIsNumeric(a: string, b: string)
    requires NoLeadingZero(a) && NoLeadingZero(b)
    ensures CompareInt(|a|, |b|).Then(CompareText(a, b)) == CompareInt(NumberOf(a), NumberOf(b))
  {
    NumberBounds(a);
    NumberBounds(b);
    if |a| < |b| {
      Pow10Monotone(|a|, |b| - 1);
    } else if |b| < |a| {
      Pow10Monotone(|b|, |a| - 1);
    } else {
      SameLengthOrder(a, b);
    }
  }

  /** A leading-zero-free numeral is the decimal text of its number. */
  lemma DecimalOfNumber(s: string)
    requires NoLeadingZero(s)
    ensures Decimal(NumberOf(s)) == s
  {
    var d := Decimal(NumberOf(s));
    LengthThenTextIsNumeric(d, s);
    CompareTextEqual(d, s);
  }
}
