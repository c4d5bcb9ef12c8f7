/** The ustar header: paths, octal fields, checksum and layout, written and read. */
module Ustar {
  import opened Prelude
  import opened Text

  const ARCHIVE_MAX: int := 10_485_760
  const MANIFEST_MAX: int := 65_536
  const MAX_MEMBERS: int := 1000
  const PATH_MAX: int := 255
  const USIZE_MAX: int := 0xFFFF_FFFF_FFFF_FFFF

  type byte = n: int | 0 <= n < 256

  datatype RefusalCode = ArchiveInvalid | ArchiveTooLarge | ManifestTooLarge | PathInvalidCode | PathTooLongCode | PathNotUstarCode

  datatype ArchiveRule =
    | HeaderChecksum | Magic | MemberType | SizeEncoding | PathInvalid | PathTooLong | PathNotUstar | TooManyMembers
    | PathDuplicate | PathCollision | Truncated | TerminatorMissing | TrailingData | CkJsonMissing | CkJsonNotFirst

  datatype ArchiveError = ArchiveError(
    code: RefusalCode, rule: Option<ArchiveRule>, offset: Option<nat>, member: Option<string>, typeflag: Option<byte>)

  function Cap(code: RefusalCode): ArchiveError { ArchiveError(code, None, None, None, None) }

  function Broken(rule: ArchiveRule, offset: Option<nat>): ArchiveError {
    ArchiveError(ArchiveInvalid, Some(rule), offset, None, None)
  }

  function BrokenMember(rule: ArchiveRule, offset: Option<nat>, path: string): ArchiveError {
    Broken(rule, offset).(member := Some(path))
  }

  // ---------------------------------------------------------------- paths

  predicate PathChar(c: char) {
    IsDigit(c) || 'a' <= c <= 'z' || 'A' <= c <= 'Z' || c == '.' || c == '_' || c == '-'
  }

  predicate PathPart(p: string) {
    p != [] && p != "." && p != ".." && forall i :: 0 <= i < |p| ==> PathChar(p[i])
  }

  /** The first `/` at an index in `lo..=hi`. */
  function FindSlash(path: string, lo: nat, hi: int): (r: Option<nat>)
    requires hi < |path|
    ensures r.Some? ==> lo <= r.value <= hi && path[r.value] == '/' && forall i :: lo <= i < r.value ==> path[i] != '/'
    ensures r.None? ==> forall i :: lo <= i <= hi ==> path[i] != '/'
    decreases hi + 1 - lo
  {
    if lo > hi then None
    else if path[lo] == '/' then Some(lo)
    else FindSlash(path, lo + 1, hi)
  }

  /** The prefix and name fields a path is stored in. */
  function UstarSplit(path: string): Option<(string, string)> {
    if |path| <= 100 then Some(("", path))
    else
      var start := if |path| - 101 > 1 then |path| - 101 else 1;
      var end := if 155 < |path| - 2 then 155 else |path| - 2;
      match FindSlash(path, start, end)
      case None => None
      case Some(i) => Some((path[..i], path[i + 1..]))
  }

  function Rejoin(prefix: string, name: string): string {
    if prefix == [] then name else prefix + "/" + name
  }

  /** A place to cut the path so that both halves fit their fields and are not empty. */
  ghost predicate FitsAt(path: string, i: nat) {
    0 < i < |path| - 1 && path[i] == '/' && i <= 155 && |path| - i - 1 <= 100
  }

  /** A split exists exactly when the path fits; it is the earliest cut and loses nothing. */
  lemma UstarSplitFits(path: string)
    ensures UstarSplit(path).Some? <==> |path| <= 100 || exists i :: FitsAt(path, i)
    ensures UstarSplit(path).Some? ==>
      var (prefix, name) := UstarSplit(path).value;
      Rejoin(prefix, name) == path && |prefix| <= 155 && |name| <= 100
  {
    if |path| > 100 {
      match UstarSplit(path)
      case Some((prefix, name)) =>
        assert FitsAt(path, |prefix|);
        assert path == path[..|prefix|] + [path[|prefix|]] + path[|prefix| + 1..];
      case None =>
    }
  }

  /** `None` when the path may be stored. */
  function CheckPath(path: string): Option<ArchiveRule> {
    var parts := Split(path, '/');
    if exists i :: 0 <= i < |parts| && !PathPart(parts[i]) then Some(PathInvalid)
    else if |path| > PATH_MAX then Some(PathTooLong)
    else if UstarSplit(path).None? then Some(PathNotUstar)
    else None
  }

  lemma CheckedPath(path: string)
    requires CheckPath(path).None?
    ensures path != [] && UstarSplit(path).Some?
    ensures forall i :: 0 <= i < |path| ==> PathChar(path[i]) || path[i] == '/'
  {
    var parts := Split(path, '/');
    JoinSplit(path, '/');
    forall i | 0 <= i < |path| ensures PathChar(path[i]) || path[i] == '/' {
      JoinChars(parts, '/', path[i]);
      if path[i] != '/' {
        var p :| p in parts && path[i] in p;
        assert PathPart(p);
      }
    }
  }

  /** No stretch of the path between two slashes or ends is empty or names this directory or its parent. */
  ghost predicate NoDots(path: string) {
    forall i: nat, j: nat :: Bounded(path, i, j) ==> path[i..j] != "" && path[i..j] != "." && path[i..j] != ".."
  }

  ghost predicate Bounded(path: string, i: nat, j: nat) {
    i <= j <= |path| && (i == 0 || path[i - 1] == '/') && (j == |path| || path[j] == '/')
  }

  ghost predicate OnlyPathChars(path: string) {
    forall i :: 0 <= i < |path| ==>
      '0' <= path[i] <= '9' || 'a' <= path[i] <= 'z' || 'A' <= path[i] <= 'Z' || path[i] in "._-/"
  }

  ghost predicate GoodParts(parts: seq<string>) { forall i :: 0 <= i < |parts| ==> PathPart(parts[i]) }

  lemma PartsGood(path: string)
    requires NoDots(path) && OnlyPathChars(path)
    ensures GoodParts(Split(path, '/'))
  {
    hide Split;
    forall p | p in Split(path, '/') ensures PathPart(p) {
      SplitPieces(path, '/', p);
      var i: nat, j: nat :| Piece(path, '/', i, j) && path[i..j] == p;
      assert Bounded(path, i, j);
      assert forall k :: 0 <= k < |p| ==> p[k] == path[i + k];
    }
  }

  lemma GoodStretch(path: string, i: nat, j: nat)
    requires GoodParts(Split(path, '/')) && Bounded(path, i, j)
    ensures path[i..j] != "" && path[i..j] != "." && path[i..j] != ".."
  {
    hide Split;
    if '/' !in path[i..j] {
      assert forall k :: i <= k < j ==> path[k] == path[i..j][k - i];
      assert Piece(path, '/', i, j);
      SplitPieces(path, '/', path[i..j]);
    }
  }

  lemma GoodPartsMean(path: string)
    ensures GoodParts(Split(path, '/')) <==> NoDots(path) && OnlyPathChars(path)
  {
    hide Split, PathChar, PathPart;
    if NoDots(path) && OnlyPathChars(path) { PartsGood(path); }
    if GoodParts(Split(path, '/')) {
      forall i: nat, j: nat | Bounded(path, i, j) ensures path[i..j] != "" && path[i..j] != "." && path[i..j] != ".." {
        GoodStretch(path, i, j);
      }
      PartChars(path);
    }
  }

  lemma PartChars(path: string)
    requires GoodParts(Split(path, '/'))
    ensures OnlyPathChars(path)
  {
    hide Split;
    forall i | 0 <= i < |path| ensures PathChar(path[i]) || path[i] == '/' {
      JoinSplit(path, '/');
      JoinChars(Split(path, '/'), '/', path[i]);
      if path[i] != '/' {
        var p :| p in Split(path, '/') && path[i] in p;
        assert PathPart(p);
      }
    }
  }

  lemma CheckedParts(path: string)
    ensures CheckPath(path)
         == if !GoodParts(Split(path, '/')) then Some(PathInvalid)
            else if |path| > 255 then Some(PathTooLong)
            else if UstarSplit(path).None? then Some(PathNotUstar) else None
  {
    hide Split, PathPart, UstarSplit;
  }

  /** Which paths may be stored, by their text alone, and which rule any other path breaks. */
  lemma PathMeans(path: string)
    ensures CheckPath(path) == Some(PathInvalid) <==> !(NoDots(path) && OnlyPathChars(path))
    ensures CheckPath(path) == Some(PathTooLong) <==> NoDots(path) && OnlyPathChars(path) && |path| > 255
    ensures CheckPath(path).None?
       <==> NoDots(path) && OnlyPathChars(path) && |path| <= 255 && (|path| <= 100 || exists i :: FitsAt(path, i))
    ensures CheckPath(path) in {None, Some(PathInvalid), Some(PathTooLong), Some(PathNotUstar)}
  {
    hide NoDots, OnlyPathChars, GoodParts, UstarSplit, CheckPath;
    CheckedParts(path);
    GoodPartsMean(path);
    UstarSplitFits(path);
  }

  /** What a stored path is, by its text. */
  ghost predicate GoodPath(path: string) { NoDots(path) && OnlyPathChars(path) && |path| <= 255 }

  /** It can be cut into the two header fields. */
  ghost predicate FitsHeader(path: string) { |path| <= 100 || exists i :: FitsAt(path, i) }

  function LowerChar(c: char): char {
    if 'A' <= c <= 'Z' then (c as int + 32) as char else c
  }

  function Lower(path: string): string {
    seq(|path|, i requires 0 <= i < |path| => LowerChar(path[i]))
  }

  /** The same letter but for its case. */
  ghost predicate SameLetter(a: char, b: char) {
    a == b || ('A' <= a <= 'Z' && b as int == a as int + 32) || ('A' <= b <= 'Z' && a as int == b as int + 32)
  }

  ghost predicate SameButCase(a: string, b: string) { |a| == |b| && forall i :: 0 <= i < |a| ==> SameLetter(a[i], b[i]) }

  /** Two paths collide exactly when they differ in the case of ASCII letters at most. */
  lemma LowerMeans(a: string, b: string)
    ensures Lower(a) == Lower(b) <==> SameButCase(a, b)
  {
    if Lower(a) == Lower(b) {
      assert |a| == |Lower(a)| && |b| == |Lower(b)|;
      forall i | 0 <= i < |a| ensures SameLetter(a[i], b[i]) {
        assert Lower(a)[i] == Lower(b)[i];
      }
    }
  }

  // ----------------------------------------------------------- octal fields

  function Pow8(k: nat): (p: nat)
    ensures p > 0
  {
    if k == 0 then 1 else 8 * Pow8(k - 1)
  }

  lemma {:induction false} Pow8Monotone(a: int, b: int)
    requires 0 <= a
    ensures a <= b ==> Pow8(a) <= Pow8(b)
    decreases b - a
  {
    if a < b { Pow8Monotone(a + 1, b); }
  }

  /** Exactly `w` octal digits, the high ones first. */
  function OctalDigits(n: nat, w: nat): (s: seq<byte>)
    ensures |s| == w && forall i :: 0 <= i < w ==> 48 <= s[i] <= 55
  {
    if w == 0 then [] else OctalDigits(n / 8, w - 1) + [48 + n % 8]
  }

  function DigitCount(n: nat): (k: nat)
    ensures k >= 1
  {
    if n < 8 then 1 else 1 + DigitCount(n / 8)
  }

  /** `{:0wo}`: zero-padded to `w`, longer when the number needs it. */
  function OctalText(n: nat, w: nat): seq<byte> {
    OctalDigits(n, if DigitCount(n) <= w then w else DigitCount(n))
  }

  lemma {:induction false} DigitCountFits(n: nat, w: nat)
    requires w >= 1 && n < Pow8(w)
    ensures DigitCount(n) <= w
  {
    if n >= 8 {
      assert w > 1 by { assert Pow8(1) == 8 * Pow8(0); }
      DigitCountFits(n / 8, w - 1);
    }
  }

  function OctalValue(s: seq<byte>): int {
    if s == [] then 0 else 8 * OctalValue(s[..|s| - 1]) + s[|s| - 1] - 48
  }

  lemma {:induction false} OctalDigitsValue(n: nat, w: nat)
    requires n < Pow8(w)
    ensures OctalValue(OctalDigits(n, w)) == n
  {
    if w > 0 {
      OctalDigitsValue(n / 8, w - 1);
      assert OctalDigits(n, w)[..w - 1] == OctalDigits(n / 8, w - 1);
    }
  }

  function DigitRun(field: seq<byte>): (n: nat)
    ensures n <= |field| && forall i :: 0 <= i < n ==> 48 <= field[i] <= 55
    ensures n < |field| ==> !(48 <= field[n] <= 55)
  {
    if field == [] || !(48 <= field[0] <= 55) then 0
    else 1 + DigitRun(field[1..])
  }

  lemma {:induction false} DigitRunOf(digits: seq<byte>, rest: seq<byte>)
    requires forall i :: 0 <= i < |digits| ==> 48 <= digits[i] <= 55
    requires rest != [] && !(48 <= rest[0] <= 55)
    ensures DigitRun(digits + rest) == |digits|
  {
    if digits == [] {
      assert digits + rest == rest;
    } else {
      assert (digits + rest)[1..] == digits[1..] + rest;
      DigitRunOf(digits[1..], rest);
    }
  }

  lemma {:induction false} OctalValueBounds(s: seq<byte>)
    requires forall i :: 0 <= i < |s| ==> 48 <= s[i] <= 55
    ensures 0 <= OctalValue(s) < Pow8(|s|)
  {
    if s != [] { OctalValueBounds(s[..|s| - 1]); }
  }

  /** The reader's octal: digits, then only NUL or space, at least one of each. */
  function Octal(field: seq<byte>): (r: Option<int>)
    ensures r.Some? ==> field != [] && 0 <= r.value < Pow8(|field| - 1)
  {
    var n := DigitRun(field);
    OctalValueBounds(field[..n]);
    Pow8Monotone(n, |field| - 1);
    if n == 0 || n == |field| || exists i :: n <= i < |field| && field[i] != 0 && field[i] != 32 then None
    else if OctalValue(field[..n]) <= USIZE_MAX then Some(OctalValue(field[..n])) else None
  }

  /** An octal field as read: at least one digit, then only NUL or space, at least one of them, and a value that fits. */
  ghost predicate OctalField(field: seq<byte>, k: nat) {
    && 0 < k < |field| && (forall i :: 0 <= i < k ==> 48 <= field[i] <= 55) && OctalValue(field[..k]) <= USIZE_MAX
    && (forall i :: k <= i < |field| ==> field[i] == 0 || field[i] == 32)
  }

  lemma OctalMeans(field: seq<byte>, n: int)
    ensures Octal(field) == Some(n) <==> exists k: nat :: OctalField(field, k) && OctalValue(field[..k]) == n
  {
    var run := DigitRun(field);
    forall k: nat | OctalField(field, k) ensures k == run {
      assert field[k] == 0 || field[k] == 32;
    }
    if Octal(field) == Some(n) { assert OctalField(field, run); }
  }

  /** What the writer stores in an octal field the reader reads back. */
  lemma OctalRoundTrip(n: nat, w: nat, tail: seq<byte>)
    requires 1 <= w && n < Pow8(w) && n <= USIZE_MAX
    requires tail != [] && forall i :: 0 <= i < |tail| ==> tail[i] == 0 || tail[i] == 32
    ensures |OctalText(n, w)| == w && Octal(OctalText(n, w) + tail) == Some(n)
  {
    hide OctalDigits, OctalValue, DigitRun, Pow8, DigitCount;
    DigitCountFits(n, w);
    OctalDigitsValue(n, w);
    var digits := OctalDigits(n, w);
    DigitRunOf(digits, tail);
    var field := digits + tail;
    assert field[..w] == digits;
    assert forall i :: w <= i < |field| ==> field[i] == tail[i - w];
  }

  // ------------------------------------------------------------- text fields

  function Zeros(n: nat): (s: seq<byte>)
    ensures |s| == n && forall i :: 0 <= i < n ==> s[i] == 0
  {
    seq(n, _ => 0)
  }

  /** A path's bytes; path characters are ASCII. */
  function Bytes(s: string): (r: seq<byte>)
    requires forall i :: 0 <= i < |s| ==> s[i] as int < 256
    ensures |r| == |s|
  {
    seq(|s|, i requires 0 <= i < |s| => s[i] as int)
  }

  predicate Storable(s: string) {
    forall i :: 0 <= i < |s| ==> 0 < s[i] as int < 128
  }

  /** Characters up to the first NUL. */
  function TextOf(field: seq<byte>): string {
    if field == [] || field[0] == 0 then [] else [field[0] as char] + TextOf(field[1..])
  }

  /** The text of a field is what stands before its first NUL. */
  lemma {:induction false} TextMeans(field: seq<byte>)
    ensures var s := TextOf(field);
      && |s| <= |field| && (|s| < |field| ==> field[|s|] == 0)
      && forall i :: 0 <= i < |s| ==> field[i] != 0 && s[i] as int == field[i]
  {
    if field != [] && field[0] != 0 { TextMeans(field[1..]); }
  }

  lemma {:induction false} TextRoundTrip(s: string, pad: nat)
    requires Storable(s)
    ensures TextOf(Bytes(s) + Zeros(pad)) == s
  {
    var field := Bytes(s) + Zeros(pad);
    if s != [] {
      TextRoundTrip(s[1..], pad);
      assert field[1..] == Bytes(s[1..]) + Zeros(pad);
      assert s == [s[0]] + s[1..];
    }
  }

  // --------------------------------------------------------------- checksum

  function Sum(s: seq<byte>): (n: nat)
    ensures n <= 255 * |s|
  {
    if s == [] then 0 else Sum(s[..|s| - 1]) + s[|s| - 1]
  }

  lemma {:induction false} SumConcat(a: seq<byte>, b: seq<byte>)
    ensures Sum(a + b) == Sum(a) + Sum(b)
  {
    if b == [] {
      assert a + b == a;
    } else {
      SumConcat(a, b[..|b| - 1]);
      assert (a + b)[..|a + b| - 1] == a + b[..|b| - 1];
    }
  }

  const SPACES: seq<byte> := [32, 32, 32, 32, 32, 32, 32, 32]

  lemma SpacesSum()
    ensures Sum(SPACES) == 256
  {
    assert SPACES == [32, 32, 32, 32] + [32, 32, 32, 32];
    SumConcat([32, 32, 32, 32], [32, 32, 32, 32]);
    assert [32, 32, 32, 32] == [32, 32] + [32, 32];
    SumConcat([32, 32], [32, 32]);
    assert [32, 32] == [32] + [32];
    SumConcat([32], [32]);
    assert Sum([32]) == Sum([]) + 32 by { assert [32][..0] == []; }
  }

  /** The sum over a header with its checksum field taken as spaces. */
  function Checksum(h: seq<byte>): nat
    requires |h| == 512
  {
    Sum(h[..148]) + 256 + Sum(h[156..])
  }

  // ----------------------------------------------------------------- header

  const MODE: seq<byte> := [48, 48, 48, 48, 54, 52, 52, 0]
  const OWNER: seq<byte> := [48, 48, 48, 48, 48, 48, 48, 0]
  const MTIME: seq<byte> := [48, 48, 48, 48, 48, 48, 48, 48, 48, 48, 48, 0]
  const USTAR: seq<byte> := [117, 115, 116, 97, 114, 0]
  const VERSION: seq<byte> := [48, 48]

  /** Name, mode, uid, gid, size and mtime: the 148 bytes before the checksum. */
  function HeaderFront(name: string, size: nat): (h: seq<byte>)
    requires Storable(name) && |name| <= 100
  {
    Bytes(name) + Zeros(100 - |name|) + MODE + OWNER + OWNER + OctalText(size, 11) + [0] + MTIME
  }

  /** Type, link name, magic, version, owner names and devices, prefix: the 356 bytes after it. */
  function HeaderBack(prefix: string): (h: seq<byte>)
    requires Storable(prefix) && |prefix| <= 155
    ensures |h| == 356
  {
    [48] + Zeros(100) + USTAR + VERSION + Zeros(80) + Bytes(prefix) + Zeros(155 - |prefix|) + Zeros(12)
  }

  function ChecksumField(sum: nat): seq<byte> { OctalText(sum, 6) + [0, 32] }

  /** The deterministic header of a regular member. */
  function Header(prefix: string, name: string, size: nat): (h: seq<byte>)
    requires Storable(name) && |name| <= 100 && Storable(prefix) && |prefix| <= 155
  {
    var (front, back) := (HeaderFront(name, size), HeaderBack(prefix));
    front + ChecksumField(Sum(front) + 256 + Sum(back)) + back
  }

  lemma Pow8Values()
    ensures Pow8(6) == 262144 && Pow8(11) == 8589934592
  {
    assert Pow8(3) == 512 by { assert Pow8(1) == 8; assert Pow8(2) == 64; }
    assert Pow8(6) == 262144 by { assert Pow8(4) == 4096; assert Pow8(5) == 32768; }
    assert Pow8(9) == 134217728 by { assert Pow8(7) == 2097152; assert Pow8(8) == 16777216; }
    assert Pow8(10) == 1073741824;
  }

  lemma FrontLayout(name: string, size: nat)
    requires Storable(name) && |name| <= 100 && size < 8589934592
    ensures var f := HeaderFront(name, size);
            && |f| == 148 && f[..100] == Bytes(name) + Zeros(100 - |name|) && f[124..136] == OctalText(size, 11) + [0]
            && Octal(OctalText(size, 11) + [0]) == Some(size)
  {
    hide OctalText, Octal;
    Pow8Values();
    OctalRoundTrip(size, 11, [0]);
    var f := HeaderFront(name, size);
    var a := Bytes(name) + Zeros(100 - |name|);
    var b := MODE + OWNER + OWNER;
    var c := OctalText(size, 11) + [0];
    assert f == a + b + c + MTIME;
  }

  lemma BackLayout(prefix: string)
    requires Storable(prefix) && |prefix| <= 155
    ensures var b := HeaderBack(prefix);
            && b[0] == 48 && b[101..107] == USTAR && b[107..109] == VERSION
            && b[189..344] == Bytes(prefix) + Zeros(155 - |prefix|)
  {
    var b := HeaderBack(prefix);
    assert b == [48] + Zeros(100) + (USTAR + VERSION) + Zeros(80) + (Bytes(prefix) + Zeros(155 - |prefix|)) + Zeros(12);
  }

  // ------------------------------------------------------ reading a header

  /** The path and size a header names, or the rule it breaks; `at` is its offset. */
  function ReadHeader(h: seq<byte>, at: nat): Result<(string, nat), ArchiveError>
    requires |h| == 512
  {
    if Octal(h[148..156]) != Some(Checksum(h)) then Err(Broken(HeaderChecksum, Some(at)))
    else if h[257..263] != USTAR || h[263..265] != VERSION then Err(Broken(Magic, Some(at)))
    else if h[156] != 48 && h[156] != 0 then Err(Broken(MemberType, Some(at)).(typeflag := Some(h[156])))
    else
      match Octal(h[124..136])
      case None => Err(Broken(SizeEncoding, Some(at)))
      case Some(size) =>
        var path := Rejoin(TextOf(h[345..500]), TextOf(h[..100]));
        match CheckPath(path)
        case Some(rule) => Err(BrokenMember(rule, Some(at), path))
        case None => Ok((path, size))
  }

  /** The layout a readable header must have, byte by byte. */
  ghost predicate ReadableHeader(h: seq<byte>, size: nat)
    requires |h| == 512
  {
    && Octal(h[148..156]) == Some(Sum(h[..148]) + Sum(SPACES) + Sum(h[156..]))
    && h[257..265] == [117, 115, 116, 97, 114, 0, 48, 48] && (h[156] == 48 || h[156] == 0)
    && Octal(h[124..136]) == Some(size)
  }

  ghost predicate NamedIn(h: seq<byte>, path: string)
    requires |h| == 512
  {
    var (name, prefix) := (TextOf(h[..100]), TextOf(h[345..500]));
    path == if prefix == "" then name else prefix + "/" + name
  }

  /**
   * A header is read exactly when its checksum, magic, version, type and size
   * are right and the path it names may be stored. Any other one is refused at
   * its own offset, with the first of these that is wrong.
   */
  lemma ReadHeaderMeans(h: seq<byte>, at: nat, path: string, size: nat)
    requires |h| == 512 && NamedIn(h, path)
    ensures ReadHeader(h, at) == Ok((path, size)) <==> ReadableHeader(h, size) && CheckPath(path).None?
    ensures ReadHeader(h, at).Ok? ==> ReadHeader(h, at).value.0 == path
    ensures ReadHeader(h, at).Err? ==>
      var e := ReadHeader(h, at).error;
      && e.code == ArchiveInvalid && e.offset == Some(at) && e.rule.Some?
      && (e.rule == Some(MemberType) <==> e.typeflag == Some(h[156])) && (e.rule != Some(MemberType) ==> e.typeflag.None?)
      && var summed := Octal(h[148..156]) == Some(Sum(h[..148]) + Sum(SPACES) + Sum(h[156..]));
         var magic := h[257..265] == [117, 115, 116, 97, 114, 0, 48, 48];
         match e.rule.value
         case HeaderChecksum => !summed
         case Magic => summed && !magic
         case MemberType => summed && magic && h[156] != 48 && h[156] != 0
         case SizeEncoding => summed && magic && (h[156] == 48 || h[156] == 0) && Octal(h[124..136]).None?
         case _ => ReadableHeader(h, Octal(h[124..136]).value) && CheckPath(path) == e.rule && e.member == Some(path)
  {
    hide Octal, CheckPath, Sum, TextOf, NoDots, OnlyPathChars, FitsAt;
    SpacesSum();
    MagicMeans(h);
    PathMeans(path);
  }

  lemma MagicMeans(h: seq<byte>)
    requires |h| == 512
    ensures h[257..265] == [117, 115, 116, 97, 114, 0, 48, 48] <==> h[257..263] == USTAR && h[263..265] == VERSION
  {
    assert h[257..265] == h[257..263] + h[263..265];
    assert [117, 115, 116, 97, 114, 0, 48, 48] == USTAR + VERSION;
    var (a, b) := (h[257..263], h[263..265]);
    if h[257..265] == USTAR + VERSION {
      assert a == h[257..265][..6] && b == h[257..265][6..];
      assert (USTAR + VERSION)[..6] == USTAR && (USTAR + VERSION)[6..] == VERSION;
    }
  }

  /** Where everything stands in a written header. */
  lemma HeaderLayout(prefix: string, name: string, size: nat)
    requires Storable(name) && |name| <= 100 && Storable(prefix) && |prefix| <= 155 && size < 8589934592
    ensures var h := Header(prefix, name, size);
      && |h| == 512 && h[..100] == Bytes(name) + Zeros(100 - |name|)
      && h[100..124] == [48, 48, 48, 48, 54, 52, 52, 0, 48, 48, 48, 48, 48, 48, 48, 0, 48, 48, 48, 48, 48, 48, 48, 0]
      && h[124..136] == OctalText(size, 11) + [0] && h[136..148] == [48, 48, 48, 48, 48, 48, 48, 48, 48, 48, 48, 0]
      && h[148..156] == OctalText(Sum(h[..148]) + Sum(SPACES) + Sum(h[156..]), 6) + [0, 32]
      && h[156..257] == [48] + Zeros(100) && h[257..265] == [117, 115, 116, 97, 114, 0, 48, 48]
      && h[265..345] == Zeros(80) && h[345..500] == Bytes(prefix) + Zeros(155 - |prefix|) && h[500..] == Zeros(12)
  {
    hide OctalText, Octal, Sum, HeaderFront, HeaderBack, Bytes, Zeros;
    SpacesSum();
    FrontLayout(name, size);
    SizeLength(size);
    FrontSlices(name, size);
    BackSlices(prefix);
    var (front, back) := (HeaderFront(name, size), HeaderBack(prefix));
    var sum := Sum(front) + 256 + Sum(back);
    HeaderChecksumReads(front, back);
    ChecksumLength(front, back);
    Layout(front, ChecksumField(sum), back);
  }

  lemma SizeLength(size: nat)
    requires size < 8589934592
    ensures |OctalText(size, 11)| == 11
  {
    Pow8Values();
    OctalRoundTrip(size, 11, [0]);
  }

  lemma ChecksumLength(front: seq<byte>, back: seq<byte>)
    requires |front| == 148 && |back| == 356
    ensures |ChecksumField(Sum(front) + 256 + Sum(back))| == 8
  {
    hide Sum;
    Pow8Values();
    OctalRoundTrip(Sum(front) + 256 + Sum(back), 6, [0, 32]);
  }

  lemma Layout(front: seq<byte>, field: seq<byte>, back: seq<byte>)
    requires |front| == 148 && |field| == 8 && |back| == 356
    ensures var h := front + field + back;
      && h[..100] == front[..100] && h[100..124] == front[100..124] && h[124..136] == front[124..136] && h[136..148] == front[136..148]
      && h[..148] == front && h[148..156] == field && h[156..] == back
      && h[156..257] == back[..101] && h[257..265] == back[101..109] && h[265..345] == back[109..189]
      && h[345..500] == back[189..344] && h[500..] == back[344..]
  {
  }

  lemma FrontSlices(name: string, size: nat)
    requires Storable(name) && |name| <= 100 && |OctalText(size, 11)| == 11
    ensures var f := HeaderFront(name, size);
      && |f| == 148 && f[100..124] == MODE + OWNER + OWNER && f[136..148] == MTIME
  {
    hide OctalText;
    assert HeaderFront(name, size) == (Bytes(name) + Zeros(100 - |name|)) + (MODE + OWNER + OWNER) + (OctalText(size, 11) + [0]) + MTIME;
  }

  lemma BackSlices(prefix: string)
    requires Storable(prefix) && |prefix| <= 155
    ensures var b := HeaderBack(prefix);
      && b[..101] == [48] + Zeros(100) && b[101..109] == USTAR + VERSION && b[109..189] == Zeros(80)
      && b[189..344] == Bytes(prefix) + Zeros(155 - |prefix|) && b[344..] == Zeros(12)
  {
    var b := HeaderBack(prefix);
    assert b == ([48] + Zeros(100)) + (USTAR + VERSION) + Zeros(80) + (Bytes(prefix) + Zeros(155 - |prefix|)) + Zeros(12);
  }

  lemma HeaderChecksumReads(front: seq<byte>, back: seq<byte>)
    requires |front| == 148 && |back| == 356
    ensures var h := front + ChecksumField(Sum(front) + 256 + Sum(back)) + back;
            && |h| == 512 && h[..148] == front && h[156..] == back
            && Octal(h[148..156]) == Some(Checksum(h))
  {
    hide Octal, OctalText, Sum;
    Pow8Values();
    var sum := Sum(front) + 256 + Sum(back);
    OctalRoundTrip(sum, 6, [0, 32]);
    var h := front + ChecksumField(sum) + back;
    assert h[..148] == front && h[148..156] == ChecksumField(sum) && h[156..] == back;
  }

  lemma SplitStorable(path: string)
    requires CheckPath(path).None?
    ensures UstarSplit(path).Some? && path != []
    ensures var (prefix, name) := UstarSplit(path).value;
      Storable(prefix) && Storable(name) && |prefix| <= 155 && |name| <= 100 && Rejoin(prefix, name) == path
  {
    hide CheckPath, PathChar, Rejoin, FindSlash;
    StorablePath(path);
    UstarSplitFits(path);
    if |path| > 100 {
      var (prefix, name) := UstarSplit(path).value;
      StorablePart(path, 0, |prefix|);
      StorablePart(path, |path| - |name|, |path|);
    }
  }

  lemma StorablePath(path: string)
    requires CheckPath(path).None?
    ensures Storable(path) && path != [] && UstarSplit(path).Some?
  {
    hide CheckPath, UstarSplit;
    CheckedPath(path);
  }

  lemma StorablePart(path: string, i: nat, j: nat)
    requires Storable(path) && i <= j <= |path|
    ensures Storable(path[i..j])
  {
  }

  /** The reader takes from a written header exactly the path and size written. */
  lemma HeaderRoundTrip(path: string, size: nat, at: nat)
    requires CheckPath(path).None? && size < 8589934592
    ensures UstarSplit(path).Some?
    ensures var (prefix, name) := UstarSplit(path).value;
      && Storable(prefix) && Storable(name) && |prefix| <= 155 && |name| <= 100
      && var h := Header(prefix, name, size);
         |h| == 512 && h[257] != 0 && ReadHeader(h, at) == Ok((path, size))
  {
    hide CheckPath, Octal, OctalText, Sum, UstarSplit, Checksum, TextOf, HeaderFront, HeaderBack, ChecksumField, Bytes, Storable;
    SplitStorable(path);
    var (prefix, name) := UstarSplit(path).value;
    FrontLayout(name, size);
    BackLayout(prefix);
    var (front, back) := (HeaderFront(name, size), HeaderBack(prefix));
    HeaderChecksumReads(front, back);
    var h := Header(prefix, name, size);
    assert h[..148] == front && h[156..] == back;
    HeaderSlices(h, front, back);
    TextRoundTrip(name, 100 - |name|);
    TextRoundTrip(prefix, 155 - |prefix|);
    assert back[101..107][0] == 117;
  }

  /** Slices of the whole are slices of its two parts. */
  lemma HeaderSlices(h: seq<byte>, front: seq<byte>, back: seq<byte>)
    requires |h| == 512 && |front| == 148 && |back| == 356 && h[..148] == front && h[156..] == back
    ensures h[..100] == front[..100] && h[124..136] == front[124..136]
    ensures h[156] == back[0] && h[257..263] == back[101..107] && h[263..265] == back[107..109] && h[345..500] == back[189..344]
    ensures h[257] == back[101..107][0]
  {
  }
}