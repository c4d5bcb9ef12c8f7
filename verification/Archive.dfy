/** The deterministic archive writer and the strict reader. */
module Archive {
  import opened Prelude
  import opened Ustar

  datatype MemberKind = Regular | Directory | Link | Device | Fifo | Extension

  datatype Member = Member(path: string, bytes: seq<byte>, kind: MemberKind)

  datatype ReadMember = ReadMember(bytes: seq<byte>, offset: nat)

  const MANIFEST := "ck.json"

  /** The next multiple of 512. */
  function Padded(n: nat): (p: nat)
    ensures n <= p < n + 512 && p % 512 == 0
  {
    (n + 511) / 512 * 512
  }

  function Total(ms: seq<Member>): nat {
    if ms == [] then 1024 else Total(ms[..|ms| - 1]) + 512 + Padded(|ms[|ms| - 1].bytes|)
  }

  // ------------------------------------------------------ what may be written

  function PathRefusal(rule: ArchiveRule, path: string): ArchiveError {
    ArchiveError(if rule.PathInvalid? then PathInvalidCode else if rule.PathTooLong? then PathTooLongCode else PathNotUstarCode,
                 None, None, Some(path), None)
  }

  /** Why member `i` may not follow the members before it. */
  ghost function MemberFault(ms: seq<Member>, i: nat): Option<ArchiveError>
    requires i < |ms|
  {
    var m := ms[i];
    if CheckPath(m.path).Some? then Some(PathRefusal(CheckPath(m.path).value, m.path))
    else if m.kind != Regular then Some(BrokenMember(MemberType, None, m.path))
    else if exists j :: 0 <= j < i && ms[j].path == m.path then Some(BrokenMember(PathDuplicate, None, m.path))
    else if exists j :: 0 <= j < i && Lower(ms[j].path) == Lower(m.path) then Some(BrokenMember(PathCollision, None, m.path))
    else if m.path == MANIFEST && |m.bytes| > MANIFEST_MAX then Some(Cap(ManifestTooLarge))
    else if Total(ms[..i + 1]) > ARCHIVE_MAX then Some(Cap(ArchiveTooLarge))
    else None
  }

  ghost predicate NoFaults(ms: seq<Member>, n: nat) {
    n <= |ms| && forall i :: 0 <= i < n ==> MemberFault(ms, i).None?
  }

  /** The writer's refusal: the member count, the first faulty member, then the manifest's place. */
  ghost predicate WriteRefused(ms: seq<Member>, e: ArchiveError) {
    if |ms| > MAX_MEMBERS then e == Broken(TooManyMembers, None)
    else if exists i :: 0 <= i < |ms| && MemberFault(ms, i).Some?
    then exists i :: 0 <= i < |ms| && NoFaults(ms, i) && MemberFault(ms, i) == Some(e)
    else if forall m :: m in ms ==> m.path != MANIFEST then e == Broken(CkJsonMissing, None)
    else ms[0].path != MANIFEST && e == Broken(CkJsonNotFirst, None)
  }

  ghost predicate Writable(ms: seq<Member>) {
    |ms| <= MAX_MEMBERS && NoFaults(ms, |ms|) && ms != [] && ms[0].path == MANIFEST
  }

  /** A member with a path that may be stored, and a regular file. */
  ghost predicate GoodMember(m: Member) { GoodPath(m.path) && FitsHeader(m.path) && m.kind == Regular }

  /**
   * A member may follow the ones before it exactly when it is a regular file
   * with a good path, no earlier path is the same up to case, a manifest is
   * not too large, and the archive so far is not. The refusal names the first
   * of these that fails.
   */
  lemma MemberFaultMeans(ms: seq<Member>, i: nat)
    requires i < |ms|
    ensures var (m, e) := (ms[i], MemberFault(ms, i));
      var again := exists j :: 0 <= j < i && ms[j].path == m.path;
      var twice := exists j :: 0 <= j < i && SameButCase(ms[j].path, m.path);
      && (e.None? <==> GoodMember(m) && !twice && (m.path == "ck.json" ==> |m.bytes| <= 65_536) && Total(ms[..i + 1]) <= 10_485_760)
      && (e.Some? && !(GoodPath(m.path) && FitsHeader(m.path)) ==>
            && e.value == ArchiveError(e.value.code, None, None, Some(m.path), None)
            && e.value.code == if !NoDots(m.path) || !OnlyPathChars(m.path) then PathInvalidCode
                               else if |m.path| > 255 then PathTooLongCode else PathNotUstarCode)
      && (e.Some? && GoodPath(m.path) && FitsHeader(m.path) ==>
            e.value == if m.kind != Regular then BrokenMember(MemberType, None, m.path)
                       else if again then BrokenMember(PathDuplicate, None, m.path)
                       else if twice then BrokenMember(PathCollision, None, m.path)
                       else if m.path == "ck.json" && |m.bytes| > 65_536 then Cap(ManifestTooLarge)
                       else Cap(ArchiveTooLarge))
  {
    hide NoDots, OnlyPathChars, CheckPath, Lower, SameButCase, FitsAt;
    PathMeans(ms[i].path);
    forall j | 0 <= j < i { LowerMeans(ms[j].path, ms[i].path); }
    SameIsSame(ms[i].path);
  }

  lemma SameIsSame(path: string)
    ensures SameButCase(path, path)
  {
  }

  /** What can be written at all. */
  lemma WritableMeans(ms: seq<Member>)
    ensures Writable(ms)
       <==> && 1 <= |ms| <= 1000 && ms[0].path == "ck.json" && Total(ms) <= 10_485_760
            && (forall i :: 0 <= i < |ms| ==> GoodMember(ms[i]) && (ms[i].path == "ck.json" ==> |ms[i].bytes| <= 65_536))
            && (forall i, j :: 0 <= i < j < |ms| ==> !SameButCase(ms[i].path, ms[j].path))
  {
    hide GoodMember, MemberFault, SameButCase;
    forall i | 0 <= i < |ms|
      ensures Total(ms[..i + 1]) <= Total(ms)
      ensures MemberFault(ms, i).None? <==>
        && GoodMember(ms[i]) && (ms[i].path == "ck.json" ==> |ms[i].bytes| <= 65_536) && Total(ms[..i + 1]) <= 10_485_760
        && forall j :: 0 <= j < i ==> !SameButCase(ms[j].path, ms[i].path)
    {
      MemberFaultMeans(ms, i);
      TotalCovers(ms, i);
    }
    assert ms[..|ms|] == ms;
    if Writable(ms) { assert Total(ms[..|ms| - 1 + 1]) <= 10_485_760; }
  }

  // -------------------------------------------------------------- encoding

  ghost predicate Encodable(m: Member) {
    CheckPath(m.path).None? && |m.bytes| <= ARCHIVE_MAX
  }

  ghost function HeaderOf(m: Member): (h: seq<byte>)
    requires Encodable(m)
    ensures |h| == 512
  {
    HeaderRoundTrip(m.path, |m.bytes|, 0);
    var (prefix, name) := UstarSplit(m.path).value;
    Header(prefix, name, |m.bytes|)
  }

  ghost function Block(m: Member): (b: seq<byte>)
    requires Encodable(m)
    ensures |b| == 512 + Padded(|m.bytes|)
  {
    HeaderOf(m) + m.bytes + Zeros(Padded(|m.bytes|) - |m.bytes|)
  }

  ghost function Blocks(ms: seq<Member>): seq<byte>
    requires forall m :: m in ms ==> Encodable(m)
  {
    if ms == [] then [] else Blocks(ms[..|ms| - 1]) + Block(ms[|ms| - 1])
  }

  ghost function Encode(ms: seq<Member>): seq<byte>
    requires forall m :: m in ms ==> Encodable(m)
  {
    Blocks(ms) + Zeros(1024)
  }

  /** The encoding has exactly the length totalled up before it, in whole 512-byte blocks. */
  lemma {:induction false} BlocksLength(ms: seq<Member>)
    requires forall m :: m in ms ==> Encodable(m)
    ensures |Blocks(ms)| + 1024 == Total(ms) && |Blocks(ms)| % 512 == 0
  {
    hide Padded, Encodable, Blocks, Total;
    LastBlock(ms);
    if ms != [] {
      BlocksLength(ms[..|ms| - 1]);
    }
  }

  lemma LastBlock(ms: seq<Member>)
    requires forall m :: m in ms ==> Encodable(m)
    ensures ms == [] ==> Blocks(ms) == [] && Total(ms) == 1024
    ensures ms != [] ==>
      var (front, last) := (ms[..|ms| - 1], ms[|ms| - 1]);
      |Blocks(ms)| == |Blocks(front)| + 512 + Padded(|last.bytes|) && Total(ms) == Total(front) + 512 + Padded(|last.bytes|)
  {
    hide Padded, HeaderOf, Encodable;
  }

  lemma {:induction false} TotalCovers(ms: seq<Member>, i: nat)
    requires i < |ms|
    ensures |ms[i].bytes| <= Total(ms) && Total(ms[..i + 1]) <= Total(ms)
  {
    if i + 1 == |ms| {
      assert ms[..i + 1] == ms;
    } else {
      TotalCovers(ms[..|ms| - 1], i);
      assert ms[..|ms| - 1][..i + 1] == ms[..i + 1];
    }
  }

  lemma FaultlessEncodable(ms: seq<Member>, n: nat)
    requires NoFaults(ms, n)
    ensures forall m :: m in ms[..n] ==> Encodable(m)
    ensures n > 0 ==> Total(ms[..n]) <= ARCHIVE_MAX
  {
    hide CheckPath;
    forall m | m in ms[..n] ensures Encodable(m) {
      var i :| 0 <= i < n && ms[i] == m;
      assert MemberFault(ms, i).None?;
      TotalCovers(ms[..i + 1], i);
    }
    if n > 0 { assert MemberFault(ms, n - 1).None?; }
  }

  /** Overwrite `src` at `at`, leaving the rest of the header. */
  method CopyInto(h: array<byte>, at: nat, src: seq<byte>)
    requires at + |src| <= h.Length
    modifies h
    ensures forall i :: 0 <= i < h.Length ==> h[i] == if at <= i < at + |src| then src[i - at] else old(h[i])
  {
    for i := 0 to |src|
      invariant forall j :: 0 <= j < i ==> h[at + j] == src[j]
      invariant forall j :: 0 <= j < h.Length && !(at <= j < at + i) ==> h[j] == old(h[j])
    {
      h[at + i] := src[i];
    }
  }

  /** The fields before the checksum, put together. */
  lemma FrontFromFields(f: seq<byte>, name: string, size: nat)
    requires |f| == 148 && Storable(name) && |name| <= 100 && |OctalText(size, 11)| == 11
    requires f[..|name|] == Bytes(name) && f[|name|..100] == Zeros(100 - |name|)
    requires f[100..108] == MODE && f[108..116] == OWNER && f[116..124] == OWNER
    requires f[124..135] == OctalText(size, 11) && f[135] == 0 && f[136..148] == MTIME
    ensures f == HeaderFront(name, size)
  {
    hide OctalText, Bytes;
    assert f == f[..|name|] + f[|name|..100] + f[100..108] + f[108..116] + f[116..124] + f[124..135] + [f[135]] + f[136..148];
  }

  lemma BackFromFields(b: seq<byte>, prefix: string)
    requires |b| == 356 && Storable(prefix) && |prefix| <= 155
    requires b[0] == 48 && b[1..101] == Zeros(100) && b[101..107] == USTAR && b[107..109] == VERSION
    requires b[109..189] == Zeros(80) && b[189..189 + |prefix|] == Bytes(prefix)
    requires b[189 + |prefix|..344] == Zeros(155 - |prefix|) && b[344..356] == Zeros(12)
    ensures b == HeaderBack(prefix)
  {
    hide Bytes;
    assert b == [b[0]] + b[1..101] + b[101..107] + b[107..109] + b[109..189] + b[189..189 + |prefix|]
              + b[189 + |prefix|..344] + b[344..356];
  }

  // --------------------------------------------------------------- writing

  /** The fields before the checksum. */
  method FillFront(h: array<byte>, name: string, size: nat)
    requires h.Length == 512 && forall i :: 0 <= i < 512 ==> h[i] == 0
    requires Storable(name) && |name| <= 100 && |OctalText(size, 11)| == 11
    modifies h
    ensures h[..148] == HeaderFront(name, size) && forall i :: 148 <= i < 512 ==> h[i] == 0
  {
    hide OctalText, HeaderFront;
    CopyInto(h, 0, Bytes(name));
    CopyInto(h, 100, MODE);
    CopyInto(h, 108, OWNER);
    CopyInto(h, 116, OWNER);
    CopyInto(h, 124, OctalText(size, 11) + [0]);
    CopyInto(h, 136, MTIME);
    FrontOf(h[..], name, size);
    assert h[..148] == h[..][..148];
  }

  /** The type, the magic and the prefix. */
  method FillBack(h: array<byte>, prefix: string)
    requires h.Length == 512 && forall i :: 148 <= i < 512 ==> h[i] == 0
    requires Storable(prefix) && |prefix| <= 155
    modifies h
    ensures h[156..] == HeaderBack(prefix) && h[..156] == old(h[..156])
  {
    hide HeaderBack;
    CopyInto(h, 345, Bytes(prefix));
    h[156] := 48;
    CopyInto(h, 257, USTAR);
    CopyInto(h, 263, VERSION);
    BackOf(h[..], prefix);
    assert h[156..] == h[..][156..];
  }

  /** `src` stands at `at`. */
  ghost predicate Holds(h: seq<byte>, at: nat, src: seq<byte>) {
    at + |src| <= |h| && forall i :: at <= i < at + |src| ==> h[i] == src[i - at]
  }

  lemma HoldsIn(h: seq<byte>, lo: nat, hi: nat, at: nat, src: seq<byte>)
    requires Holds(h, at, src) && lo <= at && at + |src| <= hi <= |h|
    ensures h[lo..hi][at - lo..at - lo + |src|] == src
  {
    var part := h[lo..hi][at - lo..at - lo + |src|];
    forall k | 0 <= k < |src| ensures part[k] == src[k] {
      assert h[at + k] == src[k];
    }
  }

  lemma FrontOf(h: seq<byte>, name: string, size: nat)
    requires |h| == 512 && Storable(name) && |name| <= 100 && |OctalText(size, 11)| == 11
    requires Holds(h, 0, Bytes(name)) && Holds(h, |name|, Zeros(100 - |name|))
    requires Holds(h, 100, MODE) && Holds(h, 108, OWNER) && Holds(h, 116, OWNER)
    requires Holds(h, 124, OctalText(size, 11) + [0]) && Holds(h, 136, MTIME)
    ensures h[..148] == HeaderFront(name, size)
  {
    hide OctalText, HeaderFront, Holds;
    HoldsIn(h, 0, 148, 0, Bytes(name));
    HoldsIn(h, 0, 148, |name|, Zeros(100 - |name|));
    HoldsIn(h, 0, 148, 100, MODE);
    HoldsIn(h, 0, 148, 108, OWNER);
    HoldsIn(h, 0, 148, 116, OWNER);
    HoldsIn(h, 0, 148, 124, OctalText(size, 11) + [0]);
    HoldsIn(h, 0, 148, 136, MTIME);
    var f := h[..148];
    assert f[124..135] == f[124..136][..11] && f[135] == f[124..136][11];
    FrontFromFields(f, name, size);
  }

  lemma BackOf(h: seq<byte>, prefix: string)
    requires |h| == 512 && Storable(prefix) && |prefix| <= 155
    requires h[156] == 48 && Holds(h, 157, Zeros(100)) && Holds(h, 257, USTAR) && Holds(h, 263, VERSION)
    requires Holds(h, 265, Zeros(80)) && Holds(h, 345, Bytes(prefix)) && Holds(h, 345 + |prefix|, Zeros(155 - |prefix|))
    requires Holds(h, 500, Zeros(12))
    ensures h[156..] == HeaderBack(prefix)
  {
    hide HeaderBack, Holds;
    HoldsIn(h, 156, 512, 157, Zeros(100));
    HoldsIn(h, 156, 512, 257, USTAR);
    HoldsIn(h, 156, 512, 263, VERSION);
    HoldsIn(h, 156, 512, 265, Zeros(80));
    HoldsIn(h, 156, 512, 345, Bytes(prefix));
    HoldsIn(h, 156, 512, 345 + |prefix|, Zeros(155 - |prefix|));
    HoldsIn(h, 156, 512, 500, Zeros(12));
    assert h[156..] == h[156..512];
    BackFromFields(h[156..], prefix);
  }

  /** The header of one member: all fields, then the checksum over them. */
  method FillHeader(m: Member) returns (out: seq<byte>)
    requires Encodable(m)
    ensures out == HeaderOf(m)
  {
    hide CheckPath, OctalText, HeaderFront, HeaderBack, Storable, Sum;
    SplitStorable(m.path);
    var (prefix, name) := UstarSplit(m.path).value;
    Pow8Values();
    OctalRoundTrip(|m.bytes|, 11, [0]);
    var h := new byte[512](_ => 0);
    FillFront(h, name, |m.bytes|);
    ghost var front := h[..148];
    FillBack(h, prefix);
    assert h[..148] == h[..156][..148];
    out := Seal(h, front, h[156..]);
  }

  /** The checksum, taken over the header with spaces in its place. */
  method Seal(h: array<byte>, ghost front: seq<byte>, ghost back: seq<byte>) returns (out: seq<byte>)
    requires h.Length == 512 && h[..148] == front && h[156..] == back
    modifies h
    ensures out == front + ChecksumField(Sum(front) + 256 + Sum(back)) + back
  {
    hide OctalText, Sum;
    ghost var filled := h[..];
    assert filled[..148] == front && filled[156..] == back;
    CopyInto(h, 148, SPACES);
    Patched(filled, h[..], SPACES);
    var sum := Sum(h[..]);
    SumOfParts(h[..], front, back);
    OctalRoundTrip(sum, 6, [0, 32]);
    CopyInto(h, 148, ChecksumField(sum));
    Patched(filled, h[..], ChecksumField(sum));
    out := h[..];
  }

  /** Eight bytes written over the checksum field. */
  lemma Patched(before: seq<byte>, after: seq<byte>, field: seq<byte>)
    requires |before| == 512 && |after| == 512 && |field| == 8
    requires forall i :: 0 <= i < 512 ==> after[i] == if 148 <= i < 156 then field[i - 148] else before[i]
    ensures after == before[..148] + field + before[156..]
    ensures after[..148] == before[..148] && after[148..156] == field && after[156..] == before[156..]
  {
  }

  lemma SumOfParts(h: seq<byte>, front: seq<byte>, back: seq<byte>)
    requires |h| == 512 && front == h[..148] && back == h[156..] && h[148..156] == SPACES
    ensures Sum(h) == Sum(front) + 256 + Sum(back) && Sum(h) < Pow8(6)
  {
    hide Sum, Pow8;
    assert h == front + SPACES + back;
    SumConcat(front + SPACES, back);
    SumConcat(front, SPACES);
    SpacesSum();
    Pow8Values();
  }

  lemma FaultFound(ms: seq<Member>, k: nat, e: ArchiveError)
    requires |ms| <= MAX_MEMBERS && k < |ms| && NoFaults(ms, k) && MemberFault(ms, k) == Some(e)
    ensures WriteRefused(ms, e)
  {
    hide MemberFault;
  }

  /** The first loop: every member checked in order, with a running total. */
  method CheckMembers(ms: seq<Member>) returns (e: Option<ArchiveError>)
    requires |ms| <= MAX_MEMBERS
    ensures e.None? ==> NoFaults(ms, |ms|)
    ensures e.Some? ==> WriteRefused(ms, e.value)
  {
    hide CheckPath, Lower, WriteRefused;
    var exact: set<string> := {};
    var lower: set<string> := {};
    var total := 1024;
    assert ms[..0] == [];
    for k := 0 to |ms|
      invariant NoFaults(ms, k) && total == Total(ms[..k])
      invariant forall p :: p in exact <==> exists j :: 0 <= j < k && ms[j].path == p
      invariant forall p :: p in lower <==> exists j :: 0 <= j < k && Lower(ms[j].path) == p
    {
      var m := ms[k];
      assert ms[..k + 1][..k] == ms[..k];
      ghost var fault := MemberFault(ms, k);
      var rule := CheckPath(m.path);
      var sum := total + 512 + Padded(|m.bytes|);
      var found: Option<ArchiveError> :=
        if rule.Some? then Some(PathRefusal(rule.value, m.path))
        else if m.kind != Regular then Some(BrokenMember(MemberType, None, m.path))
        else if m.path in exact then Some(BrokenMember(PathDuplicate, None, m.path))
        else if Lower(m.path) in lower then Some(BrokenMember(PathCollision, None, m.path))
        else if m.path == MANIFEST && |m.bytes| > MANIFEST_MAX then Some(Cap(ManifestTooLarge))
        else if sum > ARCHIVE_MAX then Some(Cap(ArchiveTooLarge))
        else None;
      assert found == fault;
      if found.Some? {
        FaultFound(ms, k, found.value);
        return found;
      }
      exact, lower, total := exact + {m.path}, lower + {Lower(m.path)}, sum;
    }
    return None;
  }

  /**
   * Write the members in order. A success is the encoding of exactly these
   * members, of exactly the length added up while checking them.
   */
  method Write(ms: seq<Member>) returns (r: Result<seq<byte>, ArchiveError>)
    ensures r.Ok? <==> Writable(ms)
    ensures r.Err? ==> WriteRefused(ms, r.error)
    ensures r.Ok? ==> (forall m :: m in ms ==> Encodable(m)) && r.value == Encode(ms) && |r.value| == Total(ms) <= ARCHIVE_MAX
  {
    hide MemberFault, Encodable, HeaderOf, Padded;
    if |ms| > MAX_MEMBERS {
      return Err(Broken(TooManyMembers, None));
    }
    var fault := CheckMembers(ms);
    if fault.Some? {
      RefusedIsFaulty(ms, fault.value);
      return Err(fault.value);
    }
    if forall i :: 0 <= i < |ms| ==> ms[i].path != MANIFEST {
      return Err(Broken(CkJsonMissing, None));
    }
    if ms[0].path != MANIFEST {
      return Err(Broken(CkJsonNotFirst, None));
    }
    FaultlessEncodable(ms, |ms|);
    assert ms[..|ms|] == ms;
    BlocksLength(ms);
    var out := WriteBlocks(ms);
    out := out + Zeros(1024);
    return Ok(out);
  }

  /** The second loop: each header, its bytes, and zeros to the next whole block of the output. */
  method WriteBlocks(ms: seq<Member>) returns (out: seq<byte>)
    requires forall m :: m in ms ==> Encodable(m)
    ensures out == Blocks(ms)
  {
    hide Encodable, Block, Blocks;
    assert ms[..|ms|] == ms;
    out := [];
    NoBlocks(ms);
    for k := 0 to |ms|
      invariant out == Blocks(ms[..k])
    {
      BlocksLength(ms[..k]);
      out := WriteMember(out, ms[k]);
      BlocksNext(ms, k);
    }
  }

  lemma NoBlocks(ms: seq<Member>)
    ensures Blocks(ms[..0]) == []
  {
  }

  lemma BlocksNext(ms: seq<Member>, k: nat)
    requires k < |ms| && forall m :: m in ms ==> Encodable(m)
    ensures Blocks(ms[..k + 1]) == Blocks(ms[..k]) + Block(ms[k])
  {
    hide Encodable, Block;
    assert ms[..k + 1][..k] == ms[..k];
  }

  method WriteMember(before: seq<byte>, m: Member) returns (out: seq<byte>)
    requires Encodable(m) && |before| % 512 == 0
    ensures out == before + Block(m)
  {
    hide Encodable, HeaderOf, Padded;
    var header := FillHeader(m);
    out := before + header;
    out := out + m.bytes;
    PaddingRestores(|before|, |m.bytes|);
    out := out + Zeros(Padded(|out|) - |out|);
    assert out == before + (header + m.bytes + Zeros(Padded(|m.bytes|) - |m.bytes|));
  }

  lemma RefusedIsFaulty(ms: seq<Member>, e: ArchiveError)
    requires |ms| <= MAX_MEMBERS && WriteRefused(ms, e)
    ensures !Writable(ms)
  {
    hide MemberFault;
  }

  /** Padding the whole output is padding the member, since output stays in whole blocks. */
  lemma PaddingRestores(before: nat, size: nat)
    requires before % 512 == 0
    ensures Padded(before + 512 + size) == before + 512 + Padded(size)
  {
  }

  // --------------------------------------------------------------- reading

  predicate AllZero(s: seq<byte>) { forall i :: 0 <= i < |s| ==> s[i] == 0 }

  /** `iter().position(|b| b != 0)` from `at` on. */
  function FirstNonZero(s: seq<byte>, at: nat): (r: Option<nat>)
    requires at <= |s|
    ensures r.None? <==> AllZero(s[at..])
    ensures r.Some? ==> at <= r.value < |s| && s[r.value] != 0 && AllZero(s[at..r.value])
    decreases |s| - at
  {
    if at == |s| then None
    else if s[at] != 0 then Some(at)
    else
      assert s[at..] == [s[at]] + s[at + 1..];
      FirstNonZero(s, at + 1)
  }

  /** A zero block at `at`: a second one must follow, and then only zeros. */
  function EndRule(archive: seq<byte>, at: nat): Option<ArchiveError>
    requires at + 512 <= |archive|
  {
    if |archive| - at < 1024 || !AllZero(archive[at + 512..at + 1024]) then Some(Broken(TerminatorMissing, Some(at)))
    else
      match FirstNonZero(archive, at + 1024)
      case Some(i) => Some(Broken(TrailingData, Some(i)))
      case None => None
  }

  /** Whether a member may be added to those read; `None` if so. */
  function AddRule(archive: seq<byte>, at: nat, path: string, size: nat, count: nat, lower: map<string, string>)
    : (r: Option<ArchiveError>)
    ensures r.None? ==> at + 512 + size <= |archive| && Lower(path) !in lower && count < MAX_MEMBERS
  {
    if count + 1 > MAX_MEMBERS then Some(BrokenMember(TooManyMembers, Some(at), path))
    else if Lower(path) in lower then
      Some(BrokenMember(if lower[Lower(path)] == path then PathDuplicate else PathCollision, Some(at), path))
    else if at + 512 + size > |archive| then Some(BrokenMember(Truncated, Some(at), path))
    else if path == MANIFEST && size > MANIFEST_MAX then Some(Cap(ManifestTooLarge))
    else None
  }

  /** What stands at `at`: the end of the archive, or one more member's path and size. */
  function NextEntry(archive: seq<byte>, at: nat, count: nat, lower: map<string, string>)
    : (r: Result<Option<(string, nat)>, ArchiveError>)
    ensures r.Ok? ==> at + 512 <= |archive|
    ensures r.Ok? && r.value.Some? ==>
      var (path, size) := r.value.value;
      !AllZero(archive[at..at + 512]) && ReadHeader(archive[at..at + 512], at) == Ok((path, size)) && AddRule(archive, at, path, size, count, lower).None?
    ensures r == Ok(None) ==> AllZero(archive[at..at + 512]) && EndRule(archive, at).None?
  {
    if |archive| - at < 512 then Err(Broken(TerminatorMissing, Some(at)))
    else if AllZero(archive[at..at + 512]) then
      match EndRule(archive, at)
      case Some(e) => Err(e)
      case None => Ok(None)
    else
      match ReadHeader(archive[at..at + 512], at)
      case Err(e) => Err(e)
      case Ok((path, size)) =>
        match AddRule(archive, at, path, size, count, lower)
        case Some(e) => Err(e)
        case None => Ok(Some((path, size)))
  }

  /**
   * What the reader finds at an offset. It is done exactly at two zero blocks
   * with nothing but zeros after them; it takes a member exactly when the
   * header is good, the path is new up to case, and the bytes are all there.
   */
  lemma NextEntryMeans(archive: seq<byte>, at: nat, count: nat, lower: map<string, string>)
    ensures var r := NextEntry(archive, at, count, lower);
      && (r == Ok(None) <==> at + 1024 <= |archive| && AllZero(archive[at..]))
      && (forall path, size :: r == Ok(Some((path, size))) <==>
            && at + 512 <= |archive| && !AllZero(archive[at..at + 512]) && ReadHeader(archive[at..at + 512], at) == Ok((path, size))
            && count < 1000 && Lower(path) !in lower && at + 512 + size <= |archive| && (path == "ck.json" ==> size <= 65_536))
  {
    hide ReadHeader, Lower, AllZero;
    if at + 512 <= |archive| {
      if AllZero(archive[at..at + 512]) && EndRule(archive, at).None? { EndIsZero(archive, at); }
      if at + 1024 <= |archive| && AllZero(archive[at..]) {
        ZeroParts(archive, at);
      }
    }
  }

  lemma ZeroParts(archive: seq<byte>, at: nat)
    requires at + 1024 <= |archive| && AllZero(archive[at..])
    ensures AllZero(archive[at..at + 512]) && EndRule(archive, at).None?
  {
    assert forall i :: at <= i < |archive| ==> archive[i] == archive[at..][i - at];
  }

  /** Why the reader stops at an offset, beside a bad header. */
  lemma NextEntryRefuses(archive: seq<byte>, at: nat, count: nat, lower: map<string, string>)
    requires NextEntry(archive, at, count, lower).Err?
    requires at + 512 <= |archive| && !AllZero(archive[at..at + 512]) ==> ReadHeader(archive[at..at + 512], at).Ok?
    ensures var e := NextEntry(archive, at, count, lower).error;
      if |archive| < at + 512 then e == Broken(TerminatorMissing, Some(at))
      else if AllZero(archive[at..at + 512]) then
        if |archive| < at + 1024 || !AllZero(archive[at + 512..at + 1024]) then e == Broken(TerminatorMissing, Some(at))
        else exists i :: at + 1024 <= i < |archive| && archive[i] != 0 && AllZero(archive[at + 1024..i]) && e == Broken(TrailingData, Some(i))
      else
        var (path, size) := ReadHeader(archive[at..at + 512], at).value;
        if count >= 1000 then e == BrokenMember(TooManyMembers, Some(at), path)
        else if Lower(path) in lower then
          e == BrokenMember(if lower[Lower(path)] == path then PathDuplicate else PathCollision, Some(at), path)
        else if at + 512 + size > |archive| then e == BrokenMember(Truncated, Some(at), path)
        else path == "ck.json" && size > 65_536 && e == Cap(ManifestTooLarge)
  {
    hide ReadHeader, Lower;
  }

  /** The members from `at` on, added to those already read. */
  function ReadFrom(archive: seq<byte>, at: nat, members: map<string, ReadMember>, lower: map<string, string>)
    : Result<map<string, ReadMember>, ArchiveError>
    decreases |archive| - at
  {
    match NextEntry(archive, at, |members|, lower)
    case Err(e) => Err(e)
    case Ok(None) => Ok(members)
    case Ok(Some((path, size))) =>
      ReadFrom(archive, at + 512 + Padded(size),
               members[path := ReadMember(archive[at + 512..at + 512 + size], at)], lower[Lower(path) := path])
  }

  function ReadAll(archive: seq<byte>): Result<map<string, ReadMember>, ArchiveError> {
    if |archive| > ARCHIVE_MAX then Err(Cap(ArchiveTooLarge)) else ReadFrom(archive, 0, map[], map[])
  }

  method ReadEntry(archive: seq<byte>, at: nat, count: nat, lower: map<string, string>)
    returns (r: Result<Option<(string, nat)>, ArchiveError>)
    ensures r == NextEntry(archive, at, count, lower)
  {
    hide ReadHeader, EndRule, AddRule, AllZero;
    if |archive| - at < 512 {
      return Err(Broken(TerminatorMissing, Some(at)));
    }
    var h := archive[at..at + 512];
    if AllZero(h) {
      var end := EndRule(archive, at);
      return if end.Some? then Err(end.value) else Ok(None);
    }
    var entry := ReadHeader(h, at);
    if entry.Err? { return Err(entry.error); }
    var (path, size) := entry.value;
    var refused := AddRule(archive, at, path, size, count, lower);
    return if refused.Some? then Err(refused.value) else Ok(Some((path, size)));
  }

  lemma ReadFromEntry(archive: seq<byte>, at: nat, members: map<string, ReadMember>, lower: map<string, string>)
    ensures ReadFrom(archive, at, members, lower)
         == match NextEntry(archive, at, |members|, lower)
            case Err(e) => Err(e)
            case Ok(None) => Ok(members)
            case Ok(Some((path, size))) =>
              ReadFrom(archive, at + 512 + Padded(size),
                       members[path := ReadMember(archive[at + 512..at + 512 + size], at)], lower[Lower(path) := path])
  {
    hide NextEntry, ReadHeader, AddRule, AllZero, EndRule, Lower, Padded;
  }

  method ReadMembers(archive: seq<byte>) returns (r: Result<map<string, ReadMember>, ArchiveError>)
    ensures r == ReadAll(archive)
  {
    hide ReadHeader, EndRule, Lower, AddRule, AllZero, Padded, NextEntry, ReadFrom;
    if |archive| > ARCHIVE_MAX {
      return Err(Cap(ArchiveTooLarge));
    }
    var members: map<string, ReadMember> := map[];
    var lower: map<string, string> := map[];
    var at: nat := 0;
    while true
      invariant ReadAll(archive) == ReadFrom(archive, at, members, lower)
      decreases |archive| - at
    {
      var entry := ReadEntry(archive, at, |members|, lower);
      ReadFromEntry(archive, at, members, lower);
      if entry.Err? { return Err(entry.error); }
      if entry.value.None? { return Ok(members); }
      var (path, size) := entry.value.value;
      lower := lower[Lower(path) := path];
      members := members[path := ReadMember(archive[at + 512..at + 512 + size], at)];
      at := at + 512 + Padded(size);
    }
  }

  /** A listed member: a checked path, with its bytes after a header that names it, wholly before `limit`. */
  ghost predicate Placed(archive: seq<byte>, path: string, m: ReadMember, limit: nat) {
    && GoodPath(path) && m.offset % 512 == 0 && m.offset + 512 + Padded(|m.bytes|) <= limit
    && m.offset + 512 + |m.bytes| <= |archive|
    && archive[m.offset + 512..m.offset + 512 + |m.bytes|] == m.bytes
    && ReadHeader(archive[m.offset..m.offset + 512], m.offset) == Ok((path, |m.bytes|))
    && (path == MANIFEST ==> |m.bytes| <= MANIFEST_MAX)
  }

  ghost predicate Apart(m: ReadMember, n: ReadMember) {
    || m.offset + 512 + Padded(|m.bytes|) <= n.offset
    || n.offset + 512 + Padded(|n.bytes|) <= m.offset
  }

  /** What has been read before `limit`: no two members share bytes, or a path up to letter case. */
  ghost predicate Lists(archive: seq<byte>, limit: nat, members: map<string, ReadMember>) {
    && limit % 512 == 0 && |members| <= MAX_MEMBERS
    && (forall p :: p in members ==> Placed(archive, p, members[p], limit))
    && (forall p, q :: p in members && q in members && p != q ==> Apart(members[p], members[q]) && Lower(p) != Lower(q))
  }

  ghost predicate LowerOf(members: map<string, ReadMember>, lower: map<string, string>) {
    forall p :: p in members ==> Lower(p) in lower
  }

  lemma PlacedLater(archive: seq<byte>, path: string, m: ReadMember, limit: nat, later: nat)
    requires Placed(archive, path, m, limit) && limit <= later
    ensures Placed(archive, path, m, later)
  {
    hide ReadHeader, GoodPath, Padded;
  }

  lemma ListsNext(archive: seq<byte>, at: nat, members: map<string, ReadMember>, path: string, m: ReadMember)
    requires Lists(archive, at, members) && |members| < MAX_MEMBERS && m.offset == at
    requires Placed(archive, path, m, at + 512 + Padded(|m.bytes|))
    requires forall p :: p in members ==> Lower(p) != Lower(path)
    ensures Lists(archive, at + 512 + Padded(|m.bytes|), members[path := m])
  {
    hide Lower, Placed, Apart, Padded;
    ListsMeans(archive, at, members);
    var (next, limit) := (members[path := m], at + 512 + Padded(|m.bytes|));
    assert limit % 512 == 0;
    forall p | p in next ensures Placed(archive, p, next[p], limit) {
      if p != path { PlacedLater(archive, p, members[p], at, limit); }
    }
    forall p | p in members ensures Apart(members[p], m) && Apart(m, members[p]) {
      PlacedBefore(archive, p, members[p], at);
      EndsBefore(members[p], m);
    }
  }

  lemma ListsMeans(archive: seq<byte>, limit: nat, members: map<string, ReadMember>)
    requires Lists(archive, limit, members)
    ensures limit % 512 == 0 && forall p :: p in members ==> Placed(archive, p, members[p], limit)
    ensures forall p, q :: p in members && q in members && p != q ==> Apart(members[p], members[q]) && Lower(p) != Lower(q)
  {
    hide Placed, Apart, Lower;
  }

  lemma EndsBefore(m: ReadMember, n: ReadMember)
    requires m.offset + 512 + Padded(|m.bytes|) <= n.offset
    ensures Apart(m, n) && Apart(n, m)
  {
    hide Padded;
  }

  lemma PlacedBefore(archive: seq<byte>, path: string, m: ReadMember, limit: nat)
    requires Placed(archive, path, m, limit)
    ensures m.offset + 512 + Padded(|m.bytes|) <= limit
  {
    hide ReadHeader, GoodPath, Padded;
  }

  lemma AddedIsPlaced(archive: seq<byte>, at: nat, count: nat, lower: map<string, string>, path: string, size: nat)
    requires at % 512 == 0 && at + 512 <= |archive| && ReadHeader(archive[at..at + 512], at) == Ok((path, size))
    requires AddRule(archive, at, path, size, count, lower).None?
    ensures Placed(archive, path, ReadMember(archive[at + 512..at + 512 + size], at), at + 512 + Padded(size))
  {
    hide ReadHeader, CheckPath, Lower, Padded, NoDots, OnlyPathChars;
    ReadHeaderChecks(archive[at..at + 512], at);
    PathMeans(path);
  }

  lemma ReadHeaderChecks(h: seq<byte>, at: nat)
    requires |h| == 512 && ReadHeader(h, at).Ok?
    ensures CheckPath(ReadHeader(h, at).value.0).None?
  {
    hide CheckPath, Checksum, Octal;
  }

  /**
   * Any archive the reader accepts, whoever wrote it: its members are placed
   * soundly, and two zero blocks and only zeros follow them.
   */
  lemma {:induction false} ReadSound(archive: seq<byte>, at: nat, members: map<string, ReadMember>, lower: map<string, string>)
    requires Lists(archive, at, members) && LowerOf(members, lower) && ReadFrom(archive, at, members, lower).Ok?
    ensures exists end: nat :: Lists(archive, end, ReadFrom(archive, at, members, lower).value)
                           && at <= end && end + 1024 <= |archive| && AllZero(archive[end..])
    decreases |archive| - at
  {
    hide ReadHeader, Lists, Placed, Padded, AddRule, Lower, AllZero, EndRule, NextEntry;
    var entry := NextEntry(archive, at, |members|, lower).value;
    if entry.None? {
      EndIsZero(archive, at);
    } else {
      var (path, size) := entry.value;
      var m := ReadMember(archive[at + 512..at + 512 + size], at);
      ListsAligned(archive, at, members);
      AddedIsPlaced(archive, at, |members|, lower, path, size);
      ListsNext(archive, at, members, path, m);
      ReadSound(archive, at + 512 + Padded(size), members[path := m], lower[Lower(path) := path]);
    }
  }

  lemma ListsAligned(archive: seq<byte>, limit: nat, members: map<string, ReadMember>)
    requires Lists(archive, limit, members)
    ensures limit % 512 == 0
  {
    hide Placed, Apart, Lower;
  }

  lemma EndIsZero(archive: seq<byte>, at: nat)
    requires at + 512 <= |archive| && AllZero(archive[at..at + 512]) && EndRule(archive, at).None?
    ensures at + 1024 <= |archive| && AllZero(archive[at..])
  {
    hide AllZero;
    assert archive[at..] == archive[at..at + 512] + archive[at + 512..at + 1024] + archive[at + 1024..];
    AllZeroJoin(archive[at..at + 512], archive[at + 512..at + 1024]);
    AllZeroJoin(archive[at..at + 512] + archive[at + 512..at + 1024], archive[at + 1024..]);
  }

  lemma AllZeroJoin(a: seq<byte>, b: seq<byte>)
    requires AllZero(a) && AllZero(b)
    ensures AllZero(a + b)
  {
  }

  lemma ReadAllSound(archive: seq<byte>)
    requires ReadAll(archive).Ok?
    ensures |archive| <= ARCHIVE_MAX
    ensures exists end: nat :: Lists(archive, end, ReadAll(archive).value) && end + 1024 <= |archive| && AllZero(archive[end..])
  {
    hide ReadFrom;
    ReadSound(archive, 0, map[], map[]);
  }

  lemma ListsGoodPaths(archive: seq<byte>)
    requires ReadAll(archive).Ok?
    ensures forall p :: p in ReadAll(archive).value ==> GoodPath(p)
  {
    hide ReadAll, GoodPath, Padded, ReadHeader, AllZero;
    ReadAllSound(archive);
    var end: nat :| Lists(archive, end, ReadAll(archive).value);
  }

  /** A package archive must also hold its manifest. */
  method Read(archive: seq<byte>) returns (r: Result<map<string, seq<byte>>, ArchiveError>)
    ensures r.Ok? <==> ReadAll(archive).Ok? && MANIFEST in ReadAll(archive).value
    ensures r.Ok? ==> r.value == map p | p in ReadAll(archive).value :: ReadAll(archive).value[p].bytes
    ensures r.Ok? ==> "ck.json" in r.value && forall p :: p in r.value ==> GoodPath(p)
    ensures r.Err? ==> r == match ReadAll(archive) case Err(e) => Err(e) case Ok(_) => Err(Broken(CkJsonMissing, None))
  {
    hide ReadAll, GoodPath;
    var members := ReadMembers(archive);
    if members.Err? { return Err(members.error); }
    if MANIFEST !in members.value { return Err(Broken(CkJsonMissing, None)); }
    ListsGoodPaths(archive);
    return Ok(map p | p in members.value :: members.value[p].bytes);
  }

  // ------------------------------------------------------------ round trip

  ghost function OffsetOf(ms: seq<Member>, k: nat): nat
    requires k <= |ms| && forall m :: m in ms ==> Encodable(m)
  {
    |Blocks(ms[..k])|
  }

  /** The members as the reader lists them: each with its bytes and the offset of its header. */
  ghost function Listed(ms: seq<Member>, k: nat): map<string, ReadMember>
    requires k <= |ms| && forall m :: m in ms ==> Encodable(m)
  {
    if k == 0 then map[] else Listed(ms, k - 1)[ms[k - 1].path := ReadMember(ms[k - 1].bytes, OffsetOf(ms, k - 1))]
  }

  ghost function LowerListed(ms: seq<Member>, k: nat): map<string, string>
    requires k <= |ms|
  {
    if k == 0 then map[] else LowerListed(ms, k - 1)[Lower(ms[k - 1].path) := ms[k - 1].path]
  }

  lemma {:induction false} BlocksSplit(ms: seq<Member>, k: nat)
    requires k < |ms| && forall m :: m in ms ==> Encodable(m)
    ensures Blocks(ms[..k + 1]) == Blocks(ms[..k]) + Block(ms[k])
    ensures Blocks(ms[..k + 1]) <= Blocks(ms)
    decreases |ms| - k
  {
    hide Encodable, Block;
    assert ms[..k + 1][..k] == ms[..k];
    if k + 1 < |ms| {
      BlocksSplit(ms, k + 1);
    } else {
      assert ms[..k + 1] == ms;
    }
  }

  /** Where member `k` lies in the encoding. */
  lemma MemberInArchive(ms: seq<Member>, k: nat)
    requires k < |ms| && forall m :: m in ms ==> Encodable(m)
    ensures var (a, at, n) := (Encode(ms), OffsetOf(ms, k), |ms[k].bytes|);
      && at + 512 + Padded(n) + 1024 <= |a| && OffsetOf(ms, k + 1) == at + 512 + Padded(n)
      && a[at..at + 512] == HeaderOf(ms[k]) && a[at + 512..at + 512 + n] == ms[k].bytes
  {
    hide Encodable, HeaderOf, Blocks, Padded;
    BlocksSplit(ms, k);
    var (p, b, n) := (Blocks(ms[..k]), Block(ms[k]), |ms[k].bytes|);
    var r := Blocks(ms)[|p + b|..] + Zeros(1024);
    assert Encode(ms) == p + b + r;
    MiddleSlice(p, b, r, 0, 512);
    MiddleSlice(p, b, r, 512, 512 + n);
    assert b[0..512] == HeaderOf(ms[k]) && b[512..512 + n] == ms[k].bytes;
  }

  lemma MiddleSlice(p: seq<byte>, b: seq<byte>, r: seq<byte>, i: nat, j: nat)
    requires i <= j <= |b|
    ensures (p + b + r)[|p| + i..|p| + j] == b[i..j]
  {
  }

  ghost predicate Has(ms: seq<Member>, k: nat, p: string)
    requires k <= |ms|
  {
    exists j :: 0 <= j < k && ms[j].path == p
  }

  ghost predicate HasLower(ms: seq<Member>, k: nat, p: string)
    requires k <= |ms|
  {
    exists j :: 0 <= j < k && Lower(ms[j].path) == p
  }

  lemma {:induction false} LowerListedKeys(ms: seq<Member>, k: nat)
    requires k <= |ms|
    ensures forall p :: p in LowerListed(ms, k) <==> HasLower(ms, k, p)
  {
    hide Lower;
    if k > 0 {
      LowerListedKeys(ms, k - 1);
      assert forall p :: HasLower(ms, k, p) <==> HasLower(ms, k - 1, p) || Lower(ms[k - 1].path) == p;
    }
  }

  lemma {:induction false} ListedHas(ms: seq<Member>, k: nat)
    requires k <= |ms| && forall m :: m in ms ==> Encodable(m)
    ensures forall p :: p in Listed(ms, k) <==> Has(ms, k, p)
  {
    hide Encodable, OffsetOf;
    if k > 0 {
      ListedHas(ms, k - 1);
      assert forall p :: Has(ms, k, p) <==> Has(ms, k - 1, p) || ms[k - 1].path == p;
    }
  }

  lemma FaultlessIsNew(ms: seq<Member>, k: nat)
    requires k < |ms| && NoFaults(ms, |ms|)
    ensures !Has(ms, k, ms[k].path) && !HasLower(ms, k, Lower(ms[k].path))
    ensures ms[k].path == MANIFEST ==> |ms[k].bytes| <= MANIFEST_MAX
  {
    hide CheckPath, Lower;
    assert MemberFault(ms, k).None?;
  }

  lemma {:induction false} ListedCount(ms: seq<Member>, k: nat)
    requires k <= |ms| && NoFaults(ms, |ms|) && forall m :: m in ms ==> Encodable(m)
    ensures |Listed(ms, k)| == k
  {
    hide Encodable, OffsetOf, Lower, NoFaults, Has;
    if k > 0 {
      ListedCount(ms, k - 1);
      ListedHas(ms, k - 1);
      FaultlessIsNew(ms, k - 1);
    }
  }

  lemma ZerosFrom(a: seq<byte>, at: nat)
    requires at + 1024 == |a| && forall i :: at <= i < |a| ==> a[i] == 0
    ensures EndRule(a, at).None? && AllZero(a[at..at + 512])
  {
  }

  /** After the last member come two zero blocks and nothing else. */
  lemma ReadsEnd(ms: seq<Member>, members: map<string, ReadMember>, lower: map<string, string>)
    requires forall m :: m in ms ==> Encodable(m)
    ensures ReadFrom(Encode(ms), OffsetOf(ms, |ms|), members, lower) == Ok(members)
  {
    hide Encodable, ReadHeader, Blocks, EndRule, AddRule, AllZero;
    assert ms[..|ms|] == ms;
    ZerosFrom(Encode(ms), OffsetOf(ms, |ms|));
  }

  lemma ReadsOne(a: seq<byte>, at: nat, members: map<string, ReadMember>, lower: map<string, string>, m: Member)
    requires at + 512 + |m.bytes| <= |a| && !AllZero(a[at..at + 512])
    requires ReadHeader(a[at..at + 512], at) == Ok((m.path, |m.bytes|))
    requires a[at + 512..at + 512 + |m.bytes|] == m.bytes
    requires AddRule(a, at, m.path, |m.bytes|, |members|, lower).None?
    ensures ReadFrom(a, at, members, lower)
         == ReadFrom(a, at + 512 + Padded(|m.bytes|), members[m.path := ReadMember(m.bytes, at)], lower[Lower(m.path) := m.path])
  {
    hide ReadHeader, AllZero, EndRule, AddRule, Lower, Padded;
  }

  /** From each header's offset the reader finishes with exactly the members written. */
  lemma {:induction false} ReadsFrom(ms: seq<Member>, k: nat)
    requires Writable(ms) && k <= |ms| && forall m :: m in ms ==> Encodable(m)
    ensures ReadFrom(Encode(ms), OffsetOf(ms, k), Listed(ms, k), LowerListed(ms, k)) == Ok(Listed(ms, |ms|))
    decreases |ms| - k
  {
    hide *;
    if k == |ms| {
      ReadsEnd(ms, Listed(ms, k), LowerListed(ms, k));
    } else {
      MemberInArchive(ms, k);
      StoredHeader(ms[k], OffsetOf(ms, k));
      AddAllowed(ms, k);
      ReadsOne(Encode(ms), OffsetOf(ms, k), Listed(ms, k), LowerListed(ms, k), ms[k]);
      ListedNext(ms, k);
      ReadsFrom(ms, k + 1);
    }
  }

  lemma ListedNext(ms: seq<Member>, k: nat)
    requires k < |ms| && forall m :: m in ms ==> Encodable(m)
    ensures Listed(ms, k + 1) == Listed(ms, k)[ms[k].path := ReadMember(ms[k].bytes, OffsetOf(ms, k))]
    ensures LowerListed(ms, k + 1) == LowerListed(ms, k)[Lower(ms[k].path) := ms[k].path]
  {
    hide Lower, OffsetOf, Encodable;
  }

  lemma StoredHeader(m: Member, at: nat)
    requires Encodable(m)
    ensures ReadHeader(HeaderOf(m), at) == Ok((m.path, |m.bytes|)) && !AllZero(HeaderOf(m))
  {
    HeaderRoundTrip(m.path, |m.bytes|, at);
  }

  lemma AddAllowed(ms: seq<Member>, k: nat)
    requires Writable(ms) && k < |ms| && forall m :: m in ms ==> Encodable(m)
    ensures AddRule(Encode(ms), OffsetOf(ms, k), ms[k].path, |ms[k].bytes|, |Listed(ms, k)|, LowerListed(ms, k)).None?
  {
    hide Encodable, Lower, Blocks, NoFaults, Encode, Has, HasLower, Padded;
    ListedCount(ms, k);
    LowerListedKeys(ms, k);
    FaultlessIsNew(ms, k);
    MemberInArchive(ms, k);
  }

  /**
   * Whatever the writer accepts, the reader gives back: the same paths and
   * bytes, each at its offset, in an archive within the cap.
   */
  lemma WriteReadRoundTrip(ms: seq<Member>)
    requires Writable(ms)
    ensures forall m :: m in ms ==> Encodable(m)
    ensures |Encode(ms)| == Total(ms) <= ARCHIVE_MAX
    ensures ReadAll(Encode(ms)).Ok?
    ensures var read := ReadAll(Encode(ms)).value;
      && |read| == |ms|
      && forall k :: 0 <= k < |ms| ==> ms[k].path in read && read[ms[k].path] == ReadMember(ms[k].bytes, OffsetOf(ms, k))
  {
    hide Encodable, MemberFault, ReadFrom, OffsetOf;
    FaultlessEncodable(ms, |ms|);
    assert ms[..|ms|] == ms;
    BlocksLength(ms);
    FirstOffset(ms);
    ReadsFrom(ms, 0);
    ListedCount(ms, |ms|);
    forall k | 0 <= k < |ms| ensures ms[k].path in Listed(ms, |ms|) && Listed(ms, |ms|)[ms[k].path] == ReadMember(ms[k].bytes, OffsetOf(ms, k)) {
      ListedAt(ms, k, |ms|);
    }
  }

  lemma FirstOffset(ms: seq<Member>)
    requires forall m :: m in ms ==> Encodable(m)
    ensures OffsetOf(ms, 0) == 0
  {
    assert ms[..0] == [];
  }

  lemma {:induction false} ListedAt(ms: seq<Member>, k: nat, n: nat)
    requires k < n <= |ms| && NoFaults(ms, |ms|) && forall m :: m in ms ==> Encodable(m)
    ensures ms[k].path in Listed(ms, n) && Listed(ms, n)[ms[k].path] == ReadMember(ms[k].bytes, OffsetOf(ms, k))
  {
    hide Encodable, OffsetOf, CheckPath, Lower;
    if k + 1 < n {
      ListedAt(ms, k, n - 1);
      assert MemberFault(ms, n - 1).None?;
    }
  }

  /** Offsets increase in write order, in whole blocks, each past the data before it. */
  lemma OffsetsIncrease(ms: seq<Member>, k: nat)
    requires Writable(ms) && k < |ms| && forall m :: m in ms ==> Encodable(m)
    ensures OffsetOf(ms, k) % 512 == 0 && OffsetOf(ms, 0) == 0
    ensures OffsetOf(ms, k) + 512 + |ms[k].bytes| <= OffsetOf(ms, k + 1) < OffsetOf(ms, k) + 1024 + |ms[k].bytes|
  {
    hide Encodable, Blocks;
    MemberInArchive(ms, k);
    BlocksLength(ms[..k]);
    FirstOffset(ms);
  }
}
