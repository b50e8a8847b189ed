/** The vGPU records inside a vendor-specific capability (pkg/vgpu/vgpu.go). */
module Vgpu {
  import opened Text
  import opened PciConfig

  const RECORD_START: byte := 5
  const VERSION_LENGTH := 10
  const BRANCH_LENGTH := 10

  /** The signature "VF" at bytes 3 and 4. */
  predicate IsVgpuDevice(cap: seq<byte>) {
    |cap| >= 5 && cap[3] == 0x56 && cap[4] == 0x46
  }

  // ---------- the record walk ----------

  /** Where the walk stands: reading the record at a position, or past the end of the buffer, on which
      the source's index panics. */
  datatype Place = At(pos: byte) | OffEnd

  function PlaceOf(cap: seq<byte>, pos: byte): Place { if pos as int < |cap| then At(pos) else OffEnd }

  ghost predicate InBuffer(cap: seq<byte>, w: Place) { w.At? ==> w.pos as int < |cap| }

  /** The walk is over: at a record with id 0, or off the end. */
  predicate Ended(cap: seq<byte>, w: Place)
    requires InBuffer(cap, w)
  {
    w.OffEnd? || cap[w.pos as int] == 0
  }

  /** From a record to the next one: add its length byte, in 8 bits. */
  function NextPlace(cap: seq<byte>, w: Place): (w': Place)
    requires InBuffer(cap, w)
    ensures InBuffer(cap, w')
  {
    if Ended(cap, w) then w
    else
      var at := Plus(w.pos, 1);
      if at as int >= |cap| then OffEnd else PlaceOf(cap, Plus(w.pos, cap[at as int] as int))
  }

  function Walk(cap: seq<byte>, n: nat): (w: Place)
    ensures InBuffer(cap, w)
  {
    if n == 0 then PlaceOf(cap, RECORD_START) else NextPlace(cap, Walk(cap, n - 1))
  }

  /** The walk comes to an end. A zero-length record keeps it where it is for ever, and a chain of
      records that wraps round to an earlier one never ends either. */
  ghost predicate Halts(cap: seq<byte>) { exists n: nat :: Ended(cap, Walk(cap, n)) }

  lemma {:induction false} EndedStays(cap: seq<byte>, m: nat, n: nat)
    requires m <= n && Ended(cap, Walk(cap, m))
    ensures Walk(cap, n) == Walk(cap, m)
    decreases n - m
  {
    if m < n { EndedStays(cap, m, n - 1); }
  }

  // ---------- when the walk ends ----------

  lemma {:induction false} Repeats(cap: seq<byte>, i: nat, j: nat, d: nat)
    requires Walk(cap, i) == Walk(cap, j)
    ensures Walk(cap, i + d) == Walk(cap, j + d)
  {
    if d > 0 { Repeats(cap, i, j, d - 1); }
  }

  /** A walk that comes back to a record goes round for ever. */
  lemma {:induction false} RoundForever(cap: seq<byte>, i: nat, j: nat, m: nat)
    requires i < j && Walk(cap, i) == Walk(cap, j) && !Ended(cap, Walk(cap, j))
    ensures !Ended(cap, Walk(cap, m))
    decreases m
  {
    if m <= j {
      if Ended(cap, Walk(cap, m)) { EndedStays(cap, m, j); }
    } else {
      RoundForever(cap, i, j, m - (j - i));
      Repeats(cap, i, j, m - j);
    }
  }

  /** The walk is not over within its first `n` places. */
  ghost predicate Going(cap: seq<byte>, n: nat) { forall k: nat :: k < n ==> !Ended(cap, Walk(cap, k)) }

  /** The record positions of the first `n` places. */
  ghost function Visited(cap: seq<byte>, n: nat): set<byte>
    requires Going(cap, n)
  {
    if n == 0 then {}
    else
      assert !Ended(cap, Walk(cap, n - 1));
      Visited(cap, n - 1) + {Walk(cap, n - 1).pos}
  }

  lemma {:induction false} VisitedAt(cap: seq<byte>, n: nat, p: byte) returns (k: nat)
    requires Going(cap, n) && p in Visited(cap, n)
    ensures k < n && Walk(cap, k) == At(p) && p as int < |cap|
  {
    hide Walk;
    assert !Ended(cap, Walk(cap, n - 1));
    if Walk(cap, n - 1) == At(p) { k := n - 1; } else { k := VisitedAt(cap, n - 1, p); }
  }

  /** A walk that does end visits no position twice before. */
  lemma {:induction false} VisitedCount(cap: seq<byte>, n: nat, last: nat)
    requires Going(cap, n) && Ended(cap, Walk(cap, last))
    ensures |Visited(cap, n)| == n
  {
    hide Walk;
    if n > 0 {
      VisitedCount(cap, n - 1, last);
      assert !Ended(cap, Walk(cap, n - 1));
      var p := Walk(cap, n - 1).pos;
      if p in Visited(cap, n - 1) {
        var k := VisitedAt(cap, n - 1, p);
        RoundForever(cap, k, n - 1, last);
      }
    }
  }

  /** The walk comes to an end exactly when it does within as many steps as the buffer has bytes. */
  lemma HaltsWithin(cap: seq<byte>)
    ensures Halts(cap) <==> Ended(cap, Walk(cap, |cap|))
  {
    if last: nat :| Ended(cap, Walk(cap, last)) && !Ended(cap, Walk(cap, |cap|)) {
      forall k: nat | k <= |cap| ensures !Ended(cap, Walk(cap, k)) {
        if Ended(cap, Walk(cap, k)) { EndedStays(cap, k, |cap|); }
      }
      VisitedCount(cap, |cap| + 1, last);
      var visited := Visited(cap, |cap| + 1);
      forall p | p in visited ensures p as int < |cap| { var _ := VisitedAt(cap, |cap| + 1, p); }
      TooMany(visited, |cap|);
    }
  }

  lemma TooMany(s: set<byte>, n: nat)
    requires forall p :: p in s ==> p as int < n
    ensures |s| <= n
  {
    hide Range;
    var bound := if n < 256 then n else 256;
    SubsetSize(s, Range(bound));
  }

  // ---------- reading the version ----------

  datatype Info = Info(driverVersion: string, driverBranch: string)
  datatype InfoResult = NotPopulated | NoVersionRecord | IndexPanic | Read(info: Info)

  function Chars(bytes: seq<byte>): string { seq(|bytes|, k requires 0 <= k < |bytes| => bytes[k] as char) }

  predicate IsNul(c: char) { c == '\0' }

  function TrimNuls(s: string): string { Trim(s, IsNul) }

  /** The bytes from `from` up to `end`, both 8-bit; `None` is an index panic. */
  function Field(cap: seq<byte>, from: byte, end: byte): Option<string> {
    if from >= end then Some("")
    else if end as int > |cap| then None
    else Some(Chars(cap[from as int..end as int]))
  }

  /** What the record the walk ended at yields, in the source's 8-bit arithmetic. */
  function InfoAt(cap: seq<byte>, w: Place): InfoResult
    requires InBuffer(cap, w)
  {
    if w.OffEnd? then IndexPanic
    else if cap[w.pos as int] != 0 then NoVersionRecord
    else if Plus(w.pos, 2 + VERSION_LENGTH + BRANCH_LENGTH) as int > |cap| then NoVersionRecord
    else
      var i := Plus(w.pos, 2);
      var versionEnd := Plus(w.pos, 2 + VERSION_LENGTH);
      var branchStart := if i < versionEnd then versionEnd else i;
      var branchEnd := Plus(w.pos, 2 + VERSION_LENGTH + BRANCH_LENGTH);
      match (Field(cap, i, versionEnd), Field(cap, branchStart, branchEnd))
      case (Some(v), Some(b)) => Read(Info(TrimNuls(v), TrimNuls(b)))
      case _ => IndexPanic
  }

  /** The loop that appends bytes to a string while the 8-bit index is below its bound. */
  method ReadField(cap: seq<byte>, from: byte, end: byte) returns (s: Option<string>, i: byte)
    ensures s == Field(cap, from, end)
    ensures s.Some? ==> i == if from < end then end else from
  {
    i := from;
    var text := "";
    while i < end
      invariant from < end ==> from <= i <= end
      invariant from >= end ==> i == from
      invariant i as int <= |cap| || from >= end || i == from
      invariant from < end && i > from ==> text == Chars(cap[from as int..i as int])
      invariant i == from ==> text == ""
      decreases end as int - i as int
    {
      if i as int >= |cap| { return None, i; }
      text := text + [cap[i as int] as char];
      i := i + 1;
    }
    s := Some(text);
  }

  /** Walk to the version record and read version and branch. The source does not terminate on a
      capability whose walk does not halt, which `HaltsWithin` decides. */
  method GetInfo(cap: seq<byte>) returns (r: InfoResult)
    requires |cap| == 0 || Halts(cap)
    ensures |cap| == 0 ==> r == NotPopulated
    ensures |cap| > 0 ==> forall n: nat :: Ended(cap, Walk(cap, n)) ==> r == InfoAt(cap, Walk(cap, n))
  {
    if |cap| == 0 { return NotPopulated; }
    ghost var last: nat :| Ended(cap, Walk(cap, last));
    ghost var n := 0;
    forall m: nat | Ended(cap, Walk(cap, m)) ensures Walk(cap, m) == Walk(cap, last) {
      EndedStays(cap, if m < last then m else last, if m < last then last else m);
    }
    if RECORD_START as int >= |cap| {
      assert Ended(cap, Walk(cap, 0));
      return IndexPanic;
    }
    var pos := RECORD_START;
    var record := cap[RECORD_START as int];
    while record != 0 && pos as int < |cap|
      invariant pos as int < |cap| && record == cap[pos as int] && Walk(cap, n) == At(pos) && n <= last
      decreases last - n
    {
      assert !Ended(cap, Walk(cap, n));
      if n == last { assert false; }
      n := n + 1;
      var at := Plus(pos, 1);
      if at as int >= |cap| { assert Ended(cap, Walk(cap, n)); return IndexPanic; }
      pos := Plus(pos, cap[at as int] as int);
      if pos as int >= |cap| { assert Ended(cap, Walk(cap, n)); return IndexPanic; }
      record := cap[pos as int];
    }
    assert Ended(cap, Walk(cap, n));
    if Plus(pos, 2 + VERSION_LENGTH + BRANCH_LENGTH) as int > |cap| { return NoVersionRecord; }
    var version, i := ReadField(cap, Plus(pos, 2), Plus(pos, 2 + VERSION_LENGTH));
    if version.None? { return IndexPanic; }
    var branch, j := ReadField(cap, i, Plus(pos, 2 + VERSION_LENGTH + BRANCH_LENGTH));
    if branch.None? { return IndexPanic; }
    r := Read(Info(TrimNuls(version.value), TrimNuls(branch.value)));
  }

  /** Exactly when reading the version panics: when the walk went off the end, or when the version field
      of a record close to the end of the 8-bit range runs past the buffer. */
  lemma PanicIff(cap: seq<byte>, w: Place)
    requires InBuffer(cap, w) && Ended(cap, w)
    ensures InfoAt(cap, w).IndexPanic? <==>
              w.OffEnd? || (234 <= w.pos <= 243 && |cap| < w.pos as int + 2 + VERSION_LENGTH)
    ensures |cap| <= 234 ==> (InfoAt(cap, w).IndexPanic? <==> w.OffEnd?)
  {}

  // ---------- well-chained capabilities ----------

  /** Records from `pos` on have a non-zero length and end inside the buffer, up to one with id 0. */
  ghost predicate Chained(cap: seq<byte>, pos: nat)
    decreases |cap| - pos
  {
    pos < |cap| && (cap[pos] == 0 ||
      (pos + 1 < |cap| && cap[pos + 1] > 0 && Chained(cap, pos + cap[pos + 1] as int)))
  }

  /** The first record with id 0. */
  ghost function VersionRecord(cap: seq<byte>, pos: nat): (p: nat)
    requires Chained(cap, pos)
    ensures pos <= p < |cap| && cap[p] == 0
    decreases |cap| - pos
  {
    if cap[pos] == 0 then pos else VersionRecord(cap, pos + cap[pos + 1] as int)
  }

  /** One step over a record that ends inside the buffer. */
  lemma StepInside(cap: seq<byte>, pos: nat)
    requires |cap| <= 255 && pos + 1 < |cap| && cap[pos] != 0 && pos + cap[pos + 1] as int < |cap|
    ensures NextPlace(cap, At(pos as byte)) == At((pos + cap[pos + 1] as int) as byte)
  {}

  lemma {:induction false} WalkReaches(cap: seq<byte>, n: nat, pos: nat) returns (end: nat)
    requires |cap| <= 255 && Chained(cap, pos) && Walk(cap, n) == At(pos as byte)
    ensures Ended(cap, Walk(cap, end)) && Walk(cap, end) == At(VersionRecord(cap, pos) as byte)
    decreases |cap| - pos
  {
    if cap[pos] == 0 {
      end := n;
    } else {
      StepInside(cap, pos);
      assert Walk(cap, n + 1) == NextPlace(cap, Walk(cap, n));
      hide Walk, NextPlace;
      end := WalkReaches(cap, n + 1, pos + cap[pos + 1] as int);
    }
  }

  /** The version and branch fields after the record header at `p`, if they fit in the buffer. */
  ghost function FieldsAfter(cap: seq<byte>, p: nat): InfoResult
    requires p < |cap|
  {
    if p + 22 <= |cap| then Read(Info(TrimNuls(Chars(cap[p + 2..p + 12])), TrimNuls(Chars(cap[p + 12..p + 22]))))
    else NoVersionRecord
  }

  /** No 8-bit sum wraps while the record starts 22 bytes or more before the end of the 8-bit range. */
  lemma NoWrap(cap: seq<byte>, p: nat)
    requires p < |cap| && p + 22 <= 255 && cap[p] == 0
    ensures InfoAt(cap, At(p as byte)) == FieldsAfter(cap, p)
  {
    var pos := p as byte;
    assert Plus(pos, 2) as int == p + 2 && Plus(pos, 12) as int == p + 12 && Plus(pos, 22) as int == p + 22;
    hide Plus, Chars, TrimNuls;
    if p + 22 <= |cap| {
      assert Field(cap, Plus(pos, 2), Plus(pos, 12)) == Some(Chars(cap[p + 2..p + 12]));
      assert Field(cap, Plus(pos, 12), Plus(pos, 22)) == Some(Chars(cap[p + 12..p + 22]));
    }
  }

  /** For a capability that starts at position 64 or later, and so is at most 191 bytes long, with
      well-chained records: the walk ends at the first record with id 0 without any 8-bit sum
      wrapping, and version and branch are exactly the next two 10-byte fields without their NULs. */
  lemma InfoExact(cap: seq<byte>)
    requires |cap| <= 191 && Chained(cap, 5)
    ensures Halts(cap)
    ensures forall n: nat :: Ended(cap, Walk(cap, n)) ==>
              InfoAt(cap, Walk(cap, n)) == FieldsAfter(cap, VersionRecord(cap, 5))
  {
    hide InfoAt, FieldsAfter;
    var end := WalkReaches(cap, 0, 5);
    NoWrap(cap, VersionRecord(cap, 5));
    forall n: nat | Ended(cap, Walk(cap, n)) ensures Walk(cap, n) == Walk(cap, end) {
      EndedStays(cap, if n < end then n else end, if n < end then end else n);
    }
  }

  /** `ps` are the records from byte 5 on: each starts where the one before ends by its length byte, all but
      the last have an id and a length, and the last has id 0. */
  ghost predicate Records(cap: seq<byte>, ps: seq<nat>) {
    && ps != [] && ps[0] == 5
    && (forall j :: 0 <= j < |ps| ==> ps[j] < |cap|)
    && (forall j :: 0 <= j < |ps| - 1 ==>
          && ps[j] + 1 < |cap| && cap[ps[j]] != 0 && cap[ps[j] + 1] > 0
          && ps[j + 1] == ps[j] + cap[ps[j] + 1] as int)
    && cap[ps[|ps| - 1]] == 0
  }

  lemma {:induction false} WalkAlong(cap: seq<byte>, ps: seq<nat>, k: nat)
    requires |cap| <= 255 && Records(cap, ps) && k < |ps|
    ensures Walk(cap, k) == At(ps[k] as byte)
  {
    if k > 0 {
      var j := k - 1;
      WalkAlong(cap, ps, j);
      assert ps[j + 1] == ps[j] + cap[ps[j] + 1] as int && ps[j + 1] < |cap|;
      StepInside(cap, ps[j]);
    }
  }

  /** What is read along the records: the ten bytes behind the header of the record with id 0 and the ten
      after those, without their NULs. */
  lemma InfoAlong(cap: seq<byte>, ps: seq<nat>)
    requires |cap| <= 191 && Records(cap, ps)
    ensures Halts(cap)
    ensures var p := ps[|ps| - 1];
      forall n: nat :: Ended(cap, Walk(cap, n)) ==>
        InfoAt(cap, Walk(cap, n)) ==
        if p + 22 > |cap| then NoVersionRecord
        else Read(Info(Trim(Chars(cap[p + 2..p + 12]), IsNul), Trim(Chars(cap[p + 12..p + 22]), IsNul)))
  {
    var k: nat := |ps| - 1;
    WalkAlong(cap, ps, k);
    NoWrap(cap, ps[k]);
    hide InfoAt, Walk, Trim, Chars;
    forall n: nat | Ended(cap, Walk(cap, n)) ensures Walk(cap, n) == Walk(cap, k) {
      EndedStays(cap, if n < k then n else k, if n < k then k else n);
    }
  }

  /** NULs around a text are dropped, whatever is inside. */
  lemma NulsTrimmed(before: string, core: string, after: string)
    requires (forall c :: c in before + after ==> c == '\0')
    requires core == "" || (core[0] != '\0' && core[|core| - 1] != '\0')
    ensures Trim(before + core + after, IsNul) == core
  {
    assert forall k :: 0 <= k < |before| ==> before[k] in before + after;
    assert forall k :: 0 <= k < |after| ==> after[k] in before + after;
    TrimPadded(before, core, after, IsNul);
  }

  /** The signature is the two letters behind the three header bytes. */
  lemma SignatureText(cap: seq<byte>)
    ensures IsVgpuDevice(cap) <==> |cap| >= 5 && Chars(cap[3..5]) == "VF"
  {
    if |cap| >= 5 { assert Chars(cap[3..5]) == [cap[3] as char, cap[4] as char]; }
  }

  /** The walk from a capability the PCI walk returned at position 64 or later meets that bound. */
  lemma CapabilityFits(config: seq<byte>, pos: byte)
    requires |config| >= 256 && pos >= 64 && CapabilityAt(config, pos).Present?
    ensures |CapabilityAt(config, pos).bytes| <= 191
  {}

  /** The two fields after the record header at `at`, if they end by `end`. */
  ghost function FieldsIn(config: seq<byte>, at: nat, end: nat): InfoResult
    requires end <= |config|
  {
    if at + 22 <= end then
      Read(Info(TrimNuls(Chars(config[at + 2..at + 12])), TrimNuls(Chars(config[at + 12..at + 22]))))
    else NoVersionRecord
  }

  lemma SliceOfSlice(s: seq<byte>, i: nat, j: nat, a: nat, b: nat)
    requires i <= j <= |s| && a <= b <= j - i
    ensures s[i..j][a..b] == s[i + a..i + b]
  {
    forall q | 0 <= q < b - a ensures s[i..j][a..b][q] == s[i + a..i + b][q] {
      assert s[i..j][a..b][q] == s[i..j][a + q] == s[i + (a + q)];
    }
  }

  lemma FieldsOfSlice(config: seq<byte>, from: nat, end: nat, p: nat)
    requires from <= end <= |config| && p < end - from
    ensures FieldsAfter(config[from..end], p) == FieldsIn(config, from + p, end)
  {
    hide TrimNuls, Chars;
    if p + 22 <= end - from {
      SliceOfSlice(config, from, end, p + 2, p + 12);
      SliceOfSlice(config, from, end, p + 12, p + 22);
    }
  }

  lemma CapabilitySlice(config: seq<byte>, pos: byte, cap: seq<byte>)
    requires |config| >= 256 && CapabilityAt(config, pos) == Present(cap)
    ensures pos as int + |cap| <= 255 && cap == config[pos as int..pos as int + |cap|]
  {}

  /** Both walks together: in a configuration space whose capability list finds a vendor-specific
      capability at position 64 or later, with well-chained records, the version and branch read are
      exactly the two 10-byte fields that follow the header of its first record with id 0, counted from
      the start of the configuration space, without their NULs. */
  lemma VersionInConfig(config: seq<byte>, k: nat, cap: seq<byte>)
    requires |config| >= 256 && Finds(config, k) && ChainAt(config, k) >= 64
    requires CapabilityAt(config, ChainAt(config, k)) == Present(cap) && Chained(cap, 5)
    ensures var pos := ChainAt(config, k) as int;
      && pos + |cap| <= |config| && Halts(cap)
      && forall n: nat :: Ended(cap, Walk(cap, n)) ==>
           InfoAt(cap, Walk(cap, n)) == FieldsIn(config, pos + VersionRecord(cap, 5), pos + |cap|)
  {
    hide *;
    var pos := ChainAt(config, k);
    CapabilityFits(config, pos);
    CapabilitySlice(config, pos, cap);
    InfoExact(cap);
    FieldsOfSlice(config, pos as int, pos as int + |cap|, VersionRecord(cap, 5));
  }

  /** Reaching a record of non-zero id and zero length, the walk never ends. */
  lemma {:induction false} ZeroLengthLoops(cap: seq<byte>, n: nat, m: nat)
    requires var w := Walk(cap, n);
      w.At? && cap[w.pos as int] != 0 && w.pos as int + 1 < |cap| <= 256 && cap[w.pos as int + 1] == 0
    ensures !Ended(cap, Walk(cap, m))
    decreases m
  {
    if m <= n {
      if Ended(cap, Walk(cap, m)) { EndedStays(cap, m, n); }
    } else {
      StuckAt(cap, n, m);
    }
  }

  lemma {:induction false} StuckAt(cap: seq<byte>, n: nat, m: nat)
    requires var w := Walk(cap, n);
      w.At? && cap[w.pos as int] != 0 && w.pos as int + 1 < |cap| <= 256 && cap[w.pos as int + 1] == 0
    requires n <= m
    ensures Walk(cap, m) == Walk(cap, n)
    decreases m - n
  {
    if n < m {
      StuckAt(cap, n, m - 1);
      StuckStep(cap, Walk(cap, n).pos);
    }
  }

  lemma StuckStep(cap: seq<byte>, pos: byte)
    requires pos as int + 1 < |cap| <= 256 && cap[pos as int] != 0 && cap[pos as int + 1] == 0
    ensures NextPlace(cap, At(pos)) == At(pos)
  {}

  /** A capability of exactly five bytes passes the signature test, and reading it indexes past its
      end. */
  lemma ShortestSignature(cap: seq<byte>)
    requires IsVgpuDevice(cap)
    ensures Walk(cap, 0) == OffEnd <==> |cap| == 5
    ensures |cap| == 5 ==> Halts(cap) && InfoAt(cap, Walk(cap, 0)) == IndexPanic
  {}
}
