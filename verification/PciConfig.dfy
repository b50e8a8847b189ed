/** The PCI capability list of a device's configuration space (pkg/vgpu/pciutil.go), following
    section 6.7 of the PCI Local Bus Specification Revision 3.0. Positions are 8-bit. */
module PciConfig {

  newtype byte = x: int | 0 <= x < 256

  const STATUS_BYTE := 0x06
  const CAPABILITY_LIST := 0x34
  const VENDOR_SPECIFIC_ID: byte := 0x09
  const BROKEN_ID: byte := 0xff

  /** 8-bit addition. */
  function Plus(pos: byte, n: int): byte { ((pos as int + n) % 256) as byte }

  function ByteAt(config: seq<byte>, pos: byte): byte
    requires |config| >= 256
  {
    config[pos as int]
  }

  /** Bit 0x10 of the status byte. */
  predicate HasCapabilityList(config: seq<byte>)
    requires |config| >= 256
  {
    (config[STATUS_BYTE] as int / 16) % 2 == 1
  }

  /** The `k`-th position of the chain that starts at the byte at 0x34. */
  function ChainAt(config: seq<byte>, k: nat): byte
    requires |config| >= 256
  {
    if k == 0 then ByteAt(config, CAPABILITY_LIST as byte)
    else ByteAt(config, Plus(ChainAt(config, k - 1), 1))
  }

  /** The first `k` positions of the chain. */
  function Positions(config: seq<byte>, k: nat): set<byte>
    requires |config| >= 256
  {
    if k == 0 then {} else Positions(config, k - 1) + {ChainAt(config, k - 1)}
  }

  /** The chain goes on at its `k`-th position: not the end, not seen before, not broken. */
  ghost predicate Alive(config: seq<byte>, k: nat)
    requires |config| >= 256
  {
    && ChainAt(config, k) != 0
    && ChainAt(config, k) !in Positions(config, k)
    && ByteAt(config, ChainAt(config, k)) != BROKEN_ID
  }

  ghost predicate IsVendor(config: seq<byte>, k: nat)
    requires |config| >= 256
  {
    ByteAt(config, ChainAt(config, k)) == VENDOR_SPECIFIC_ID
  }

  /** The walk passes the first `k` positions. */
  ghost predicate Passes(config: seq<byte>, k: nat)
    requires |config| >= 256
  {
    forall j: nat :: j < k ==> Alive(config, j) && !IsVendor(config, j)
  }

  /** The first vendor-specific capability is the `k`-th of the chain. */
  ghost predicate Finds(config: seq<byte>, k: nat)
    requires |config| >= 256
  {
    Passes(config, k) && Alive(config, k) && IsVendor(config, k)
  }

  /** `SlicePanic`: the capability's end wraps round, so the slice bounds are reversed. */
  datatype Capability = Unreadable | Absent | SlicePanic | Present(bytes: seq<byte>)

  function CapabilityAt(config: seq<byte>, pos: byte): Capability
    requires |config| >= 256
  {
    var length := ByteAt(config, Plus(pos, 2));
    if pos as int + length as int <= 255 then Present(config[pos as int..pos as int + length as int])
    else SlicePanic
  }

  /** Where the walk stands after passing `k` positions decides the search. */
  lemma SearchEnds(config: seq<byte>, k: nat)
    requires |config| >= 256 && Passes(config, k)
    ensures !Alive(config, k) ==> forall j: nat :: !Finds(config, j)
    ensures Alive(config, k) && IsVendor(config, k) ==> forall j: nat :: Finds(config, j) <==> j == k
  {}

  function Range(n: nat): (r: set<byte>)
    requires n <= 256
    ensures |r| == n && forall p: byte :: p in r <==> p as int < n
  {
    if n == 0 then {} else Range(n - 1) + {(n - 1) as byte}
  }

  /** Walk the capability list: the result is the first vendor-specific capability reached before a
      zero, a repeated position or a broken ID, and nothing when there is none. */
  method GetVendorSpecificCapability(config: seq<byte>) returns (r: Capability)
    ensures r.Unreadable? <==> |config| < 256
    ensures |config| >= 256 && (!HasCapabilityList(config) || !exists k: nat :: Finds(config, k)) ==> r == Absent
    ensures |config| >= 256 && HasCapabilityList(config) ==>
              forall k: nat :: Finds(config, k) ==> r == CapabilityAt(config, ChainAt(config, k))
  {
    hide Finds, Range;
    if |config| < 256 { return Unreadable; }
    if (config[STATUS_BYTE] as int / 16) % 2 == 0 { return Absent; }
    var visited := new byte[256](_ => 0);
    var pos := ByteAt(config, CAPABILITY_LIST as byte);
    ghost var k := 0;
    while pos != 0
      invariant pos == ChainAt(config, k) && Passes(config, k)
      invariant forall p: byte :: visited[p as int] != 0 <==> p in Positions(config, k)
      decreases Range(256) - Positions(config, k)
    {
      var id := ByteAt(config, pos);
      var next := ByteAt(config, Plus(pos, 1));
      var length := ByteAt(config, Plus(pos, 2));
      if visited[pos as int] != 0 { break; }
      if id == BROKEN_ID { break; }
      if id == VENDOR_SPECIFIC_ID {
        SearchEnds(config, k);
        assert Finds(config, k);
        r := SliceAt(config, pos, length);
        return;
      }
      visited[pos as int] := 1;
      assert pos in Range(256) - Positions(config, k);
      k := k + 1;
      pos := next;
    }
    SearchEnds(config, k);
    return Absent;
  }

  /** The slice of a capability, whose end is computed in 8 bits. */
  method SliceAt(config: seq<byte>, pos: byte, length: byte) returns (r: Capability)
    requires |config| >= 256 && length == ByteAt(config, Plus(pos, 2))
    ensures r == CapabilityAt(config, pos)
  {
    var end := Plus(pos, length as int);
    if end < pos { return SlicePanic; }
    return Present(config[pos as int..end as int]);
  }

  /** `ps` follows the list: it starts at the byte at 0x34, and each position after the first is the byte
      behind the one before, with positions wrapping at 256. */
  ghost predicate Follows(config: seq<byte>, ps: seq<byte>)
    requires |config| >= 256
  {
    && ps != [] && ps[0] == config[0x34]
    && forall j :: 0 < j < |ps| ==> ps[j] == config[(ps[j - 1] as int + 1) % 256]
  }

  lemma {:induction false} ChainAlong(config: seq<byte>, ps: seq<byte>, k: nat)
    requires |config| >= 256 && Follows(config, ps) && k < |ps|
    ensures ChainAt(config, k) == ps[k]
    ensures forall p :: p in Positions(config, k) <==> p in ps[..k]
  {
    if k > 0 {
      ChainAlong(config, ps, k - 1);
      assert ps[..k] == ps[..k - 1] + [ps[k - 1]];
    }
  }

  /** The positions before the last are the walk's to pass: non-zero, new, and of neither a broken nor a
      vendor-specific capability. */
  ghost predicate Passable(config: seq<byte>, ps: seq<byte>)
    requires |config| >= 256 && ps != []
  {
    forall j :: 0 <= j < |ps| - 1 ==>
      ps[j] != 0 && ps[j] !in ps[..j] && config[ps[j] as int] != 0xff && config[ps[j] as int] != 0x09
  }

  /** The search, position by position: along the list, past positions that are non-zero, new and neither
      broken nor vendor-specific, it finds the one it comes to if that is non-zero, new and vendor-specific,
      and finds none if that is zero, seen before or broken. */
  lemma SearchAlong(config: seq<byte>, ps: seq<byte>)
    requires |config| >= 256 && Follows(config, ps) && Passable(config, ps)
    ensures var k := |ps| - 1;
      && ChainAt(config, k) == ps[k]
      && (Finds(config, k) <==> ps[k] != 0 && ps[k] !in ps[..k] && config[ps[k] as int] == 0x09)
      && (ps[k] == 0 || ps[k] in ps[..k] || config[ps[k] as int] == 0xff ==> forall j: nat :: !Finds(config, j))
  {
    var k := |ps| - 1;
    forall j: nat | j <= k
      ensures ChainAt(config, j) == ps[j] && forall p :: p in Positions(config, j) <==> p in ps[..j]
    {
      ChainAlong(config, ps, j);
    }
    assert Passes(config, k);
    SearchEnds(config, k);
  }

  /** The bytes of a capability: from its position on, as many as the byte two places on says, unless that
      ends past the 8-bit range. */
  lemma CapabilityBytes(config: seq<byte>, pos: byte)
    requires |config| >= 256
    ensures var length := config[(pos as int + 2) % 256] as int;
      CapabilityAt(config, pos) ==
      if pos as int + length <= 255 then Present(config[pos as int..pos as int + length]) else SlicePanic
  {}

  /** Bit 4 of the status byte at 0x06. */
  lemma StatusBit(config: seq<byte>)
    requires |config| >= 256
    ensures HasCapabilityList(config) <==> config[0x06] as int % 32 >= 16
  {}

  /** A capability found at a position leaves at most the rest of the 8-bit range for its bytes; the
      slice exists exactly when its end does not wrap. */
  lemma CapabilityBounded(config: seq<byte>, pos: byte)
    requires |config| >= 256
    ensures CapabilityAt(config, pos).Present? <==> pos as int + ByteAt(config, Plus(pos, 2)) as int <= 255
    ensures CapabilityAt(config, pos).Present? ==> |CapabilityAt(config, pos).bytes| <= 255 - pos as int
  {}

  /** The chain stays alive for at most 255 positions, so every walk ends. */
  lemma ChainShort(config: seq<byte>, k: nat)
    requires |config| >= 256 && forall j: nat :: j < k ==> Alive(config, j)
    ensures k <= 255
  {
    hide Range;
    Distinct(config, k);
    var room := Range(256) - {0};
    assert |room| == 255;
    SubsetSize(Positions(config, k), room);
  }

  lemma {:induction false} Distinct(config: seq<byte>, k: nat)
    requires |config| >= 256 && forall j: nat :: j < k ==> Alive(config, j)
    ensures |Positions(config, k)| == k && 0 !in Positions(config, k)
  {
    if k > 0 {
      Distinct(config, k - 1);
      assert Alive(config, k - 1);
    }
  }

  lemma SubsetSize(a: set<byte>, b: set<byte>)
    requires a <= b
    ensures |a| <= |b|
  {
    assert |b - a| == |b| - |a|;
  }
}
