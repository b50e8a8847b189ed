/** The pod annotation that lists the devices still to be allocated, container by container
    (pkg/util/util.go): encoder, decoder and their round trip. */
module PodCodec {
  import opened Text

  datatype ContainerDevice = ContainerDevice(uuid: string, dtype: string, usedmem: int32, usedcores: int32)

  type ContainerDevices = seq<ContainerDevice>
  type PodDevices = seq<ContainerDevices>

  /** The string fields hold none of the three separators. */
  ghost predicate Clean(d: ContainerDevice) {
    && ',' !in d.uuid && ':' !in d.uuid && ';' !in d.uuid
    && ',' !in d.dtype && ':' !in d.dtype && ';' !in d.dtype
  }

  ghost predicate AllCleanDevices(pd: PodDevices) {
    forall k, j :: 0 <= k < |pd| && 0 <= j < |pd[k]| ==> Clean(pd[k][j])
  }

  function DeviceCount(pd: PodDevices): nat {
    if pd == [] then 0 else |pd[0]| + DeviceCount(pd[1..])
  }

  // ---------- encoding ----------

  function Fields(d: ContainerDevice): seq<string> {
    [d.uuid, d.dtype, FormatInt(d.usedmem as int), FormatInt(d.usedcores as int)]
  }

  function EncodeDevice(d: ContainerDevice): string { Join(Fields(d), ",") }

  function EncodedContainer(cd: ContainerDevices): string {
    if cd == [] then "" else EncodeDevice(cd[0]) + ":" + EncodedContainer(cd[1..])
  }

  function EncodedContainers(pd: PodDevices): seq<string> {
    seq(|pd|, k requires 0 <= k < |pd| => EncodedContainer(pd[k]))
  }

  function Encoded(pd: PodDevices): string { Join(EncodedContainers(pd), ";") }

  lemma {:induction false} EncodedSnoc(cd: ContainerDevices, d: ContainerDevice)
    ensures EncodedContainer(cd + [d]) == EncodedContainer(cd) + EncodeDevice(d) + ":"
  {
    hide EncodeDevice;
    if cd == [] {
      assert cd + [d] == [d] && [d][1..] == [];
    } else {
      var all := cd + [d];
      assert all[0] == cd[0] && all[1..] == cd[1..] + [d];
      EncodedSnoc(cd[1..], d);
      assert EncodedContainer(all) == EncodeDevice(cd[0]) + ":" + EncodedContainer(all[1..]);
      assert EncodedContainer(cd) == EncodeDevice(cd[0]) + ":" + EncodedContainer(cd[1..]);
      hide *;
      Reassociate(EncodeDevice(cd[0]), EncodedContainer(cd[1..]), EncodeDevice(d));
    }
  }

  lemma Reassociate(a: string, b: string, c: string)
    ensures a + ":" + (b + c + ":") == a + ":" + b + c + ":"
  {}

  method EncodeContainerDevices(cd: ContainerDevices) returns (tmp: string)
    ensures tmp == EncodedContainer(cd)
  {
    tmp := "";
    for k := 0 to |cd|
      invariant tmp == EncodedContainer(cd[..k])
    {
      EncodedSnoc(cd[..k], cd[k]);
      assert cd[..k + 1] == cd[..k] + [cd[k]];
      tmp := tmp + (cd[k].uuid + "," + cd[k].dtype + "," + FormatInt(cd[k].usedmem as int) + ","
                    + FormatInt(cd[k].usedcores as int) + ":");
      EncodeDeviceText(cd[k]);
    }
    assert cd[..|cd|] == cd;
  }

  lemma EncodeDeviceText(d: ContainerDevice)
    ensures EncodeDevice(d) == d.uuid + "," + d.dtype + "," + FormatInt(d.usedmem as int) + ","
                               + FormatInt(d.usedcores as int)
  {
    var f := Fields(d);
    assert f[1..] == [f[1], f[2], f[3]] && f[1..][1..] == [f[2], f[3]] && f[1..][1..][1..] == [f[3]];
    assert Join([f[2], f[3]], ",") == f[2] + "," + f[3];
    assert Join([f[1], f[2], f[3]], ",") == f[1] + "," + (f[2] + "," + f[3]);
    assert EncodeDevice(d) == f[0] + "," + (f[1] + "," + (f[2] + "," + f[3]));
  }

  method EncodePodDevices(pd: PodDevices) returns (s: string)
    ensures s == Encoded(pd)
  {
    var ss: seq<string> := [];
    for k := 0 to |pd|
      invariant ss == EncodedContainers(pd[..k])
    {
      var c := EncodeContainerDevices(pd[k]);
      ss := ss + [c];
    }
    assert pd[..|pd|] == pd;
    return Join(ss, ";");
  }

  // ---------- decoding ----------

  /** One ":"-separated item: `None` when it has a comma but fewer than four fields, on which the
      source indexes past the end of the field list. */
  function DecodeItem(item: string): Option<ContainerDevices> {
    if ',' !in item then Some([])
    else
      var f := Split(item, ',');
      if |f| < 4 then None
      else Some([ContainerDevice(f[0], f[1], ParseInt32(f[2]), ParseInt32(f[3]))])
  }

  function DecodeItems(items: seq<string>): Option<ContainerDevices> {
    if items == [] then Some([])
    else
      match (DecodeItem(items[0]), DecodeItems(items[1..]))
      case (Some(a), Some(b)) => Some(a + b)
      case _ => None
  }

  function DecodedContainer(s: string): Option<ContainerDevices> {
    if s == "" then Some([]) else DecodeItems(Split(s, ':'))
  }

  function DecodedContainers(parts: seq<string>): Option<PodDevices> {
    if parts == [] then Some([])
    else
      match (DecodedContainer(parts[0]), DecodedContainers(parts[1..]))
      case (Some(a), Some(b)) => Some([a] + b)
      case _ => None
  }

  function Decoded(s: string): Option<PodDevices> {
    if s == "" then Some([]) else DecodedContainers(Split(s, ';'))
  }

  /** A partial result in front of the result for the rest. */
  ghost function Prepend<T>(acc: seq<T>, rest: Option<seq<T>>): Option<seq<T>> {
    match rest case Some(b) => Some(acc + b) case None => None
  }

  lemma PrependMore<T>(acc: seq<T>, more: seq<T>, rest: Option<seq<T>>)
    ensures Prepend(acc, Prepend(more, rest)) == Prepend(acc + more, rest)
    ensures Prepend([], rest) == rest
    ensures Prepend(acc, Some([])) == Some(acc)
  {
    if rest.Some? {
      assert acc + (more + rest.value) == acc + more + rest.value;
      assert [] + rest.value == rest.value;
    }
    assert acc + [] == acc;
  }

  /** The decoded devices of one container with their number; `None` is an index panic. */
  method DecodeContainerDevices(s: string) returns (c: Option<ContainerDevices>, count: nat)
    ensures c == DecodedContainer(s)
    ensures c.Some? ==> count == |c.value|
  {
    if |s| == 0 { return Some([]), 0; }
    var cd := Split(s, ':');
    var contdev: ContainerDevices := [];
    count := 0;
    assert cd[0..] == cd;
    PrependMore([], [], DecodeItems(cd));
    for k := 0 to |cd|
      invariant count == |contdev|
      invariant DecodeItems(cd) == Prepend(contdev, DecodeItems(cd[k..]))
    {
      assert cd[k..][1..] == cd[k + 1..];
      if ',' in cd[k] {
        count := count + 1;
        var f := Split(cd[k], ',');
        if |f| < 4 { return None, 0; }
        var tmpdev := ContainerDevice(f[0], f[1], ParseInt32(f[2]), ParseInt32(f[3]));
        PrependMore(contdev, [tmpdev], DecodeItems(cd[k + 1..]));
        contdev := contdev + [tmpdev];
      } else {
        PrependMore(contdev, [], DecodeItems(cd[k + 1..]));
        assert contdev + [] == contdev;
      }
    }
    PrependMore(contdev, [], Some([]));
    c := Some(contdev);
  }

  method DecodePodDevices(s: string) returns (pd: Option<PodDevices>, length: nat)
    ensures pd == Decoded(s)
    ensures pd.Some? ==> length == DeviceCount(pd.value)
  {
    if |s| == 0 { return Some([]), 0; }
    var parts := Split(s, ';');
    var acc: PodDevices := [];
    length := 0;
    assert parts[0..] == parts;
    PrependMore([], [], DecodedContainers(parts));
    for k := 0 to |parts|
      invariant length == DeviceCount(acc)
      invariant DecodedContainers(parts) == Prepend(acc, DecodedContainers(parts[k..]))
    {
      assert parts[k..][1..] == parts[k + 1..];
      var cd, count := DecodeContainerDevices(parts[k]);
      if cd.None? { return None, 0; }
      CountSnoc(acc, cd.value);
      PrependMore(acc, [cd.value], DecodedContainers(parts[k + 1..]));
      acc := acc + [cd.value];
      length := length + count;
    }
    PrependMore(acc, [], Some([]));
    pd := Some(acc);
  }

  lemma {:induction false} CountSnoc(pd: PodDevices, cd: ContainerDevices)
    ensures DeviceCount(pd + [cd]) == DeviceCount(pd) + |cd|
  {
    if pd == [] {
      assert pd + [cd] == [cd];
    } else {
      assert (pd + [cd])[1..] == pd[1..] + [cd];
      CountSnoc(pd[1..], cd);
    }
  }

  // ---------- the text form ----------

  /** One container after another, with a semicolon in between. */
  lemma EncodedText(pd: PodDevices, cd: ContainerDevices)
    ensures Encoded(pd + [cd]) == if pd == [] then EncodedContainer(cd) else Encoded(pd) + ";" + EncodedContainer(cd)
  {
    assert EncodedContainers(pd + [cd]) == EncodedContainers(pd) + [EncodedContainer(cd)];
    JoinSnoc(EncodedContainers(pd), EncodedContainer(cd), ";");
  }

  /** An item of comma-separated fields, whoever wrote it: one field is skipped, two or three panic, and
      from four on the first four count. */
  lemma DecodeItemText(f: seq<string>)
    requires f != [] && AllClean(f, ',')
    ensures DecodeItem(Join(f, ",")) ==
      if |f| == 1 then Some([])
      else if |f| < 4 then None
      else Some([ContainerDevice(f[0], f[1], ParseInt32(f[2]), ParseInt32(f[3]))])
  {
    SplitJoin(f, ',');
    if |f| > 1 { assert Join(f, ",")[|f[0]|] == ','; }
  }

  function Flatten(cds: seq<ContainerDevices>): ContainerDevices {
    if cds == [] then [] else cds[0] + Flatten(cds[1..])
  }

  lemma {:induction false} DecodeItemsEach(items: seq<string>, cds: seq<ContainerDevices>)
    requires |cds| == |items| && forall k :: 0 <= k < |items| ==> DecodeItem(items[k]) == Some(cds[k])
    ensures DecodeItems(items) == Some(Flatten(cds))
  {
    hide DecodeItem;
    if items != [] { DecodeItemsEach(items[1..], cds[1..]); }
  }

  lemma {:induction false} DecodeItemsPanics(items: seq<string>, k: nat)
    requires k < |items| && DecodeItem(items[k]) == None
    ensures DecodeItems(items) == None
  {
    if k > 0 { DecodeItemsPanics(items[1..], k - 1); }
  }

  /** A container's text of colon-separated items decodes item by item. */
  lemma DecodedContainerText(items: seq<string>, cds: seq<ContainerDevices>)
    requires items != [] && AllClean(items, ':') && |cds| == |items|
    requires forall k :: 0 <= k < |items| ==> DecodeItem(items[k]) == Some(cds[k])
    ensures DecodedContainer(Join(items, ":")) == Some(Flatten(cds))
  {
    SplitJoin(items, ':');
    DecodeItemsEach(items, cds);
    if Join(items, ":") == "" {
      assert items == [""] && DecodeItem(items[0]) == Some([]);
      assert cds[0] == [] && cds[1..] == [];
      var none: ContainerDevices := [];
      assert Flatten(cds) == none + none && none + none == none;
    }
  }

  lemma DecodedContainerPanics(items: seq<string>, k: nat)
    requires AllClean(items, ':') && k < |items| && DecodeItem(items[k]) == None
    ensures DecodedContainer(Join(items, ":")) == None
  {
    SplitJoin(items, ':');
    DecodeItemsPanics(items, k);
    if Join(items, ":") == "" { assert items == [""]; }
  }

  lemma {:induction false} DecodedContainersEach(parts: seq<string>, pd: PodDevices)
    requires |pd| == |parts| && forall k :: 0 <= k < |parts| ==> DecodedContainer(parts[k]) == Some(pd[k])
    ensures DecodedContainers(parts) == Some(pd)
  {
    hide DecodedContainer;
    if parts != [] {
      DecodedContainersEach(parts[1..], pd[1..]);
      assert pd == [pd[0]] + pd[1..];
    }
  }

  lemma {:induction false} DecodedContainersPanics(parts: seq<string>, k: nat)
    requires k < |parts| && DecodedContainer(parts[k]) == None
    ensures DecodedContainers(parts) == None
  {
    if k > 0 { DecodedContainersPanics(parts[1..], k - 1); }
  }

  /** A pod's annotation of semicolon-separated containers decodes container by container; only the
      empty annotation stands for no container. */
  lemma DecodedText(parts: seq<string>, pd: PodDevices)
    requires parts != [] && AllClean(parts, ';') && |pd| == |parts|
    requires forall k :: 0 <= k < |parts| ==> DecodedContainer(parts[k]) == Some(pd[k])
    ensures Decoded(Join(parts, ";")) == Some(if Join(parts, ";") == "" then [] else pd)
  {
    SplitJoin(parts, ';');
    DecodedContainersEach(parts, pd);
  }

  lemma DecodedPanics(parts: seq<string>, k: nat)
    requires AllClean(parts, ';') && k < |parts| && DecodedContainer(parts[k]) == None
    ensures Decoded(Join(parts, ";")) == None
  {
    SplitJoin(parts, ';');
    DecodedContainersPanics(parts, k);
    if Join(parts, ";") == "" { assert parts == [""]; }
  }

  // ---------- round trip ----------

  /** Joining adds commas and no other separator. */
  lemma CommasOnly(a: string, b: string, c: string, d: string, sep: char)
    requires sep != ',' && sep !in a && sep !in b && sep !in c && sep !in d
    ensures var s := a + "," + b + "," + c + "," + d; ',' in s && sep !in s
  {
    assert (a + "," + b + "," + c + "," + d)[|a|] == ',';
  }

  lemma EncodedDeviceClean(d: ContainerDevice)
    requires Clean(d)
    ensures AllClean(Fields(d), ',')
    ensures ',' in EncodeDevice(d) && ':' !in EncodeDevice(d) && ';' !in EncodeDevice(d)
  {
    EncodeDeviceText(d);
    hide FormatInt, EncodeDevice;
    forall i: int, sep | sep in {',', ':', ';'} ensures sep !in FormatInt(i) { FormatIntClean(i, sep); }
    CommasOnly(d.uuid, d.dtype, FormatInt(d.usedmem as int), FormatInt(d.usedcores as int), ':');
    CommasOnly(d.uuid, d.dtype, FormatInt(d.usedmem as int), FormatInt(d.usedcores as int), ';');
  }

  lemma DecodeEncodedDevice(d: ContainerDevice)
    requires Clean(d)
    ensures DecodeItem(EncodeDevice(d)) == Some([d])
  {
    EncodedDeviceClean(d);
    SplitJoin(Fields(d), ',');
    ParseFormatInt32(d.usedmem);
    ParseFormatInt32(d.usedcores);
  }

  lemma {:induction false} DecodeEncodedItems(cd: ContainerDevices)
    requires forall j :: 0 <= j < |cd| ==> Clean(cd[j])
    ensures DecodeItems(Split(EncodedContainer(cd), ':')) == Some(cd)
    ensures ';' !in EncodedContainer(cd)
  {
    if cd == [] {
      assert DecodeItem("") == Some([]);
      var items := Split("", ':');
      assert items[0] == "" && items[1..] == [];
      assert DecodeItems(items[1..]) == Some([]);
      var none: ContainerDevices := [];
      assert DecodeItems(items) == Some(none + none) && none + none == none;
    } else {
      DecodeEncodedItems(cd[1..]);
      DecodeEncodedDevice(cd[0]);
      EncodedDeviceClean(cd[0]);
      var rest := EncodedContainer(cd[1..]);
      SplitHead(EncodeDevice(cd[0]), rest, ':');
      assert ([EncodeDevice(cd[0])] + Split(rest, ':'))[1..] == Split(rest, ':');
      assert cd == [cd[0]] + cd[1..];
    }
  }

  lemma DecodeEncodedContainer(cd: ContainerDevices)
    requires forall j :: 0 <= j < |cd| ==> Clean(cd[j])
    ensures DecodedContainer(EncodedContainer(cd)) == Some(cd) && ';' !in EncodedContainer(cd)
  {
    DecodeEncodedItems(cd);
    if cd != [] { assert EncodedContainer(cd) != ""; }
  }

  lemma {:induction false} DecodeEncodedContainers(pd: PodDevices)
    requires AllCleanDevices(pd)
    ensures AllClean(EncodedContainers(pd), ';')
    ensures DecodedContainers(EncodedContainers(pd)) == Some(pd)
  {
    hide EncodedContainer, DecodedContainer, Clean;
    if pd != [] {
      forall k, j | 0 <= k < |pd[1..]| && 0 <= j < |pd[1..][k]| ensures Clean(pd[1..][k][j]) {
        assert pd[1..][k] == pd[k + 1];
      }
      DecodeEncodedContainers(pd[1..]);
      DecodeEncodedContainer(pd[0]);
      assert EncodedContainers(pd)[1..] == EncodedContainers(pd[1..]);
      assert EncodedContainers(pd) == [EncodedContainer(pd[0])] + EncodedContainers(pd[1..]);
      assert pd == [pd[0]] + pd[1..];
    }
  }

  /** The empty annotation is the encoding of no containers and of one empty container, and of
      nothing else. */
  lemma {:induction false} EncodedEmpty(pd: PodDevices)
    ensures Encoded(pd) == "" <==> pd == [] || pd == [[]]
  {}

  /** Whatever the decoder returns is separator-free. */
  lemma DecodedItemClean(item: string)
    requires ':' !in item && ';' !in item && DecodeItem(item).Some?
    ensures forall j :: 0 <= j < |DecodeItem(item).value| ==> Clean(DecodeItem(item).value[j])
  {
    JoinSplit(item, ',');
    AbsentFromPieces(item, ',', ':');
    AbsentFromPieces(item, ',', ';');
  }

  lemma {:induction false} DecodedItemsClean(items: seq<string>)
    requires AllClean(items, ':') && AllClean(items, ';') && DecodeItems(items).Some?
    ensures forall j :: 0 <= j < |DecodeItems(items).value| ==> Clean(DecodeItems(items).value[j])
  {
    hide DecodeItem, Clean;
    if items != [] {
      DecodedItemClean(items[0]);
      DecodedItemsClean(items[1..]);
    }
  }

  lemma DecodedContainerClean(s: string)
    requires ';' !in s && DecodedContainer(s).Some?
    ensures forall j :: 0 <= j < |DecodedContainer(s).value| ==> Clean(DecodedContainer(s).value[j])
  {
    if s != "" {
      JoinSplit(s, ':');
      AbsentFromPieces(s, ':', ';');
      DecodedItemsClean(Split(s, ':'));
    }
  }

  lemma {:induction false} DecodedContainersClean(parts: seq<string>)
    requires AllClean(parts, ';') && DecodedContainers(parts).Some?
    ensures AllCleanDevices(DecodedContainers(parts).value)
  {
    hide DecodedContainer, Clean;
    if parts != [] {
      DecodedContainerClean(parts[0]);
      DecodedContainersClean(parts[1..]);
    }
  }

  lemma DecodedClean(s: string)
    requires Decoded(s).Some?
    ensures AllCleanDevices(Decoded(s).value)
  {
    if s != "" {
      JoinSplit(s, ';');
      DecodedContainersClean(Split(s, ';'));
    }
  }

  lemma CleanText(pd: PodDevices)
    ensures AllCleanDevices(pd) <==>
              forall k, j, sep :: 0 <= k < |pd| && 0 <= j < |pd[k]| && sep in {',', ':', ';'} ==>
                sep !in pd[k][j].uuid && sep !in pd[k][j].dtype
  {
    if forall k, j, sep :: 0 <= k < |pd| && 0 <= j < |pd[k]| && sep in {',', ':', ';'} ==>
                sep !in pd[k][j].uuid && sep !in pd[k][j].dtype
    {
      forall k, j | 0 <= k < |pd| && 0 <= j < |pd[k]| ensures Clean(pd[k][j]) {
        var seps := {',', ':', ';'};
        assert ',' in seps && ':' in seps && ';' in seps;
      }
    }
  }

  /** The round trip, for every list: decoding what the encoder wrote gives it back if and only if no
      string field holds a separator and the list is not one empty container, which reads back as no
      container. */
  lemma RoundTrip(pd: PodDevices)
    ensures Decoded(Encoded(pd)) == Some(pd) <==>
              && pd != [[]]
              && forall k, j, sep :: 0 <= k < |pd| && 0 <= j < |pd[k]| && sep in {',', ':', ';'} ==>
                   sep !in pd[k][j].uuid && sep !in pd[k][j].dtype
    ensures AllCleanDevices(pd) ==> Decoded(Encoded(pd)) == Some(if pd == [[]] then [] else pd)
  {
    EncodedEmpty(pd);
    CleanText(pd);
    if Encoded(pd) != "" && AllCleanDevices(pd) {
      DecodeEncodedContainers(pd);
      SplitJoin(EncodedContainers(pd), ';');
    }
    if Decoded(Encoded(pd)) == Some(pd) { DecodedClean(Encoded(pd)); }
  }

  /** The total device count survives the round trip without exception. */
  lemma CountRoundTrip(pd: PodDevices)
    requires AllCleanDevices(pd)
    ensures Decoded(Encoded(pd)).Some? && DeviceCount(Decoded(Encoded(pd)).value) == DeviceCount(pd)
  {
    RoundTrip(pd);
  }
}
