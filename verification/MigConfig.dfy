/** The MIG geometry the plugin keeps per GPU (pkg/plugin/server.go): how it is split up at start and
    how allocations change it. A Go map is a reference, so MIG counts live in objects of their own. */
module MigConfig {
  import opened Text

  /** A Go map from MIG profile name to count. */
  class MigMap {
    var counts: map<string, int>

    constructor (counts: map<string, int>)
      ensures this.counts == counts
    {
      this.counts := counts;
    }
  }

  datatype MigConfigSpec = MigConfigSpec(devices: seq<int>, migEnabled: bool, migDevices: MigMap?)

  datatype MigTemplate = MigTemplate(name: string, memory: int, count: int)
  datatype Geometry = Geometry(group: string, instances: seq<MigTemplate>)
  datatype AllowedMigGeometries = AllowedMigGeometries(models: seq<string>, geometries: seq<Geometry>)

  ghost function MapsOf(specs: seq<MigConfigSpec>): set<MigMap?> {
    set i | 0 <= i < |specs| && specs[i].migDevices != null :: specs[i].migDevices
  }

  /** No two specs share their counts. */
  ghost predicate NoSharing(specs: seq<MigConfigSpec>) {
    forall i, j :: 0 <= i < j < |specs| && specs[i].migDevices != null ==> specs[i].migDevices != specs[j].migDevices
  }

  // ---------- splitting the exported configuration ----------

  /** The copy has the same contents and, when there are counts, counts of its own. */
  ghost predicate SameContents(copy: MigConfigSpec, src: MigConfigSpec, devices: seq<int>)
    reads copy.migDevices, src.migDevices
  {
    && copy.devices == devices && copy.migEnabled == src.migEnabled
    && (copy.migDevices == null <==> src.migDevices == null)
    && (src.migDevices != null ==> copy.migDevices.counts == src.migDevices.counts)
  }

  method DeepCopyMigConfig(src: MigConfigSpec) returns (dst: MigConfigSpec)
    ensures SameContents(dst, src, src.devices)
    ensures dst.devices == src.devices && dst.migEnabled == src.migEnabled
    ensures dst.migDevices == null <==> src.migDevices == null
    ensures src.migDevices != null ==> dst.migDevices.counts == src.migDevices.counts
    ensures dst.migDevices != null ==> fresh(dst.migDevices)
  {
    dst := src;
    if src.migDevices != null {
      var counts: map<string, int> := map[];
      var todo := src.migDevices.counts.Keys;
      while todo != {}
        invariant todo <= src.migDevices.counts.Keys
        invariant counts == map k | k in src.migDevices.counts && k !in todo :: src.migDevices.counts[k]
        decreases todo
      {
        var k :| k in todo;
        todo := todo - {k};
        counts := counts[k := src.migDevices.counts[k]];
      }
      assert counts == src.migDevices.counts;
      var m := new MigMap(counts);
      dst := dst.(migDevices := m);
    }
  }

  /** The spec a device is described by: the last one that lists it. */
  function SourceOf(specs: seq<MigConfigSpec>, device: int): Option<MigConfigSpec> {
    if specs == [] then None
    else
      var last := specs[|specs| - 1];
      if device in last.devices then Some(last) else SourceOf(specs[..|specs| - 1], device)
  }

  /** A single spec that lists no device stands for every device. */
  predicate IsWildcard(specs: seq<MigConfigSpec>) { |specs| == 1 && specs[0].devices == [] }

  function SourceFor(specs: seq<MigConfigSpec>, device: int): Option<MigConfigSpec> {
    if IsWildcard(specs) then Some(specs[0]) else SourceOf(specs, device)
  }

  /** Which spec describes a device: the only one, if it lists no device; otherwise the last that lists it,
      and none exactly when none does. */
  lemma SourceMeaning(specs: seq<MigConfigSpec>, device: int)
    ensures |specs| == 1 && specs[0].devices == [] ==> SourceFor(specs, device) == Some(specs[0])
    ensures !(|specs| == 1 && specs[0].devices == []) ==>
              && (SourceFor(specs, device) == None <==> forall i :: 0 <= i < |specs| ==> device !in specs[i].devices)
              && forall i :: 0 <= i < |specs| && device in specs[i].devices
                             && (forall j :: i < j < |specs| ==> device !in specs[j].devices) ==>
                   SourceFor(specs, device) == Some(specs[i])
  {
    LastSource(specs, device);
  }

  lemma {:induction false} LastSource(specs: seq<MigConfigSpec>, device: int)
    ensures SourceOf(specs, device) == None <==> forall i :: 0 <= i < |specs| ==> device !in specs[i].devices
    ensures forall i :: 0 <= i < |specs| && device in specs[i].devices
                        && (forall j :: i < j < |specs| ==> device !in specs[j].devices) ==>
              SourceOf(specs, device) == Some(specs[i])
  {
    if specs != [] {
      var last := |specs| - 1;
      var rest := specs[..last];
      if device !in specs[last].devices {
        LastSource(rest, device);
        assert forall i :: 0 <= i < last ==> rest[i] == specs[i];
      }
    }
  }

  /** Index every listed device by the last spec that lists it. */
  method IndexDevices(specs: seq<MigConfigSpec>) returns (index: map<int, MigConfigSpec>)
    ensures forall d :: if d in index then SourceOf(specs, d) == Some(index[d]) else SourceOf(specs, d) == None
  {
    index := map[];
    for i := 0 to |specs|
      invariant forall d :: if d in index then SourceOf(specs[..i], d) == Some(index[d])
                            else SourceOf(specs[..i], d) == None
    {
      ghost var before := index;
      var listed := specs[i].devices;
      for k := 0 to |listed|
        invariant forall d :: if d in listed[..k] then d in index && index[d] == specs[i]
                              else (d in index <==> d in before) && (d in index ==> index[d] == before[d])
      {
        assert listed[..k + 1] == listed[..k] + [listed[k]];
        index := index[listed[k] := specs[i]];
      }
      assert listed[..|listed|] == listed;
      assert specs[..i + 1][..i] == specs[..i];
    }
    assert specs[..|specs|] == specs;
  }

  /** One spec per device index, each with counts of its own; `None` is an error. */
  method ProcessMigConfigs(migConfigs: Option<map<string, seq<MigConfigSpec>>>, deviceCount: int)
    returns (r: Option<seq<MigConfigSpec>>)
    ensures var specs := if migConfigs.Some? && "current" in migConfigs.value then migConfigs.value["current"] else [];
      r.Some? <==> migConfigs.Some? && deviceCount > 0
                   && forall i :: 0 <= i < deviceCount ==> SourceFor(specs, i).Some?
    ensures r.Some? ==>
      var specs := if "current" in migConfigs.value then migConfigs.value["current"] else [];
      && |r.value| == deviceCount
      && NoSharing(r.value)
      && (forall m :: m in MapsOf(r.value) ==> fresh(m))
      && forall i :: 0 <= i < deviceCount ==>
           var (copy, src) := (r.value[i], SourceFor(specs, i).value);
           && SameContents(copy, src, [i])
           && copy.devices == [i] && copy.migEnabled == src.migEnabled
           && (copy.migDevices == null <==> src.migDevices == null)
           && (src.migDevices != null ==> copy.migDevices.counts == src.migDevices.counts)
  {
    if migConfigs.None? || deviceCount <= 0 { return None; }
    var specs := if "current" in migConfigs.value then migConfigs.value["current"] else [];
    var wildcard := |specs| == 1 && |specs[0].devices| == 0;
    assert wildcard <==> IsWildcard(specs);
    var index := IndexDevices(specs);
    var result: seq<MigConfigSpec> := [];
    for i := 0 to deviceCount
      invariant |result| == i && NoSharing(result)
      invariant forall j :: 0 <= j < i ==> SourceFor(specs, j).Some?
      invariant forall j :: 0 <= j < i ==> SameContents(result[j], SourceFor(specs, j).value, [j])
      invariant forall j :: 0 <= j < i && result[j].migDevices != null ==> fresh(result[j].migDevices)
    {
      var source;
      if wildcard {
        source := specs[0];
      } else {
        if i !in index {
          assert SourceFor(specs, i).None?;
          return None;
        }
        source := index[i];
      }
      var copy := DeepCopyMigConfig(source);
      result := result + [copy.(devices := [i])];
    }
    r := Some(result);
  }

  // ---------- which template a device asks for ----------

  predicate ContainsModel(target: string, models: seq<string>) {
    exists k :: 0 <= k < |models| && Contains(target, models[k])
  }

  /** Group name and position from a UUID of the form `<uuid>[<group>-<position>]`. */
  function ExtractMigTemplate(uuid: string): Option<(string, int)> {
    var parts := Split(uuid, '[');
    if |parts| < 2 then None
    else
      var inner := Split(parts[1], ']');
      if |inner| < 2 then None
      else
        var fields := Split(inner[0], '-');
        if |fields| < 2 || TrimSpace(fields[0]) == "" then None
        else match Atoi(fields[1])
          case None => None
          case Some(pos) => Some((TrimSpace(fields[0]), pos))
  }

  function FindGroup(geometries: seq<Geometry>, group: string): Option<seq<MigTemplate>> {
    if geometries == [] then None
    else if geometries[0].group == group then Some(geometries[0].instances)
    else FindGroup(geometries[1..], group)
  }

  datatype Selection = NoTemplate | Template(position: int, instances: seq<MigTemplate>)

  /** The first entry whose models match decides; without a usable group nothing is selected. */
  function Select(known: seq<AllowedMigGeometries>, devtype: string, uuid: string): Selection {
    if known == [] then NoTemplate
    else if !ContainsModel(devtype, known[0].models) then Select(known[1..], devtype, uuid)
    else match ExtractMigTemplate(uuid)
      case None => NoTemplate
      case Some((group, pos)) =>
        match FindGroup(known[0].geometries, group)
        case None => NoTemplate
        case Some(instances) => Template(pos, instances)
  }

  /** A group is found exactly when some entry has it, and the first such entry gives its instances. */
  lemma {:induction false} FindGroupMeaning(geometries: seq<Geometry>, group: string)
    ensures FindGroup(geometries, group) == None <==>
              forall i :: 0 <= i < |geometries| ==> geometries[i].group != group
    ensures forall i :: 0 <= i < |geometries| && geometries[i].group == group
                        && (forall j :: 0 <= j < i ==> geometries[j].group != group) ==>
              FindGroup(geometries, group) == Some(geometries[i].instances)
  {
    if geometries != [] && geometries[0].group != group {
      var rest := geometries[1..];
      FindGroupMeaning(rest, group);
      assert forall i :: 0 <= i < |rest| ==> rest[i] == geometries[i + 1];
      assert forall i :: 0 < i < |geometries| ==> geometries[i] == rest[i - 1];
    }
  }

  /** A device type matches an entry when some model name occurs in it. */
  lemma ModelMeaning(devtype: string, models: seq<string>)
    ensures ContainsModel(devtype, models) <==> exists m, i: nat :: m in models && OccursAt(devtype, m, i)
  {
    forall m ensures Contains(devtype, m) <==> exists i: nat :: OccursAt(devtype, m, i) { ContainsIff(devtype, m); }
    hide Contains, OccursAt;
    if k :| 0 <= k < |models| && Contains(devtype, models[k]) {
      var i: nat :| OccursAt(devtype, models[k], i);
      assert models[k] in models;
    }
  }

  /** The template a device asks for: the first entry whose models match decides alone. It gives the
      instances of its first geometry with the group in the UUID, and the position there; without a
      matching entry, a readable UUID or such a group there is none. */
  lemma {:induction false} SelectMeaning(known: seq<AllowedMigGeometries>, devtype: string, uuid: string)
    ensures (forall e :: 0 <= e < |known| ==> !ContainsModel(devtype, known[e].models)) ==>
              Select(known, devtype, uuid) == NoTemplate
    ensures forall e :: 0 <= e < |known| && ContainsModel(devtype, known[e].models)
                        && (forall d :: 0 <= d < e ==> !ContainsModel(devtype, known[d].models)) ==>
              Select(known, devtype, uuid) ==
              match ExtractMigTemplate(uuid)
              case None => NoTemplate
              case Some((group, position)) =>
                match FindGroup(known[e].geometries, group)
                case None => NoTemplate
                case Some(instances) => Template(position, instances)
  {
    hide ContainsModel, ExtractMigTemplate, FindGroup;
    if known != [] && !ContainsModel(devtype, known[0].models) {
      var rest := known[1..];
      SelectMeaning(rest, devtype, uuid);
      assert forall e :: 0 <= e < |rest| ==> rest[e] == known[e + 1];
      assert forall e :: 0 < e < |known| ==> known[e] == rest[e - 1];
    }
  }

  /** Group and position of a UUID, for every text. Without an opening bracket, or without a closing one
      before the next opening one, there are none; otherwise they are what stands between the first
      opening bracket and the closing one: a group that is not blank, a dash, and a number that ends there
      or at another dash. */
  lemma NoBracket(uuid: string)
    requires '[' !in uuid
    ensures ExtractMigTemplate(uuid) == None
  {
    SplitClean(uuid, '[');
  }

  lemma NeverClosed(base: string, inner: string, rest: string)
    requires '[' !in base && '[' !in inner && ']' !in inner && (rest == "" || rest[0] == '[')
    ensures ExtractMigTemplate(base + "[" + inner + rest) == None
  {
    assert base + "[" + inner + rest == base + ['['] + (inner + rest);
    SplitHead(base, inner + rest, '[');
    SplitFirst(inner, rest, '[');
    assert ([base] + Split(inner + rest, '['))[1] == Split(inner + rest, '[')[0];
    SplitClean(inner, ']');
  }

  /** The first piece of a text that begins with a clean part and goes on with the separator or not at all. */
  lemma SplitFirst(head: string, rest: string, sep: char)
    requires sep !in head && (rest == "" || rest[0] == sep)
    ensures Split(head + rest, sep)[0] == head
  {
    if rest == "" {
      assert head + rest == head;
      SplitClean(head, sep);
    } else {
      assert head + rest == head + [sep] + rest[1..];
      SplitHead(head, rest[1..], sep);
    }
  }

  lemma NoDash(base: string, inner: string, rest: string)
    requires '[' !in base && '[' !in inner && ']' !in inner && '-' !in inner
    ensures ExtractMigTemplate(base + "[" + inner + "]" + rest) == None
  {
    Between(base, inner, rest);
    SplitClean(inner, '-');
  }

  lemma GroupAndNumber(base: string, group: string, number: string, more: string, rest: string)
    requires '[' !in base && '-' !in group && '-' !in number && (more == "" || more[0] == '-')
    requires var inner := group + "-" + number + more; '[' !in inner && ']' !in inner
    ensures ExtractMigTemplate(base + "[" + (group + "-" + number + more) + "]" + rest) ==
      if TrimSpace(group) == "" then None
      else match Atoi(number)
        case None => None
        case Some(position) => Some((TrimSpace(group), position))
  {
    var inner := group + "-" + number + more;
    Between(base, inner, rest);
    assert inner == group + ['-'] + (number + more);
    SplitHead(group, number + more, '-');
    SplitFirst(number, more, '-');
    hide TrimSpace, Atoi;
  }

  /** What stands between the brackets decides. */
  lemma Between(base: string, inner: string, rest: string)
    requires '[' !in base && '[' !in inner && ']' !in inner
    ensures var uuid := base + "[" + inner + "]" + rest;
      && |Split(uuid, '[')| >= 2
      && |Split(Split(uuid, '[')[1], ']')| >= 2
      && Split(Split(uuid, '[')[1], ']')[0] == inner
  {
    var tail := inner + "]" + rest;
    assert base + "[" + inner + "]" + rest == base + ['['] + tail;
    SplitHead(base, tail, '[');
    var piece := Split(tail, '[')[0];
    StartsPiece(inner + "]", rest, '[');
    var after := piece[|inner| + 1..];
    assert piece == inner + [']'] + after;
    SplitHead(inner, after, ']');
  }

  /** The first piece of a text begins with any clean part the text begins with. */
  lemma {:induction false} StartsPiece(head: string, rest: string, sep: char)
    requires sep !in head
    ensures head <= Split(head + rest, sep)[0]
  {
    if head != "" {
      assert (head + rest)[1..] == head[1..] + rest;
      StartsPiece(head[1..], rest, sep);
      assert head == [head[0]] + head[1..];
    }
  }

  method SelectTemplate(known: seq<AllowedMigGeometries>, devtype: string, uuid: string) returns (r: Selection)
    ensures r == Select(known, devtype, uuid)
  {
    for k := 0 to |known|
      invariant Select(known, devtype, uuid) == Select(known[k..], devtype, uuid)
    {
      assert known[k..][1..] == known[k + 1..];
      if ContainsModel(devtype, known[k].models) {
        var parsed := ExtractMigTemplate(uuid);
        if parsed.None? { return NoTemplate; }
        var geometries := known[k].geometries;
        for i := 0 to |geometries|
          invariant FindGroup(geometries, parsed.value.0) == FindGroup(geometries[i..], parsed.value.0)
        {
          assert geometries[i..][1..] == geometries[i + 1..];
          if geometries[i].group == parsed.value.0 {
            return Template(parsed.value.1, geometries[i].instances);
          }
        }
        return NoTemplate;
      }
    }
    return NoTemplate;
  }

  // ---------- one allocation, on values ----------

  datatype SpecValue = SpecValue(devices: seq<int>, migEnabled: bool, counts: Option<map<string, int>>)

  /** The index of the first spec that lists the device, or the number of specs. */
  function Owner(v: seq<SpecValue>, device: int): (i: nat)
    ensures i <= |v|
    ensures i < |v| ==> device in v[i].devices
    ensures forall j :: 0 <= j < i ==> device !in v[j].devices
  {
    if v == [] || device in v[0].devices then 0 else 1 + Owner(v[1..], device)
  }

  predicate Satisfied(counts: map<string, int>, instances: seq<MigTemplate>) {
    forall k :: 0 <= k < |instances| ==>
      instances[k].name in counts && counts[instances[k].name] == instances[k].count
  }

  /** The counts a reset writes: the template's, a later entry of a name overriding an earlier one. */
  function TemplateCounts(instances: seq<MigTemplate>): map<string, int> {
    if instances == [] then map[]
    else
      var last := instances[|instances| - 1];
      TemplateCounts(instances[..|instances| - 1])[last.name := last.count]
  }

  /** `Panics` is the write to a nil map. */
  datatype Outcome = Placed(position: int, reset: bool) | Panics

  function Generated(v: seq<SpecValue>, device: int, want: Selection): (seq<SpecValue>, Outcome) {
    match want
    case NoTemplate => (v, Placed(-1, false))
    case Template(position, instances) =>
      var i := Owner(v, device);
      if i == |v| then (v, Placed(position, false))
      else if v[i].counts.None? then
        if instances == [] then (v, Placed(position, false)) else (v, Panics)
      else if Satisfied(v[i].counts.value, instances) then (v, Placed(position, false))
      else (v[i := SpecValue(v[i].devices, true, Some(TemplateCounts(instances)))], Placed(position, true))
  }

  // ---------- the plugin's state ----------

  class Plugin {
    var current: seq<MigConfigSpec>

    constructor (specs: seq<MigConfigSpec>)
      requires NoSharing(specs)
      ensures current == specs && Valid()
    {
      current := specs;
    }

    ghost predicate Valid()
      reads this
    {
      NoSharing(current)
    }

    static ghost function ValueOf(s: MigConfigSpec): SpecValue
      reads s.migDevices
    {
      SpecValue(s.devices, s.migEnabled, if s.migDevices == null then None else Some(s.migDevices.counts))
    }

    ghost function View(): (v: seq<SpecValue>)
      reads this, MapsOf(current)
      ensures |v| == |current|
      ensures forall i :: 0 <= i < |v| ==> v[i] == ValueOf(current[i])
    {
      seq(|current|, i requires 0 <= i < |current| reads this, MapsOf(current) =>
        assert current[i].migDevices != null ==> current[i].migDevices in MapsOf(current); ValueOf(current[i]))
    }

    /** Whether the counts miss or contradict some entry of the template. */
    static method NeedsReset(counts: map<string, int>, instances: seq<MigTemplate>) returns (reset: bool)
      ensures reset <==> !Satisfied(counts, instances)
      ensures reset <==> exists k :: 0 <= k < |instances|
                           && !(instances[k].name in counts && counts[instances[k].name] == instances[k].count)
    {
      reset := false;
      for k := 0 to |instances|
        invariant reset <==> !Satisfied(counts, instances[..k])
      {
        assert instances[..k + 1] == instances[..k] + [instances[k]];
        assert Satisfied(counts, instances[..k + 1]) ==> Satisfied(counts, instances[..k]) by {
          assert forall j :: 0 <= j < k ==> instances[..k + 1][j] == instances[..k][j];
        }
        assert instances[..k + 1][k] == instances[k];
        if instances[k].name !in counts || counts[instances[k].name] != instances[k].count { reset := true; }
      }
      assert instances[..|instances|] == instances;
    }

    /** Make the map exactly the template, in place. */
    static method Rewrite(m: MigMap, instances: seq<MigTemplate>)
      modifies m
      ensures m.counts == TemplateCounts(instances)
    {
      var todo := m.counts.Keys;
      while todo != {}
        invariant m.counts.Keys == todo
        decreases todo
      {
        var k :| k in todo;
        m.counts := m.counts - {k};
        todo := todo - {k};
      }
      for k := 0 to |instances|
        invariant m.counts == TemplateCounts(instances[..k])
      {
        assert instances[..k + 1][..k] == instances[..k];
        m.counts := m.counts[instances[k].name := instances[k].count];
      }
      assert instances[..|instances|] == instances;
    }

    /** The first spec that lists the device. */
    method FindOwner(device: int) returns (i: nat)
      ensures i == Owner(View(), device)
    {
      ghost var v := View();
      i := 0;
      while i < |current| && device !in current[i].devices
        invariant i <= |current|
        invariant Owner(v, device) == i + Owner(v[i..], device)
      {
        assert v[i..][1..] == v[i + 1..];
        i := i + 1;
      }
    }

    /** Make one spec exactly the template and enable MIG on it; the others keep their counts because
        they share none with it. */
    method ResetSpec(i: nat, instances: seq<MigTemplate>)
      requires Valid() && i < |current| && current[i].migDevices != null
      modifies this, MapsOf(current)
      ensures Valid() && MapsOf(current) == old(MapsOf(current))
      ensures View() == old(View())[i := SpecValue(old(current)[i].devices, true, Some(TemplateCounts(instances)))]
    {
      hide TemplateCounts;
      ghost var before := current;
      var m := current[i].migDevices;
      assert m in MapsOf(current);
      Rewrite(m, instances);
      current := current[i := current[i].(migEnabled := true)];
      SameMaps(before, current);
      forall j | 0 <= j < |current| && j != i
        ensures ValueOf(current[j]) == old(ValueOf(current[j]))
      {
        assert current[j] == before[j] && before[j].migDevices != m;
        assert before[j].migDevices != null ==> before[j].migDevices in MapsOf(before);
      }
    }

    /** Pick the device's template and reset its spec unless the spec already satisfies it. */
    method GenerateMigTemplate(known: seq<AllowedMigGeometries>, devtype: string, device: int, uuid: string)
      returns (o: Outcome)
      requires Valid()
      modifies this, MapsOf(current)
      ensures Valid() && MapsOf(current) == old(MapsOf(current))
      ensures (View(), o) == Generated(old(View()), device, Select(known, devtype, uuid))
    {
      hide Select, TemplateCounts, Satisfied, NoSharing;
      var want := SelectTemplate(known, devtype, uuid);
      if want.NoTemplate? { return Placed(-1, false); }
      var i := FindOwner(device);
      if i == |current| { return Placed(want.position, false); }
      if current[i].migDevices == null {
        return if want.instances == [] then Placed(want.position, false) else Panics;
      }
      var reset := NeedsReset(current[i].migDevices.counts, want.instances);
      if reset { ResetSpec(i, want.instances); }
      o := Placed(want.position, reset);
    }

    static lemma SameMaps(a: seq<MigConfigSpec>, b: seq<MigConfigSpec>)
      requires |a| == |b| && forall i :: 0 <= i < |a| ==> a[i].migDevices == b[i].migDevices
      ensures MapsOf(a) == MapsOf(b)
    {}
  }

  // ---------- what one call does ----------

  /** One spec per device index, in order: the shape the start-up split leaves. */
  ghost predicate OnePerDevice(v: seq<SpecValue>) {
    forall i :: 0 <= i < |v| ==> v[i].devices == [i]
  }

  /** Entries of the same name agree on the count. */
  ghost predicate Coherent(instances: seq<MigTemplate>) {
    forall j, k :: 0 <= j < k < |instances| && instances[j].name == instances[k].name ==>
      instances[j].count == instances[k].count
  }

  lemma {:induction false} OwnerOnly(v: seq<SpecValue>, device: int)
    requires OnePerDevice(v)
    ensures Owner(v, device) == if 0 <= device < |v| then device else |v|
  {
    var i := Owner(v, device);
    if 0 <= device < |v| { assert device in v[device].devices; }
  }

  /** A call keeps every index in exactly one spec and changes no other device's spec. */
  lemma GeneratedLocal(v: seq<SpecValue>, device: int, want: Selection)
    requires OnePerDevice(v)
    ensures var v' := Generated(v, device, want).0;
      && OnePerDevice(v') && |v'| == |v|
      && forall j :: 0 <= j < |v| && j != device ==> v'[j] == v[j]
  {}

  /** The template's counts satisfy the template exactly when its entries do not contradict. */
  lemma TemplateSatisfied(instances: seq<MigTemplate>)
    ensures Satisfied(TemplateCounts(instances), instances) <==> Coherent(instances)
  {}

  /** A call on a device of the node panics exactly when the device has no counts and the template is not
      empty, and then or with an empty template leaves the device as it was. Otherwise it asks for a
      reset exactly when some template entry is missing or different; after a reset the device's counts
      are exactly the template and MIG is on; in any case a coherent template is then satisfied, and the
      identical call again asks for a reset exactly when the template is incoherent. */
  lemma GeneratedMeaning(v: seq<SpecValue>, device: nat, position: int, instances: seq<MigTemplate>)
    requires OnePerDevice(v) && device < |v|
    ensures var want := Template(position, instances);
      var (v', o) := Generated(v, device, want);
      && (o.Panics? <==> v[device].counts.None? && instances != [])
      && (v[device].counts.None? ==> v' == v && (instances == [] ==> o == Placed(position, false)))
      && (v[device].counts.Some? ==>
            && o == Placed(position, !Satisfied(v[device].counts.value, instances))
            && v'[device].counts.Some?
            && (o.reset ==> v'[device].migEnabled && v'[device].counts.value == TemplateCounts(instances))
            && (Coherent(instances) <==> Satisfied(v'[device].counts.value, instances))
            && Generated(v', device, want).1 == Placed(position, !Coherent(instances)))
  {
    OwnerOnly(v, device);
    TemplateSatisfied(instances);
    GeneratedLocal(v, device, Template(position, instances));
    OwnerOnly(Generated(v, device, Template(position, instances)).0, device);
  }

  /** A rewritten map has exactly the names of the template, each with the count of its last entry. */
  lemma {:induction false} TemplateCountsMeaning(instances: seq<MigTemplate>)
    ensures forall name :: name in TemplateCounts(instances) <==>
              exists k :: 0 <= k < |instances| && instances[k].name == name
    ensures forall k :: 0 <= k < |instances|
                        && (forall j :: k < j < |instances| ==> instances[j].name != instances[k].name) ==>
              && instances[k].name in TemplateCounts(instances)
              && TemplateCounts(instances)[instances[k].name] == instances[k].count
  {
    if instances != [] {
      var last := |instances| - 1;
      var rest := instances[..last];
      TemplateCountsMeaning(rest);
      assert forall k :: 0 <= k < last ==> rest[k] == instances[k];
    }
  }

  /** A call changes nothing, and asks for no reset, when no template is selected or no spec lists the
      device; it answers with position -1 only in the first case. */
  lemma NothingGenerated(v: seq<SpecValue>, device: int, want: Selection)
    requires want.NoTemplate? || forall i :: 0 <= i < |v| ==> device !in v[i].devices
    ensures Generated(v, device, want) == (v, Placed(if want.NoTemplate? then -1 else want.position, false))
  {}

  // ---------- any sequence of calls ----------

  function RunCalls(v: seq<SpecValue>, calls: seq<(int, Selection)>): seq<SpecValue>
    decreases calls
  {
    if calls == [] then v else RunCalls(Generated(v, calls[0].0, calls[0].1).0, calls[1..])
  }

  /** Over any sequence of calls, every index stays in exactly one spec, a device has counts at the end
      exactly when it had them at the start, and one that has none, or that no call asks a template for,
      keeps its spec. */
  lemma {:induction false} RunLocal(v: seq<SpecValue>, calls: seq<(int, Selection)>, device: nat)
    requires OnePerDevice(v) && device < |v|
    ensures OnePerDevice(RunCalls(v, calls)) && |RunCalls(v, calls)| == |v|
    ensures v[device].counts.Some? <==> RunCalls(v, calls)[device].counts.Some?
    ensures v[device].counts.None? ==> RunCalls(v, calls)[device] == v[device]
    ensures (forall k :: 0 <= k < |calls| ==> calls[k].0 != device || calls[k].1.NoTemplate?) ==>
              RunCalls(v, calls)[device] == v[device]
    decreases calls
  {
    if calls != [] {
      GeneratedLocal(v, calls[0].0, calls[0].1);
      RunLocal(Generated(v, calls[0].0, calls[0].1).0, calls[1..], device);
    }
  }

  /** Over any sequence of calls, a device with counts ends satisfying the last template asked for on it;
      on a device without, every call that asks for a non-empty template panics, whatever came before. */
  lemma {:induction false} LastTemplateHolds(v: seq<SpecValue>, calls: seq<(int, Selection)>, device: nat, k: nat)
    requires OnePerDevice(v) && device < |v|
    requires k < |calls| && calls[k].0 == device && calls[k].1.Template? && Coherent(calls[k].1.instances)
    requires forall j :: k < j < |calls| ==> calls[j].0 != device || calls[j].1.NoTemplate?
    ensures var final := RunCalls(v, calls);
      && |final| == |v|
      && (v[device].counts.Some? ==>
            final[device].counts.Some? && Satisfied(final[device].counts.value, calls[k].1.instances))
      && (v[device].counts.None? ==>
            (Generated(RunCalls(v, calls[..k]), device, calls[k].1).1.Panics? <==> calls[k].1.instances != []))
    decreases calls
  {
    var v' := Generated(v, calls[0].0, calls[0].1).0;
    GeneratedLocal(v, calls[0].0, calls[0].1);
    if k == 0 {
      GeneratedMeaning(v, device, calls[0].1.position, calls[0].1.instances);
      RunLocal(v', calls[1..], device);
    } else {
      RunLocal(v, [calls[0]], device);
      assert RunCalls(v, [calls[0]]) == v' by { assert [calls[0]][1..] == []; }
      LastTemplateHolds(v', calls[1..], device, k - 1);
      assert calls[..k][0] == calls[0] && calls[..k][1..] == calls[1..][..k - 1];
    }
  }

  /** The UUID format round-trips: group and position written into a UUID are read back. */
  lemma ExtractWritten(base: string, group: string, pos: nat, rest: string)
    requires '[' !in base && '[' !in group && ']' !in group && '-' !in group && '[' !in rest
    requires TrimSpace(group) != "" && pos < 0x8000_0000_0000_0000
    ensures ExtractMigTemplate(base + "[" + group + "-" + Digits(pos) + "]" + rest) == Some((TrimSpace(group), pos))
  {
    var inner := group + "-" + Digits(pos);
    assert forall k :: 0 <= k < |inner| ==> inner[k] != '[' && inner[k] != ']';
    var tail := inner + "]" + rest;
    assert base + "[" + group + "-" + Digits(pos) + "]" + rest == base + ['['] + tail;
    SplitHead(base, tail, '[');
    SplitClean(tail, '[');
    SplitHead(inner, rest, ']');
    SplitHead(group, Digits(pos), '-');
    SplitClean(Digits(pos), '-');
    ParseUintDigits(pos, MAX_UINT64);
    assert IsDigit(Digits(pos)[0]);
  }
}
