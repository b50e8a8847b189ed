/** Device IDs with an embedded replica number, and the device sets they index (pkg/rm/devices.go). */
module AnnotatedIds {
  import opened Text

  /** Whether the ID carries a replica annotation, i.e. contains "::". */
  predicate HasAnnotations(id: string) { Contains(id, "::") }

  /** The part before the first "::", or the whole ID when there is none. */
  function GetId(id: string): string {
    if id == "" || "::" <= id then "" else [id[0]] + GetId(id[1..])
  }

  /** The annotated form `<id>::<replica>`. */
  function NewAnnotatedId(id: string, replica: int): string {
    id + "::" + FormatInt(replica)
  }

  /** An ID the annotation can be stripped from again. */
  predicate Strippable(id: string) {
    !HasAnnotations(id) && (id == "" || id[|id| - 1] != ':')
  }

  /** The separator starts an annotated ID only if it starts the ID, or the ID is a single colon. */
  lemma FrontSeparator(id: string, replica: int)
    requires id != ""
    ensures "::" <= NewAnnotatedId(id, replica) <==> "::" <= id || id == ":"
    ensures NewAnnotatedId(id, replica)[0] == id[0]
    ensures NewAnnotatedId(id, replica)[1..] == NewAnnotatedId(id[1..], replica)
  {
    hide FormatInt;
    var full := NewAnnotatedId(id, replica);
    assert full[0] == id[0] && full[1] == if |id| > 1 then id[1] else ':';
    if full[0] == ':' && full[1] == ':' { assert full[..2] == "::"; }
    if |id| > 1 && id[0] == ':' && id[1] == ':' { assert id[..2] == "::"; }
  }

  /** Stripping an annotation gives the ID back exactly for the strippable IDs. */
  lemma {:induction false} StripNew(id: string, replica: int)
    ensures GetId(NewAnnotatedId(id, replica)) == id <==> Strippable(id)
    ensures |GetId(NewAnnotatedId(id, replica))| <= |id|
  {
    if id == "" {
      assert "::" <= NewAnnotatedId(id, replica);
    } else {
      FrontSeparator(id, replica);
      hide NewAnnotatedId;
      if !("::" <= id) && id != ":" {
        var tail := id[1..];
        StripNew(tail, replica);
        assert id == [id[0]] + tail;
        assert tail != "" ==> tail[|tail| - 1] == id[|id| - 1];
        assert tail == "" ==> !Contains(tail, "::");
      }
    }
  }

  lemma {:induction false} PlainIdKept(id: string)
    requires !HasAnnotations(id)
    ensures GetId(id) == id
  {
    if id != "" {
      PlainIdKept(id[1..]);
      assert id == [id[0]] + id[1..];
    }
  }

  /** An annotated ID is cut at its first "::", whatever follows. */
  lemma {:induction false} GetIdCut(id: string) returns (rest: string)
    requires HasAnnotations(id)
    ensures id == GetId(id) + "::" + rest && !Contains(GetId(id) + ":", "::")
  {
    if "::" <= id {
      rest := id[2..];
      assert !Contains(":", "::") by { assert ":"[1..] == ""; }
    } else {
      rest := GetIdCut(id[1..]);
      var front := GetId(id[1..]);
      assert GetId(id) == [id[0]] + front;
      assert id == [id[0]] + id[1..];
      var s := [id[0]] + front + ":";
      assert s[1..] == front + ":";
      assert s <= id && !("::" <= s);
    }
  }

  lemma {:induction false} ContainsInside(before: string, sub: string, after: string)
    ensures Contains(before + sub + after, sub)
  {
    var s := before + sub + after;
    if before == "" {
      assert sub <= s;
    } else {
      assert s[1..] == before[1..] + sub + after;
      ContainsInside(before[1..], sub, after);
    }
  }

  /** An annotated ID is never mistaken for a plain one. */
  lemma NewHasAnnotations(id: string, replica: int)
    ensures HasAnnotations(NewAnnotatedId(id, replica))
  {
    ContainsInside(id, "::", FormatInt(replica));
  }

  /** Distinct (ID, replica) pairs have distinct annotated IDs, whatever the IDs look like. */
  lemma NewInjective(id: string, i: int, id': string, i': int)
    requires NewAnnotatedId(id, i) == NewAnnotatedId(id', i')
    ensures id == id' && i == i'
  {
    FormatIntClean(i, ':');
    FormatIntClean(i', ':');
    assert "::" == ":" + ":";
    assert NewAnnotatedId(id, i) == id + ":" + ":" + FormatInt(i);
    assert NewAnnotatedId(id', i') == id' + ":" + ":" + FormatInt(i');
    AfterLastSep(id + ":", FormatInt(i), id' + ":", FormatInt(i'), ':');
    assert id == (id + ":")[..|id|] && id' == (id' + ":")[..|id'|];
    FormatIntInjective(i, i');
  }
}

module Devices {
  import opened Text

  /** A device as the plugin advertises it. `replicas` is how often the device is shared. */
  datatype Device = Device(
    id: string,
    health: string,
    topology: Option<int>,
    paths: seq<string>,
    index: string,
    totalMemory: nat,
    computeCapability: string,
    replicas: int)

  type DeviceSet = map<string, Device>

  /** Every device is filed under its own ID, as `DeviceMap.insert` does. */
  ghost predicate Keyed(ds: DeviceSet) {
    forall id :: id in ds ==> ds[id].id == id
  }

  ghost predicate NoDup<T>(s: seq<T>) {
    forall i, j :: 0 <= i < j < |s| ==> s[i] != s[j]
  }

  function Elements<T>(s: seq<T>): set<T> { set x | x in s }

  lemma {:induction false} NoDupCardinality<T>(s: seq<T>)
    requires NoDup(s)
    ensures |Elements(s)| == |s|
  {
    if s != [] {
      var rest := s[1..];
      NoDupCardinality(rest);
      assert s[0] !in rest;
      assert Elements(s) == Elements(rest) + {s[0]};
    }
  }

  lemma ElementsSnoc<T>(s: seq<T>, x: T)
    ensures Elements(s + [x]) == Elements(s) + {x}
  {}

  /** The devices named by `ids`; unknown IDs are skipped. */
  method Subset(ds: DeviceSet, ids: seq<string>) returns (res: DeviceSet)
    ensures res == map id | id in ds && id in ids :: ds[id]
  {
    res := map[];
    for k := 0 to |ids|
      invariant res == map id | id in ds && id in ids[..k] :: ds[id]
    {
      if ids[k] in ds { res := res[ids[k] := ds[ids[k]]]; }
      assert ids[..k + 1] == ids[..k] + [ids[k]];
    }
    assert ids[..|ids|] == ids;
  }

  /** The devices of `ds` that `other` lacks. */
  method Difference(ds: DeviceSet, other: DeviceSet) returns (res: DeviceSet)
    ensures res == map id | id in ds && id !in other :: ds[id]
  {
    res := map[];
    var todo := ds.Keys;
    while todo != {}
      invariant todo <= ds.Keys
      invariant res == map id | id in ds && id !in todo && id !in other :: ds[id]
      decreases todo
    {
      var id :| id in todo;
      todo := todo - {id};
      if id !in other { res := res[id := ds[id]]; }
    }
  }

  /** The IDs in map-iteration order, which is any order at all. */
  method GetIds(ds: DeviceSet) returns (ids: seq<string>)
    requires Keyed(ds)
    ensures NoDup(ids) && Elements(ids) == ds.Keys && |ids| == |ds|
  {
    ids := [];
    var todo := ds.Keys;
    while todo != {}
      invariant todo <= ds.Keys && NoDup(ids)
      invariant Elements(ids) == ds.Keys - todo
      decreases todo
    {
      var id :| id in todo;
      assert id !in Elements(ids);
      todo := todo - {id};
      ElementsSnoc(ids, id);
      ids := ids + [ds[id].id];
    }
    NoDupCardinality(ids);
    assert |ds| == |ds.Keys|;
  }
}
