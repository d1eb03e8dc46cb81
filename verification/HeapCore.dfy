/** The type registry as a value: a list of types, each with one instance of raw bytes. */
module HeapCore {
  import opened Common
  import opened Layout

  const MAX_REGISTERED_TYPES := 128

  const HK_OK := 0
  const HK_NOT_FOUND := -1
  const HK_NO_FIELD := -2
  const HK_INVALID := -1
  const HK_ALREADY := 1
  const HK_FULL := -2
  const HK_NO_MEMORY := -3

  datatype Entry = Entry(pluginId: nat, info: TypeInfo, bytes: seq<Byte>)

  type Registry = seq<Entry>

  predicate Keyed(e: Entry, pluginId: nat, typeName: string) {
    e.pluginId == pluginId && e.info.name == typeName
  }

  /** The position of the first entry with the key; the number of entries if there is none. */
  function FindEntry(reg: Registry, pluginId: nat, typeName: string): (i: nat)
    ensures i <= |reg|
    ensures i < |reg| ==> Keyed(reg[i], pluginId, typeName)
    ensures forall k :: 0 <= k < i ==> !Keyed(reg[k], pluginId, typeName)
  {
    if reg == [] || Keyed(reg[0], pluginId, typeName) then 0 else 1 + FindEntry(reg[1..], pluginId, typeName)
  }

  /** Instances have the size their type says, fields lie inside it, and keys are unique. */
  ghost predicate RegistryOk(reg: Registry) {
    && |reg| <= MAX_REGISTERED_TYPES
    && (forall i :: 0 <= i < |reg| ==> |reg[i].bytes| == reg[i].info.size && InBounds(reg[i].info))
    && forall i, j :: 0 <= i < j < |reg| ==> !Keyed(reg[j], reg[i].pluginId, reg[i].info.name)
  }

  function Zeroes(n: nat): (r: seq<Byte>)
    ensures |r| == n && forall k :: 0 <= k < n ==> r[k] == 0
  {
    seq(n, _ => 0)
  }

  /** `hk_type_register` on a named type.  `memory` is whether `calloc` succeeded. */
  function RegisterCode(reg: Registry, pluginId: nat, info: TypeInfo, memory: bool): int {
    if FindEntry(reg, pluginId, info.name) < |reg| then HK_ALREADY
    else if |reg| >= MAX_REGISTERED_TYPES then HK_FULL
    else if !memory then HK_NO_MEMORY
    else HK_OK
  }

  function Register(reg: Registry, pluginId: nat, info: TypeInfo, memory: bool): Registry {
    if RegisterCode(reg, pluginId, info, memory) == HK_OK
    then reg + [Entry(pluginId, info, Zeroes(info.size))]
    else reg
  }

  /** The bytes with `v` written over them from position `at` on. */
  function Splice(bytes: seq<Byte>, at: nat, v: seq<Byte>): (r: seq<Byte>)
    requires at + |v| <= |bytes|
    ensures |r| == |bytes|
    ensures forall k :: 0 <= k < |r| ==> r[k] == if at <= k < at + |v| then v[k - at] else bytes[k]
  {
    bytes[..at] + v + bytes[at + |v|..]
  }

  /** The entry and field a (plugin, type, field) triple names. */
  datatype Place = NoEntry | NoField | At(entry: nat, field: nat)

  function Locate(reg: Registry, pluginId: nat, typeName: string, fieldName: string): (p: Place)
    ensures p.At? ==>
              && p.entry < |reg| && Keyed(reg[p.entry], pluginId, typeName)
              && p.field < |reg[p.entry].info.fields|
              && reg[p.entry].info.fields[p.field].name == fieldName
  {
    var e := FindEntry(reg, pluginId, typeName);
    if e == |reg| then NoEntry
    else
      var f := FieldIndex(reg[e].info.fields, fieldName);
      if f == |reg[e].info.fields| then NoField else At(e, f)
  }

  /** The plugin has a type of this name. */
  ghost predicate TypeKnown(reg: Registry, pluginId: nat, typeName: string) {
    exists e :: 0 <= e < |reg| && Keyed(reg[e], pluginId, typeName)
  }

  /** A type of the plugin under this name has a field of this name. */
  ghost predicate FieldKnown(reg: Registry, pluginId: nat, typeName: string, fieldName: string) {
    exists e, f :: && 0 <= e < |reg| && Keyed(reg[e], pluginId, typeName)
                   && 0 <= f < |reg[e].info.fields| && reg[e].info.fields[f].name == fieldName
  }

  /** A search finds a field exactly when there is one, and tells a missing type from a missing field. */
  lemma LocateExactly(reg: Registry, pluginId: nat, typeName: string, fieldName: string)
    requires RegistryOk(reg)
    ensures var p := Locate(reg, pluginId, typeName, fieldName);
            && (p.NoEntry? <==> !TypeKnown(reg, pluginId, typeName))
            && (p.At? <==> FieldKnown(reg, pluginId, typeName, fieldName))
            && CodeOf(p) == if !TypeKnown(reg, pluginId, typeName) then -1
                            else if !FieldKnown(reg, pluginId, typeName, fieldName) then -2 else 0
  {
    if e, f :| && 0 <= e < |reg| && Keyed(reg[e], pluginId, typeName)
               && 0 <= f < |reg[e].info.fields| && reg[e].info.fields[f].name == fieldName {
      assert FindEntry(reg, pluginId, typeName) == e;
    }
  }

  /** `hk_type_register` tells its refusals apart, in this order. */
  lemma RegisterCodes(reg: Registry, pluginId: nat, info: TypeInfo, memory: bool)
    ensures RegisterCode(reg, pluginId, info, memory) ==
            if TypeKnown(reg, pluginId, info.name) then 1
            else if |reg| >= 128 then -2 else if !memory then -3 else 0
  {
  }

  function CodeOf(p: Place): int {
    match p
    case NoEntry => HK_NOT_FOUND
    case NoField => HK_NO_FIELD
    case At(_, _) => HK_OK
  }

  function FieldAt(reg: Registry, p: Place): FieldInfo
    requires p.At? && p.entry < |reg| && p.field < |reg[p.entry].info.fields|
  {
    reg[p.entry].info.fields[p.field]
  }

  /** The caller's buffer is at least as large as the field a store goes to. */
  ghost predicate Suffices(reg: Registry, pluginId: nat, typeName: string, fieldName: string, value: seq<Byte>) {
    var p := Locate(reg, pluginId, typeName, fieldName);
    p.At? ==> FieldAt(reg, p).size <= |value|
  }

  ghost function SetField(reg: Registry, pluginId: nat, typeName: string, fieldName: string,
                          value: seq<Byte>): Registry
    requires RegistryOk(reg) && Suffices(reg, pluginId, typeName, fieldName, value)
  {
    var p := Locate(reg, pluginId, typeName, fieldName);
    if p.At? then
      var f := FieldAt(reg, p);
      reg[p.entry := reg[p.entry].(bytes := Splice(reg[p.entry].bytes, f.offset, value[..f.size]))]
    else reg
  }

  ghost function GetField(reg: Registry, pluginId: nat, typeName: string, fieldName: string): Option<seq<Byte>>
    requires RegistryOk(reg)
  {
    var p := Locate(reg, pluginId, typeName, fieldName);
    if p.At? then
      var f := FieldAt(reg, p);
      Some(reg[p.entry].bytes[f.offset..f.offset + f.size])
    else None
  }

  /** With a gateway connected a store is also reported as text, and the search goes on behind a
      field that has no text form: the bytes and the code it ends with, from field `i` on. */
  datatype Stored = Stored(bytes: seq<Byte>, code: int)

  ghost predicate AllSuffice(fields: seq<FieldInfo>, name: string, value: seq<Byte>) {
    forall k :: 0 <= k < |fields| && fields[k].name == name ==> fields[k].size <= |value|
  }

  ghost function StoreConnected(info: TypeInfo, bytes: seq<Byte>, name: string, value: seq<Byte>, i: nat): (r: Stored)
    requires InBounds(info) && |bytes| == info.size && AllSuffice(info.fields, name, value) && i <= |info.fields|
    ensures |r.bytes| == |bytes|
    decreases |info.fields| - i
  {
    if i == |info.fields| then Stored(bytes, HK_NO_FIELD)
    else
      var f := info.fields[i];
      if f.name != name then StoreConnected(info, bytes, name, value, i + 1)
      else
        var bytes' := Splice(bytes, f.offset, value[..f.size]);
        if Printed(f.ftype) then Stored(bytes', HK_OK)
        else StoreConnected(info, bytes', name, value, i + 1)
  }

  // ----- what registering and storing mean -----

  /** Lookups depend on keys alone. */
  lemma FindEntryStable(reg: Registry, other: Registry, pluginId: nat, typeName: string)
    requires |reg| <= |other|
    requires forall i :: 0 <= i < |reg| ==> reg[i].pluginId == other[i].pluginId && reg[i].info == other[i].info
    ensures FindEntry(reg, pluginId, typeName) < |reg| ==>
              FindEntry(other, pluginId, typeName) == FindEntry(reg, pluginId, typeName)
    ensures FindEntry(reg, pluginId, typeName) == |reg| == |other| ==>
              FindEntry(other, pluginId, typeName) == |other|
  {
  }

  /** A store keeps every key, type and size. */
  lemma StoreKeepsRegistry(reg: Registry, pluginId: nat, typeName: string, fieldName: string, value: seq<Byte>)
    requires RegistryOk(reg) && Suffices(reg, pluginId, typeName, fieldName, value)
    ensures RegistryOk(SetField(reg, pluginId, typeName, fieldName, value))
    ensures forall p: nat, t, f ::
              Locate(SetField(reg, pluginId, typeName, fieldName, value), p, t, f) == Locate(reg, p, t, f)
  {
    var reg' := SetField(reg, pluginId, typeName, fieldName, value);
    forall p: nat, t, f
      ensures Locate(reg', p, t, f) == Locate(reg, p, t, f)
    {
      FindEntryStable(reg, reg', p, t);
    }
  }

  /** A stored value is read back whole. */
  lemma GetAfterSet(reg: Registry, pluginId: nat, typeName: string, fieldName: string, value: seq<Byte>)
    requires RegistryOk(reg) && Suffices(reg, pluginId, typeName, fieldName, value)
    requires Locate(reg, pluginId, typeName, fieldName).At?
    ensures var reg' := SetField(reg, pluginId, typeName, fieldName, value);
            && RegistryOk(reg')
            && GetField(reg', pluginId, typeName, fieldName)
               == Some(value[..FieldAt(reg, Locate(reg, pluginId, typeName, fieldName)).size])
  {
    StoreKeepsRegistry(reg, pluginId, typeName, fieldName, value);
    var reg' := SetField(reg, pluginId, typeName, fieldName, value);
    var p := Locate(reg, pluginId, typeName, fieldName);
    var f := FieldAt(reg, p);
    assert reg'[p.entry].bytes[f.offset..f.offset + f.size] == value[..f.size];
  }

  /** Writing over one field leaves the bytes of every other field alone. */
  lemma SpliceLeavesField(info: TypeInfo, bytes: seq<Byte>, i: nat, j: nat, v: seq<Byte>)
    requires InBounds(info) && Disjoint(info) && |bytes| == info.size
    requires i < |info.fields| && j < |info.fields| && i != j && |v| == info.fields[i].size
    ensures var f := info.fields[j];
            Splice(bytes, info.fields[i].offset, v)[f.offset..f.offset + f.size]
            == bytes[f.offset..f.offset + f.size]
  {
    var f := info.fields[j];
    var after := Splice(bytes, info.fields[i].offset, v);
    forall k | f.offset <= k < f.offset + f.size
      ensures after[k] == bytes[k]
    {
      OthersOutside(info, i, j, k);
    }
  }

  /** A store changes no other field, of this type, another type or another plugin. */
  lemma SetLeavesOthers(
    reg: Registry, pluginId: nat, typeName: string, fieldName: string, value: seq<Byte>,
    p: nat, t: string, f: string)
    requires RegistryOk(reg) && Suffices(reg, pluginId, typeName, fieldName, value)
    requires (p, t, f) != (pluginId, typeName, fieldName)
    requires forall i :: 0 <= i < |reg| ==> Disjoint(reg[i].info)
    ensures var reg' := SetField(reg, pluginId, typeName, fieldName, value);
            RegistryOk(reg') && GetField(reg', p, t, f) == GetField(reg, p, t, f)
  {
    StoreKeepsRegistry(reg, pluginId, typeName, fieldName, value);
    var reg' := SetField(reg, pluginId, typeName, fieldName, value);
    var here, there := Locate(reg, pluginId, typeName, fieldName), Locate(reg, p, t, f);
    if here.At? && there.At? && here.entry == there.entry {
      var e := reg[here.entry];
      SpliceLeavesField(e.info, e.bytes, here.field, there.field, value[..e.info.fields[here.field].size]);
    }
  }

  lemma OthersOutside(info: TypeInfo, i: nat, j: nat, b: int)
    requires Disjoint(info) && i < |info.fields| && j < |info.fields| && i != j
    requires Inside(info.fields[j], b)
    ensures !Inside(info.fields[i], b)
  {
  }

  lemma {:induction false} ConnectedMisses(info: TypeInfo, bytes: seq<Byte>, name: string, value: seq<Byte>, i: nat)
    requires InBounds(info) && |bytes| == info.size && AllSuffice(info.fields, name, value) && i <= |info.fields|
    requires forall k :: i <= k < |info.fields| ==> info.fields[k].name != name
    ensures StoreConnected(info, bytes, name, value, i) == Stored(bytes, HK_NO_FIELD)
    decreases |info.fields| - i
  {
    if i < |info.fields| {
      ConnectedMisses(info, bytes, name, value, i + 1);
    }
  }

  lemma {:induction false} ConnectedSkips(
    info: TypeInfo, bytes: seq<Byte>, name: string, value: seq<Byte>, i: nat, f: nat)
    requires InBounds(info) && |bytes| == info.size && AllSuffice(info.fields, name, value)
    requires i <= f <= |info.fields| && forall k :: i <= k < f ==> info.fields[k].name != name
    ensures StoreConnected(info, bytes, name, value, i) == StoreConnected(info, bytes, name, value, f)
    decreases f - i
  {
    if i < f {
      ConnectedSkips(info, bytes, name, value, i + 1, f);
    }
  }

  /** With a gateway connected and names that do not repeat, the bytes stored are the same, but the
      store of a pointer or struct field is reported as a missing field. */
  lemma ConnectedStore(reg: Registry, pluginId: nat, typeName: string, fieldName: string, value: seq<Byte>)
    requires RegistryOk(reg) && Locate(reg, pluginId, typeName, fieldName).At?
    requires var info := reg[Locate(reg, pluginId, typeName, fieldName).entry].info;
             && AllSuffice(info.fields, fieldName, value)
             && forall i, j :: 0 <= i < j < |info.fields| ==> info.fields[i].name != info.fields[j].name
    ensures var p := Locate(reg, pluginId, typeName, fieldName);
            var r := StoreConnected(reg[p.entry].info, reg[p.entry].bytes, fieldName, value, 0);
            && r.bytes == SetField(reg, pluginId, typeName, fieldName, value)[p.entry].bytes
            && r.code == if Printed(FieldAt(reg, p).ftype) then HK_OK else HK_NO_FIELD
  {
    var p := Locate(reg, pluginId, typeName, fieldName);
    var e := reg[p.entry];
    var f := FieldAt(reg, p);
    ConnectedSkips(e.info, e.bytes, fieldName, value, 0, p.field);
    if !Printed(f.ftype) {
      ConnectedMisses(e.info, Splice(e.bytes, f.offset, value[..f.size]), fieldName, value, p.field + 1);
    }
  }

  predicate Reports(f: FieldInfo, name: string) {
    f.name == name && Printed(f.ftype)
  }

  /** What a store with a gateway connected does, for every type, names repeated or not: it returns 0
      if and only if some field of the name has a text form. */
  lemma {:induction false} ConnectedCode(info: TypeInfo, bytes: seq<Byte>, name: string, value: seq<Byte>, i: nat)
    requires InBounds(info) && |bytes| == info.size && AllSuffice(info.fields, name, value) && i <= |info.fields|
    ensures StoreConnected(info, bytes, name, value, i).code ==
            if exists k :: i <= k < |info.fields| && Reports(info.fields[k], name) then 0 else -2
    decreases |info.fields| - i
  {
    if i < |info.fields| {
      var f := info.fields[i];
      if f.name != name {
        ConnectedCode(info, bytes, name, value, i + 1);
      } else if !Printed(f.ftype) {
        ConnectedCode(info, Splice(bytes, f.offset, value[..f.size]), name, value, i + 1);
      } else {
        assert Reports(f, name);
      }
    }
  }

  lemma SplicedField(info: TypeInfo, bytes: seq<Byte>, i: nat, j: nat, v: seq<Byte>)
    requires InBounds(info) && Disjoint(info) && |bytes| == info.size
    requires i < |info.fields| && j < |info.fields| && |v| == info.fields[i].size
    ensures var f := info.fields[j];
            Splice(bytes, info.fields[i].offset, v)[f.offset..f.offset + f.size]
            == if i == j then v else bytes[f.offset..f.offset + f.size]
  {
    if i != j {
      SpliceLeavesField(info, bytes, i, j, v);
    }
  }

  /** And it writes the value into every field of the name up to the first that has a text form, and
      into no other. */
  lemma {:induction false} ConnectedWrites(
    info: TypeInfo, bytes: seq<Byte>, name: string, value: seq<Byte>, i: nat, j: nat)
    requires InBounds(info) && Disjoint(info) && |bytes| == info.size && AllSuffice(info.fields, name, value)
    requires i <= |info.fields| && j < |info.fields|
    ensures var f := info.fields[j];
            StoreConnected(info, bytes, name, value, i).bytes[f.offset..f.offset + f.size] ==
            if i <= j && f.name == name && forall k :: i <= k < j ==> !Reports(info.fields[k], name)
            then value[..f.size] else bytes[f.offset..f.offset + f.size]
    decreases |info.fields| - i
  {
    if i < |info.fields| {
      var f := info.fields[i];
      if f.name != name {
        ConnectedWrites(info, bytes, name, value, i + 1, j);
      } else {
        var bytes' := Splice(bytes, f.offset, value[..f.size]);
        SplicedField(info, bytes, i, j, value[..f.size]);
        if !Printed(f.ftype) {
          ConnectedWrites(info, bytes', name, value, i + 1, j);
        }
      }
    }
  }

  /** Registering adds a zeroed instance under a new key and disturbs no existing lookup. */
  lemma RegisterExtends(reg: Registry, pluginId: nat, info: TypeInfo, memory: bool, p: nat, t: string)
    requires RegistryOk(reg) && InBounds(info)
    ensures var reg' := Register(reg, pluginId, info, memory);
            && RegistryOk(reg')
            && (FindEntry(reg, p, t) < |reg| ==> FindEntry(reg', p, t) == FindEntry(reg, p, t))
            && (RegisterCode(reg, pluginId, info, memory) == HK_OK ==>
                  && FindEntry(reg', pluginId, info.name) == |reg|
                  && reg'[|reg|].bytes == Zeroes(info.size)
                  && RegisterCode(reg', pluginId, info, memory) == HK_ALREADY)
  {
    var reg' := Register(reg, pluginId, info, memory);
    FindEntryStable(reg, reg', p, t);
    if RegisterCode(reg, pluginId, info, memory) == HK_OK {
      assert Keyed(reg'[|reg|], pluginId, info.name);
      assert forall i :: 0 <= i < |reg| ==> reg'[i] == reg[i];
    }
  }
}
