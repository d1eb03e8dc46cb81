/** HeapKit as the code keeps it: a growing table of registered types, each with a block of bytes
    that stores, prints and reads update in place. */
module HeapKit {
  import opened Common
  import opened Layout
  import opened HeapText
  import opened HeapTextTheorems
  import opened HeapCore
  import opened HeapBytes
  import opened TextScan

  const HK_NO_BUFFER := -2
  const HK_OVERFLOW := -3
  const ADDRESS_LIMIT := 0x1_0000_0000_0000_0000

  datatype Slot = Slot(pluginId: nat, info: TypeInfo, instance: array<Byte>)

  /** Nothing but the bytes of entry `e` differs. */
  ghost predicate OnlyBytesOf(e: nat, before: Registry, after: Registry)
    requires e < |before|
  {
    && |after| == |before| && after[e].info == before[e].info
    && forall k :: 0 <= k < |after| && k != e ==> after[k] == before[k]
  }

  class Kit {
    var registry: seq<Slot>
    var strings: Strings
    var nextAddress: nat
    ghost var entries: Registry

    ghost predicate Valid()
      reads this, set k | 0 <= k < |registry| :: registry[k].instance
    {
      && RegistryOk(entries)
      && |registry| == |entries|
      && (forall i :: 0 <= i < |registry| ==>
                        && registry[i].pluginId == entries[i].pluginId
                        && registry[i].info == entries[i].info
                        && registry[i].instance[..] == entries[i].bytes)
      && (forall i, j :: 0 <= i < j < |registry| ==> registry[i].instance != registry[j].instance)
      && 0 < nextAddress
      && forall a :: a in strings ==> 0 < a < nextAddress
    }

    constructor ()
      ensures Valid() && entries == [] && strings == map[]
    {
      registry, entries, strings, nextAddress := [], [], map[], 1;
    }

    /** `hk_type_register`.  `named` is whether the type's name is not null, `memory` whether `calloc`
        succeeded. */
    method TypeRegister(pluginId: nat, declared: Option<TypeInfo>, named: bool, memory: bool) returns (r: int)
      requires Valid() && (declared.Some? ==> InBounds(declared.value))
      modifies this
      ensures Valid()
      ensures strings == old(strings) && nextAddress == old(nextAddress)
      ensures declared.None? || !named ==> r == -1 && entries == old(entries)
      ensures declared.Some? && named ==>
                && r == (if TypeKnown(old(entries), pluginId, declared.value.name) then 1
                         else if |old(entries)| >= 128 then -2 else if !memory then -3 else 0)
                && r == RegisterCode(old(entries), pluginId, declared.value, memory)
                && entries == Register(old(entries), pluginId, declared.value, memory)
    {
      if declared.None? || !named {
        return HK_INVALID;
      }
      var info := declared.value;
      RegisterExtends(entries, pluginId, info, memory, pluginId, info.name);
      RegisterCodes(entries, pluginId, info, memory);
      var i := FindRegistered(pluginId, info.name);
      if i < |registry| {
        return HK_ALREADY;
      }
      if |registry| >= MAX_REGISTERED_TYPES {
        return HK_FULL;
      }
      if !memory {
        return HK_NO_MEMORY;
      }
      AddInstance(pluginId, info);
      return HK_OK;
    }

    /** A new entry with a zeroed instance at the end of the table. */
    method AddInstance(pluginId: nat, info: TypeInfo)
      requires Valid() && RegistryOk(entries + [Entry(pluginId, info, Zeroes(info.size))])
      modifies `registry, `entries
      ensures Valid()
      ensures entries == old(entries) + [Entry(pluginId, info, Zeroes(info.size))]
    {
      var instance := new Byte[info.size](_ => 0);
      assert instance[..] == Zeroes(info.size);
      registry := registry + [Slot(pluginId, info, instance)];
      entries := entries + [Entry(pluginId, info, Zeroes(info.size))];
    }

    /** `find_registered`, as a position; the number of types if there is none. */
    method FindRegistered(pluginId: nat, typeName: string) returns (i: nat)
      requires Valid()
      ensures i == FindEntry(entries, pluginId, typeName)
    {
      i := 0;
      while i < |registry|
        invariant i <= |registry|
        invariant forall k :: 0 <= k < i ==> !Keyed(entries[k], pluginId, typeName)
      {
        if registry[i].pluginId == pluginId && registry[i].info.name == typeName {
          return;
        }
        i := i + 1;
      }
    }

    /** The field search each access repeats. */
    method FindField(fields: seq<FieldInfo>, name: string) returns (i: nat)
      ensures i == FieldIndex(fields, name)
    {
      i := 0;
      while i < |fields|
        invariant i <= |fields|
        invariant forall k :: 0 <= k < i ==> fields[k].name != name
      {
        if fields[i].name == name {
          return;
        }
        i := i + 1;
      }
    }

    /** `memcpy` into an instance. */
    method CopyIn(e: nat, at: nat, v: seq<Byte>)
      requires Valid() && e < |registry| && at + |v| <= entries[e].info.size
      modifies `entries, registry[e].instance
      ensures Valid()
      ensures entries == old(entries)[e := old(entries)[e].(bytes := Splice(old(entries)[e].bytes, at, v))]
    {
      var instance := registry[e].instance;
      forall k | 0 <= k < |v| {
        instance[at + k] := v[k];
      }
      entries := entries[e := entries[e].(bytes := Splice(entries[e].bytes, at, v))];
      assert instance[..] == entries[e].bytes;
    }

    /** `hk_set_field`, with or without a gateway connected; what is sent to the gateway is left out. */
    method SetFieldValue(pluginId: nat, typeName: string, fieldName: string, value: seq<Byte>, gateway: bool)
      returns (r: int)
      requires Valid() && Suffices(entries, pluginId, typeName, fieldName, value)
      requires gateway ==>
                 var e := FindEntry(entries, pluginId, typeName);
                 e < |entries| ==> AllSuffice(entries[e].info.fields, fieldName, value)
      modifies `entries, set k | 0 <= k < |registry| :: registry[k].instance
      ensures Valid()
      ensures !gateway ==>
                && r == (if !TypeKnown(old(entries), pluginId, typeName) then -1
                         else if !FieldKnown(old(entries), pluginId, typeName, fieldName) then -2 else 0)
                && entries == SetField(old(entries), pluginId, typeName, fieldName, value)
      ensures gateway ==>
                var e := FindEntry(old(entries), pluginId, typeName);
                if e == |old(entries)| then r == HK_NOT_FOUND && entries == old(entries)
                else
                  var was := old(entries)[e];
                  var stored := StoreConnected(was.info, was.bytes, fieldName, value, 0);
                  r == stored.code && entries == old(entries)[e := was.(bytes := stored.bytes)]
    {
      LocateExactly(entries, pluginId, typeName, fieldName);
      var e := FindRegistered(pluginId, typeName);
      if e == |registry| {
        return HK_NOT_FOUND;
      }
      if !gateway {
        r := SetUnreported(pluginId, typeName, fieldName, value, e);
      } else {
        r := SetReported(e, fieldName, value);
      }
    }

    /** The field loop of `hk_set_field` with no gateway: it ends at the first field of the name. */
    method SetUnreported(pluginId: nat, typeName: string, fieldName: string, value: seq<Byte>, e: nat)
      returns (r: int)
      requires Valid() && Suffices(entries, pluginId, typeName, fieldName, value)
      requires e == FindEntry(entries, pluginId, typeName) < |entries|
      modifies `entries, registry[e].instance
      ensures Valid()
      ensures r == CodeOf(Locate(old(entries), pluginId, typeName, fieldName))
      ensures entries == SetField(old(entries), pluginId, typeName, fieldName, value)
    {
      var i := FindField(registry[e].info.fields, fieldName);
      if i == |registry[e].info.fields| {
        return HK_NO_FIELD;
      }
      var f := registry[e].info.fields[i];
      CopyIn(e, f.offset, value[..f.size]);
      return HK_OK;
    }

    /** The same loop with a gateway: behind a field without a text form it goes on searching. */
    method SetReported(e: nat, fieldName: string, value: seq<Byte>) returns (r: int)
      requires Valid() && e < |registry| && AllSuffice(entries[e].info.fields, fieldName, value)
      modifies `entries, registry[e].instance
      ensures Valid()
      ensures var was := old(entries)[e];
              var stored := StoreConnected(was.info, was.bytes, fieldName, value, 0);
              r == stored.code && entries == old(entries)[e := was.(bytes := stored.bytes)]
    {
      ghost var was := entries[e];
      var fields := registry[e].info.fields;
      var i := 0;
      while i < |fields|
        invariant Valid() && i <= |fields|
        invariant |entries| == |old(entries)| && entries[e].info == was.info
        invariant entries == old(entries)[e := was.(bytes := entries[e].bytes)]
        invariant StoreConnected(was.info, entries[e].bytes, fieldName, value, i)
                  == StoreConnected(was.info, was.bytes, fieldName, value, 0)
      {
        var f := fields[i];
        if f.name == fieldName {
          CopyIn(e, f.offset, value[..f.size]);
          if Printed(f.ftype) {
            return HK_OK;
          }
        }
        i := i + 1;
      }
      return HK_NO_FIELD;
    }

    /** `hk_get_field`; on success `value` is what is copied out. */
    method GetFieldValue(pluginId: nat, typeName: string, fieldName: string)
      returns (r: int, value: seq<Byte>)
      requires Valid()
      ensures r == if !TypeKnown(entries, pluginId, typeName) then -1
                   else if !FieldKnown(entries, pluginId, typeName, fieldName) then -2 else 0
      ensures r == 0 ==> GetField(entries, pluginId, typeName, fieldName) == Some(value)
    {
      value := [];
      LocateExactly(entries, pluginId, typeName, fieldName);
      var e := FindRegistered(pluginId, typeName);
      if e == |registry| {
        return HK_NOT_FOUND, value;
      }
      var i := FindField(registry[e].info.fields, fieldName);
      if i == |registry[e].info.fields| {
        return HK_NO_FIELD, value;
      }
      var f := registry[e].info.fields[i];
      return HK_OK, registry[e].instance[f.offset..f.offset + f.size];
    }

    /** The instance of type `e` reads as a row: its layout is sound and its strings known. */
    ghost predicate Readable(e: nat)
      requires e < |entries| && |entries[e].bytes| == entries[e].info.size
      reads this
    {
      Sound(entries[e].info) && AllGrounded(entries[e].info, entries[e].bytes, strings)
    }

    ghost function Row(e: nat): Row
      requires e < |entries| && |entries[e].bytes| == entries[e].info.size && Readable(e)
      reads this
    {
      RowOf(entries[e].info, entries[e].bytes, strings)
    }

    /** The `snprintf` of one field. */
    method PrintField(ft: FloatText, e: nat, i: nat) returns (temp: string)
      requires Valid() && e < |entries| && Readable(e) && i < |entries[e].info.fields|
      ensures temp == Render(ft, entries[e].info.fields[i], Row(e)[i])
    {
      var f := registry[e].info.fields[i];
      var b := registry[e].instance[f.offset..f.offset + f.size];
      assert b == FieldBytes(f, entries[e].bytes);
      temp := Render(ft, f, ReadValue(f.ftype, b, strings));
    }

    /** The buffer holds the fields before some field, and that field would overflow it. */
    ghost predicate Overflows(ft: FloatText, fields: seq<FieldInfo>, row: HeapText.Row, cap: nat, out: string)
      requires |row| == |fields|
    {
      exists k :: && 0 <= k < |fields| && out == Printout(ft, fields[..k], row[..k])
                  && cap <= |Printout(ft, fields[..k + 1], row[..k + 1])|
    }

    /** One round of that loop: field `i` behind the fields before it. */
    method PrintNext(ft: FloatText, e: nat, i: nat, cap: nat, sofar: string) returns (fits: bool, out: string)
      requires Valid() && e < |entries| && Readable(e) && i < |entries[e].info.fields| && |sofar| < cap
      requires sofar == Printout(ft, entries[e].info.fields[..i], Row(e)[..i])
      ensures var more := Printout(ft, entries[e].info.fields[..i + 1], Row(e)[..i + 1]);
              fits == (|more| < cap) && out == if fits then more else sofar
    {
      var f := registry[e].info.fields[i];
      PrintoutStep(ft, entries[e].info.fields, Row(e), i);
      fits, out := true, sofar;
      if Printed(f.ftype) {
        var temp := PrintField(ft, e, i);
        if |out| + |temp| >= cap {
          return false, out;
        }
        out := out + temp;
      }
    }

    /** The loop of `hk_serialize` over the fields. */
    method PrintFields(ft: FloatText, e: nat, cap: nat) returns (fits: bool, out: string)
      requires Valid() && 0 < cap && e < |entries| && Readable(e)
      ensures fits <==> |Printout(ft, entries[e].info.fields, Row(e))| < cap
      ensures fits ==> out == Printout(ft, entries[e].info.fields, Row(e))
      ensures !fits ==> Overflows(ft, entries[e].info.fields, Row(e), cap, out)
      ensures |out| < cap
    {
      fits, out := true, "";
      var fields := registry[e].info.fields;
      ghost var row := Row(e);
      var i := 0;
      while i < |fields|
        invariant i <= |fields| && |out| < cap
        invariant out == Printout(ft, fields[..i], row[..i])
      {
        fits, out := PrintNext(ft, e, i, cap, out);
        if !fits {
          PrintoutGrows(ft, fields, row, i + 1);
          return;
        }
        i := i + 1;
      }
      assert fields[..i] == fields && row[..i] == row;
      return true, out;
    }

    /** `hk_serialize` into a buffer of `cap` bytes. */
    method SerializeType(ft: FloatText, pluginId: nat, typeName: string, hasBuffer: bool, cap: nat)
      returns (r: int, out: string)
      requires Valid() && 0 < cap
      requires var e := FindEntry(entries, pluginId, typeName); e < |entries| ==> Readable(e)
      ensures var e := FindEntry(entries, pluginId, typeName);
              r == if !TypeKnown(entries, pluginId, typeName) then -1 else if !hasBuffer then -2
                   else if cap <= |Printout(ft, entries[e].info.fields, Row(e))| then -3 else 0
      ensures var e := FindEntry(entries, pluginId, typeName);
              && (r == 0 ==> out == Printout(ft, entries[e].info.fields, Row(e)))
              && (r == -3 ==> Overflows(ft, entries[e].info.fields, Row(e), cap, out))
      ensures |out| < cap
    {
      out := "";
      var e := FindRegistered(pluginId, typeName);
      if e == |registry| {
        return HK_NOT_FOUND, out;
      }
      if !hasBuffer {
        return HK_NO_BUFFER, out;
      }
      var fits;
      fits, out := PrintFields(ft, e, cap);
      r := if fits then HK_OK else HK_OVERFLOW;
    }

    /** `strdup`: a copy at an address nothing else uses. */
    method StrDup(s: string) returns (address: nat)
      requires 0 < nextAddress && forall a :: a in strings ==> 0 < a < nextAddress
      modifies `strings, `nextAddress
      ensures address == old(nextAddress) && nextAddress == old(nextAddress) + 1
      ensures strings == old(strings)[address := s]
    {
      address := nextAddress;
      strings := strings[address := s];
      nextAddress := nextAddress + 1;
    }

    /** The bytes the text `val` is turned into for a field of type `t`; a string is copied first. */
    method Encode(ft: FloatText, t: FieldType, val: string) returns (b: seq<Byte>)
      requires Printed(t) && Narrow(val) && 0 < nextAddress < ADDRESS_LIMIT
      requires forall a :: a in strings ==> 0 < a < nextAddress
      requires forall s :: |ft.parse(s)| == TypeSize(TFloat)
      modifies `strings, `nextAddress
      ensures old(nextAddress) <= nextAddress <= old(nextAddress) + 1
      ensures forall a :: a in strings ==> 0 < a < nextAddress
      ensures forall a :: a in old(strings) ==> a in strings && strings[a] == old(strings)[a]
      ensures |b| == TypeSize(t) && Grounded(t, b, strings)
      ensures forall was :: ReadValue(t, b, strings) == ParseValue(ft, t, val, was)
      ensures t.TBool? ==> b == [if val == "true" then 1 else 0]
    {
      match t {
        case TInt =>
          IntRoundTrip(Atoi(val));
          b := IntBytes(Atoi(val));
        case TFloat =>
          b := ft.parse(val);
        case TBool =>
          b := [if val == "true" then 1 else 0];
        case TChar =>
          b := [if val == [] then 0 else val[0] as int as Byte];
        case TString =>
          var address := StrDup(Unquote(val));
          PowersOf256();
          BytesRoundTrip(POINTER_SIZE, address);
          b := ToBytes(POINTER_SIZE, address);
      }
    }

    /** The assignment one token of `hk_deserialize` performs on field `i`. */
    method StoreToken(ft: FloatText, e: nat, i: nat, val: string)
      requires Valid() && e < |registry| && Readable(e) && i < |entries[e].info.fields|
      requires nextAddress < ADDRESS_LIMIT && Narrow(val)
      requires forall s :: |ft.parse(s)| == TypeSize(TFloat)
      modifies `entries, `strings, `nextAddress, registry[e].instance
      ensures Valid() && Readable(e)
      ensures nextAddress <= old(nextAddress) + 1
      ensures OnlyBytesOf(e, old(entries), entries)
      ensures Row(e) == old(Row(e))[i := ParseValue(ft, entries[e].info.fields[i].ftype, val, old(Row(e)[i]))]
    {
      var f := registry[e].info.fields[i];
      if !Printed(f.ftype) {
        assert old(Row(e))[i := old(Row(e)[i])] == old(Row(e));
        return;
      }
      var b := Encode(ft, f.ftype, val);
      StoreUpdatesRow(entries[e].info, entries[e].bytes, old(strings), i, b, strings);
      CopyIn(e, f.offset, b);
    }

    /** Splits the token held from `start` to `end` at its first `=`, if it has one. */
    method SplitToken(buf: array<char>, start: nat, end: nat, ghost token: string, ghost next: nat, ghost rest: string)
      returns (pair: bool, key: string, val: string)
      requires Holds(buf, start, token) && end == start + |token|
      requires end <= next && Holds(buf, next, rest)
      modifies buf
      ensures pair <==> '=' in token
      ensures pair ==> IndexOf(token, '=') < |token| && key == KeyOf(token) && val == ValOf(token)
      ensures Holds(buf, next, rest)
    {
      var eq := StrChr(buf, start, '=', token);
      pair, key, val := eq != end, "", "";
      if pair {
        buf[eq] := NUL;
        key, val := buf[start..eq], buf[eq + 1..end];
      }
    }

    /** One pass of the read loop on the token held from `start` to `end`: split it at its first
        `=`, find the field, store. */
    method ReadToken(ft: FloatText, e: nat, buf: array<char>, start: nat, end: nat, ghost token: string,
                     ghost next: nat, ghost rest: string)
      requires Valid() && e < |registry| && Readable(e)
      requires Holds(buf, start, token) && end == start + |token|
      requires end <= next && Holds(buf, next, rest)
      requires nextAddress < ADDRESS_LIMIT
      requires Narrow(token)
      requires forall s :: |ft.parse(s)| == TypeSize(TFloat)
      modifies `entries, `strings, `nextAddress, registry[e].instance, buf
      ensures Valid() && Readable(e)
      ensures nextAddress <= old(nextAddress) + 1
      ensures OnlyBytesOf(e, old(entries), entries)
      ensures Row(e) == Apply(ft, entries[e].info.fields, old(Row(e)), token)
      ensures Holds(buf, next, rest)
    {
      var pair, key, val := SplitToken(buf, start, end, token, next, rest);
      if !pair {
        return;
      }
      var i := FindField(registry[e].info.fields, key);
      if i == |registry[e].info.fields| {
        return;
      }
      StoreToken(ft, e, i, val);
    }

    /** The text from `from` on, not yet looked at, has the same effect as the tokens found in it. */
    ghost predicate Pending(ft: FloatText, e: nat, goal: Row, buf: array<char>, next: nat, rest: string)
      requires e < |entries| && |entries[e].bytes| == entries[e].info.size && Readable(e)
      reads this, buf
    {
      && Holds(buf, next, rest) && Narrow(rest)
      && goal == ApplyAll(ft, entries[e].info.fields, Row(e), Tokens(rest))
    }

    /** One round of the read loop: take the next token, and store it if there is one. */
    method NextToken(ft: FloatText, e: nat, buf: array<char>, from: nat, ghost goal: Row, ghost rest: string)
      returns (more: bool, next: nat, ghost rest': string)
      requires Valid() && e < |registry| && Readable(e)
      requires Pending(ft, e, goal, buf, from, rest)
      requires nextAddress < ADDRESS_LIMIT
      requires forall s :: |ft.parse(s)| == TypeSize(TFloat)
      modifies `entries, `strings, `nextAddress, registry[e].instance, buf
      ensures Valid() && Readable(e)
      ensures nextAddress <= old(nextAddress) + 1
      ensures OnlyBytesOf(e, old(entries), entries)
      ensures !more ==> goal == Row(e)
      ensures more ==> from < next && |rest'| < |rest| && Pending(ft, e, goal, buf, next, rest')
    {
      var start, end;
      ghost var token;
      start, end, next, token, rest' := StrTok(buf, from, rest);
      assert Valid() && Readable(e) && Row(e) == old(Row(e));
      more := start != end;
      if more {
        ApplyFirst(ft, entries[e].info.fields, Row(e), token, Tokens(rest'));
        ReadToken(ft, e, buf, start, end, token, next, rest');
      }
    }

    /** The token loop of `hk_deserialize` over a buffer that holds `text`. */
    method ReadTokens(ft: FloatText, e: nat, buf: array<char>, ghost text: string)
      requires Valid() && e < |registry| && Readable(e)
      requires Holds(buf, 0, text) && Narrow(text)
      requires forall s :: |ft.parse(s)| == TypeSize(TFloat)
      requires nextAddress + buf.Length <= ADDRESS_LIMIT
      modifies `entries, `strings, `nextAddress, registry[e].instance, buf
      ensures Valid() && Readable(e)
      ensures OnlyBytesOf(e, old(entries), entries)
      ensures Row(e) == ApplyAll(ft, entries[e].info.fields, old(Row(e)), Tokens(text))
    {
      ghost var goal := ApplyAll(ft, entries[e].info.fields, Row(e), Tokens(text));
      ghost var rest := text;
      var more, next := true, 0;
      while more
        invariant Valid() && Readable(e)
        invariant OnlyBytesOf(e, old(entries), entries)
        invariant more ==> nextAddress <= old(nextAddress) + next
        invariant if more then Pending(ft, e, goal, buf, next, rest) else goal == Row(e)
        decreases more, |rest|
      {
        more, next, rest := NextToken(ft, e, buf, next, goal, rest);
      }
    }

    /** `hk_deserialize`: the text is copied into a 1024-byte buffer and taken apart in place. */
    method DeserializeType(ft: FloatText, pluginId: nat, typeName: string, data: Option<string>)
      returns (r: int)
      requires Valid()
      requires var e := FindEntry(entries, pluginId, typeName); e < |entries| ==> Readable(e)
      requires data.Some? ==> NUL !in data.value && Narrow(data.value)
      requires forall s :: |ft.parse(s)| == TypeSize(TFloat)
      requires nextAddress + READ_SIZE <= ADDRESS_LIMIT
      modifies `entries, `strings, `nextAddress, set k | 0 <= k < |registry| :: registry[k].instance
      ensures Valid()
      ensures var e := FindEntry(old(entries), pluginId, typeName);
              r == if e == |old(entries)| || data.None? then -1 else 0
      ensures r == HK_INVALID ==> entries == old(entries) && strings == old(strings)
      ensures r == HK_OK ==>
                var e := FindEntry(old(entries), pluginId, typeName);
                && OnlyBytesOf(e, old(entries), entries)
                && Readable(e)
                && Row(e) == Deserialize(ft, entries[e].info.fields, old(Row(e)), data.value)
    {
      var e := FindRegistered(pluginId, typeName);
      if e == |registry| || data.None? {
        return HK_INVALID;
      }
      ghost var text := Copied(data.value);
      var buf := new char[READ_SIZE](k requires 0 <= k => if k < |data.value| then data.value[k] else NUL);
      buf[READ_SIZE - 1] := NUL;
      assert buf[0..|text|] == text;
      ReadTokens(ft, e, buf, text);
      return HK_OK;
    }

    /** `hk_serialize` of one instance followed by `hk_deserialize` into another of the same layout:
        on bytes as on rows, every printed field is restored and every other keeps its bytes. */
    method PrintThenRead(ft: FloatText, fromPlugin: nat, fromType: string, toPlugin: nat, toType: string, cap: nat,
                         ghost from: nat, ghost to: nat)
      returns (r: int)
      requires Valid() && from == FindEntry(entries, fromPlugin, fromType) < |entries| && Readable(from)
      requires to == FindEntry(entries, toPlugin, toType) < |entries| && Readable(to)
      requires entries[to].info.fields == entries[from].info.fields
      requires Printable(ft, entries[from].info.fields, Row(from), cap)
      requires AllClean(Row(from)) && NulLast(entries[from].info.fields, Row(from))
      requires Narrow(Printout(ft, entries[from].info.fields, Row(from)))
      requires forall s :: |ft.parse(s)| == TypeSize(TFloat)
      requires nextAddress + READ_SIZE <= ADDRESS_LIMIT
      modifies `entries, `strings, `nextAddress, set k | 0 <= k < |registry| :: registry[k].instance
      ensures Valid() && r == 0
      ensures OnlyBytesOf(to, old(entries), entries) && Readable(to)
      ensures Restored(ft, entries[to].info.fields, old(Row(from)), old(Row(to)), Row(to))
    {
      ghost var fields, row, into := entries[from].info.fields, Row(from), Row(to);
      PrintReadsBack(ft, fields, row, cap, into);
      assert TypeKnown(entries, fromPlugin, fromType) by {
        assert Keyed(entries[from], fromPlugin, fromType);
      }
      var out;
      r, out := SerializeType(ft, fromPlugin, fromType, true, cap);
      assert out == Printout(ft, fields, row);
      r := DeserializeType(ft, toPlugin, toType, Some(out));
      assert Row(to) == Deserialize(ft, fields, into, out);
    }
  }
}
