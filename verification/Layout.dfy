/** Types a plugin declares in its data file, and the layout computed for their instances. */
module Layout {
  import opened Common

  const MAX_FIELDS := 10

  datatype FieldType = TInt | TFloat | TBool | TChar | TString | TStruct | TPtr | TUnknown

  datatype FieldInfo = FieldInfo(
    name: string, ftype: FieldType, offset: nat, size: nat, typeName: Option<string>)

  datatype TypeInfo = TypeInfo(name: string, size: nat, fields: seq<FieldInfo>)

  /** One line of the data file, already split into words.  `Other` is a blank or comment line, or
      a `field` line without both of its words. */
  datatype Line =
    | StructLine(name: string)
    | FieldLine(name: string, typeWord: string)
    | EndLine
    | Other

  /** `hk_type_size` on a 64-bit target. */
  function TypeSize(t: FieldType): nat {
    match t
    case TInt => 4
    case TFloat => 4
    case TBool => 1
    case TChar => 1
    case TString => 8
    case TPtr => 8
    case _ => 0
  }

  /** The types that have a text form; `hk_serialize` skips fields of the others. */
  predicate Printed(t: FieldType) {
    t.TInt? || t.TFloat? || t.TBool? || t.TChar? || t.TString?
  }

  /** `hk_parse_type`: any other word names a struct. */
  function ParseType(word: string): FieldType {
    if word == "int" then TInt
    else if word == "float" then TFloat
    else if word == "bool" then TBool
    else if word == "char" then TChar
    else if word == "string" then TString
    else if word == "ptr" then TPtr
    else TStruct
  }

  /** The field a line declares, placed at `offset`. */
  function FieldFor(name: string, typeWord: string, offset: nat): FieldInfo {
    var t := ParseType(typeWord);
    FieldInfo(name, t, offset, TypeSize(t), if t.TStruct? then Some(typeWord) else None)
  }

  /** The first field with the given name; the number of fields if there is none. */
  function FieldIndex(fields: seq<FieldInfo>, name: string): (i: nat)
    ensures i <= |fields|
    ensures i < |fields| ==> fields[i].name == name
    ensures forall k :: 0 <= k < i ==> fields[k].name != name
  {
    if fields == [] || fields[0].name == name then 0 else 1 + FieldIndex(fields[1..], name)
  }

  /** The sum of the sizes of some fields. */
  function TotalSize(fields: seq<FieldInfo>): nat {
    if fields == [] then 0 else TotalSize(fields[..|fields| - 1]) + fields[|fields| - 1].size
  }

  /** Each field starts where the one before it ended, and the instance ends with the last. */
  ghost predicate Tiled(info: TypeInfo) {
    && (forall i :: 0 <= i < |info.fields| ==> info.fields[i].offset == TotalSize(info.fields[..i]))
    && (forall i :: 0 <= i < |info.fields| ==> info.fields[i].size == TypeSize(info.fields[i].ftype))
    && info.size == TotalSize(info.fields)
  }

  predicate Inside(f: FieldInfo, b: int) {
    f.offset <= b < f.offset + f.size
  }

  /** Reading and writing through the field stays inside an instance. */
  ghost predicate InBounds(info: TypeInfo) {
    forall i :: 0 <= i < |info.fields| ==> info.fields[i].offset + info.fields[i].size <= info.size
  }

  ghost predicate Disjoint(info: TypeInfo) {
    forall i, j, b :: 0 <= i < j < |info.fields| ==> !(Inside(info.fields[i], b) && Inside(info.fields[j], b))
  }

  lemma {:induction false} SizesGrow(fields: seq<FieldInfo>, i: nat, j: nat)
    requires i <= j <= |fields|
    ensures TotalSize(fields[..i]) <= TotalSize(fields[..j])
    ensures i < j ==> TotalSize(fields[..i]) + fields[i].size <= TotalSize(fields[..j])
    decreases j
  {
    if i < j {
      assert fields[..j][..j - 1] == fields[..j - 1];
      SizesGrow(fields, i, j - 1);
    }
  }

  /** In a tiled layout no two fields share a byte and none leaves the instance. */
  lemma TiledIsDisjoint(info: TypeInfo)
    requires Tiled(info)
    ensures InBounds(info) && Disjoint(info)
  {
    var n := |info.fields|;
    assert info.fields[..n] == info.fields;
    forall i, j | 0 <= i < j <= n
      ensures info.fields[i].offset + info.fields[i].size <= TotalSize(info.fields[..j])
    {
      SizesGrow(info.fields, i, j);
    }
    forall i, j, b | 0 <= i < j < n && Inside(info.fields[i], b)
      ensures !Inside(info.fields[j], b)
    {
      assert info.fields[i].offset + info.fields[i].size <= TotalSize(info.fields[..j]);
    }
  }

  lemma {:induction false} Covered(fields: seq<FieldInfo>, n: nat, b: nat) returns (i: nat)
    requires n <= |fields| && b < TotalSize(fields[..n])
    ensures i < n && TotalSize(fields[..i]) <= b < TotalSize(fields[..i]) + fields[i].size
    decreases n
  {
    assert n > 0;
    assert fields[..n][..n - 1] == fields[..n - 1];
    if b < TotalSize(fields[..n - 1]) {
      i := Covered(fields, n - 1, b);
    } else {
      i := n - 1;
    }
  }

  /** The layout is exact: a byte position is inside the instance if and only if one field, and
      only one, holds it. */
  lemma LayoutTiles(info: TypeInfo, b: nat)
    requires Tiled(info)
    ensures b < info.size <==> exists i :: 0 <= i < |info.fields| && Inside(info.fields[i], b)
    ensures forall i, j ::
              0 <= i < |info.fields| && 0 <= j < |info.fields| &&
              Inside(info.fields[i], b) && Inside(info.fields[j], b)
              ==> i == j
  {
    TiledIsDisjoint(info);
    assert info.fields[..|info.fields|] == info.fields;
    if b < info.size {
      var i := Covered(info.fields, |info.fields|, b);
      assert Inside(info.fields[i], b);
    }
  }

  /** Declaring one more field keeps the layout tiled. */
  lemma TiledAppend(info: TypeInfo, name: string, typeWord: string)
    requires Tiled(info)
    ensures var f := FieldFor(name, typeWord, info.size);
            Tiled(TypeInfo(info.name, info.size + f.size, info.fields + [f]))
  {
    var f := FieldFor(name, typeWord, info.size);
    var fields := info.fields + [f];
    assert fields[..|fields| - 1] == info.fields;
    forall i | 0 <= i < |fields|
      ensures fields[i].offset == TotalSize(fields[..i])
    {
      if i < |info.fields| {
        assert fields[..i] == info.fields[..i];
      } else {
        assert fields[..i] == info.fields;
      }
    }
  }
}
