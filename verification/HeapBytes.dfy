/** How the typed values of a row sit in the raw bytes of an instance.

    Integers and pointers are little-endian; a string field holds the address of a C string, and
    `Strings` is the part of the C heap those addresses point into. */
module HeapBytes {
  import opened Common
  import opened Layout
  import opened HeapText
  import opened HeapCore

  /** The C strings reachable from instances, by address; 0 is the null pointer. */
  type Strings = map<nat, string>

  const POINTER_SIZE := 8

  function Pow256(n: nat): nat {
    if n == 0 then 1 else 256 * Pow256(n - 1)
  }

  function ToBytes(n: nat, x: nat): (r: seq<Byte>)
    ensures |r| == n
  {
    if n == 0 then [] else [(x % 256) as Byte] + ToBytes(n - 1, x / 256)
  }

  function FromBytes(b: seq<Byte>): nat {
    if b == [] then 0 else b[0] as nat + 256 * FromBytes(b[1..])
  }

  lemma {:induction false} BytesRoundTrip(n: nat, x: nat)
    requires x < Pow256(n)
    ensures FromBytes(ToBytes(n, x)) == x
  {
    if n > 0 {
      BytesRoundTrip(n - 1, x / 256);
      assert ToBytes(n, x)[1..] == ToBytes(n - 1, x / 256);
    }
  }

  function IntBytes(n: int): seq<Byte>
    requires IsInt32(n)
  {
    ToBytes(4, if n < 0 then n + 0x1_0000_0000 else n)
  }

  function IntOf(b: seq<Byte>): int {
    var u := FromBytes(b);
    if u < 0x8000_0000 then u else u - 0x1_0000_0000
  }

  lemma {:induction false} FromBytesBound(b: seq<Byte>)
    ensures FromBytes(b) < Pow256(|b|)
  {
    if b != [] {
      FromBytesBound(b[1..]);
    }
  }

  lemma PowersOf256()
    ensures Pow256(4) == 0x1_0000_0000
    ensures Pow256(8) == 0x1_0000_0000_0000_0000
  {
  }

  lemma IntRoundTrip(n: int)
    requires IsInt32(n)
    ensures IntOf(IntBytes(n)) == n
  {
    PowersOf256();
    BytesRoundTrip(4, if n < 0 then n + 0x1_0000_0000 else n);
  }

  /** A string field's pointer is null or points at a known C string. */
  predicate Grounded(t: FieldType, b: seq<Byte>, strings: Strings) {
    t.TString? ==> FromBytes(b) == 0 || FromBytes(b) in strings
  }

  /** What reading a field of type `t` through its bytes yields. */
  function ReadValue(t: FieldType, b: seq<Byte>, strings: Strings): (v: Value)
    requires |b| == TypeSize(t) && Grounded(t, b, strings)
    ensures Fits(t, v)
  {
    match t
    case TInt => FromBytesBound(b); PowersOf256(); IntVal(IntOf(b))
    case TFloat => FloatVal(b)
    case TBool => BoolVal(b[0] != 0)
    case TChar => CharVal(b[0] as int as char)
    case TString => if FromBytes(b) == 0 then NullStr else StrVal(strings[FromBytes(b)])
    case _ => RawVal(b)
  }

  /** Every field has its type's size, and no two fields share a byte. */
  ghost predicate Sound(info: TypeInfo) {
    && InBounds(info) && Disjoint(info)
    && forall i :: 0 <= i < |info.fields| ==> info.fields[i].size == TypeSize(info.fields[i].ftype)
  }

  function FieldBytes(f: FieldInfo, bytes: seq<Byte>): (r: seq<Byte>)
    requires f.offset + f.size <= |bytes|
    ensures |r| == f.size
  {
    bytes[f.offset..f.offset + f.size]
  }

  ghost predicate AllGrounded(info: TypeInfo, bytes: seq<Byte>, strings: Strings)
    requires Sound(info) && |bytes| == info.size
  {
    forall i :: 0 <= i < |info.fields| ==>
                  Grounded(info.fields[i].ftype, FieldBytes(info.fields[i], bytes), strings)
  }

  /** An instance as a row of typed values. */
  ghost function RowOf(info: TypeInfo, bytes: seq<Byte>, strings: Strings): (r: Row)
    requires Sound(info) && |bytes| == info.size && AllGrounded(info, bytes, strings)
    ensures Conforms(info.fields, r)
    ensures forall i :: 0 <= i < |r| ==>
              r[i] == ReadValue(info.fields[i].ftype, FieldBytes(info.fields[i], bytes), strings)
  {
    seq(|info.fields|, i requires 0 <= i < |info.fields| =>
      ReadValue(info.fields[i].ftype, FieldBytes(info.fields[i], bytes), strings))
  }

  /** Writing bytes that read as `v` into field `i`, while only adding strings, changes the row in
      that one place. */
  lemma StoreUpdatesRow(info: TypeInfo, bytes: seq<Byte>, strings: Strings, i: nat,
                        b: seq<Byte>, strings': Strings)
    requires Sound(info) && |bytes| == info.size && AllGrounded(info, bytes, strings)
    requires i < |info.fields| && |b| == info.fields[i].size
    requires forall a :: a in strings ==> a in strings' && strings'[a] == strings[a]
    requires Grounded(info.fields[i].ftype, b, strings')
    ensures var bytes' := Splice(bytes, info.fields[i].offset, b);
            && AllGrounded(info, bytes', strings')
            && RowOf(info, bytes', strings')
               == RowOf(info, bytes, strings)[i := ReadValue(info.fields[i].ftype, b, strings')]
  {
    var bytes' := Splice(bytes, info.fields[i].offset, b);
    assert FieldBytes(info.fields[i], bytes') == b;
    forall j | 0 <= j < |info.fields| && j != i
      ensures FieldBytes(info.fields[j], bytes') == FieldBytes(info.fields[j], bytes)
    {
      SpliceLeavesField(info, bytes, i, j, b);
    }
  }

  lemma {:induction false} ZeroBytes(b: seq<Byte>)
    requires forall k :: 0 <= k < |b| ==> b[k] == 0
    ensures FromBytes(b) == 0
  {
    if b != [] {
      ZeroBytes(b[1..]);
    }
  }

  lemma ZeroField(info: TypeInfo, i: nat)
    requires InBounds(info) && i < |info.fields|
    ensures FromBytes(FieldBytes(info.fields[i], Zeroes(info.size))) == 0
  {
    ZeroBytes(FieldBytes(info.fields[i], Zeroes(info.size)));
  }

  lemma TiledIsSound(info: TypeInfo)
    requires Tiled(info)
    ensures Sound(info)
  {
    TiledIsDisjoint(info);
  }

  lemma ZeroesAreGrounded(info: TypeInfo, strings: Strings)
    requires Sound(info)
    ensures AllGrounded(info, Zeroes(info.size), strings)
  {
    forall i | 0 <= i < |info.fields|
      ensures Grounded(info.fields[i].ftype, FieldBytes(info.fields[i], Zeroes(info.size)), strings)
    {
      ZeroField(info, i);
    }
  }

  /** An instance as the loader leaves it, zeroed and with a tiled layout, is readable as a row: fields
      do not overlap, and every string in it is the null pointer. */
  lemma FreshIsReadable(info: TypeInfo, strings: Strings)
    requires Tiled(info)
    ensures Sound(info) && AllGrounded(info, Zeroes(info.size), strings)
    ensures forall i :: 0 <= i < |info.fields| && info.fields[i].ftype.TString? ==>
                          RowOf(info, Zeroes(info.size), strings)[i] == NullStr
  {
    TiledIsSound(info);
    ZeroesAreGrounded(info, strings);
    forall i | 0 <= i < |info.fields| && info.fields[i].ftype.TString?
      ensures RowOf(info, Zeroes(info.size), strings)[i] == NullStr
    {
      ZeroField(info, i);
    }
  }
}
