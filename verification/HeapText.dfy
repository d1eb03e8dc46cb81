/** The text form of an instance: what `hk_serialize` prints and what `hk_deserialize` reads.

    An instance is seen here as a `Row`, one typed value for each field; `HeapBytes` relates rows
    to the raw bytes.  C strings are sequences of characters without NUL. */
module HeapText {
  import opened Common
  import opened Layout

  const NUL := '\0'
  const TEMP_SIZE := 256
  const READ_SIZE := 1024

  /** `NullStr` is the null pointer in a string field. */
  datatype Value =
    | IntVal(n: int)
    | FloatVal(raw: seq<Byte>)
    | BoolVal(b: bool)
    | CharVal(c: char)
    | NullStr
    | StrVal(s: string)
    | RawVal(bytes: seq<Byte>)

  type Row = seq<Value>

  /** The C library's conversions for `float`, which this model does not look into. */
  datatype FloatText = FloatText(show: seq<Byte> -> string, parse: string -> seq<Byte>)

  predicate IsInt32(n: int) {
    -0x8000_0000 <= n < 0x8000_0000
  }

  predicate Fits(t: FieldType, v: Value) {
    match t
    case TInt => v.IntVal? && IsInt32(v.n)
    case TFloat => v.FloatVal?
    case TBool => v.BoolVal?
    case TChar => v.CharVal?
    case TString => v.NullStr? || v.StrVal?
    case _ => v.RawVal?
  }

  /** The row has a value of the right kind for every field. */
  ghost predicate Conforms(fields: seq<FieldInfo>, row: Row) {
    && |row| == |fields|
    && forall i :: 0 <= i < |row| ==> Fits(fields[i].ftype, row[i])
  }

  /** The text up to the first NUL, which is all that `strlen` and `strcat` see. */
  function CStr(s: string): (r: string)
    ensures r <= s && NUL !in r
    ensures NUL !in s ==> r == s
  {
    if s == [] || s[0] == NUL then [] else [s[0]] + CStr(s[1..])
  }

  // ----- decimal numbers -----

  function Digit(d: nat): char
    requires d < 10
  {
    '0' + d as char
  }

  function PrintNat(n: nat): (r: string)
    ensures r != [] && forall c :: c in r ==> '0' <= c <= '9'
  {
    if n < 10 then [Digit(n)] else PrintNat(n / 10) + [Digit(n % 10)]
  }

  /** `%d`. */
  function PrintInt(n: int): (r: string)
    ensures r != [] && forall c :: c in r ==> c == '-' || '0' <= c <= '9'
  {
    if n < 0 then "-" + PrintNat(-n) else PrintNat(n)
  }

  predicate IsDigit(c: char) {
    '0' <= c <= '9'
  }

  predicate IsSpace(c: char) {
    c == ' ' || '\t' <= c <= '\r'
  }

  /** Continues a decimal number from `acc` over the leading digits of `s`. */
  function ReadDigits(s: string, acc: nat): nat {
    if s == [] || !IsDigit(s[0]) then acc
    else ReadDigits(s[1..], 10 * acc + (s[0] - '0') as nat)
  }

  /** `strtol` saturates at 64 bits and `atoi` keeps the low 32. */
  function ToInt32(n: int): (r: int)
    ensures IsInt32(r)
    ensures IsInt32(n) ==> r == n
  {
    var clamped := if n < -0x8000_0000_0000_0000 then -0x8000_0000_0000_0000
                   else if n > 0x7FFF_FFFF_FFFF_FFFF then 0x7FFF_FFFF_FFFF_FFFF
                   else n;
    (clamped + 0x8000_0000) % 0x1_0000_0000 - 0x8000_0000
  }

  /** `atoi`: leading white space, one sign, digits. */
  function Atoi(s: string): (r: int)
    ensures IsInt32(r)
  {
    if s != [] && IsSpace(s[0]) then Atoi(s[1..])
    else if s != [] && s[0] == '-' then ToInt32(0 - ReadDigits(s[1..], 0))
    else if s != [] && s[0] == '+' then ToInt32(ReadDigits(s[1..], 0))
    else ToInt32(ReadDigits(s, 0))
  }

  lemma {:induction false} ReadDigitsAppend(s: string, acc: nat, d: nat)
    requires (forall c :: c in s ==> IsDigit(c)) && d < 10
    ensures ReadDigits(s + [Digit(d)], acc) == 10 * ReadDigits(s, acc) + d
  {
    if s == [] {
      assert [Digit(d)][1..] == [];
    } else {
      assert s[0] in s;
      assert (s + [Digit(d)])[1..] == s[1..] + [Digit(d)];
      ReadDigitsAppend(s[1..], 10 * acc + (s[0] - '0') as nat, d);
    }
  }

  lemma {:induction false} ReadPrintedNat(n: nat)
    ensures ReadDigits(PrintNat(n), 0) == n
  {
    if n < 10 {
      assert PrintNat(n)[1..] == [];
    } else {
      ReadPrintedNat(n / 10);
      ReadDigitsAppend(PrintNat(n / 10), 0, n % 10);
    }
  }

  /** `atoi` undoes `%d` on every 32-bit integer. */
  lemma AtoiUndoesPrint(n: int)
    requires IsInt32(n)
    ensures Atoi(PrintInt(n)) == n
  {
    if n < 0 {
      ReadPrintedNat(-n);
      assert PrintInt(n)[1..] == PrintNat(-n);
    } else {
      ReadPrintedNat(n);
    }
  }

  // ----- printing -----

  function ValueText(ft: FloatText, v: Value): string {
    match v
    case IntVal(n) => PrintInt(n)
    case FloatVal(raw) => ft.show(raw)
    case BoolVal(b) => if b then "true" else "false"
    case CharVal(c) => [c]
    case NullStr => "\"\""
    case StrVal(s) => "\"" + s + "\""
    case RawVal(_) => ""
  }

  /** A field's text before it meets the size of the buffer it is formatted into. */
  function Body(ft: FloatText, f: FieldInfo, v: Value): string {
    f.name + "=" + ValueText(ft, v)
  }

  /** What one `snprintf` leaves in its 256-byte buffer. */
  function Render(ft: FloatText, f: FieldInfo, v: Value): (r: string)
    ensures |r| < TEMP_SIZE
  {
    var full := Body(ft, f, v) + ";";
    CStr(if |full| < TEMP_SIZE then full else full[..TEMP_SIZE - 1])
  }

  /** The printed text of a row, or nothing if it does not fit into `cap` bytes with its NUL. */
  function Serialize(ft: FloatText, fields: seq<FieldInfo>, row: Row, cap: nat, sofar: string): (r: Option<string>)
    requires |row| == |fields| && |sofar| < cap
    ensures r.Some? ==> |r.value| < cap
  {
    if fields == [] then Some(sofar)
    else if !Printed(fields[0].ftype) then Serialize(ft, fields[1..], row[1..], cap, sofar)
    else
      var temp := Render(ft, fields[0], row[0]);
      if |sofar| + |temp| >= cap then None
      else Serialize(ft, fields[1..], row[1..], cap, sofar + temp)
  }

  /** One field of a print: skipped, or added behind what is there. */
  lemma SerializeStep(ft: FloatText, fields: seq<FieldInfo>, row: Row, k: nat, cap: nat, sofar: string)
    requires |row| == |fields| && k < |fields| && |sofar| < cap
    ensures var r := Render(ft, fields[k], row[k]);
            Serialize(ft, fields[k..], row[k..], cap, sofar) ==
            if !Printed(fields[k].ftype) then Serialize(ft, fields[k + 1..], row[k + 1..], cap, sofar)
            else if |sofar| + |r| >= cap then None
            else Serialize(ft, fields[k + 1..], row[k + 1..], cap, sofar + r)
  {
    assert fields[k..][1..] == fields[k + 1..] && row[k..][1..] == row[k + 1..];
  }

  /** The printed fields one behind the other, as if there were room for all. */
  function Printout(ft: FloatText, fields: seq<FieldInfo>, row: Row): string
    requires |row| == |fields|
  {
    if fields == [] then []
    else
      var n := |fields| - 1;
      Printout(ft, fields[..n], row[..n]) + if Printed(fields[n].ftype) then Render(ft, fields[n], row[n]) else []
  }

  lemma PrintoutStep(ft: FloatText, fields: seq<FieldInfo>, row: Row, k: nat)
    requires |row| == |fields| && k < |fields|
    ensures Printout(ft, fields[..k + 1], row[..k + 1]) ==
            Printout(ft, fields[..k], row[..k]) + if Printed(fields[k].ftype) then Render(ft, fields[k], row[k]) else []
  {
    assert fields[..k + 1][..k] == fields[..k] && row[..k + 1][..k] == row[..k];
  }

  lemma {:induction false} PrintoutGrows(ft: FloatText, fields: seq<FieldInfo>, row: Row, k: nat)
    requires |row| == |fields| && k <= |fields|
    ensures |Printout(ft, fields[..k], row[..k])| <= |Printout(ft, fields, row)|
    decreases |fields| - k
  {
    if k < |fields| {
      PrintoutStep(ft, fields, row, k);
      PrintoutGrows(ft, fields, row, k + 1);
    } else {
      assert fields[..k] == fields && row[..k] == row;
    }
  }

  /** A print from field `k` on, with the fields before it in place. */
  lemma {:induction false} SerializeFrom(ft: FloatText, fields: seq<FieldInfo>, row: Row, cap: nat, k: nat)
    requires |row| == |fields| && k <= |fields| && |Printout(ft, fields[..k], row[..k])| < cap
    ensures Serialize(ft, fields[k..], row[k..], cap, Printout(ft, fields[..k], row[..k])) ==
            var all := Printout(ft, fields, row); if |all| < cap then Some(all) else None
    decreases |fields| - k
  {
    if k == |fields| {
      assert fields[..k] == fields && row[..k] == row;
    } else {
      var sofar := Printout(ft, fields[..k], row[..k]);
      SerializeStep(ft, fields, row, k, cap, sofar);
      PrintoutStep(ft, fields, row, k);
      if Printed(fields[k].ftype) && |sofar| + |Render(ft, fields[k], row[k])| >= cap {
        PrintoutGrows(ft, fields, row, k + 1);
      } else {
        assert Printed(fields[k].ftype) || sofar + [] == sofar;
        SerializeFrom(ft, fields, row, cap, k + 1);
      }
    }
  }

  /** A print succeeds if and only if all of it fits with its NUL, and then it is all of it. */
  lemma SerializesExactlyWhatFits(ft: FloatText, fields: seq<FieldInfo>, row: Row, cap: nat)
    requires |row| == |fields| && 0 < cap
    ensures Serialize(ft, fields, row, cap, "") ==
            var all := Printout(ft, fields, row); if |all| < cap then Some(all) else None
  {
    assert fields[0..] == fields && row[0..] == row && Printout(ft, fields[..0], row[..0]) == "";
    SerializeFrom(ft, fields, row, cap, 0);
  }

  lemma {:induction false} SerializedIsCString(
    ft: FloatText, fields: seq<FieldInfo>, row: Row, cap: nat, sofar: string)
    requires |row| == |fields| && |sofar| < cap && NUL !in sofar
    ensures var r := Serialize(ft, fields, row, cap, sofar); r.Some? ==> NUL !in r.value
    decreases |fields|
  {
    if fields != [] {
      if !Printed(fields[0].ftype) {
        SerializedIsCString(ft, fields[1..], row[1..], cap, sofar);
      } else if |sofar| + |Render(ft, fields[0], row[0])| < cap {
        SerializedIsCString(ft, fields[1..], row[1..], cap, sofar + Render(ft, fields[0], row[0]));
      }
    }
  }

  // ----- reading -----

  /** The position of the first `c`, or the length if there is none. */
  function IndexOf(s: string, c: char): (i: nat)
    ensures i <= |s| && c !in s[..i]
    ensures i < |s| ==> s[i] == c
  {
    if s == [] || s[0] == c then 0
    else
      assert forall k :: 1 <= k <= |s| ==> s[..k] == [s[0]] + s[1..][..k - 1];
      1 + IndexOf(s[1..], c)
  }

  /** The tokens `strtok` yields for `;`: maximal runs of other characters. */
  function Tokens(s: string): (r: seq<string>)
    decreases |s|
  {
    if s == [] then []
    else if s[0] == ';' then Tokens(s[1..])
    else [s[..IndexOf(s, ';')]] + Tokens(s[IndexOf(s, ';')..])
  }

  /** What reading `val` makes of a string field: one pair of enclosing quotes is taken off. */
  function Unquote(val: string): string {
    if val != [] && val[0] == '"' && val[|val| - 1] == '"'
    then if |val| == 1 then [] else val[1..|val| - 1]
    else val
  }

  /** The value a token's text gives a field of type `t` that held `was`. */
  function ParseValue(ft: FloatText, t: FieldType, val: string, was: Value): Value {
    match t
    case TInt => IntVal(Atoi(val))
    case TFloat => FloatVal(ft.parse(val))
    case TBool => BoolVal(val == "true")
    case TChar => CharVal(if val == [] then NUL else val[0])
    case TString => StrVal(Unquote(val))
    case _ => was
  }

  function KeyOf(token: string): string {
    token[..IndexOf(token, '=')]
  }

  function ValOf(token: string): string
    requires IndexOf(token, '=') < |token|
  {
    token[IndexOf(token, '=') + 1..]
  }

  /** The field a token sets; the number of fields if it sets none. */
  function Target(fields: seq<FieldInfo>, token: string): (i: nat)
    ensures i <= |fields|
  {
    if IndexOf(token, '=') < |token| then FieldIndex(fields, KeyOf(token)) else |fields|
  }

  /** One pass of the read loop. */
  function Apply(ft: FloatText, fields: seq<FieldInfo>, row: Row, token: string): (r: Row)
    requires |row| == |fields|
    ensures |r| == |row|
  {
    var i := Target(fields, token);
    if i < |fields| then row[i := ParseValue(ft, fields[i].ftype, ValOf(token), row[i])] else row
  }

  function ApplyAll(ft: FloatText, fields: seq<FieldInfo>, row: Row, tokens: seq<string>): (r: Row)
    requires |row| == |fields|
    ensures |r| == |row|
    decreases |tokens|
  {
    if tokens == [] then row
    else ApplyAll(ft, fields, Apply(ft, fields, row, tokens[0]), tokens[1..])
  }

  lemma ApplyFirst(ft: FloatText, fields: seq<FieldInfo>, row: Row, token: string, rest: seq<string>)
    requires |row| == |fields|
    ensures ApplyAll(ft, fields, row, [token] + rest) == ApplyAll(ft, fields, Apply(ft, fields, row, token), rest)
  {
  }

  /** The text that survives the copy into the 1024-byte buffer. */
  function Copied(text: string): string {
    if |text| < READ_SIZE then text else text[..READ_SIZE - 1]
  }

  function Deserialize(ft: FloatText, fields: seq<FieldInfo>, row: Row, text: string): (r: Row)
    requires |row| == |fields|
    ensures |r| == |row|
  {
    ApplyAll(ft, fields, row, Tokens(Copied(text)))
  }
}
