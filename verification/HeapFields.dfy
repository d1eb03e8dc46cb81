/** What the bytes of a field look like in print, and what a piece of text puts into a field, told
    without the functions that print and read: an integer by the meaning of its numeral, the others
    letter by letter. */
module HeapFields {
  import opened Common
  import opened Layout
  import opened HeapText
  import opened HeapTextTheorems
  import opened HeapBytes
  import opened PluginLoader

  // ----- numbers -----

  /** Four bytes as a 32-bit number: least significant first, in two's complement. */
  function Int32At(b: seq<Byte>): int
    requires |b| == 4
  {
    var u := b[0] as int + 256 * b[1] as int + 65536 * b[2] as int + 16777216 * b[3] as int;
    if b[3] < 128 then u else u - 4294967296
  }

  lemma IntIsLittleEndian(b: seq<Byte>)
    requires |b| == 4
    ensures IntOf(b) == Int32At(b)
  {
    assert FromBytes(b[4..]) == 0;
    assert FromBytes(b[3..]) == b[3] as nat + 256 * FromBytes(b[3..][1..]) && b[3..][1..] == b[4..];
    assert FromBytes(b[2..]) == b[2] as nat + 256 * FromBytes(b[2..][1..]) && b[2..][1..] == b[3..];
    assert FromBytes(b[1..]) == b[1] as nat + 256 * FromBytes(b[1..][1..]) && b[1..][1..] == b[2..];
    assert FromBytes(b) == b[0] as nat + 256 * FromBytes(b[1..]);
  }

  predicate AllDigits(s: string) {
    forall k :: 0 <= k < |s| ==> '0' <= s[k] <= '9'
  }

  /** The number a string of decimal digits stands for. */
  function Numeral(s: string): nat
    requires AllDigits(s)
  {
    if s == [] then 0 else 10 * Numeral(s[..|s| - 1]) + (s[|s| - 1] - '0') as nat
  }

  /** Digits without a superfluous zero in front. */
  predicate Plain(s: string) {
    s != [] && AllDigits(s) && (s[0] == '0' ==> |s| == 1)
  }

  /** `s` is the usual way to write `n`: no leading zero, no plus sign, no `-0`. */
  predicate IsDecimal(s: string, n: int) {
    if n >= 0 then Plain(s) && Numeral(s) == n
    else s != [] && s[0] == '-' && Plain(s[1..]) && Numeral(s[1..]) == -n
  }

  lemma {:induction false} PlainIsPositive(s: string)
    requires Plain(s) && s[0] != '0'
    ensures Numeral(s) > 0
  {
    if |s| > 1 {
      PlainIsPositive(s[..|s| - 1]);
    }
  }

  lemma {:induction false} PrintNatIsPlain(n: nat)
    ensures Plain(PrintNat(n)) && Numeral(PrintNat(n)) == n
    ensures n > 0 ==> PrintNat(n)[0] != '0'
  {
    if n < 10 {
      assert PrintNat(n) == [Digit(n)] && [Digit(n)][..0] == [];
    } else {
      PrintNatIsPlain(n / 10);
      var front := PrintNat(n / 10);
      assert PrintNat(n) == front + [Digit(n % 10)];
      assert (front + [Digit(n % 10)])[..|front|] == front;
    }
  }

  /** No number is written in two ways. */
  lemma {:induction false} PlainIsUnique(s: string, t: string)
    requires Plain(s) && Plain(t) && Numeral(s) == Numeral(t)
    ensures s == t
  {
    if |s| > 1 && |t| > 1 {
      PlainIsUnique(s[..|s| - 1], t[..|t| - 1]);
      assert s == s[..|s| - 1] + [s[|s| - 1]] && t == t[..|t| - 1] + [t[|t| - 1]];
    } else if |s| > 1 {
      PlainIsPositive(s[..|s| - 1]);
    } else if |t| > 1 {
      PlainIsPositive(t[..|t| - 1]);
    }
  }

  /** `%d` prints the decimal of its argument, and there is only one. */
  lemma PrintsTheDecimal(s: string, n: int)
    ensures IsDecimal(s, n) <==> s == PrintInt(n)
  {
    PrintNatIsPlain(if n < 0 then -n else n);
    if n < 0 {
      assert PrintInt(n)[1..] == PrintNat(-n);
      if IsDecimal(s, n) {
        PlainIsUnique(s[1..], PrintNat(-n));
        assert s == "-" + s[1..];
      }
    } else if IsDecimal(s, n) {
      PlainIsUnique(s, PrintNat(n));
    }
  }

  // ----- from bytes to text -----

  predicate IsNull(b: seq<Byte>) {
    forall k :: 0 <= k < |b| ==> b[k] == 0
  }

  lemma {:induction false} NullExactly(b: seq<Byte>)
    ensures FromBytes(b) == 0 <==> IsNull(b)
  {
    if b != [] {
      NullExactly(b[1..]);
      assert IsNull(b) ==> forall k :: 0 <= k < |b[1..]| ==> b[1..][k] == b[k + 1];
      assert IsNull(b[1..]) ==> forall k :: 1 <= k < |b| ==> b[k] == b[1..][k - 1];
    }
  }

  /** What the field `f` with the bytes `b` is printed as. */
  ghost predicate Shows(ft: FloatText, f: FieldInfo, b: seq<Byte>, strings: Strings, text: string)
    requires |b| == f.size == TypeSize(f.ftype) && Grounded(f.ftype, b, strings)
  {
    match f.ftype
    case TInt => exists d :: IsDecimal(d, Int32At(b)) && text == f.name + "=" + d + ";"
    case TFloat => text == f.name + "=" + ft.show(b) + ";"
    case TBool => text == f.name + if b[0] == 0 then "=false;" else "=true;"
    case TChar => text == f.name + "=" + [b[0] as int as char] + ";"
    case TString =>
      if IsNull(b) then text == f.name + "=\"\";"
      else FromBytes(b) in strings && text == f.name + ("=\"" + strings[FromBytes(b)] + "\";")
    case _ => text == ""
  }

  /** What `snprintf` leaves of a text in 256 bytes: 255 characters of it, and nothing from a NUL on. */
  function Cut(s: string): string {
    CStr(if |s| < 256 then s else s[..255])
  }

  function FullText(ft: FloatText, f: FieldInfo, v: Value): string {
    if Printed(f.ftype) then Body(ft, f, v) + ";" else ""
  }

  lemma BoolShows(name: string, b: bool)
    ensures name + "=" + (if b then "true" else "false") + ";" == name + if b then "=true;" else "=false;"
  {
    assert "=" + "true" + ";" == "=true;" && "=" + "false" + ";" == "=false;";
  }

  lemma StringShows(name: string, s: string)
    ensures name + "=" + ("\"" + s + "\"") + ";" == name + ("=\"" + s + "\";")
    ensures name + "=" + "\"\"" + ";" == name + "=\"\";"
  {
    assert "=" + "\"" == "=\"" && "\"" + ";" == "\";" && "=" + "\"\"" + ";" == "=\"\";";
  }

  lemma FieldShows(ft: FloatText, f: FieldInfo, b: seq<Byte>, strings: Strings)
    requires |b| == f.size == TypeSize(f.ftype) && Grounded(f.ftype, b, strings)
    ensures Shows(ft, f, b, strings, FullText(ft, f, ReadValue(f.ftype, b, strings)))
  {
    match f.ftype {
      case TInt =>
        IntIsLittleEndian(b);
        PrintsTheDecimal(PrintInt(Int32At(b)), Int32At(b));
      case TBool =>
        BoolShows(f.name, b[0] != 0);
      case TString =>
        NullExactly(b);
        StringShows(f.name, if IsNull(b) then "" else strings[FromBytes(b)]);
      case _ =>
    }
  }

  /** The texts of some fields, each cut to its buffer, one behind the other. */
  function Joint(texts: seq<string>): string {
    if texts == [] then [] else Joint(texts[..|texts| - 1]) + Cut(texts[|texts| - 1])
  }

  function FullTexts(ft: FloatText, fields: seq<FieldInfo>, row: Row): (r: seq<string>)
    requires |row| == |fields|
    ensures |r| == |fields| && forall i :: 0 <= i < |r| ==> r[i] == FullText(ft, fields[i], row[i])
  {
    seq(|fields|, i requires 0 <= i < |fields| => FullText(ft, fields[i], row[i]))
  }

  lemma {:induction false} PrintoutIsJoint(ft: FloatText, fields: seq<FieldInfo>, row: Row)
    requires |row| == |fields|
    ensures Printout(ft, fields, row) == Joint(FullTexts(ft, fields, row))
    decreases |fields|
  {
    if fields != [] {
      var n, texts := |fields| - 1, FullTexts(ft, fields, row);
      PrintoutIsJoint(ft, fields[..n], row[..n]);
      assert texts[..n] == FullTexts(ft, fields[..n], row[..n]);
    }
  }

  /** Main result.  An instance's print is, field by field in order, what the field's bytes show as,
      each cut to 255 characters. */
  lemma PrintShowsTheBytes(ft: FloatText, info: TypeInfo, bytes: seq<Byte>, strings: Strings)
    requires Sound(info) && |bytes| == info.size && AllGrounded(info, bytes, strings)
    ensures exists texts: seq<string> ::
              && |texts| == |info.fields|
              && (forall i :: 0 <= i < |texts| ==>
                    Shows(ft, info.fields[i], FieldBytes(info.fields[i], bytes), strings, texts[i]))
              && Printout(ft, info.fields, RowOf(info, bytes, strings)) == Joint(texts)
  {
    var row := RowOf(info, bytes, strings);
    var texts := FullTexts(ft, info.fields, row);
    PrintoutIsJoint(ft, info.fields, row);
    forall i | 0 <= i < |texts|
      ensures Shows(ft, info.fields[i], FieldBytes(info.fields[i], bytes), strings, texts[i])
    {
      FieldShows(ft, info.fields[i], FieldBytes(info.fields[i], bytes), strings);
    }
  }

  /** From the data file to the print: a field declared with the word `int` prints as its name and the
      decimal of the four bytes stored at its place. */
  lemma DeclaredIntPrints(ft: FloatText, info: TypeInfo, name: string, decls: seq<Decl>, i: nat,
                          bytes: seq<Byte>, strings: Strings) returns (d: string)
    requires Declares(info, name, decls) && i < |decls| && decls[i].typeWord == "int"
    requires |bytes| == info.size
    ensures Sound(info) && info.fields[i].offset + 4 <= |bytes|
    ensures var at := info.fields[i].offset; IsDecimal(d, Int32At(bytes[at..at + 4]))
    ensures AllGrounded(info, bytes, strings) ==>
              Render(ft, info.fields[i], RowOf(info, bytes, strings)[i]) == Cut(decls[i].name + "=" + d + ";")
  {
    TiledIsSound(info);
    var f := info.fields[i];
    assert Means(decls[i].typeWord, f);
    var b := FieldBytes(f, bytes);
    IntIsLittleEndian(b);
    d := PrintInt(Int32At(b));
    PrintsTheDecimal(d, Int32At(b));
  }

  // ----- from text to values -----

  predicate IsBlank(c: char) {
    c == ' ' || 9 <= c as int <= 13
  }

  /** A numeral as `atoi` takes it apart: blanks, at most one sign, the digits, and the rest. */
  predicate NumberParts(val: string, lead: string, sign: string, digits: string, rest: string) {
    && val == lead + sign + digits + rest
    && (forall k :: 0 <= k < |lead| ==> IsBlank(lead[k]))
    && (sign == "" || sign == "+" || sign == "-")
    && AllDigits(digits) && (rest != [] ==> !('0' <= rest[0] <= '9'))
    && (sign == "" && digits == "" && rest != [] ==> !IsBlank(rest[0]) && rest[0] != '+' && rest[0] != '-')
  }

  function Signed(sign: string, digits: string): int
    requires AllDigits(digits)
  {
    if sign == "-" then 0 - Numeral(digits) else Numeral(digits)
  }

  /** `n` is `m` clamped to 64 bits and then cut to 32. */
  predicate CutTo32(n: int, m: int) {
    var c := if m < -0x8000_0000_0000_0000 then -0x8000_0000_0000_0000
             else if m > 0x7FFF_FFFF_FFFF_FFFF then 0x7FFF_FFFF_FFFF_FFFF else m;
    -0x8000_0000 <= n < 0x8000_0000 && (c - n) % 0x1_0000_0000 == 0
  }

  lemma {:induction false} DigitsMean(digits: string, rest: string)
    requires AllDigits(digits) && (rest != [] ==> !('0' <= rest[0] <= '9'))
    ensures ReadDigits(digits + rest, 0) == Numeral(digits)
  {
    DigitsStop(digits, rest, 0);
    DigitsAlone(digits);
  }

  lemma {:induction false} DigitsStop(digits: string, rest: string, acc: nat)
    requires AllDigits(digits) && (rest != [] ==> !('0' <= rest[0] <= '9'))
    ensures ReadDigits(digits + rest, acc) == ReadDigits(digits, acc)
    decreases |digits|
  {
    if digits == [] {
      assert digits + rest == rest;
    } else {
      assert (digits + rest)[1..] == digits[1..] + rest;
      DigitsStop(digits[1..], rest, 10 * acc + (digits[0] - '0') as nat);
    }
  }

  lemma {:induction false} DigitsAlone(digits: string)
    requires AllDigits(digits)
    ensures ReadDigits(digits, 0) == Numeral(digits)
  {
    if digits != [] {
      var n := |digits| - 1;
      var d := (digits[n] - '0') as nat;
      DigitsAlone(digits[..n]);
      ReadDigitsAppend(digits[..n], 0, d);
      assert digits == digits[..n] + [Digit(d)];
    }
  }

  lemma CutsTo32(m: int)
    ensures CutTo32(ToInt32(m), m)
  {
  }

  /** Splits the leading digits off. */
  lemma {:induction false} SplitDigits(s: string) returns (digits: string, rest: string)
    ensures s == digits + rest && AllDigits(digits) && (rest != [] ==> !('0' <= rest[0] <= '9'))
  {
    if s == [] || !('0' <= s[0] <= '9') {
      digits, rest := "", s;
    } else {
      digits, rest := SplitDigits(s[1..]);
      digits := [s[0]] + digits;
    }
  }

  lemma OneMoreBlank(val: string, lead: string, sign: string, digits: string, rest: string)
    requires val != [] && IsBlank(val[0]) && NumberParts(val[1..], lead, sign, digits, rest)
    ensures NumberParts(val, [val[0]] + lead, sign, digits, rest)
  {
    assert val == [val[0]] + val[1..];
    assert [val[0]] + (lead + sign + digits + rest) == [val[0]] + lead + sign + digits + rest;
  }

  /** `atoi` behind the blanks. */
  lemma AtoiAtSign(val: string) returns (sign: string, digits: string, rest: string)
    requires val != [] ==> !IsBlank(val[0])
    ensures NumberParts(val, "", sign, digits, rest) && CutTo32(Atoi(val), Signed(sign, digits))
  {
    sign := if val != [] && (val[0] == '-' || val[0] == '+') then [val[0]] else "";
    digits, rest := SplitDigits(val[|sign|..]);
    DigitsMean(digits, rest);
    CutsTo32(Signed(sign, digits));
    SignFirst(val, sign, digits, rest);
  }

  lemma SignFirst(val: string, sign: string, digits: string, rest: string)
    requires |sign| <= |val| && val[..|sign|] == sign && val[|sign|..] == digits + rest
    ensures val == "" + sign + digits + rest
  {
    assert val == sign + (digits + rest);
  }

  /** `atoi`, for every text: the blanks in front are skipped, a sign counts once, and the digits up to
      the first other character give the number, saturated at 64 bits and cut to 32. */
  lemma {:induction false} AtoiMeans(val: string)
    returns (lead: string, sign: string, digits: string, rest: string)
    ensures NumberParts(val, lead, sign, digits, rest)
    ensures CutTo32(Atoi(val), Signed(sign, digits))
    decreases |val|
  {
    if val != [] && IsBlank(val[0]) {
      lead, sign, digits, rest := AtoiMeans(val[1..]);
      OneMoreBlank(val, lead, sign, digits, rest);
      lead := [val[0]] + lead;
    } else {
      lead := "";
      sign, digits, rest := AtoiAtSign(val);
    }
  }

  /** What the text `val` makes of a field of type `t` that held `was`. */
  ghost predicate Puts(ft: FloatText, t: FieldType, val: string, was: Value, v: Value) {
    match t
    case TInt =>
      v.IntVal? && exists lead, sign, digits, rest ::
                     && NumberParts(val, lead, sign, digits, rest)
                     && CutTo32(v.n, Signed(sign, digits))
    case TFloat => v == FloatVal(ft.parse(val))
    case TBool => v == BoolVal(val == "true")
    case TChar => v == CharVal(if val == "" then '\0' else val[0])
    case TString =>
      v.StrVal? && if |val| >= 2 && val[0] == '"' == val[|val| - 1] then val == "\"" + v.s + "\""
                   else v.s == if val == "\"" then "" else val
    case _ => v == was
  }

  lemma ParsePuts(ft: FloatText, t: FieldType, val: string, was: Value)
    ensures Puts(ft, t, val, was, ParseValue(ft, t, val, was))
  {
    match t {
      case TInt =>
        var lead, sign, digits, rest := AtoiMeans(val);
      case TString =>
        if |val| >= 2 && val[0] == '"' == val[|val| - 1] {
          assert val == "\"" + val[1..|val| - 1] + "\"";
        }
      case _ =>
    }
  }

  /** Reading `name=value;` puts the value into the field of that name and touches no other. */
  lemma ReadsOneField(ft: FloatText, fields: seq<FieldInfo>, row: Row, i: nat, val: string) returns (v: Value)
    requires |row| == |fields| && i < |fields| && GoodNames(fields)
    requires ';' !in val && |fields[i].name| + |val| + 2 < 1024
    ensures Puts(ft, fields[i].ftype, val, row[i], v)
    ensures Deserialize(ft, fields, row, fields[i].name + "=" + val + ";") == row[i := v]
  {
    var token := fields[i].name + "=" + val;
    TargetOfNamed(fields, i, val);
    ReadsOne(ft, fields, row, token + ";", token);
    v := ParseValue(ft, fields[i].ftype, val, row[i]);
    ParsePuts(ft, fields[i].ftype, val, row[i]);
  }
}
