/** What the text form means: reading as an order-free set of updates, and reading as the inverse
    of printing. */
module HeapTextTheorems {
  import opened Common
  import opened Layout
  import opened HeapText

  // ----- the meaning of reading -----

  /** The value text of the last token that sets field `i`. */
  function LastFor(fields: seq<FieldInfo>, tokens: seq<string>, i: nat): Option<string>
    requires i < |fields|
  {
    if tokens == [] then None
    else
      var later := LastFor(fields, tokens[1..], i);
      if later.Some? then later
      else if Target(fields, tokens[0]) == i then Some(ValOf(tokens[0]))
      else None
  }

  /** Reading, field by field: the last well-formed token with the field's name decides, tokens
      without `=` or with an unknown name decide nothing, and a field no token names keeps its
      value. */
  lemma {:induction false} ReadingMeaning(
    ft: FloatText, fields: seq<FieldInfo>, row: Row, tokens: seq<string>, i: nat)
    requires |row| == |fields| && i < |fields|
    ensures ApplyAll(ft, fields, row, tokens)[i] ==
            match LastFor(fields, tokens, i)
            case None => row[i]
            case Some(val) => ParseValue(ft, fields[i].ftype, val, row[i])
    decreases |tokens|
  {
    if tokens != [] {
      ReadingMeaning(ft, fields, Apply(ft, fields, row, tokens[0]), tokens[1..], i);
    }
  }

  /** No two different tokens set the same field. */
  ghost predicate NoConflict(fields: seq<FieldInfo>, tokens: seq<string>) {
    forall a, b :: a in tokens && b in tokens && Target(fields, a) == Target(fields, b) < |fields| ==> a == b
  }

  lemma {:induction false} LastForSole(fields: seq<FieldInfo>, tokens: seq<string>, i: nat)
    requires i < |fields|
    ensures LastFor(fields, tokens, i) == None <==> forall t :: t in tokens ==> Target(fields, t) != i
    ensures LastFor(fields, tokens, i).Some? ==>
              exists t :: t in tokens && Target(fields, t) == i && LastFor(fields, tokens, i) == Some(ValOf(t))
  {
    if tokens != [] {
      LastForSole(fields, tokens[1..], i);
      assert tokens == [tokens[0]] + tokens[1..];
      assert tokens[0] in tokens;
    }
  }

  lemma LastForAgrees(fields: seq<FieldInfo>, tokens: seq<string>, other: seq<string>, i: nat)
    requires i < |fields|
    requires NoConflict(fields, tokens) && forall t :: t in tokens <==> t in other
    ensures LastFor(fields, tokens, i) == LastFor(fields, other, i)
  {
    LastForSole(fields, tokens, i);
    LastForSole(fields, other, i);
  }

  /** As long as no two tokens disagree about a field, their order does not matter, and neither
      does repeating one. */
  lemma ReadingIgnoresOrder(
    ft: FloatText, fields: seq<FieldInfo>, row: Row, tokens: seq<string>, other: seq<string>)
    requires |row| == |fields|
    requires NoConflict(fields, tokens) && forall t :: t in tokens <==> t in other
    ensures ApplyAll(ft, fields, row, tokens) == ApplyAll(ft, fields, row, other)
  {
    forall i | 0 <= i < |fields|
      ensures ApplyAll(ft, fields, row, tokens)[i] == ApplyAll(ft, fields, row, other)[i]
    {
      ReadingMeaning(ft, fields, row, tokens, i);
      ReadingMeaning(ft, fields, row, other, i);
      LastForAgrees(fields, tokens, other, i);
    }
  }

  // ----- printing, as a list of tokens -----

  predicate IsNul(v: Value) {
    v == CharVal(NUL)
  }

  /** What a field leaves of its text: a NUL character ends it early. */
  function Shown(ft: FloatText, f: FieldInfo, v: Value): string {
    f.name + "=" + CStr(ValueText(ft, v))
  }

  /** The tokens a row is meant to print, in field order. */
  function Bodies(ft: FloatText, fields: seq<FieldInfo>, row: Row): seq<string>
    requires |row| == |fields|
  {
    if fields == [] then []
    else (if Printed(fields[0].ftype) then [Shown(ft, fields[0], row[0])] else [])
         + Bodies(ft, fields[1..], row[1..])
  }

  /** The printed text.  A NUL character takes its separator with it. */
  function TextOf(ft: FloatText, fields: seq<FieldInfo>, row: Row): string
    requires |row| == |fields|
  {
    if fields == [] then []
    else (if Printed(fields[0].ftype) then Shown(ft, fields[0], row[0]) + (if IsNul(row[0]) then "" else ";") else "")
         + TextOf(ft, fields[1..], row[1..])
  }

  /** The tokens the text falls into.  `open` is what stands before it since the last separator. */
  function Groups(ft: FloatText, fields: seq<FieldInfo>, row: Row, open: string): seq<string>
    requires |row| == |fields|
    decreases |fields|
  {
    if fields == [] then if open == [] then [] else [open]
    else if !Printed(fields[0].ftype) then Groups(ft, fields[1..], row[1..], open)
    else
      var t := open + Shown(ft, fields[0], row[0]);
      if IsNul(row[0]) then Groups(ft, fields[1..], row[1..], t)
      else [t] + Groups(ft, fields[1..], row[1..], "")
  }

  lemma {:induction false} IndexOfAt(a: string, c: char, rest: string)
    requires c !in a
    ensures IndexOf(a + [c] + rest, c) == |a|
  {
    if a != [] {
      IndexOfAt(a[1..], c, rest);
      assert (a + [c] + rest)[1..] == a[1..] + [c] + rest;
      assert a[0] in a;
    }
  }

  /** `strtok` cuts a token off at its separator. */
  lemma TokenThenRest(t: string, rest: string)
    requires t != [] && ';' !in t
    ensures Tokens(t + ";" + rest) == [t] + Tokens(rest)
  {
    var text := t + ";" + rest;
    IndexOfAt(t, ';', rest);
    assert t[0] in t;
    assert text[..|t|] == t && text[|t|..] == ";" + rest;
    assert (";" + rest)[1..] == rest;
  }

  lemma LoneToken(t: string)
    requires ';' !in t
    ensures Tokens(t) == if t == [] then [] else [t]
  {
    assert forall k :: 0 <= k < |t| ==> t[k] in t;
    assert t[..|t|] == t && t[|t|..] == [];
  }

  /** No printed field's text contains the separator. */
  ghost predicate NoSeparators(ft: FloatText, fields: seq<FieldInfo>, row: Row)
    requires |row| == |fields|
  {
    forall i :: 0 <= i < |row| && Printed(fields[i].ftype) ==> ';' !in Shown(ft, fields[i], row[i])
  }

  lemma NoSeparatorsTail(ft: FloatText, fields: seq<FieldInfo>, row: Row)
    requires |row| == |fields| && fields != [] && NoSeparators(ft, fields, row)
    ensures NoSeparators(ft, fields[1..], row[1..])
  {
    forall i | 0 <= i < |row[1..]| && Printed(fields[1..][i].ftype)
      ensures ';' !in Shown(ft, fields[1..][i], row[1..][i])
    {
      assert fields[1..][i] == fields[i + 1] && row[1..][i] == row[i + 1];
    }
  }

  /** Without separators in the values, the text splits at the ends of fields, except behind a NUL
      character. */
  lemma {:induction false} TokensOfText(ft: FloatText, fields: seq<FieldInfo>, row: Row, open: string)
    requires |row| == |fields| && NoSeparators(ft, fields, row) && ';' !in open
    ensures Tokens(open + TextOf(ft, fields, row)) == Groups(ft, fields, row, open)
    decreases |fields|
  {
    if fields == [] {
      assert open + TextOf(ft, fields, row) == open;
      LoneToken(open);
    } else {
      NoSeparatorsTail(ft, fields, row);
      var rest := TextOf(ft, fields[1..], row[1..]);
      if !Printed(fields[0].ftype) {
        assert TextOf(ft, fields, row) == rest;
        TokensOfText(ft, fields[1..], row[1..], open);
      } else {
        var t := open + Shown(ft, fields[0], row[0]);
        if IsNul(row[0]) {
          assert open + TextOf(ft, fields, row) == t + rest;
          TokensOfText(ft, fields[1..], row[1..], t);
        } else {
          assert open + TextOf(ft, fields, row) == t + ";" + rest;
          TokenThenRest(t, rest);
          TokensOfText(ft, fields[1..], row[1..], "");
          assert "" + rest == rest;
        }
      }
    }
  }

  // ----- what may be printed and read back -----

  /** Field names a data file may use: distinct, and free of the separators. */
  ghost predicate GoodNames(fields: seq<FieldInfo>) {
    && (forall i, j :: 0 <= i < j < |fields| ==> fields[i].name != fields[j].name)
    && forall i :: 0 <= i < |fields| ==> '=' !in fields[i].name && ';' !in fields[i].name && NUL !in fields[i].name
  }

  /** The float conversion keeps clear of the separators. */
  ghost predicate GoodFloats(ft: FloatText) {
    forall raw :: ';' !in ft.show(raw) && NUL !in ft.show(raw)
  }

  /** Every printed field fits the formatting buffer whole, separator included. */
  ghost predicate FitsBuffer(ft: FloatText, fields: seq<FieldInfo>, row: Row)
    requires |row| == |fields|
  {
    forall i :: 0 <= i < |row| && Printed(fields[i].ftype) ==> |Body(ft, fields[i], row[i])| + 1 < TEMP_SIZE
  }

  /** A C string holds no NUL. */
  predicate IsCString(v: Value) {
    v.StrVal? ==> NUL !in v.s
  }

  /** The value does not contain the separator. */
  predicate Clean(v: Value) {
    (v.StrVal? ==> ';' !in v.s) && (v.CharVal? ==> v.c != ';')
  }

  ghost predicate AllClean(row: Row) {
    forall i :: 0 <= i < |row| ==> Clean(row[i])
  }

  /** A NUL character may only be the last thing printed. */
  ghost predicate NulLast(fields: seq<FieldInfo>, row: Row)
    requires |row| == |fields|
  {
    forall i, j :: 0 <= i < j < |row| && IsNul(row[i]) ==> !Printed(fields[j].ftype)
  }

  /** What a printed value comes back as: floats lose precision, null strings become empty. */
  function Back(ft: FloatText, v: Value): Value {
    match v
    case FloatVal(raw) => FloatVal(ft.parse(ft.show(raw)))
    case NullStr => StrVal("")
    case _ => v
  }

  lemma TextIsClean(ft: FloatText, t: FieldType, v: Value)
    requires GoodFloats(ft) && Printed(t) && Fits(t, v) && IsCString(v)
    ensures !IsNul(v) ==> NUL !in ValueText(ft, v)
    ensures Clean(v) ==> ';' !in ValueText(ft, v)
  {
  }

  lemma {:induction false} CStrAt(a: string, rest: string)
    requires NUL !in a
    ensures CStr(a + [NUL] + rest) == a
  {
    if a != [] {
      assert a[0] in a;
      assert (a + [NUL] + rest)[1..] == a[1..] + [NUL] + rest;
      CStrAt(a[1..], rest);
    }
  }

  lemma RendersWhole(ft: FloatText, f: FieldInfo, v: Value)
    requires NUL !in Body(ft, f, v) && |Body(ft, f, v)| + 1 < TEMP_SIZE
    ensures Render(ft, f, v) == Body(ft, f, v) + ";"
  {
    assert NUL !in Body(ft, f, v) + ";";
  }

  lemma RendersNul(ft: FloatText, f: FieldInfo)
    requires NUL !in f.name && |f.name| + 3 < TEMP_SIZE
    ensures Render(ft, f, CharVal(NUL)) == f.name + "="
    ensures Shown(ft, f, CharVal(NUL)) == f.name + "="
  {
    CStrAt(f.name + "=", ";");
    assert Body(ft, f, CharVal(NUL)) + ";" == (f.name + "=") + [NUL] + ";";
    CStrAt("", "");
    assert "" + [NUL] + "" == [NUL];
  }

  /** What one field adds to the text, if it fits the formatting buffer. */
  lemma RendersShown(ft: FloatText, f: FieldInfo, v: Value)
    requires NUL !in f.name && GoodFloats(ft) && Printed(f.ftype) && Fits(f.ftype, v) && IsCString(v)
    requires |Body(ft, f, v)| + 1 < TEMP_SIZE
    ensures Render(ft, f, v) == Shown(ft, f, v) + if IsNul(v) then "" else ";"
  {
    if IsNul(v) {
      RendersNul(ft, f);
    } else {
      TextIsClean(ft, f.ftype, v);
      RendersWhole(ft, f, v);
    }
  }

  lemma ReadBack(ft: FloatText, t: FieldType, v: Value, was: Value)
    requires GoodFloats(ft) && Printed(t) && Fits(t, v) && IsCString(v)
    ensures ParseValue(ft, t, CStr(ValueText(ft, v)), was) == Back(ft, v)
  {
    TextIsClean(ft, t, v);
    match v {
      case IntVal(n) => AtoiUndoesPrint(n);
      case NullStr => assert Unquote("\"\"") == "";
      case StrVal(s) => assert ("\"" + s + "\"")[1..|s| + 1] == s;
      case _ =>
    }
  }

  /** A token that starts with a field's name and `=` sets that field. */
  lemma TargetOfNamed(fields: seq<FieldInfo>, c: nat, rest: string)
    requires GoodNames(fields) && c < |fields|
    ensures var t := fields[c].name + "=" + rest;
            IndexOf(t, '=') == |fields[c].name| && Target(fields, t) == c && ValOf(t) == rest
  {
    var t := fields[c].name + "=" + rest;
    IndexOfAt(fields[c].name, '=', rest);
    assert KeyOf(t) == fields[c].name;
    var i := FieldIndex(fields, fields[c].name);
    assert i < |fields| && i <= c;
  }

  /** The caller-side conditions of the round trip, apart from what the values contain: names,
      the 256-byte buffer each field is formatted in, and 1023 bytes for the whole text. */
  ghost predicate Printable(ft: FloatText, fields: seq<FieldInfo>, row: Row, cap: nat) {
    && GoodNames(fields) && GoodFloats(ft)
    && Conforms(fields, row) && FitsBuffer(ft, fields, row)
    && (forall i :: 0 <= i < |row| ==> IsCString(row[i]))
    && 0 < cap
    && Serialize(ft, fields, row, cap, "").Some?
    && |Serialize(ft, fields, row, cap, "").value| < READ_SIZE
  }

  /** `after` has the printed fields of `row` and the others of `into`. */
  ghost predicate Restored(ft: FloatText, fields: seq<FieldInfo>, row: Row, into: Row, after: Row)
    requires |row| == |into| == |after| == |fields|
  {
    forall i :: 0 <= i < |fields| ==> after[i] == if Printed(fields[i].ftype) then Back(ft, row[i]) else into[i]
  }

  /** Reading `row`'s text into `into` restores every printed field and keeps the others. */
  ghost predicate Restores(ft: FloatText, fields: seq<FieldInfo>, row: Row, cap: nat, into: Row)
    requires Printable(ft, fields, row, cap) && |into| == |fields|
  {
    Restored(ft, fields, row, into, Deserialize(ft, fields, into, Serialize(ft, fields, row, cap, "").value))
  }

  /** What a field adds to the text. */
  function Piece(ft: FloatText, f: FieldInfo, v: Value): string {
    if !Printed(f.ftype) then "" else Shown(ft, f, v) + if IsNul(v) then "" else ";"
  }

  lemma TextStep(ft: FloatText, fields: seq<FieldInfo>, row: Row, k: nat)
    requires |row| == |fields| && k < |fields|
    ensures TextOf(ft, fields[k..], row[k..]) ==
            Piece(ft, fields[k], row[k]) + TextOf(ft, fields[k + 1..], row[k + 1..])
  {
    assert fields[k..][1..] == fields[k + 1..] && row[k..][1..] == row[k + 1..];
  }

  lemma Regroup(a: string, b: string, c: string)
    ensures a + b + c == a + (b + c)
  {
  }

  lemma PieceIsPrinted(ft: FloatText, fields: seq<FieldInfo>, row: Row, cap: nat, sofar: string, k: nat)
    requires GoodNames(fields) && GoodFloats(ft) && Conforms(fields, row) && FitsBuffer(ft, fields, row)
    requires forall i :: 0 <= i < |row| ==> IsCString(row[i])
    requires k < |fields| && |sofar| < cap && Serialize(ft, fields[k..], row[k..], cap, sofar).Some?
    ensures var sofar' := sofar + Piece(ft, fields[k], row[k]);
            && |sofar'| < cap
            && Serialize(ft, fields[k..], row[k..], cap, sofar)
               == Serialize(ft, fields[k + 1..], row[k + 1..], cap, sofar')
  {
    SerializeStep(ft, fields, row, k, cap, sofar);
    if Printed(fields[k].ftype) {
      RendersShown(ft, fields[k], row[k]);
    } else {
      assert sofar + "" == sofar;
    }
  }

  /** Without truncation a successful print is the text of the row. */
  lemma {:induction false} PrintsText(ft: FloatText, fields: seq<FieldInfo>, row: Row, cap: nat, sofar: string, k: nat)
    requires GoodNames(fields) && GoodFloats(ft) && Conforms(fields, row) && FitsBuffer(ft, fields, row)
    requires forall i :: 0 <= i < |row| ==> IsCString(row[i])
    requires k <= |fields| && |sofar| < cap && Serialize(ft, fields[k..], row[k..], cap, sofar).Some?
    ensures Serialize(ft, fields[k..], row[k..], cap, sofar).value == sofar + TextOf(ft, fields[k..], row[k..])
    decreases |fields| - k
  {
    if k < |fields| {
      var piece := Piece(ft, fields[k], row[k]);
      PieceIsPrinted(ft, fields, row, cap, sofar, k);
      TextStep(ft, fields, row, k);
      PrintsText(ft, fields, row, cap, sofar + piece, k + 1);
      Regroup(sofar, piece, TextOf(ft, fields[k + 1..], row[k + 1..]));
    }
  }

  /** With clean values the printed text falls into the row's groups. */
  lemma PrintedTokens(ft: FloatText, fields: seq<FieldInfo>, row: Row, cap: nat)
    requires Printable(ft, fields, row, cap) && AllClean(row)
    ensures Tokens(Serialize(ft, fields, row, cap, "").value) == Groups(ft, fields, row, "")
  {
    assert fields[0..] == fields && row[0..] == row;
    PrintsText(ft, fields, row, cap, "", 0);
    ShownIsClean(ft, fields, row);
    TokensOfText(ft, fields, row, "");
  }

  lemma ShownIsClean(ft: FloatText, fields: seq<FieldInfo>, row: Row)
    requires GoodNames(fields) && GoodFloats(ft) && Conforms(fields, row) && AllClean(row)
    requires forall i :: 0 <= i < |row| ==> IsCString(row[i])
    ensures NoSeparators(ft, fields, row)
  {
    forall i | 0 <= i < |row| && Printed(fields[i].ftype)
      ensures ';' !in Shown(ft, fields[i], row[i])
    {
      TextIsClean(ft, fields[i].ftype, row[i]);
      assert CStr(ValueText(ft, row[i])) <= ValueText(ft, row[i]);
    }
  }

  // ----- reading gives back what was printed -----

  lemma {:induction false} NonePrinted(ft: FloatText, fields: seq<FieldInfo>, row: Row, open: string)
    requires |row| == |fields| && forall i :: 0 <= i < |fields| ==> !Printed(fields[i].ftype)
    ensures Bodies(ft, fields, row) == []
    ensures Groups(ft, fields, row, open) == if open == [] then [] else [open]
    decreases |fields|
  {
    if fields != [] {
      NonePrinted(ft, fields[1..], row[1..], open);
    }
  }

  /** If at most the last printed field is a NUL character, every field has its own token. */
  lemma {:induction false} GroupsAreBodies(ft: FloatText, fields: seq<FieldInfo>, row: Row)
    requires |row| == |fields| && NulLast(fields, row)
    ensures Groups(ft, fields, row, "") == Bodies(ft, fields, row)
    decreases |fields|
  {
    if fields != [] {
      var rest, tail := fields[1..], row[1..];
      forall i, j | 0 <= i < j < |tail| && IsNul(tail[i])
        ensures !Printed(rest[j].ftype)
      {
        assert IsNul(row[i + 1]) && rest[j] == fields[j + 1];
      }
      GroupsAreBodies(ft, rest, tail);
      if Printed(fields[0].ftype) {
        var t := "" + Shown(ft, fields[0], row[0]);
        assert t == Shown(ft, fields[0], row[0]) && t != [];
        if IsNul(row[0]) {
          NonePrinted(ft, rest, tail, t);
        }
      }
    }
  }

  lemma BodiesStep(ft: FloatText, fields: seq<FieldInfo>, row: Row, k: nat)
    requires |row| == |fields| && k < |fields|
    ensures var rest := Bodies(ft, fields[k + 1..], row[k + 1..]);
            Bodies(ft, fields[k..], row[k..]) ==
            if Printed(fields[k].ftype) then [Shown(ft, fields[k], row[k])] + rest else rest
  {
    assert fields[k..][1..] == fields[k + 1..] && row[k..][1..] == row[k + 1..];
  }

  lemma LastForCons(fields: seq<FieldInfo>, t: string, rest: seq<string>, i: nat)
    requires i < |fields|
    ensures LastFor(fields, [t] + rest, i) ==
            if LastFor(fields, rest, i).Some? then LastFor(fields, rest, i)
            else if Target(fields, t) == i then Some(ValOf(t)) else None
  {
    assert ([t] + rest)[1..] == rest;
  }

  /** Among the tokens meant from field `k` on, field `i` is set by its own token if there is one. */
  lemma {:induction false} LastForBodies(ft: FloatText, fields: seq<FieldInfo>, row: Row, k: nat, i: nat)
    requires |row| == |fields| && k <= |fields| && i < |fields| && GoodNames(fields)
    ensures LastFor(fields, Bodies(ft, fields[k..], row[k..]), i) ==
            if k <= i && Printed(fields[i].ftype) then Some(CStr(ValueText(ft, row[i]))) else None
    decreases |fields| - k
  {
    if k < |fields| {
      LastForBodies(ft, fields, row, k + 1, i);
      BodiesStep(ft, fields, row, k);
      if Printed(fields[k].ftype) {
        TargetOfNamed(fields, k, CStr(ValueText(ft, row[k])));
        LastForCons(fields, Shown(ft, fields[k], row[k]), Bodies(ft, fields[k + 1..], row[k + 1..]), i);
      }
    }
  }

  lemma BodiesRestore(ft: FloatText, fields: seq<FieldInfo>, row: Row, into: Row, i: nat)
    requires GoodNames(fields) && GoodFloats(ft) && Conforms(fields, row) && |into| == |fields| && i < |fields|
    requires IsCString(row[i])
    ensures ApplyAll(ft, fields, into, Bodies(ft, fields, row))[i]
            == if Printed(fields[i].ftype) then Back(ft, row[i]) else into[i]
  {
    ReadingMeaning(ft, fields, into, Bodies(ft, fields, row), i);
    LastForBodies(ft, fields, row, 0, i);
    assert fields[0..] == fields && row[0..] == row;
    if Printed(fields[i].ftype) {
      ReadBack(ft, fields[i].ftype, row[i], into[i]);
    }
  }

  /** The parser undoes the printer, into any instance of the type. */
  lemma RoundTrip(ft: FloatText, fields: seq<FieldInfo>, row: Row, cap: nat, into: Row)
    requires Printable(ft, fields, row, cap) && |into| == |fields|
    requires AllClean(row) && NulLast(fields, row)
    ensures Restores(ft, fields, row, cap, into)
  {
    PrintedTokens(ft, fields, row, cap);
    GroupsAreBodies(ft, fields, row);
    forall i | 0 <= i < |fields| {
      BodiesRestore(ft, fields, row, into, i);
    }
  }

  /** The same about the printed text. */
  lemma PrintReadsBack(ft: FloatText, fields: seq<FieldInfo>, row: Row, cap: nat, into: Row)
    requires Printable(ft, fields, row, cap) && |into| == |fields|
    requires AllClean(row) && NulLast(fields, row)
    ensures var text := Printout(ft, fields, row);
            |text| < cap && NUL !in text && Restored(ft, fields, row, into, Deserialize(ft, fields, into, text))
  {
    RoundTrip(ft, fields, row, cap, into);
    SerializesExactlyWhatFits(ft, fields, row, cap);
    SerializedIsCString(ft, fields, row, cap, "");
  }

  // ----- a NUL character swallows the field behind it -----

  /** However the open token goes on, it does not set field `j`. */
  ghost predicate Foreign(fields: seq<FieldInfo>, open: string, j: nat) {
    forall more :: Target(fields, open + more) != j
  }

  /** A token that begins with a field's text sets that field. */
  lemma OpenedIsForeign(fields: seq<FieldInfo>, k: nat, val: string, j: nat)
    requires GoodNames(fields) && k < |fields| && k != j
    ensures Foreign(fields, fields[k].name + "=" + val, j)
  {
    forall more
      ensures Target(fields, fields[k].name + "=" + val + more) != j
    {
      TargetOfNamed(fields, k, val + more);
      assert fields[k].name + "=" + val + more == fields[k].name + "=" + (val + more);
    }
  }

  lemma ForeignGoesOn(fields: seq<FieldInfo>, open: string, shown: string, j: nat)
    requires Foreign(fields, open, j)
    ensures Foreign(fields, open + shown, j)
  {
    forall more
      ensures Target(fields, open + shown + more) != j
    {
      assert open + shown + more == open + (shown + more);
    }
  }

  /** Field `k` joins the open token, or opens one of its own; in neither case does it set `j`. */
  lemma JoinsOpen(ft: FloatText, fields: seq<FieldInfo>, row: Row, k: nat, open: string, j: nat)
    requires GoodNames(fields) && |row| == |fields| && k < |fields|
    requires if open == [] then k != j else Foreign(fields, open, j)
    ensures Foreign(fields, open + Shown(ft, fields[k], row[k]), j)
  {
    var shown := Shown(ft, fields[k], row[k]);
    if open == [] {
      OpenedIsForeign(fields, k, CStr(ValueText(ft, row[k])), j);
      assert open + shown == shown;
    } else {
      ForeignGoesOn(fields, open, shown, j);
    }
  }

  /** The tokens from the text `t` on, which ends with field `k`. */
  function Behind(ft: FloatText, fields: seq<FieldInfo>, row: Row, k: nat, t: string): seq<string>
    requires |row| == |fields| && k < |fields|
  {
    if IsNul(row[k]) then Groups(ft, fields[k + 1..], row[k + 1..], t)
    else [t] + Groups(ft, fields[k + 1..], row[k + 1..], "")
  }

  lemma GroupsStep(ft: FloatText, fields: seq<FieldInfo>, row: Row, k: nat, open: string)
    requires |row| == |fields| && k < |fields|
    ensures Groups(ft, fields[k..], row[k..], open) ==
            if Printed(fields[k].ftype) then Behind(ft, fields, row, k, open + Shown(ft, fields[k], row[k]))
            else Groups(ft, fields[k + 1..], row[k + 1..], open)
  {
    assert fields[k..][1..] == fields[k + 1..] && row[k..][1..] == row[k + 1..];
  }

  /** No token sets field `j`. */
  ghost predicate Untouched(fields: seq<FieldInfo>, tokens: seq<string>, j: nat) {
    forall t :: t in tokens ==> Target(fields, t) != j
  }

  lemma UntouchedCons(fields: seq<FieldInfo>, t: string, rest: seq<string>, j: nat)
    requires Foreign(fields, t, j) && Untouched(fields, rest, j)
    ensures Untouched(fields, [t] + rest, j)
  {
    assert t + "" == t;
  }

  /** Field `i` is a NUL character and `j` is the next field printed. */
  ghost predicate Swallows(fields: seq<FieldInfo>, row: Row, i: nat, j: nat)
    requires |row| == |fields|
  {
    && i < j < |fields| && Printed(fields[i].ftype) && IsNul(row[i])
    && forall m :: i < m < j ==> !Printed(fields[m].ftype)
  }

  /** With field `i` a NUL character and `j` the next printed field, no token sets `j`. */
  lemma {:induction false} SwallowedField(
    ft: FloatText, fields: seq<FieldInfo>, row: Row, k: nat, open: string, i: nat, j: nat)
    requires GoodNames(fields) && |row| == |fields| && k <= |fields| && Swallows(fields, row, i, j)
    requires open == [] || Foreign(fields, open, j)
    requires i < k <= j ==> open != []
    ensures Untouched(fields, Groups(ft, fields[k..], row[k..], open), j)
    decreases |fields| - k, 1
  {
    if k == |fields| {
      if open != [] {
        UntouchedCons(fields, open, [], j);
        assert [open] + [] == [open];
      }
    } else {
      GroupsStep(ft, fields, row, k, open);
      if Printed(fields[k].ftype) {
        JoinsOpen(ft, fields, row, k, open, j);
        SwallowedBehind(ft, fields, row, k, open + Shown(ft, fields[k], row[k]), i, j);
      } else {
        SwallowedField(ft, fields, row, k + 1, open, i, j);
      }
    }
  }

  /** The same behind the text `t` that ends with field `k`. */
  lemma {:induction false} SwallowedBehind(
    ft: FloatText, fields: seq<FieldInfo>, row: Row, k: nat, t: string, i: nat, j: nat)
    requires GoodNames(fields) && |row| == |fields| && k < |fields| && Swallows(fields, row, i, j)
    requires Printed(fields[k].ftype) && t != [] && Foreign(fields, t, j)
    ensures Untouched(fields, Behind(ft, fields, row, k, t), j)
    decreases |fields| - k, 0
  {
    if IsNul(row[k]) {
      SwallowedField(ft, fields, row, k + 1, t, i, j);
    } else {
      SwallowedField(ft, fields, row, k + 1, "", i, j);
      UntouchedCons(fields, t, Groups(ft, fields[k + 1..], row[k + 1..], ""), j);
    }
  }

  /** A value of the same kind that the printed one does not come back as. */
  function Unlike(ft: FloatText, v: Value): (u: Value)
    ensures u != Back(ft, v)
    ensures forall t :: Printed(t) && Fits(t, v) ==> Fits(t, u)
  {
    match v
    case IntVal(n) => IntVal(if n == 0 then 1 else 0)
    case FloatVal(raw) => FloatVal(if ft.parse(ft.show(raw)) == [] then [0] else [])
    case BoolVal(b) => BoolVal(!b)
    case CharVal(c) => CharVal(if c == 'x' then 'y' else 'x')
    case NullStr => NullStr
    case StrVal(_) => NullStr
    case RawVal(bytes) => RawVal(bytes + [0])
  }

  /** The field behind a NUL character keeps what it had. */
  lemma BehindNulIsLost(ft: FloatText, fields: seq<FieldInfo>, row: Row, cap: nat, i: nat, j: nat)
    requires Printable(ft, fields, row, cap) && AllClean(row)
    requires i < j < |fields| && IsNul(row[i]) && Printed(fields[j].ftype)
    requires forall m :: i < m < j ==> !Printed(fields[m].ftype)
    ensures var into := row[j := Unlike(ft, row[j])];
            Conforms(fields, into) && !Restores(ft, fields, row, cap, into)
  {
    var into := row[j := Unlike(ft, row[j])];
    var text := Serialize(ft, fields, row, cap, "").value;
    var tokens := Tokens(text);
    PrintedTokens(ft, fields, row, cap);
    assert fields[0..] == fields && row[0..] == row && Fits(fields[i].ftype, row[i]);
    SwallowedField(ft, fields, row, 0, "", i, j);
    LastForSole(fields, tokens, j);
    ReadingMeaning(ft, fields, into, tokens, j);
    assert Deserialize(ft, fields, into, text)[j] == into[j];
  }

  lemma FirstPrintedAfter(fields: seq<FieldInfo>, i: nat, last: nat) returns (j: nat)
    requires i < last < |fields| && Printed(fields[last].ftype)
    ensures i < j <= last && Printed(fields[j].ftype)
    ensures forall m :: i < m < j ==> !Printed(fields[m].ftype)
  {
    j := i + 1;
    while !Printed(fields[j].ftype)
      invariant i < j <= last
      invariant forall m :: i < m < j ==> !Printed(fields[m].ftype)
      decreases last - j
    {
      j := j + 1;
    }
  }

  // ----- and only clean values survive -----

  lemma {:induction false} TokensAreClean(s: string)
    ensures forall t :: t in Tokens(s) ==> ';' !in t
    decreases |s|
  {
    if s != [] {
      if s[0] == ';' {
        TokensAreClean(s[1..]);
      } else {
        TokensAreClean(s[IndexOf(s, ';')..]);
      }
    }
  }

  lemma ParsedIsClean(ft: FloatText, t: FieldType, val: string, was: Value)
    requires ';' !in val && Printed(t)
    ensures Clean(ParseValue(ft, t, val, was))
  {
  }

  /** Whatever the text, reading puts no separator into an instance that had none. */
  lemma ReadingKeepsClean(ft: FloatText, fields: seq<FieldInfo>, into: Row, text: string, i: nat)
    requires |into| == |fields| && i < |fields| && Clean(into[i])
    ensures Clean(Deserialize(ft, fields, into, text)[i])
  {
    var tokens := Tokens(Copied(text));
    ReadingMeaning(ft, fields, into, tokens, i);
    LastForSole(fields, tokens, i);
    TokensAreClean(Copied(text));
    if LastFor(fields, tokens, i).Some? && Printed(fields[i].ftype) {
      ParsedIsClean(ft, fields[i].ftype, LastFor(fields, tokens, i).value, into[i]);
    }
  }

  function Blank(v: Value): Value {
    match v
    case StrVal(_) => NullStr
    case CharVal(_) => CharVal(' ')
    case _ => v
  }

  function Blanked(row: Row): (r: Row)
    ensures |r| == |row| && forall i :: 0 <= i < |row| ==> r[i] == Blank(row[i])
  {
    seq(|row|, i requires 0 <= i < |row| => Blank(row[i]))
  }

  /** A value containing the separator does not come back into an instance without it. */
  lemma UncleanIsLost(ft: FloatText, fields: seq<FieldInfo>, row: Row, cap: nat, i: nat)
    requires Printable(ft, fields, row, cap) && i < |row| && !Clean(row[i])
    ensures Conforms(fields, Blanked(row)) && !Restores(ft, fields, row, cap, Blanked(row))
  {
    var text := Serialize(ft, fields, row, cap, "").value;
    ReadingKeepsClean(ft, fields, Blanked(row), text, i);
    assert Fits(fields[i].ftype, row[i]) && Printed(fields[i].ftype);
    assert Deserialize(ft, fields, Blanked(row), text)[i] != Back(ft, row[i]);
  }

  /** Main result, exactly.  A printable instance can be restored into every instance of its type if
      and only if no string or character of it contains the separator, and no character is NUL
      except possibly the last field printed. */
  lemma RoundTripExactly(ft: FloatText, fields: seq<FieldInfo>, row: Row, cap: nat)
    requires Printable(ft, fields, row, cap)
    ensures (forall into | Conforms(fields, into) :: Restores(ft, fields, row, cap, into))
            <==> AllClean(row) && NulLast(fields, row)
  {
    if i :| 0 <= i < |row| && !Clean(row[i]) {
      UncleanIsLost(ft, fields, row, cap, i);
    } else if i, last :| 0 <= i < last < |row| && IsNul(row[i]) && Printed(fields[last].ftype) {
      var j := FirstPrintedAfter(fields, i, last);
      BehindNulIsLost(ft, fields, row, cap, i, j);
    } else {
      forall into | Conforms(fields, into)
        ensures Restores(ft, fields, row, cap, into)
      {
        RoundTrip(ft, fields, row, cap, into);
      }
    }
  }

  // ----- the two ways to fail, on concrete instances -----

  /** One token sets one field. */
  lemma ReadsOne(ft: FloatText, fields: seq<FieldInfo>, row: Row, text: string, token: string)
    requires |row| == |fields| && |text| < READ_SIZE && token != [] && ';' !in token && text == token + ";"
    ensures Deserialize(ft, fields, row, text) == Apply(ft, fields, row, token)
  {
    TokenThenRest(token, "");
    assert text == token + ";" + "";
    ApplyFirst(ft, fields, row, token, []);
    assert [token] + [] == [token] && Tokens(text) == [token];
  }

  /** A print of one field. */
  lemma PrintsOne(ft: FloatText, f: FieldInfo, v: Value, cap: nat, sofar: string, text: string)
    requires Printed(f.ftype) && NUL !in text && |text| + 1 < TEMP_SIZE && |sofar| + |text| + 1 < cap
    requires Body(ft, f, v) == text
    ensures Serialize(ft, [f], [v], cap, sofar) == Some(sofar + (text + ";"))
  {
    RendersWhole(ft, f, v);
    assert [f][1..] == [] && [v][1..] == [];
  }

  lemma TwoTokens(a: string, b: string)
    requires a != [] && b != [] && ';' !in a && ';' !in b
    ensures Tokens(a + ";" + (b + ";")) == [a, b]
  {
    TokenThenRest(a, b + ";");
    TokenThenRest(b, "");
    assert b + ";" == b + ";" + "";
  }

  lemma SeparatorPrinted(ft: FloatText)
    ensures Serialize(ft, [FieldInfo("s", TString, 0, 8, None)], [StrVal("a;b")], 16, "") == Some("s=\"a;b\";")
  {
    assert "s" + "=" + ("\"" + "a;b" + "\"") == "s=\"a;b\"";
    PrintsOne(ft, FieldInfo("s", TString, 0, 8, None), StrVal("a;b"), 16, "", "s=\"a;b\"");
    assert "" + ("s=\"a;b\"" + ";") == "s=\"a;b\";";
  }

  lemma SeparatorTokens()
    ensures Tokens("s=\"a;b\";") == ["s=\"a", "b\""]
  {
    TwoTokens("s=\"a", "b\"");
    assert "s=\"a;b\";" == "s=\"a" + ";" + ("b\"" + ";");
  }

  /** A string holding the separator: `a;b` comes back as a quote and an `a`. */
  lemma SeparatorIsLost(ft: FloatText, was: Value)
    ensures var fields := [FieldInfo("s", TString, 0, 8, None)];
            && Serialize(ft, fields, [StrVal("a;b")], 16, "") == Some("s=\"a;b\";")
            && Deserialize(ft, fields, [was], "s=\"a;b\";") == [StrVal("\"a")]
  {
    var fields := [FieldInfo("s", TString, 0, 8, None)];
    SeparatorPrinted(ft);
    SeparatorTokens();
    FirstHalfSets(ft, fields, was);
    assert IndexOf("b\"", '=') == 2;
    ApplyFirst(ft, fields, [was], "s=\"a", ["b\""]);
    ApplyFirst(ft, fields, [StrVal("\"a")], "b\"", []);
    assert ["s=\"a"] + ["b\""] == ["s=\"a", "b\""] && ["b\""] + [] == ["b\""];
  }

  lemma FirstHalfSets(ft: FloatText, fields: seq<FieldInfo>, was: Value)
    requires fields == [FieldInfo("s", TString, 0, 8, None)]
    ensures Apply(ft, fields, [was], "s=\"a") == [StrVal("\"a")]
  {
    TargetOfNamed(fields, 0, "\"a");
    assert "s=\"a" == fields[0].name + "=" + "\"a";
    assert [was][0 := StrVal("\"a")] == [StrVal("\"a")];
  }

  lemma PrintsFreshInt(ft: FloatText)
    ensures Serialize(ft, [FieldInfo("n", TInt, 1, 4, None)], [IntVal(0)], 16, "c=") == Some("c=n=0;")
  {
    assert PrintNat(0) == [Digit(0)] == "0";
    assert "n" + "=" + "0" == "n=0";
    PrintsOne(ft, FieldInfo("n", TInt, 1, 4, None), IntVal(0), 16, "c=", "n=0");
    assert "c=" + ("n=0" + ";") == "c=n=0;";
  }

  lemma PrintsNulFirst(ft: FloatText, c: FieldInfo, n: FieldInfo, v: Value, w: Value)
    requires c == FieldInfo("c", TChar, 0, 1, None) && v == CharVal(NUL)
    ensures Serialize(ft, [c, n], [v, w], 16, "") == Serialize(ft, [n], [w], 16, "c=")
  {
    RendersNul(ft, c);
    SerializeStep(ft, [c, n], [v, w], 0, 16, "");
    assert [c, n][0..] == [c, n] && [v, w][0..] == [v, w] && [c, n][1..] == [n] && [v, w][1..] == [w];
    assert "c" + "=" == "c=" && "" + "c=" == "c=";
  }

  lemma FreshCharPrinted(ft: FloatText)
    ensures Serialize(ft, [FieldInfo("c", TChar, 0, 1, None), FieldInfo("n", TInt, 1, 4, None)],
                      [CharVal(NUL), IntVal(0)], 16, "") == Some("c=n=0;")
  {
    var c, n := FieldInfo("c", TChar, 0, 1, None), FieldInfo("n", TInt, 1, 4, None);
    PrintsFreshInt(ft);
    PrintsNulFirst(ft, c, n, CharVal(NUL), IntVal(0));
  }

  /** The instance the loader leaves for a character and an integer: the character's NUL takes its
      separator away, so the integer's text becomes the character's value. */
  lemma FreshCharIsMisread(ft: FloatText, c: Value, n: Value)
    ensures var fields := [FieldInfo("c", TChar, 0, 1, None), FieldInfo("n", TInt, 1, 4, None)];
            && Serialize(ft, fields, [CharVal(NUL), IntVal(0)], 16, "") == Some("c=n=0;")
            && Deserialize(ft, fields, [c, n], "c=n=0;") == [CharVal('n'), n]
  {
    var fields := [FieldInfo("c", TChar, 0, 1, None), FieldInfo("n", TInt, 1, 4, None)];
    FreshCharPrinted(ft);
    ReadsOne(ft, fields, [c, n], "c=n=0;", "c=n=0");
    FreshTokenSets(ft, fields, c, n);
  }

  lemma FreshTokenSets(ft: FloatText, fields: seq<FieldInfo>, c: Value, n: Value)
    requires fields == [FieldInfo("c", TChar, 0, 1, None), FieldInfo("n", TInt, 1, 4, None)]
    ensures Apply(ft, fields, [c, n], "c=n=0") == [CharVal('n'), n]
  {
    assert fields[0].name != fields[1].name;
    TargetOfNamed(fields, 0, "n=0");
    assert "c=n=0" == fields[0].name + "=" + "n=0";
    assert [c, n][0 := CharVal('n')] == [CharVal('n'), n];
  }
}
