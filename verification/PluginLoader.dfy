/** `plugin_data_set`: building type layouts from a plugin's data file and registering them. */
module PluginLoader {
  import opened Common
  import opened Layout
  import opened HeapCore
  import opened HeapKit

  const LOAD_OK := 0
  const LOAD_FAILED := 1

  /** `Overrun` is where an eleventh field would be written behind the ten allocated: what the source
      does from there on is undefined, and the model stops. */
  datatype Outcome = Done(code: int) | Overrun

  datatype Loaded = Loaded(outcome: Outcome, reg: Registry)

  function WithField(info: TypeInfo, name: string, typeWord: string): TypeInfo {
    var f := FieldFor(name, typeWord, info.size);
    TypeInfo(info.name, info.size + f.size, info.fields + [f])
  }

  /** What the remaining lines do to the registry; `cur` is the struct being declared, if any. */
  function Load(reg: Registry, pluginId: nat, lines: seq<Line>, cur: Option<TypeInfo>): Loaded
    decreases |lines|
  {
    if lines == [] then Loaded(Done(LOAD_OK), reg)
    else
      match lines[0]
      case StructLine(name) => Load(reg, pluginId, lines[1..], Some(TypeInfo(name, 0, [])))
      case FieldLine(name, word) =>
        if cur.None? then Load(reg, pluginId, lines[1..], None)
        else if |cur.value.fields| == MAX_FIELDS then Loaded(Overrun, reg)
        else Load(reg, pluginId, lines[1..], Some(WithField(cur.value, name, word)))
      case EndLine =>
        if cur.None? then Load(reg, pluginId, lines[1..], None)
        else if RegisterCode(reg, pluginId, cur.value, true) != HK_OK then Loaded(Done(LOAD_FAILED), reg)
        else Load(Register(reg, pluginId, cur.value, true), pluginId, lines[1..], None)
      case Other => Load(reg, pluginId, lines[1..], cur)
  }

  /** No struct declares more than ten fields; `count` is how many the open one has so far. */
  predicate WithinLimit(lines: seq<Line>, count: Option<nat>)
    decreases |lines|
  {
    if lines == [] then true
    else
      match lines[0]
      case StructLine(_) => WithinLimit(lines[1..], Some(0))
      case FieldLine(_, _) =>
        if count.None? then WithinLimit(lines[1..], None)
        else count.value < MAX_FIELDS && WithinLimit(lines[1..], Some(count.value + 1))
      case EndLine => WithinLimit(lines[1..], None)
      case Other => WithinLimit(lines[1..], count)
  }

  /** A `struct` line: room for the ten fields a type may declare. */
  method NoFields(ghost kit: Kit, ghost name: string) returns (fields: array<FieldInfo>)
    requires kit.Valid()
    ensures kit.Valid() && fresh(fields) && fields.Length == MAX_FIELDS
    ensures Tiled(TypeInfo(name, 0, []))
  {
    fields := new FieldInfo[MAX_FIELDS];
  }

  /** A `field` line inside a struct: fills the next slot and moves the running size on. */
  method DeclareField(ghost kit: Kit, fields: array<FieldInfo>, fieldIndex: nat, fieldName: string, typeWord: string,
                      ghost cur: TypeInfo, offset: nat) returns (size: nat)
    requires kit.Valid() && fieldIndex < fields.Length
    requires Tiled(cur) && cur.fields == fields[..fieldIndex] && cur.size == offset
    modifies fields
    ensures kit.Valid()
    ensures var cur' := WithField(cur, fieldName, typeWord);
            Tiled(cur') && cur'.fields == fields[..fieldIndex + 1] && cur'.size == size
  {
    TiledAppend(cur, fieldName, typeWord);
    fields[fieldIndex] := FieldFor(fieldName, typeWord, offset);
    size := offset + fields[fieldIndex].size;
  }

  /** An `end` line: the declared type is registered. */
  method FinishStruct(kit: Kit, pluginId: nat, info: TypeInfo) returns (code: int)
    requires kit.Valid() && Tiled(info)
    modifies kit
    ensures kit.Valid()
    ensures code == RegisterCode(old(kit.entries), pluginId, info, true)
    ensures kit.entries == Register(old(kit.entries), pluginId, info, true)
  {
    TiledIsDisjoint(info);
    code := kit.TypeRegister(pluginId, Some(info), true, true);
  }

  /** The loop of `plugin_data_set` over the lines of the file. */
  method PluginDataSet(kit: Kit, pluginId: nat, lines: seq<Line>) returns (r: Outcome)
    requires kit.Valid()
    modifies kit
    ensures kit.Valid()
    ensures Loaded(r, kit.entries) == Load(old(kit.entries), pluginId, lines, None)
  {
    var open, name := false, "";
    var size: nat, fieldIndex: nat := 0, 0;
    var fields := NoFields(kit, name);
    ghost var cur: Option<TypeInfo> := None;
    ghost var goal := Load(kit.entries, pluginId, lines, None);
    var i := 0;
    while i < |lines|
      invariant i <= |lines| && kit.Valid()
      invariant fields.Length == MAX_FIELDS && fresh(fields) && fieldIndex <= MAX_FIELDS
      invariant cur == if open then Some(TypeInfo(name, size, fields[..fieldIndex])) else None
      invariant cur.Some? ==> Tiled(cur.value)
      invariant goal == Load(kit.entries, pluginId, lines[i..], cur)
    {
      assert lines[i..][1..] == lines[i + 1..];
      match lines[i] {
        case StructLine(structName) =>
          open, name, size, fieldIndex := true, structName, 0, 0;
          fields := NoFields(kit, name);
          cur := Some(TypeInfo(name, 0, []));
        case FieldLine(fieldName, typeWord) =>
          if open {
            if fieldIndex == MAX_FIELDS {
              return Overrun;
            }
            size := DeclareField(kit, fields, fieldIndex, fieldName, typeWord, cur.value, size);
            fieldIndex := fieldIndex + 1;
            cur := Some(WithField(cur.value, fieldName, typeWord));
          }
        case EndLine =>
          if open {
            var code := FinishStruct(kit, pluginId, TypeInfo(name, size, fields[..fieldIndex]));
            if code != HK_OK {
              return Done(LOAD_FAILED);
            }
            open, fieldIndex, cur := false, 0, None;
          }
        case Other =>
      }
      i := i + 1;
    }
    return Done(LOAD_OK);
  }

  // ----- ten fields are enough, exactly -----

  /** The struct a line belongs to: its name and the number of fields it has so far. */
  datatype OpenStruct = OpenStruct(name: string, count: nat)

  function OpenOf(cur: Option<TypeInfo>): Option<OpenStruct> {
    if cur.Some? then Some(OpenStruct(cur.value.name, |cur.value.fields|)) else None
  }

  /** The names the plugin has registered types under. */
  function NamesOf(reg: Registry, pluginId: nat): set<string> {
    set e | e in reg && e.pluginId == pluginId :: e.info.name
  }

  /** The file has an eleventh field in a struct, and every struct that ends before it has a name not
      in `names` nor used earlier in the file, and a free slot among the 128.  Only names and
      numbers are looked at: `used` is the number of registered types. */
  predicate Overruns(names: set<string>, used: nat, lines: seq<Line>, open: Option<OpenStruct>)
    decreases |lines|
  {
    if lines == [] then false
    else
      match lines[0]
      case StructLine(name) => Overruns(names, used, lines[1..], Some(OpenStruct(name, 0)))
      case FieldLine(_, _) =>
        if open.None? then Overruns(names, used, lines[1..], None)
        else open.value.count == MAX_FIELDS
             || Overruns(names, used, lines[1..], Some(OpenStruct(open.value.name, open.value.count + 1)))
      case EndLine =>
        if open.None? then Overruns(names, used, lines[1..], None)
        else && open.value.name !in names && used < MAX_REGISTERED_TYPES
             && Overruns(names + {open.value.name}, used + 1, lines[1..], None)
      case Other => Overruns(names, used, lines[1..], open)
  }

  lemma NameIsTaken(reg: Registry, pluginId: nat, name: string)
    ensures FindEntry(reg, pluginId, name) < |reg| <==> name in NamesOf(reg, pluginId)
  {
    if e :| e in reg && e.pluginId == pluginId && e.info.name == name {
      assert Keyed(e, pluginId, name);
    }
  }

  lemma RegisterAddsName(reg: Registry, pluginId: nat, info: TypeInfo)
    requires RegisterCode(reg, pluginId, info, true) == HK_OK
    ensures |Register(reg, pluginId, info, true)| == |reg| + 1
    ensures NamesOf(Register(reg, pluginId, info, true), pluginId) == NamesOf(reg, pluginId) + {info.name}
  {
    var entry := Entry(pluginId, info, Zeroes(info.size));
    assert entry in reg + [entry];
  }

  /** Exactly which files make the loader write behind its ten fields, told from the file, the names
      the plugin has registered and the number of types. */
  lemma {:induction false} OverrunsExactly(reg: Registry, pluginId: nat, lines: seq<Line>, cur: Option<TypeInfo>)
    ensures Load(reg, pluginId, lines, cur).outcome.Overrun? <==>
            Overruns(NamesOf(reg, pluginId), |reg|, lines, OpenOf(cur))
    decreases |lines|
  {
    if lines != [] {
      match lines[0] {
        case StructLine(name) =>
          OverrunsExactly(reg, pluginId, lines[1..], Some(TypeInfo(name, 0, [])));
        case FieldLine(name, word) =>
          if cur.None? {
            OverrunsExactly(reg, pluginId, lines[1..], None);
          } else {
            OverrunsExactly(reg, pluginId, lines[1..], Some(WithField(cur.value, name, word)));
          }
        case EndLine =>
          if cur.None? {
            OverrunsExactly(reg, pluginId, lines[1..], None);
          } else {
            NameIsTaken(reg, pluginId, cur.value.name);
            if RegisterCode(reg, pluginId, cur.value, true) == HK_OK {
              RegisterAddsName(reg, pluginId, cur.value);
              OverrunsExactly(Register(reg, pluginId, cur.value, true), pluginId, lines[1..], None);
            }
          }
        case Other =>
          OverrunsExactly(reg, pluginId, lines[1..], cur);
      }
    }
  }

  function CountOf(cur: Option<TypeInfo>): Option<nat> {
    if cur.Some? then Some(|cur.value.fields|) else None
  }

  /** A file that keeps the limit never overruns, whatever it meets, and a file that loads to its end
      has kept the limit. */
  lemma {:induction false} LimitSuffices(reg: Registry, pluginId: nat, lines: seq<Line>, cur: Option<TypeInfo>)
    requires cur.Some? ==> |cur.value.fields| <= MAX_FIELDS
    ensures var outcome := Load(reg, pluginId, lines, cur).outcome;
            outcome != Done(LOAD_FAILED) ==> (outcome.Overrun? <==> !WithinLimit(lines, CountOf(cur)))
    ensures WithinLimit(lines, CountOf(cur)) ==> !Load(reg, pluginId, lines, cur).outcome.Overrun?
    decreases |lines|
  {
    if lines != [] {
      match lines[0] {
        case StructLine(name) =>
          LimitSuffices(reg, pluginId, lines[1..], Some(TypeInfo(name, 0, [])));
        case FieldLine(name, word) =>
          if cur.None? {
            LimitSuffices(reg, pluginId, lines[1..], None);
          } else if |cur.value.fields| != MAX_FIELDS {
            LimitSuffices(reg, pluginId, lines[1..], Some(WithField(cur.value, name, word)));
          }
        case EndLine =>
          if cur.None? {
            LimitSuffices(reg, pluginId, lines[1..], None);
          } else {
            LimitSuffices(Register(reg, pluginId, cur.value, true), pluginId, lines[1..], None);
          }
        case Other =>
          LimitSuffices(reg, pluginId, lines[1..], cur);
      }
    }
  }

  // ----- what is loaded -----

  /** Everything a load adds belongs to the plugin, has a tiled layout and starts zeroed; everything
      that was there stays as it was. */
  lemma {:induction false} LoadedLayoutsTile(reg: Registry, pluginId: nat, lines: seq<Line>, cur: Option<TypeInfo>)
    requires RegistryOk(reg) && (cur.Some? ==> Tiled(cur.value))
    ensures var reg' := Load(reg, pluginId, lines, cur).reg;
            && RegistryOk(reg') && reg <= reg'
            && forall k :: |reg| <= k < |reg'| ==>
                             && reg'[k].pluginId == pluginId && Tiled(reg'[k].info)
                             && reg'[k].bytes == Zeroes(reg'[k].info.size)
    decreases |lines|
  {
    if lines != [] {
      match lines[0] {
        case StructLine(name) =>
          LoadedLayoutsTile(reg, pluginId, lines[1..], Some(TypeInfo(name, 0, [])));
        case FieldLine(name, word) =>
          if cur.None? {
            LoadedLayoutsTile(reg, pluginId, lines[1..], None);
          } else if |cur.value.fields| != MAX_FIELDS {
            TiledAppend(cur.value, name, word);
            LoadedLayoutsTile(reg, pluginId, lines[1..], Some(WithField(cur.value, name, word)));
          }
        case EndLine =>
          if cur.None? {
            LoadedLayoutsTile(reg, pluginId, lines[1..], None);
          } else if RegisterCode(reg, pluginId, cur.value, true) == HK_OK {
            TiledIsDisjoint(cur.value);
            RegisterExtends(reg, pluginId, cur.value, true, pluginId, "");
            LoadedLayoutsTile(Register(reg, pluginId, cur.value, true), pluginId, lines[1..], None);
          }
        case Other =>
          LoadedLayoutsTile(reg, pluginId, lines[1..], cur);
      }
    }
  }

  /** The words of one `field` line. */
  datatype Decl = Decl(name: string, typeWord: string)

  function FieldLines(decls: seq<Decl>): seq<Line> {
    seq(|decls|, i requires 0 <= i < |decls| => FieldLine(decls[i].name, decls[i].typeWord))
  }

  predicate IsSimple(word: string) {
    word == "int" || word == "float" || word == "bool" || word == "char" || word == "string" || word == "ptr"
  }

  /** What a type word means: each of the six simple words its own type and size, and any other the
      struct of that name, which takes no room. */
  ghost predicate Means(word: string, f: FieldInfo) {
    && (word == "int" <==> f.ftype == TInt) && (word == "float" <==> f.ftype == TFloat)
    && (word == "bool" <==> f.ftype == TBool) && (word == "char" <==> f.ftype == TChar)
    && (word == "string" <==> f.ftype == TString) && (word == "ptr" <==> f.ftype == TPtr)
    && (!IsSimple(word) <==> f.ftype == TStruct)
    && f.typeName == (if IsSimple(word) then None else Some(word))
    && f.size == (match f.ftype
                  case TInt => 4 case TFloat => 4 case TBool => 1 case TChar => 1
                  case TString => 8 case TPtr => 8 case _ => 0)
  }

  lemma WordsDiffer()
    ensures "int" != "ptr" && "bool" != "char"
  {
    assert "int"[0] != "ptr"[0] && "bool"[0] != "char"[0];
  }

  lemma WordMeans(name: string, word: string, offset: nat)
    ensures Means(word, FieldFor(name, word, offset))
  {
    WordsDiffer();
    assert |"int"| == 3 && |"float"| == 5 && |"bool"| == 4 && |"char"| == 4 && |"string"| == 6 && |"ptr"| == 3;
  }

  /** The type a struct block declares: its fields in order, each of its declared type, tiled. */
  ghost predicate Declares(info: TypeInfo, name: string, decls: seq<Decl>) {
    && info.name == name && |info.fields| == |decls| && Tiled(info)
    && forall i :: 0 <= i < |decls| ==>
                     info.fields[i].name == decls[i].name && Means(decls[i].typeWord, info.fields[i])
  }

  lemma DeclaresAppend(cur: TypeInfo, before: seq<Decl>, d: Decl)
    requires Declares(cur, cur.name, before)
    ensures Declares(WithField(cur, d.name, d.typeWord), cur.name, before + [d])
  {
    TiledAppend(cur, d.name, d.typeWord);
    WordMeans(d.name, d.typeWord, cur.size);
  }

  lemma FieldLoads(reg: Registry, pluginId: nat, decls: seq<Decl>, rest: seq<Line>, cur: TypeInfo)
    requires decls != []
    ensures Load(reg, pluginId, FieldLines(decls) + rest, Some(cur)) ==
            if |cur.fields| == MAX_FIELDS then Loaded(Overrun, reg)
            else
              Load(reg, pluginId, FieldLines(decls[1..]) + rest,
                   Some(WithField(cur, decls[0].name, decls[0].typeWord)))
  {
    var lines := FieldLines(decls) + rest;
    assert lines[0] == FieldLine(decls[0].name, decls[0].typeWord);
    assert lines[1..] == FieldLines(decls[1..]) + rest;
  }

  lemma Regrouped(before: seq<Decl>, decls: seq<Decl>)
    requires decls != []
    ensures before + decls == before + [decls[0]] + decls[1..]
  {
  }

  lemma NoFieldsLoad(before: seq<Decl>, rest: seq<Line>)
    ensures FieldLines([]) + rest == rest && before + [] == before
  {
  }

  lemma {:induction false} FieldsLoad(reg: Registry, pluginId: nat, decls: seq<Decl>, rest: seq<Line>,
                                      before: seq<Decl>, cur: TypeInfo) returns (info: TypeInfo)
    requires Declares(cur, cur.name, before)
    ensures Declares(info, cur.name, before + decls)
    ensures |before| <= MAX_FIELDS ==>
              Load(reg, pluginId, FieldLines(decls) + rest, Some(cur)) ==
              if |before| + |decls| > MAX_FIELDS then Loaded(Overrun, reg) else Load(reg, pluginId, rest, Some(info))
    decreases |decls|
  {
    if decls == [] {
      NoFieldsLoad(before, rest);
      info := cur;
    } else {
      var d := decls[0];
      DeclaresAppend(cur, before, d);
      FieldLoads(reg, pluginId, decls, rest, cur);
      Regrouped(before, decls);
      info := FieldsLoad(reg, pluginId, decls[1..], rest, before + [d], WithField(cur, d.name, d.typeWord));
    }
  }

  lemma BlockLines(name: string, decls: seq<Decl>, rest: seq<Line>)
    ensures ([StructLine(name)] + FieldLines(decls) + [EndLine] + rest)[1..]
            == FieldLines(decls) + ([EndLine] + rest)
  {
  }

  lemma EndLoads(reg: Registry, pluginId: nat, rest: seq<Line>, info: TypeInfo)
    ensures Load(reg, pluginId, [EndLine] + rest, Some(info)) ==
            if FindEntry(reg, pluginId, info.name) == |reg| < MAX_REGISTERED_TYPES
            then Load(reg + [Entry(pluginId, info, Zeroes(info.size))], pluginId, rest, None)
            else Loaded(Done(LOAD_FAILED), reg)
  {
    assert ([EndLine] + rest)[1..] == rest;
  }

  /** A struct block of at most ten fields registers exactly the type it declares and loading goes on
      behind it, unless the plugin has a type of that name already or the registry is full; then
      loading stops.  A longer block overruns. */
  lemma BlockRegistersItsType(reg: Registry, pluginId: nat, name: string, decls: seq<Decl>, rest: seq<Line>,
                              cur: Option<TypeInfo>) returns (info: TypeInfo)
    ensures Declares(info, name, decls)
    ensures Load(reg, pluginId, [StructLine(name)] + FieldLines(decls) + [EndLine] + rest, cur) ==
            if |decls| > 10 then Loaded(Overrun, reg)
            else if name !in NamesOf(reg, pluginId) && |reg| < 128
            then Load(reg + [Entry(pluginId, info, Zeroes(info.size))], pluginId, rest, None)
            else Loaded(Done(1), reg)
  {
    NameIsTaken(reg, pluginId, name);
    BlockLines(name, decls, rest);
    info := FieldsLoad(reg, pluginId, decls, [EndLine] + rest, [], TypeInfo(name, 0, []));
    assert [] + decls == decls;
    EndLoads(reg, pluginId, rest, info);
  }

  /** A struct still open where the file ends is dropped, and the load succeeds. */
  lemma UnfinishedBlockIsDropped(reg: Registry, pluginId: nat, name: string, decls: seq<Decl>, cur: Option<TypeInfo>)
    requires |decls| <= 10
    ensures Load(reg, pluginId, [StructLine(name)] + FieldLines(decls), cur) == Loaded(Done(0), reg)
  {
    var lines := [StructLine(name)] + FieldLines(decls);
    assert lines[1..] == FieldLines(decls) + [];
    var info := FieldsLoad(reg, pluginId, decls, [], [], TypeInfo(name, 0, []));
    assert [] + decls == decls;
  }

  /** The lines that mean something where they stand: `field` and `end` lines outside a struct, blank
      lines and comments are left out. */
  function Relevant(lines: seq<Line>, inside: bool): seq<Line> {
    if lines == [] then []
    else
      match lines[0]
      case StructLine(_) => [lines[0]] + Relevant(lines[1..], true)
      case FieldLine(_, _) => if inside then [lines[0]] + Relevant(lines[1..], true) else Relevant(lines[1..], false)
      case EndLine => if inside then [lines[0]] + Relevant(lines[1..], false) else Relevant(lines[1..], false)
      case Other => Relevant(lines[1..], inside)
  }

  lemma FirstLine(line: Line, rest: seq<Line>)
    ensures ([line] + rest)[0] == line && ([line] + rest)[1..] == rest
  {
  }

  /** Stray lines change nothing. */
  lemma {:induction false} StrayLinesIgnored(reg: Registry, pluginId: nat, lines: seq<Line>, cur: Option<TypeInfo>)
    ensures Load(reg, pluginId, lines, cur) == Load(reg, pluginId, Relevant(lines, cur.Some?), cur)
    decreases |lines|
  {
    if lines != [] {
      var line, rest := lines[0], lines[1..];
      var next, reg' := After(line, cur), reg;
      if line.EndLine? && cur.Some? {
        reg' := Register(reg, pluginId, cur.value, true);
      }
      StrayLinesIgnored(reg', pluginId, rest, next);
      FirstLine(line, Relevant(rest, next.Some?));
    }
  }

  /** The struct that is open behind a line. */
  function After(line: Line, cur: Option<TypeInfo>): Option<TypeInfo> {
    match line
    case StructLine(name) => Some(TypeInfo(name, 0, []))
    case FieldLine(name, word) => if cur.Some? then Some(WithField(cur.value, name, word)) else None
    case EndLine => None
    case Other => cur
  }
}
