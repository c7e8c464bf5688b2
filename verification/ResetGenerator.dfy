/**
 The generator of Reset methods: it prints the type of a field and chooses the field's statement by
 looking for prefixes and substrings of the printed text. Here that choice is compared with the choice
 made on the type's syntax tree.
 */
module ResetGenerator {
  import opened Strings

  // ---------------------------------------------------------------- types and their text

  /** The type expressions that are printed; Other stands for all that print as nothing. */
  datatype Expr =
    | Ident(name: string)
    | Star(x: Expr)
    | Array(fixed: bool, elt: Expr)
    | MapType(key: Expr, value: Expr)
    | Selector(pkg: Expr, sel: string)
    | Interface
    | Struct
    | Other

  function Print(e: Expr): string {
    match e
    case Ident(name) => name
    case Star(x) => "*" + Print(x)
    case Array(fixed, elt) => (if fixed then "[...]" else "[]") + Print(elt)
    case MapType(key, value) => "map[" + Print(key) + "]" + Print(value)
    case Selector(pkg, sel) => Print(pkg) + "." + sel
    case Interface => "interface{}"
    case Struct => "struct{}"
    case Other => ""
  }

  /** The characters that only the printer puts in; none of them is part of a name. */
  predicate IsMark(c: char) { c == '*' || c == '[' || c == ']' || c == '.' || c == '{' || c == '}' }

  predicate IsName(s: string) { s != "" && forall i :: 0 <= i < |s| ==> !IsMark(s[i]) }

  /** Names are names, and a selector is a package's name and a type's. */
  predicate WellFormed(e: Expr) {
    match e
    case Ident(name) => IsName(name)
    case Star(x) => WellFormed(x)
    case Array(_, elt) => WellFormed(elt)
    case MapType(key, value) => WellFormed(key) && WellFormed(value)
    case Selector(pkg, sel) => pkg.Ident? && IsName(pkg.name) && IsName(sel)
    case _ => true
  }

  // ---------------------------------------------------------------- the statements

  /** The statement generated for a field. */
  datatype Reset =
    | Nothing
    | ZeroTime
    | ZeroTimePtr
    | CallReset
    | CallResetPtr
    | Truncate
    | TruncatePtr
    | ClearMap
    | ClearMapPtr
    | Zero(literal: string)
    | ZeroPtr(literal: string)

  const TIME: string := "time.Time"

  const NUMBERS: seq<string> := [
    "int", "int8", "int16", "int32", "int64",
    "uint", "uint8", "uint16", "uint32", "uint64", "uintptr",
    "float32", "float64", "complex64", "complex128",
    "byte", "rune"]

  predicate IsPrimitive(typ: string) { typ == "bool" || typ == "string" || typ in NUMBERS }

  function ZeroLiteral(typ: string): string {
    if typ == "bool" then "false"
    else if typ == "string" then "\"\""
    else if typ in NUMBERS then "0"
    else "nil"
  }

  /** The kinds of variables that a literal can be assigned to. */
  datatype Kind = Logical | Textual | Numeric | NoKind

  function LiteralKind(literal: string): Kind {
    if literal == "false" then Logical
    else if literal == "\"\"" then Textual
    else if literal == "0" then Numeric
    else NoKind
  }

  function TrimStar(typ: string): string { if HasPrefix(typ, "*") then typ[1..] else typ }

  /** The choice made on the printed type; structs names the package's marked structs. */
  function Dispatch(typ: string, structs: seq<string>): Reset {
    if Contains(typ, TIME) then
      if typ == TIME then ZeroTime
      else if HasPrefix(typ, "*") then ZeroTimePtr
      else Nothing
    else if TrimStar(typ) in structs then
      if HasPrefix(typ, "*") then CallResetPtr else CallReset
    else if HasPrefix(typ, "[]") then Truncate
    else if HasPrefix(typ, "map") then ClearMap
    else if HasPrefix(typ, "*") then
      var base := typ[1..];
      if IsPrimitive(base) then ZeroPtr(ZeroLiteral(base))
      else if HasPrefix(base, "[]") then TruncatePtr
      else if HasPrefix(base, "map") then ClearMapPtr
      else Nothing
    else if IsPrimitive(typ) then Zero(ZeroLiteral(typ))
    else Nothing
  }

  predicate IsTime(e: Expr) { e == Selector(Ident("time"), "Time") }

  /** The choice that the type itself calls for. */
  function Choose(e: Expr, structs: seq<string>): Reset {
    match e
    case Ident(name) =>
      if name in structs then CallReset
      else if IsPrimitive(name) then Zero(ZeroLiteral(name))
      else Nothing
    case Array(fixed, _) => if fixed then Nothing else Truncate
    case MapType(_, _) => ClearMap
    case Selector(_, _) => if IsTime(e) then ZeroTime else Nothing
    case Star(x) =>
      (match x
       case Ident(name) =>
         if name in structs then CallResetPtr
         else if IsPrimitive(name) then ZeroPtr(ZeroLiteral(name))
         else Nothing
       case Array(fixed, _) => if fixed then Nothing else TruncatePtr
       case MapType(_, _) => ClearMapPtr
       case Selector(_, _) => if IsTime(x) then ZeroTimePtr else Nothing
       case _ => Nothing)
    case _ => Nothing
  }

  // ---------------------------------------------------------------- where the two part

  predicate HasSuffix(s: string, suffix: string) { |suffix| <= |s| && s[|s| - |suffix|..] == suffix }

  /** Some selector inside e prints a text with time.Time in it: time.Timer and mytime.Time do. */
  predicate MentionsTime(e: Expr) {
    match e
    case Star(x) => MentionsTime(x)
    case Array(_, elt) => MentionsTime(elt)
    case MapType(key, value) => MentionsTime(key) || MentionsTime(value)
    case Selector(pkg, sel) => pkg.Ident? && HasSuffix(pkg.name, "time") && HasPrefix(sel, "Time")
    case _ => false
  }

  /** e is not a map, but its text begins like one. */
  predicate LooksLikeMap(e: Expr, structs: seq<string>) {
    || (e.Ident? && e.name !in structs && HasPrefix(e.name, "map"))
    || (e.Selector? && e.pkg.Ident? && HasPrefix(e.pkg.name, "map"))
  }

  /** The types that the text misleads the generator about. */
  predicate Misread(e: Expr, structs: seq<string>) {
    if MentionsTime(e) && !IsTime(e) && !(e.Star? && IsTime(e.x)) then
      e.Star? || e.MapType? || (e.Array? && !e.fixed)
    else
      LooksLikeMap(e, structs) || (e.Star? && LooksLikeMap(e.x, structs))
  }

  // ---------------------------------------------------------------- time.Time in the text

  /** A text without c can only occur on one side of c. */
  lemma ContainsAround(a: string, c: char, b: string, sub: string)
    requires sub != "" && c !in sub
    ensures Contains(a + [c] + b, sub) <==> Contains(a, sub) || Contains(b, sub)
  {
    var s := a + [c] + b;
    if Contains(s, sub) {
      var i: nat :| i <= |s| && ContainsAt(s, sub, i);
      ContainedOnOneSide(a, c, b, sub, i);
    }
    if Contains(a, sub) {
      var i: nat :| i <= |a| && ContainsAt(a, sub, i);
      SliceOfConcat(a, [c] + b, i, |sub|);
      assert a + ([c] + b) == s;
      ContainsIn(s, sub, i);
    }
    if Contains(b, sub) {
      var i: nat :| i <= |b| && ContainsAt(b, sub, i);
      SliceOfConcat(a + [c], b, i, |sub|);
      ContainsIn(s, sub, |a| + 1 + i);
    }
  }

  lemma ContainedOnOneSide(a: string, c: char, b: string, sub: string, i: nat)
    requires sub != "" && c !in sub && ContainsAt(a + [c] + b, sub, i)
    ensures Contains(a, sub) || Contains(b, sub)
  {
    var s := a + [c] + b;
    assert forall k :: i <= k < i + |sub| ==> s[k] == sub[k - i];
    assert !(i <= |a| < i + |sub|) by {
      assert s[|a|] == c;
    }
    if i + |sub| <= |a| {
      assert a + ([c] + b) == s;
      SliceOfConcat(a, [c] + b, i, |sub|);
      ContainsIn(a, sub, i);
    } else {
      var k := i - |a| - 1;
      SliceOfConcat(a + [c], b, k, |sub|);
      ContainsIn(b, sub, k);
    }
  }

  lemma NameHasNoTime(s: string)
    requires forall i :: 0 <= i < |s| ==> s[i] != '.'
    ensures !Contains(s, TIME)
  {
    forall i: nat | i <= |s| ensures !ContainsAt(s, TIME, i) {
      assert i + 9 <= |s| ==> s[i..i + 9][4] == s[i + 4];
    }
  }

  /** In a selector the text can only stand around the dot. */
  lemma SelectorTime(pkg: string, sel: string)
    requires IsName(pkg) && IsName(sel)
    ensures Contains(pkg + "." + sel, TIME) <==> HasSuffix(pkg, "time") && HasPrefix(sel, "Time")
  {
    var s := pkg + "." + sel;
    assert TIME == "time" + "." + "Time";
    if Contains(s, TIME) {
      var i: nat :| i <= |s| && ContainsAt(s, TIME, i);
      assert s[i + 4] == s[i..i + |TIME|][4] == '.';
      assert i + 4 == |pkg|;
      assert pkg[i..] == s[i..i + |TIME|][..4] == "time";
      assert sel[..4] == s[i..i + |TIME|][5..] == "Time";
    }
    if HasSuffix(pkg, "time") && HasPrefix(sel, "Time") {
      var i := |pkg| - 4;
      assert s[i..i + |TIME|] == pkg[i..] + "." + sel[..4];
      ContainsIn(s, TIME, i);
    }
  }

  lemma TimeBehindStar(rest: string)
    ensures Contains("*" + rest, TIME) <==> Contains(rest, TIME)
  {
    NameHasNoTime("");
    assert "*" + rest == "" + ['*'] + rest;
    ContainsAround("", '*', rest, TIME);
  }

  lemma TimeInMap(key: string, value: string)
    ensures Contains("map[" + key + "]" + value, TIME) <==> Contains(key, TIME) || Contains(value, TIME)
  {
    NameHasNoTime("map");
    assert "map[" + key + "]" + value == ("map" + ['['] + key) + [']'] + value;
    ContainsAround("map" + ['['] + key, ']', value, TIME);
    ContainsAround("map", '[', key, TIME);
  }

  /** The text of a well-formed type contains time.Time exactly when the type mentions it. */
  lemma {:induction false} TimeInText(e: Expr)
    requires WellFormed(e)
    ensures Contains(Print(e), TIME) <==> MentionsTime(e)
  {
    match e {
      case Ident(name) => NameHasNoTime(name);
      case Star(x) =>
        TimeInText(x);
        TimeBehindStar(Print(x));
      case Array(fixed, elt) =>
        TimeInText(elt);
        TimeBehindBracket(if fixed then "[..." else "[", Print(elt));
        assert Print(e) == (if fixed then "[..." else "[") + [']'] + Print(elt);
      case MapType(key, value) =>
        TimeInText(key);
        TimeInText(value);
        TimeInMap(Print(key), Print(value));
      case Selector(pkg, sel) => SelectorTime(pkg.name, sel);
      case Interface => NameHasNoTime("interface{}");
      case Struct => NameHasNoTime("struct{}");
      case Other => NameHasNoTime("");
    }
  }

  lemma TimeBehindBracket(front: string, rest: string)
    requires front == "[" || front == "[..."
    ensures Contains(front + [']'] + rest, TIME) <==> Contains(rest, TIME)
  {
    ContainsAround(front, ']', rest, TIME);
    assert !Contains(front, TIME) by {
      assert forall i: nat :: i <= |front| ==> !ContainsAt(front, TIME, i);
    }
  }

  // ---------------------------------------------------------------- the shape of the text

  /** The generator's prefix tests, character by character. */
  lemma PrefixTests(s: string)
    ensures HasPrefix(s, "*") <==> |s| >= 1 && s[0] == '*'
    ensures HasPrefix(s, "[]") <==> |s| >= 2 && s[0] == '[' && s[1] == ']'
    ensures HasPrefix(s, "map") <==> |s| >= 3 && s[0] == 'm' && s[1] == 'a' && s[2] == 'p'
  {
    assert |s| >= 1 ==> s[..1] == [s[0]];
    assert |s| >= 2 ==> s[..2] == [s[0], s[1]];
    assert |s| >= 3 ==> s[..3] == [s[0], s[1], s[2]];
  }

  /** What the prefix tests see in the text of a type. */
  lemma TextShape(e: Expr)
    requires WellFormed(e)
    ensures HasPrefix(Print(e), "*") <==> e.Star?
    ensures HasPrefix(Print(e), "[]") <==> e.Array? && !e.fixed
    ensures HasPrefix(Print(e), "map") <==> e.MapType? || LooksLikeMap(e, [])
  {
    PrefixTests(Print(e));
    match e {
      case Selector(pkg, sel) =>
        PrefixTests(pkg.name);
        assert Print(e)[|pkg.name|] == '.';
        assert forall i :: 0 <= i < |pkg.name| ==> Print(e)[i] == pkg.name[i];
      case _ =>
    }
  }

  /** Only identifiers print as names. */
  lemma NamesAreIdents(e: Expr)
    requires WellFormed(e)
    ensures IsName(Print(e)) <==> e.Ident?
    ensures e.Star? ==> Print(e)[1..] == Print(e.x)
  {
    match e {
      case Star(x) => assert Print(e)[0] == '*';
      case Array(fixed, elt) => assert Print(e)[0] == '[';
      case MapType(key, value) => assert Print(e)[3] == '[';
      case Selector(pkg, sel) => assert Print(e)[|pkg.name|] == '.';
      case Interface => assert Print(e)[9] == '{';
      case Struct => assert Print(e)[6] == '{';
      case _ =>
    }
  }

  predicate IsPlain(s: string) { IsName(s) && s[0] != 'm' }

  lemma PrimitivesAreNames(typ: string)
    requires IsPrimitive(typ)
    ensures IsPlain(typ)
  {
    if typ in NUMBERS {
      var k :| 0 <= k < |NUMBERS| && NUMBERS[k] == typ;
      if k < 6 { IntegersArePlain(k); } else if k < 11 { UnsignedArePlain(k); } else { FloatsArePlain(k); }
    } else {
      assert IsPlain("bool") && IsPlain("string");
    }
  }

  lemma IntegersArePlain(k: nat)
    requires k < 6
    ensures IsPlain(NUMBERS[k])
  {
    assert IsPlain("int") && IsPlain("int8") && IsPlain("int16");
    assert IsPlain("int32") && IsPlain("int64") && IsPlain("uint");
  }

  lemma UnsignedArePlain(k: nat)
    requires 6 <= k < 11
    ensures IsPlain(NUMBERS[k])
  {
    assert IsPlain("uint8") && IsPlain("uint16") && IsPlain("uint32");
    assert IsPlain("uint64") && IsPlain("uintptr");
  }

  lemma FloatsArePlain(k: nat)
    requires 11 <= k < |NUMBERS|
    ensures IsPlain(NUMBERS[k])
  {
    assert IsPlain("float32") && IsPlain("float64") && IsPlain("complex64");
    assert IsPlain("complex128") && IsPlain("byte") && IsPlain("rune");
  }

  /** The primitive types, by name. */
  lemma PrimitivesAreThese(typ: string)
    ensures IsPrimitive(typ) <==>
              || typ == "bool" || typ == "string"
              || typ == "int" || typ == "int8" || typ == "int16" || typ == "int32" || typ == "int64"
              || typ == "uint" || typ == "uint8" || typ == "uint16" || typ == "uint32" || typ == "uint64"
              || typ == "uintptr" || typ == "float32" || typ == "float64"
              || typ == "complex64" || typ == "complex128" || typ == "byte" || typ == "rune"
  {
  }

  /** A field of a primitive type is set to false, to the empty text, or to 0. */
  lemma PrimitiveStatement(typ: string, structs: seq<string>)
    requires IsPrimitive(typ) && typ !in structs
    ensures Dispatch(typ, structs)
         == Zero(if typ == "bool" then "false" else if typ == "string" then "\"\"" else "0")
  {
    PrimitivesAreNames(typ);
    NameHasNoTime(typ);
    PrefixTests(typ);
  }

  predicate AllNames(structs: seq<string>) { forall i :: 0 <= i < |structs| ==> IsName(structs[i]) }

  /** What the lookups in the list of structs and of primitives see in the text of a type. */
  lemma TextLookups(e: Expr, structs: seq<string>)
    requires WellFormed(e) && AllNames(structs)
    ensures Print(e) in structs <==> e.Ident? && e.name in structs
    ensures IsPrimitive(Print(e)) <==> e.Ident? && IsPrimitive(e.name)
  {
    NamesAreIdents(e);
    if IsPrimitive(Print(e)) {
      PrimitivesAreNames(Print(e));
    }
  }

  // ---------------------------------------------------------------- the comparison

  /** Types that do not mention time.Time. */
  lemma DispatchWithoutTime(e: Expr, structs: seq<string>)
    requires WellFormed(e) && AllNames(structs) && !MentionsTime(e)
    ensures Dispatch(Print(e), structs) == Choose(e, structs)
            <==> !LooksLikeMap(e, structs) && !(e.Star? && LooksLikeMap(e.x, structs))
  {
    TimeInText(e);
    TextShape(e);
    TextLookups(e, structs);
    NamesAreIdents(e);
    if e.Star? {
      TextShape(e.x);
      TextLookups(e.x, structs);
      StarCases(e, structs);
    } else {
      assert TrimStar(Print(e)) == Print(e);
      NoStarCases(e, structs);
    }
  }

  lemma NoStarCases(e: Expr, structs: seq<string>)
    requires WellFormed(e) && !e.Star? && !MentionsTime(e) && !Contains(Print(e), TIME)
    requires !HasPrefix(Print(e), "*")
    requires HasPrefix(Print(e), "[]") <==> e.Array? && !e.fixed
    requires HasPrefix(Print(e), "map") <==> e.MapType? || LooksLikeMap(e, [])
    requires Print(e) in structs <==> e.Ident? && e.name in structs
    requires IsPrimitive(Print(e)) <==> e.Ident? && IsPrimitive(e.name)
    ensures Dispatch(Print(e), structs) == Choose(e, structs) <==> !LooksLikeMap(e, structs)
  {
    if e.Ident? && IsPrimitive(e.name) {
      PrimitivesAreNames(e.name);
      PrefixTests(e.name);
    }
  }

  lemma StarCases(e: Expr, structs: seq<string>)
    requires WellFormed(e) && e.Star? && !MentionsTime(e) && !Contains(Print(e), TIME)
    requires HasPrefix(Print(e), "*") && !HasPrefix(Print(e), "[]") && !HasPrefix(Print(e), "map")
    requires Print(e)[1..] == Print(e.x)
    requires HasPrefix(Print(e.x), "[]") <==> e.x.Array? && !e.x.fixed
    requires HasPrefix(Print(e.x), "map") <==> e.x.MapType? || LooksLikeMap(e.x, [])
    requires Print(e.x) in structs <==> e.x.Ident? && e.x.name in structs
    requires IsPrimitive(Print(e.x)) <==> e.x.Ident? && IsPrimitive(e.x.name)
    ensures Dispatch(Print(e), structs) == Choose(e, structs) <==> !LooksLikeMap(e.x, structs)
  {
    if e.x.Ident? && IsPrimitive(e.x.name) {
      PrimitivesAreNames(e.x.name);
      PrefixTests(e.x.name);
    }
  }

  /** Types that do. */
  lemma DispatchWithTime(e: Expr, structs: seq<string>)
    requires WellFormed(e) && AllNames(structs) && MentionsTime(e)
    ensures Dispatch(Print(e), structs) == Choose(e, structs)
            <==> IsTime(e) || (e.Star? && IsTime(e.x)) || !(e.Star? || e.MapType? || (e.Array? && !e.fixed))
  {
    TimeInText(e);
    TextShape(e);
    TimeIsTime(e);
    if e.Star? {
      assert Print(e)[0] == '*';
    }
  }

  /** Only the type time.Time itself prints as time.Time. */
  lemma TimeIsTime(e: Expr)
    requires WellFormed(e)
    ensures Print(e) == TIME <==> IsTime(e)
  {
    match e {
      case Ident(name) => assert Print(e) == TIME ==> IsMark(Print(e)[4]);
      case Star(x) => assert Print(e)[0] == '*';
      case Array(fixed, elt) => assert Print(e)[0] == '[';
      case MapType(key, value) => assert Print(e)[0] == 'm';
      case Selector(pkg, sel) =>
        assert Print(pkg) == pkg.name;
        assert Print(e)[|pkg.name|] == '.';
        if Print(e) == TIME {
          assert |pkg.name| == 4;
          assert pkg.name == Print(e)[..4] == "time" && sel == Print(e)[5..] == "Time";
        }
      case Interface => assert Print(e)[0] == 'i';
      case Struct => assert Print(e)[0] == 's';
      case Other =>
    }
  }

  /**
   The choice made on the printed text is the choice the type calls for, exactly when the text does
   not mislead: that is, unless the type mentions time.Time below a pointer, slice or map, or a name
   that begins with map is taken for a map.
   */
  lemma DispatchAgrees(e: Expr, structs: seq<string>)
    requires WellFormed(e) && AllNames(structs)
    ensures Dispatch(Print(e), structs) == Choose(e, structs) <==> !Misread(e, structs)
  {
    if MentionsTime(e) {
      DispatchWithTime(e, structs);
    } else {
      DispatchWithoutTime(e, structs);
    }
  }

  /** What is emitted for a type that the text misleads about. */
  lemma DispatchMisread(e: Expr, structs: seq<string>)
    requires WellFormed(e) && AllNames(structs) && Misread(e, structs)
    ensures MentionsTime(e) ==> Dispatch(Print(e), structs) == if e.Star? then ZeroTimePtr else Nothing
    ensures !MentionsTime(e) ==> Dispatch(Print(e), structs) == if e.Star? then ClearMapPtr else ClearMap
  {
    if MentionsTime(e) {
      TimeInText(e);
      TimeIsTime(e);
      TextShape(e);
    } else if e.Star? {
      MapTaken(e.x, structs);
      TimeInText(e);
      TextShape(e);
      NamesAreIdents(e);
    } else {
      MapTaken(e, structs);
      TimeInText(e);
      TextShape(e);
      assert TrimStar(Print(e)) == Print(e);
    }
  }

  lemma MapTaken(e: Expr, structs: seq<string>)
    requires WellFormed(e) && AllNames(structs) && LooksLikeMap(e, structs)
    ensures HasPrefix(Print(e), "map") && !HasPrefix(Print(e), "[]")
    ensures Print(e) !in structs && !IsPrimitive(Print(e))
  {
    TextShape(e);
    TextLookups(e, structs);
    MapNamesAreNotPrimitive(e, structs);
  }

  lemma MapNamesAreNotPrimitive(e: Expr, structs: seq<string>)
    requires WellFormed(e) && LooksLikeMap(e, structs)
    ensures !(e.Ident? && IsPrimitive(e.name))
  {
    if e.Ident? && IsPrimitive(e.name) {
      PrimitivesAreNames(e.name);
      PrefixTests(e.name);
    }
  }
}
