/**
 What the generated Reset methods do. The statements that the generator emits are run on values, and the
 outcome is compared with the reset value that the field's type calls for.
 */
module ResetSemantics {
  import opened Common
  import opened ResetGenerator

  // ---------------------------------------------------------------- values

  /**
   A Go value. Nil is the nil pointer, slice or map. A slice keeps, behind its elements, those between
   its length and its capacity. A struct knows its type and has a value for every declared name, in order
   of declaration. Whatever the generator does not look into is Opaque.
   */
  datatype Value =
    | Bool(b: bool)
    | Text(s: string)
    | Number(n: real)
    | TimeV(ns: int)
    | Nil
    | SliceV(elements: seq<Value>, spare: seq<Value>)
    | MapV(entries: seq<(Value, Value)>)
    | PtrV(to: Value)
    | StructV(typ: string, fields: seq<Value>)
    | Opaque(id: int)

  /** One line of a struct type: the names it declares, none when it embeds a type, and their type. */
  datatype Line = Line(names: seq<string>, typ: Expr)

  /** A struct type marked for generation. */
  datatype Decl = Decl(name: string, lines: seq<Line>)

  function Width(line: Line): (n: nat)
    ensures n > 0
  { if line.names == [] then 1 else |line.names| }

  function FieldCount(lines: seq<Line>): nat { if lines == [] then 0 else Width(lines[0]) + FieldCount(lines[1..]) }

  /** A declared name: its type, and whether it is the first name of its line. */
  datatype Slot = Slot(typ: Expr, leads: bool)

  function Slots(lines: seq<Line>): (slots: seq<Slot>)
    ensures |slots| == FieldCount(lines)
  {
    if lines == [] then []
    else
      seq(Width(lines[0]), i => Slot(lines[0].typ, i == 0 && lines[0].names != [])) + Slots(lines[1..])
  }

  function Structs(pkg: seq<Decl>): (names: seq<string>)
    ensures |names| == |pkg|
    ensures forall i :: 0 <= i < |pkg| ==> names[i] == pkg[i].name
  { seq(|pkg|, i requires 0 <= i < |pkg| => pkg[i].name) }

  /** The lines of the first struct type of that name. */
  function LinesOf(pkg: seq<Decl>, name: string): seq<Line>
    requires name in Structs(pkg)
  {
    if pkg[0].name == name then pkg[0].lines
    else assert Structs(pkg) == [pkg[0].name] + Structs(pkg[1..]); LinesOf(pkg[1..], name)
  }

  /**
   v can stand in a variable of type e. Elements of slices and maps, and values of types that are
   neither primitive nor marked, are not looked at.
   */
  predicate HasType(pkg: seq<Decl>, e: Expr, v: Value)
    decreases v, 1, e
  {
    match e
    case Ident(name) =>
      if name in Structs(pkg) then
        && v.StructV? && v.typ == name
        && FieldsHaveTypes(pkg, Slots(LinesOf(pkg, name)), v.fields)
      else if name == "bool" then v.Bool?
      else if name == "string" then v.Text?
      else IsPrimitive(name) ==> v.Number?
    case Star(x) => v.Nil? || (v.PtrV? && HasType(pkg, x, v.to))
    case Array(fixed, _) => fixed || v.Nil? || v.SliceV?
    case MapType(_, _) => v.Nil? || v.MapV?
    case Selector(_, _) => IsTime(e) ==> v.TimeV?
    case _ => true
  }

  predicate FieldsHaveTypes(pkg: seq<Decl>, slots: seq<Slot>, fields: seq<Value>)
    decreases fields, 0
  {
    && |slots| == |fields|
    && forall i :: 0 <= i < |fields| ==> HasType(pkg, slots[i].typ, fields[i])
  }

  // ---------------------------------------------------------------- running the statements

  /** The value that a literal assigns to a variable now holding v; None when it does not fit. */
  function Assign(literal: string, v: Value): Option<Value> {
    match LiteralKind(literal)
    case Logical => if v.Bool? then Some(Bool(false)) else None
    case Textual => if v.Text? then Some(Text("")) else None
    case Numeric => if v.Number? then Some(Number(0.0)) else None
    case NoKind => None
  }

  /** v[:0], which drops no memory: the elements stay behind the new length. */
  function Cut(v: Value): Option<Value> {
    match v
    case Nil => Some(Nil)
    case SliceV(elements, spare) => Some(SliceV([], elements + spare))
    case _ => None
  }

  function Clear(v: Value): Option<Value> {
    match v
    case Nil => Some(Nil)
    case MapV(_) => Some(MapV([]))
    case _ => None
  }

  function SetTime(v: Value): Option<Value> { if v.TimeV? then Some(TimeV(0)) else None }

  /** The statement that a guarded one runs behind a pointer that is not nil. */
  function Guarded(stmt: Reset): Option<Reset> {
    match stmt
    case ZeroTimePtr => Some(ZeroTime)
    case CallResetPtr => Some(CallReset)
    case TruncatePtr => Some(Truncate)
    case ClearMapPtr => Some(ClearMap)
    case ZeroPtr(literal) => Some(Zero(literal))
    case _ => None
  }

  /** One statement run on the value of its field; None when the statement does not fit the value. */
  function Exec(pkg: seq<Decl>, stmt: Reset, v: Value): Option<Value>
    decreases v, 2
  {
    match Guarded(stmt)
    case Some(inner) =>
      if v.PtrV? then
        var to := Exec(pkg, inner, v.to);
        if to.Some? then Some(PtrV(to.value)) else None
      else if v.Nil? then Some(Nil)
      else None
    case None =>
      if stmt.Nothing? then Some(v)
      else if stmt.ZeroTime? then SetTime(v)
      else if stmt.CallReset? then RunReset(pkg, v)
      else if stmt.Truncate? then Cut(v)
      else if stmt.ClearMap? then Clear(v)
      else Assign(stmt.literal, v)
  }

  /** The generated method of v's type. */
  function RunReset(pkg: seq<Decl>, v: Value): Option<Value>
    decreases v, 1
  {
    if v.StructV? && v.typ in Structs(pkg) then
      var fields := RunBody(pkg, LinesOf(pkg, v.typ), v.fields);
      if fields.Some? then Some(StructV(v.typ, fields.value)) else None
    else None
  }

  /**
   The statements of a body, one for the first name of every line that declares names. They choose
   by the printed type.
   */
  function RunBody(pkg: seq<Decl>, lines: seq<Line>, fields: seq<Value>): Option<seq<Value>>
    decreases fields, 0
  {
    if lines == [] then Some(fields)
    else if |fields| < Width(lines[0]) then None
    else
      var first :=
        if lines[0].names == [] then Some(fields[0])
        else Exec(pkg, Dispatch(Print(lines[0].typ), Structs(pkg)), fields[0]);
      var rest := RunBody(pkg, lines[1..], fields[Width(lines[0])..]);
      if first.Some? && rest.Some? then Some([first.value] + fields[1..Width(lines[0])] + rest.value) else None
  }

  // ---------------------------------------------------------------- what a reset should give

  /** The reset value of a variable of type e that holds v, read off the type. */
  function Blank(pkg: seq<Decl>, e: Expr, v: Value): Value
    decreases v, 1, e
  {
    match e
    case Ident(name) =>
      if name in Structs(pkg) then
        var slots := Slots(LinesOf(pkg, name));
        if v.StructV? && |slots| == |v.fields| then StructV(v.typ, BlankFields(pkg, slots, v.fields)) else v
      else if name == "bool" then Bool(false)
      else if name == "string" then Text("")
      else if IsPrimitive(name) then Number(0.0)
      else v
    case Star(x) => if v.PtrV? && Supported(pkg, x) then PtrV(Blank(pkg, x, v.to)) else v
    case Array(fixed, _) => if !fixed && v.SliceV? then SliceV([], v.elements + v.spare) else v
    case MapType(_, _) => if v.MapV? then MapV([]) else v
    case Selector(_, _) => if IsTime(e) then TimeV(0) else v
    case _ => v
  }

  /** A body resets the names that lead their lines, and leaves the other fields as they are. */
  function BlankFields(pkg: seq<Decl>, slots: seq<Slot>, fields: seq<Value>): (r: seq<Value>)
    requires |slots| == |fields|
    decreases fields, 0
  {
    seq(|fields|, i requires 0 <= i < |fields| =>
      if slots[i].leads then Blank(pkg, slots[i].typ, fields[i]) else fields[i])
  }

  /** The types whose variables are reset, alone or behind one pointer. */
  predicate Supported(pkg: seq<Decl>, e: Expr) {
    match e
    case Ident(name) => name in Structs(pkg) || IsPrimitive(name)
    case Array(fixed, _) => !fixed
    case MapType(_, _) => true
    case Selector(_, _) => IsTime(e)
    case _ => false
  }

  /** Type names are names, and the text of no type that a statement is chosen for misleads. */
  predicate Clean(pkg: seq<Decl>) {
    && AllNames(Structs(pkg))
    && forall d, k :: d in pkg && 0 <= k < |d.lines| && d.lines[k].names != [] ==> CleanType(pkg, d.lines[k].typ)
  }

  predicate CleanType(pkg: seq<Decl>, e: Expr) { WellFormed(e) && !Misread(e, Structs(pkg)) }

  predicate CleanLines(pkg: seq<Decl>, lines: seq<Line>) {
    forall k :: 0 <= k < |lines| && lines[k].names != [] ==> CleanType(pkg, lines[k].typ)
  }

  lemma {:induction false} LinesAreDeclared(pkg: seq<Decl>, name: string)
    requires name in Structs(pkg)
    ensures exists d :: d in pkg && d.lines == LinesOf(pkg, name)
  {
    if pkg[0].name != name {
      assert Structs(pkg) == [pkg[0].name] + Structs(pkg[1..]);
      LinesAreDeclared(pkg[1..], name);
    }
  }

  lemma CleanLinesOf(pkg: seq<Decl>, name: string)
    requires Clean(pkg) && name in Structs(pkg)
    ensures CleanLines(pkg, LinesOf(pkg, name))
  {
    LinesAreDeclared(pkg, name);
  }

  // ---------------------------------------------------------------- the generated code resets

  /** The statement for a pointer runs the statement for what it points at, where there is one. */
  lemma ChooseBehindPointer(pkg: seq<Decl>, x: Expr)
    ensures Supported(pkg, x) ==> Guarded(Choose(Star(x), Structs(pkg))) == Some(Choose(x, Structs(pkg)))
    ensures !Supported(pkg, x) ==> Choose(Star(x), Structs(pkg)) == Nothing
  {
  }

  /** A statement chosen by the type gives a well-typed value the type's reset value. */
  lemma {:induction false} ChosenResets(pkg: seq<Decl>, e: Expr, v: Value)
    requires Clean(pkg) && HasType(pkg, e, v)
    ensures Exec(pkg, Choose(e, Structs(pkg)), v) == Some(Blank(pkg, e, v))
    decreases v, 2
  {
    match e {
      case Ident(name) =>
        if name in Structs(pkg) {
          MethodResets(pkg, name, v);
        }
      case Star(x) =>
        ChooseBehindPointer(pkg, x);
        if v.PtrV? {
          ChosenResets(pkg, x, v.to);
        }
      case _ =>
    }
  }

  lemma {:induction false} MethodResets(pkg: seq<Decl>, name: string, v: Value)
    requires Clean(pkg) && name in Structs(pkg) && HasType(pkg, Ident(name), v)
    ensures RunReset(pkg, v) == Some(Blank(pkg, Ident(name), v))
    decreases v, 1
  {
    CleanLinesOf(pkg, name);
    BodyResets(pkg, LinesOf(pkg, name), v.fields);
  }

  lemma {:induction false} BodyResets(pkg: seq<Decl>, lines: seq<Line>, fields: seq<Value>)
    requires Clean(pkg) && CleanLines(pkg, lines) && FieldsHaveTypes(pkg, Slots(lines), fields)
    ensures RunBody(pkg, lines, fields) == Some(BlankFields(pkg, Slots(lines), fields))
    decreases fields, 0
  {
    if lines != [] {
      var w := Width(lines[0]);
      var rest := fields[w..];
      assert CleanLines(pkg, lines[1..]);
      assert Slots(lines)[0].typ == lines[0].typ && Slots(lines)[w..] == Slots(lines[1..]);
      BodyResets(pkg, lines[1..], rest);
      StatementResets(pkg, lines[0], fields[0]);
      BlankFirstLine(pkg, lines, fields);
    }
  }

  lemma {:induction false} StatementResets(pkg: seq<Decl>, line: Line, v: Value)
    requires line.names != [] ==> CleanType(pkg, line.typ)
    requires Clean(pkg) && HasType(pkg, line.typ, v)
    ensures line.names != [] ==>
      Exec(pkg, Dispatch(Print(line.typ), Structs(pkg)), v) == Some(Blank(pkg, line.typ, v))
    decreases v, 3
  {
    if line.names != [] {
      DispatchAgrees(line.typ, Structs(pkg));
      ChosenResets(pkg, line.typ, v);
    }
  }

  lemma BlankFirstLine(pkg: seq<Decl>, lines: seq<Line>, fields: seq<Value>)
    requires lines != [] && |fields| == FieldCount(lines)
    ensures var w := Width(lines[0]);
      BlankFields(pkg, Slots(lines), fields)
      == [if lines[0].names == [] then fields[0] else Blank(pkg, lines[0].typ, fields[0])]
         + fields[1..w] + BlankFields(pkg, Slots(lines[1..]), fields[w..])
  {
  }

  // ---------------------------------------------------------------- what the reset value is

  /** A statement is generated for variables of type e. */
  predicate Resettable(pkg: seq<Decl>, e: Expr) { Supported(pkg, e) || (e.Star? && Supported(pkg, e.x)) }

  /** v is as good as new: zero, empty, nil or pointing at such a value, in every field that is reset. */
  predicate IsReset(pkg: seq<Decl>, e: Expr, v: Value)
    decreases v, 1, e
  {
    match e
    case Ident(name) =>
      if name in Structs(pkg) then v.StructV? && FieldsAreReset(pkg, Slots(LinesOf(pkg, name)), v.fields)
      else if name == "bool" then v == Bool(false)
      else if name == "string" then v == Text("")
      else IsPrimitive(name) ==> v == Number(0.0)
    case Star(x) => v.PtrV? && Supported(pkg, x) ==> IsReset(pkg, x, v.to)
    case Array(fixed, _) => v.SliceV? && !fixed ==> v.elements == []
    case MapType(_, _) => v.MapV? ==> v.entries == []
    case Selector(_, _) => IsTime(e) ==> v == TimeV(0)
    case _ => true
  }

  predicate FieldsAreReset(pkg: seq<Decl>, slots: seq<Slot>, fields: seq<Value>)
    decreases fields, 0
  {
    && |slots| == |fields|
    && forall i :: 0 <= i < |fields| && slots[i].leads ==> IsReset(pkg, slots[i].typ, fields[i])
  }

  /** Blank gives a reset value of the same type. */
  lemma {:induction false} BlankIsReset(pkg: seq<Decl>, e: Expr, v: Value)
    requires HasType(pkg, e, v)
    ensures HasType(pkg, e, Blank(pkg, e, v)) && IsReset(pkg, e, Blank(pkg, e, v))
    decreases v, e
  {
    match e {
      case Ident(name) =>
        if name in Structs(pkg) {
          var slots := Slots(LinesOf(pkg, name));
          forall i | 0 <= i < |slots|
            ensures HasType(pkg, slots[i].typ, BlankFields(pkg, slots, v.fields)[i])
            ensures slots[i].leads ==> IsReset(pkg, slots[i].typ, BlankFields(pkg, slots, v.fields)[i])
          {
            BlankIsReset(pkg, slots[i].typ, v.fields[i]);
          }
        }
      case Star(x) =>
        if v.PtrV? && Supported(pkg, x) {
          BlankIsReset(pkg, x, v.to);
        }
      case _ =>
    }
  }

  /** The values that a reset leaves alone are exactly the reset ones. */
  lemma {:induction false} OnlyResetValuesStay(pkg: seq<Decl>, e: Expr, v: Value)
    requires HasType(pkg, e, v)
    ensures Blank(pkg, e, v) == v <==> IsReset(pkg, e, v)
    decreases v, e
  {
    match e {
      case Ident(name) =>
        if name in Structs(pkg) {
          var slots := Slots(LinesOf(pkg, name));
          var after := BlankFields(pkg, slots, v.fields);
          forall i | 0 <= i < |slots|
            ensures slots[i].leads ==> (after[i] == v.fields[i] <==> IsReset(pkg, slots[i].typ, v.fields[i]))
          {
            OnlyResetValuesStay(pkg, slots[i].typ, v.fields[i]);
          }
          if FieldsAreReset(pkg, slots, v.fields) {
            assert after == v.fields;
          }
        }
      case Star(x) =>
        if v.PtrV? && Supported(pkg, x) {
          OnlyResetValuesStay(pkg, x, v.to);
        }
      case _ =>
    }
  }

  /**
   Running a generated method on any value of its struct succeeds. It leaves every field that is led by
   its name and has a supported type reset, all the way down; every other field keeps its value, also a
   second name of a line whose type is supported; a second run changes nothing.
   */
  lemma GeneratedResets(pkg: seq<Decl>, name: string, v: Value)
    requires Clean(pkg) && name in Structs(pkg) && HasType(pkg, Ident(name), v)
    ensures RunReset(pkg, v).Some?
    ensures var r := RunReset(pkg, v).value;
      var slots := Slots(LinesOf(pkg, name));
      && |slots| == |v.fields| == |r.fields|
      && HasType(pkg, Ident(name), r)
      && FieldsAreReset(pkg, slots, r.fields)
      && (forall i :: 0 <= i < |slots| && !(slots[i].leads && Resettable(pkg, slots[i].typ)) ==>
            r.fields[i] == v.fields[i])
      && (forall i :: 0 <= i < |slots| ==> (r.fields[i] == Nil <==> v.fields[i] == Nil))
      && RunReset(pkg, r) == Some(r)
  {
    var e := Ident(name);
    MethodResets(pkg, name, v);
    BlankIsReset(pkg, e, v);
    var r := Blank(pkg, e, v);
    OnlyResetValuesStay(pkg, e, r);
    MethodResets(pkg, name, r);
    var slots := Slots(LinesOf(pkg, name));
    forall i | 0 <= i < |slots|
      ensures !(slots[i].leads && Resettable(pkg, slots[i].typ)) ==> r.fields[i] == v.fields[i]
      ensures r.fields[i] == Nil <==> v.fields[i] == Nil
    {
      BlankTouches(pkg, slots[i].typ, v.fields[i]);
    }
  }

  lemma BlankTouches(pkg: seq<Decl>, e: Expr, v: Value)
    requires HasType(pkg, e, v)
    ensures !Resettable(pkg, e) ==> Blank(pkg, e, v) == v
    ensures Blank(pkg, e, v) == Nil <==> v == Nil
  {
  }

  // ---------------------------------------------------------------- exactly when

  /** A value of type e, for types that no statement fits although the text calls for one. */
  function Sample(e: Expr): Value {
    match e
    case Star(x) => PtrV(if x.Array? || x.MapType? || x.Star? then Nil else Opaque(0))
    case Array(fixed, _) => if fixed then Opaque(0) else SliceV([Opaque(0)], [])
    case MapType(_, _) => MapV([(Opaque(0), Opaque(0))])
    case _ => Opaque(0)
  }

  lemma SampleDiffers(pkg: seq<Decl>, e: Expr)
    requires AllNames(Structs(pkg)) && WellFormed(e) && Misread(e, Structs(pkg))
    ensures HasType(pkg, e, Sample(e))
    ensures Exec(pkg, Dispatch(Print(e), Structs(pkg)), Sample(e)) != Some(Blank(pkg, e, Sample(e)))
  {
    DispatchMisread(e, Structs(pkg));
    if MentionsTime(e) {
      TimeSampleDiffers(pkg, e);
    } else {
      MapSampleDiffers(pkg, e);
    }
  }

  lemma TimeSampleDiffers(pkg: seq<Decl>, e: Expr)
    requires Misread(e, Structs(pkg)) && MentionsTime(e)
    ensures HasType(pkg, e, Sample(e))
    ensures Exec(pkg, if e.Star? then ZeroTimePtr else Nothing, Sample(e)) != Some(Blank(pkg, e, Sample(e)))
  {
    PrefixTests("time");
  }

  lemma MapSampleDiffers(pkg: seq<Decl>, e: Expr)
    requires WellFormed(e) && Misread(e, Structs(pkg)) && !MentionsTime(e)
    ensures HasType(pkg, e, Sample(e))
    ensures Exec(pkg, if e.Star? then ClearMapPtr else ClearMap, Sample(e)) != Some(Blank(pkg, e, Sample(e)))
  {
    MapNamesAreNotPrimitive(if e.Star? then e.x else e, Structs(pkg));
  }

  /**
   The statement that the printed type calls for resets every value of the type, exactly when the text
   does not mislead the generator. A []time.Time or map[string]time.Time keeps its contents, and the
   statement for a *time.Timer or a mapset.Set does not fit its field.
   */
  lemma StatementResetsExactly(pkg: seq<Decl>, e: Expr)
    requires Clean(pkg) && WellFormed(e)
    ensures (forall v :: HasType(pkg, e, v) ==>
               Exec(pkg, Dispatch(Print(e), Structs(pkg)), v) == Some(Blank(pkg, e, v)))
            <==> !Misread(e, Structs(pkg))
  {
    DispatchAgrees(e, Structs(pkg));
    if Misread(e, Structs(pkg)) {
      SampleDiffers(pkg, e);
    } else {
      forall v | HasType(pkg, e, v)
        ensures Exec(pkg, Dispatch(Print(e), Structs(pkg)), v) == Some(Blank(pkg, e, v))
      {
        ChosenResets(pkg, e, v);
      }
    }
  }

  const TIME_TYPE: Expr := Selector(Ident("time"), "Time")

  /** The statement for the text of a type, run on a value. */
  function Outcome(pkg: seq<Decl>, e: Expr, v: Value): Option<Value> {
    Exec(pkg, Dispatch(Print(e), Structs(pkg)), v)
  }

  lemma TimesReset(pkg: seq<Decl>, ns: int)
    requires AllNames(Structs(pkg))
    ensures Outcome(pkg, TIME_TYPE, TimeV(ns)) == Some(TimeV(0))
    ensures Outcome(pkg, Star(TIME_TYPE), PtrV(TimeV(ns))) == Some(PtrV(TimeV(0)))
  {
    PrefixTests("time");
    DispatchAgrees(TIME_TYPE, Structs(pkg));
    DispatchAgrees(Star(TIME_TYPE), Structs(pkg));
  }

  lemma SlicesReset(pkg: seq<Decl>, elt: Expr, a: seq<Value>, b: seq<Value>)
    requires AllNames(Structs(pkg)) && WellFormed(elt) && !MentionsTime(elt)
    ensures Outcome(pkg, Array(false, elt), SliceV(a, b)) == Some(SliceV([], a + b))
    ensures Outcome(pkg, Star(Array(false, elt)), PtrV(SliceV(a, b))) == Some(PtrV(SliceV([], a + b)))
  {
    DispatchAgrees(Array(false, elt), Structs(pkg));
    DispatchAgrees(Star(Array(false, elt)), Structs(pkg));
  }

  lemma MapsReset(pkg: seq<Decl>, key: Expr, elt: Expr, entries: seq<(Value, Value)>)
    requires AllNames(Structs(pkg)) && WellFormed(key) && WellFormed(elt) && !MentionsTime(key) && !MentionsTime(elt)
    ensures Outcome(pkg, MapType(key, elt), MapV(entries)) == Some(MapV([]))
    ensures Outcome(pkg, Star(MapType(key, elt)), PtrV(MapV(entries))) == Some(PtrV(MapV([])))
  {
    DispatchAgrees(MapType(key, elt), Structs(pkg));
    DispatchAgrees(Star(MapType(key, elt)), Structs(pkg));
  }

  lemma NumbersReset(pkg: seq<Decl>, typ: string, n: real)
    requires AllNames(Structs(pkg)) && typ !in Structs(pkg) && typ in NUMBERS
    ensures Outcome(pkg, Ident(typ), Number(n)) == Some(Number(0.0))
    ensures Outcome(pkg, Star(Ident(typ)), PtrV(Number(n))) == Some(PtrV(Number(0.0)))
    ensures Outcome(pkg, Star(Ident(typ)), Nil) == Some(Nil)
  {
    PrimitivesAreNames(typ);
    PrefixTests(typ);
    DispatchAgrees(Ident(typ), Structs(pkg));
    DispatchAgrees(Star(Ident(typ)), Structs(pkg));
    assert ZeroLiteral(typ) == "0" by {
      PrimitivesAreThese(typ);
      NotTextual(typ);
    }
  }

  lemma NotTextual(typ: string)
    requires typ in NUMBERS
    ensures typ != "bool" && typ != "string"
  {
  }

  /** Two such types: the elements of a []time.Time stay, and *time.Timer is taken for *time.Time. */
  lemma MisledByTime(pkg: seq<Decl>, elements: seq<Value>, spare: seq<Value>)
    requires AllNames(Structs(pkg))
    ensures var times := Array(false, Selector(Ident("time"), "Time"));
      Exec(pkg, Dispatch(Print(times), Structs(pkg)), SliceV(elements, spare)) == Some(SliceV(elements, spare))
    ensures Dispatch(Print(Star(Selector(Ident("time"), "Timer"))), Structs(pkg)) == ZeroTimePtr
  {
    assert "Timer"[..4] == "Time";
    DispatchMisread(Array(false, Selector(Ident("time"), "Time")), Structs(pkg));
    DispatchMisread(Star(Selector(Ident("time"), "Timer")), Structs(pkg));
  }
}
