/**
 The generated text read back and run: a reader of the few forms that statements about a field take, and
 what these forms do in Go. It is independent of how the text is produced and of what the statements are
 said to do.
 */
module ResetReader {
  import opened Common
  import opened Strings
  import opened ResetGenerator
  import opened ResetSemantics
  import opened ResetText
  import Metrics

  // ---------------------------------------------------------------- reading

  /** What a statement is about: the field itself, or what it points at. */
  datatype Target = Field | Pointee

  datatype Action =
    | SetTo(target: Target, literal: string)
    | SetToZeroTime(target: Target)
    | CutToNothing(target: Target)
    | ClearAll(target: Target)
    | CallMethod

  datatype Stmt = Empty | Plain(action: Action) | IfNotNil(action: Action)

  /** The right-hand side of an assignment. */
  function ReadRhs(access: string, target: Target, rhs: string): Action {
    if rhs == "time.Time{}" then SetToZeroTime(target)
    else if target.Field? && rhs == access + "[:0]" then CutToNothing(Field)
    else if target.Pointee? && rhs == "(*" + access + ")[:0]" then CutToNothing(Pointee)
    else SetTo(target, rhs)
  }

  function ReadAction(access: string, text: string): Option<Action> {
    if text == access + ".Reset()" then Some(CallMethod)
    else if text == "clear(" + access + ")" then Some(ClearAll(Field))
    else if text == "clear(*" + access + ")" then Some(ClearAll(Pointee))
    else if HasPrefix(text, access + " = ") then Some(ReadRhs(access, Field, text[|access| + 3..]))
    else if HasPrefix(text, "*" + access + " = ") then Some(ReadRhs(access, Pointee, text[|access| + 4..]))
    else None
  }

  function ReadStatement(access: string, text: string): Option<Stmt> {
    var guard := "if " + access + " != nil {\n\t";
    if text == "" then Some(Empty)
    else if |text| >= |guard| + 2 && HasPrefix(text, guard) && text[|text| - 2..] == "\n}" then
      var action := ReadAction(access, text[|guard|..|text| - 2]);
      if action.Some? then Some(IfNotNil(action.value)) else None
    else
      var action := ReadAction(access, text);
      if action.Some? then Some(Plain(action.value)) else None
  }

  // ---------------------------------------------------------------- running

  /** An assignment of a literal to a variable that holds v. */
  function Store(literal: string, v: Value): Option<Value> {
    match v
    case Bool(_) => if literal == "false" then Some(Bool(false)) else None
    case Text(_) => if literal == "\"\"" then Some(Text("")) else None
    case Number(_) => if literal == "0" then Some(Number(0.0)) else None
    case _ => None
  }

  /** An action other than a call on the variable that holds v. */
  function Change(action: Action, v: Value): Option<Value> {
    match action
    case SetTo(_, literal) => Store(literal, v)
    case SetToZeroTime(_) => if v.TimeV? then Some(TimeV(0)) else None
    case CutToNothing(_) =>
      if v.SliceV? then Some(SliceV([], v.elements + v.spare)) else if v.Nil? then Some(Nil) else None
    case ClearAll(_) => if v.MapV? then Some(MapV([])) else if v.Nil? then Some(Nil) else None
    case CallMethod => None
  }

  function Behind(v: Option<Value>): Option<Value> { if v.Some? then Some(PtrV(v.value)) else None }

  /** A nil pointer that is followed panics; a method is called on the struct or on what the pointer points at. */
  function RunAction(pkg: seq<Decl>, action: Action, v: Value): Option<Value>
    decreases v, 2
  {
    if action.CallMethod? then
      if v.PtrV? then Behind(RunMethod(pkg, v.to)) else RunMethod(pkg, v)
    else if action.target.Field? then Change(action, v)
    else if v.PtrV? then Behind(Change(action, v.to))
    else None
  }

  /** Only pointers, slices and maps can be compared with nil. */
  function RunStatement(pkg: seq<Decl>, stmt: Stmt, v: Value): Option<Value>
    decreases v, 3
  {
    match stmt
    case Empty => Some(v)
    case Plain(action) => RunAction(pkg, action, v)
    case IfNotNil(action) =>
      if v.Nil? then Some(v)
      else if v.PtrV? || v.SliceV? || v.MapV? then RunAction(pkg, action, v)
      else None
  }

  function RunText(pkg: seq<Decl>, access: string, text: string, v: Value): Option<Value>
    decreases v, 4
  {
    var stmt := ReadStatement(access, text);
    if stmt.Some? then RunStatement(pkg, stmt.value, v) else None
  }

  /** The method of v's struct: the texts of its statements, read and run. */
  function RunMethod(pkg: seq<Decl>, v: Value): Option<Value>
    decreases v, 1
  {
    if v.StructV? && v.typ in Structs(pkg) then
      var fields := RunTexts(pkg, LinesOf(pkg, v.typ), v.fields);
      if fields.Some? then Some(StructV(v.typ, fields.value)) else None
    else None
  }

  function RunTexts(pkg: seq<Decl>, lines: seq<Line>, fields: seq<Value>): Option<seq<Value>>
    decreases fields, 0
  {
    if lines == [] then Some(fields)
    else if |fields| < Width(lines[0]) then None
    else
      var first :=
        if lines[0].names == [] then Some(fields[0])
        else
          var field := FieldInfo(lines[0].names[0], Print(lines[0].typ));
          RunText(pkg, "x." + field.name, FieldCode(field, Structs(pkg)), fields[0]);
      var rest := RunTexts(pkg, lines[1..], fields[Width(lines[0])..]);
      if first.Some? && rest.Some? then Some([first.value] + fields[1..Width(lines[0])] + rest.value) else None
  }

  // ---------------------------------------------------------------- what is read

  /** The action that an unguarded statement stands for, or a guarded one behind its guard. */
  function ActionOf(target: Target, stmt: Reset): Action
    requires Guarded(stmt).None? && !stmt.Nothing?
  {
    match stmt
    case ZeroTime => SetToZeroTime(target)
    case CallReset => CallMethod
    case Truncate => CutToNothing(target)
    case ClearMap => ClearAll(target)
    case Zero(literal) => SetTo(target, literal)
  }

  function StmtOf(stmt: Reset): Stmt {
    match Guarded(stmt)
    case Some(inner) => IfNotNil(ActionOf(Pointee, inner))
    case None => if stmt.Nothing? then Empty else Plain(ActionOf(Field, stmt))
  }

  function TargetText(access: string, target: Target): string { if target.Field? then access else "*" + access }

  /** The right-hand sides that are generated. */
  function Rhs(access: string, target: Target, stmt: Reset): string
    requires Assigns(stmt)
  {
    match stmt
    case ZeroTime => "time.Time{}"
    case Truncate => if target.Field? then access + "[:0]" else "(*" + access + ")[:0]"
    case Zero(literal) => literal
  }

  lemma CutText(left: string, access: string)
    ensures left + " = " + access + "[:0]" == left + " = " + (access + "[:0]")
    ensures left + " = " + ("(" + ("*" + access) + ")") + "[:0]" == left + " = " + ("(*" + access + ")[:0]")
  {
    assert "(" + ("*" + access) + ")" + "[:0]" == "(*" + access + ")[:0]";
  }

  lemma AssignmentText(access: string, target: Target, stmt: Reset)
    requires Assigns(stmt)
    ensures Unguarded(access, TargetText(access, target), stmt)
         == TargetText(access, target) + " = " + Rhs(access, target, stmt)
  {
    if stmt.Truncate? {
      CutText(TargetText(access, target), access);
    }
  }

  lemma ReadsRhs(access: string, target: Target, stmt: Reset)
    requires access != "" && access[0] == 'x' && Emitted(stmt) && Assigns(stmt)
    ensures ReadRhs(access, target, Rhs(access, target, stmt)) == ActionOf(target, stmt)
  {
    var rhs := Rhs(access, target, stmt);
    assert (access + "[:0]")[0] == 'x' && ("(*" + access + ")[:0]")[0] == '(' && "time.Time{}"[0] == 't';
  }

  lemma ReadsAssignment(access: string, target: Target, rhs: string)
    requires access != "" && access[0] == 'x'
    ensures ReadAction(access, TargetText(access, target) + " = " + rhs) == Some(ReadRhs(access, target, rhs))
  {
    var left := TargetText(access, target) + " = ";
    var text := left + rhs;
    assert text[..|left|] == left && text[|left|..] == rhs;
    assert text[0] == if target.Field? then 'x' else '*';
    if target.Field? {
      assert text[|access|] == ' ' && (access + ".Reset()")[|access|] == '.';
    } else {
      assert (access + " = ")[0] == 'x' && (access + ".Reset()")[0] == 'x';
      FirstOfPrefix(text, access + " = ");
    }
    assert ("clear(" + access + ")")[0] == 'c' && ("clear(*" + access + ")")[0] == 'c';
  }

  lemma ReadsUnguarded(access: string, target: Target, stmt: Reset)
    requires access != "" && access[0] == 'x' && Emitted(stmt) && Guarded(stmt).None? && !stmt.Nothing?
    ensures ReadAction(access, Unguarded(access, TargetText(access, target), stmt)) == Some(ActionOf(target, stmt))
  {
    if Assigns(stmt) {
      AssignmentText(access, target, stmt);
      ReadsAssignment(access, target, Rhs(access, target, stmt));
      ReadsRhs(access, target, stmt);
    } else if stmt.ClearMap? {
      assert ("clear(" + access + ")")[0] == 'c' && (access + ".Reset()")[0] == 'x';
      assert "clear(" + ("*" + access) + ")" == "clear(*" + access + ")";
      assert ("clear(*" + access + ")")[0] == 'c';
      assert |"clear(*" + access + ")"| == |"clear(" + access + ")"| + 1;
    }
  }

  /** Reading what was generated gives the statement that was meant, for every field and every statement. */
  lemma ReadsCode(access: string, stmt: Reset)
    requires access != "" && access[0] == 'x' && Emitted(stmt)
    ensures ReadStatement(access, Code(access, stmt)) == Some(StmtOf(stmt))
  {
    match Guarded(stmt) {
      case Some(inner) =>
        ReadsUnguarded(access, Pointee, inner);
        ReadsGuard(access, Unguarded(access, "*" + access, inner));
      case None =>
        if !stmt.Nothing? {
          ReadsUnguarded(access, Field, stmt);
          UnguardedFirstIsNoGuard(access, stmt);
          NoGuard(access, Code(access, stmt));
        }
    }
  }

  lemma ReadsGuard(access: string, inner: string)
    requires ReadAction(access, inner).Some?
    ensures ReadStatement(access, "if " + access + " != nil {\n\t" + inner + "\n}")
         == Some(IfNotNil(ReadAction(access, inner).value))
  {
    var guard := "if " + access + " != nil {\n\t";
    var text := guard + inner + "\n}";
    assert text[..|guard|] == guard && text[|text| - 2..] == "\n}" && text[|guard|..|text| - 2] == inner;
  }

  lemma NoGuard(access: string, text: string)
    requires text != "" && text[0] != 'i' && ReadAction(access, text).Some?
    ensures ReadStatement(access, text) == Some(Plain(ReadAction(access, text).value))
  {
    var guard := "if " + access + " != nil {\n\t";
    assert guard[0] == 'i';
    FirstOfPrefix(text, guard);
  }

  // ---------------------------------------------------------------- what is run

  lemma PlainRuns(pkg: seq<Decl>, stmt: Reset, v: Value)
    requires Emitted(stmt) && Guarded(stmt).None? && !stmt.CallReset? && !stmt.Nothing?
    ensures Change(ActionOf(Field, stmt), v) == Change(ActionOf(Pointee, stmt), v) == Exec(pkg, stmt, v)
  {
  }

  /** The calls that the statement makes do what the methods are said to do. */
  predicate CallsAgree(pkg: seq<Decl>, stmt: Reset, v: Value) {
    && (stmt.CallReset? ==> !v.PtrV? && RunMethod(pkg, v) == RunReset(pkg, v))
    && (stmt.CallResetPtr? && v.PtrV? ==> RunMethod(pkg, v.to) == RunReset(pkg, v.to))
  }

  lemma StatementRuns(pkg: seq<Decl>, stmt: Reset, v: Value)
    requires Emitted(stmt) && CallsAgree(pkg, stmt, v)
    ensures RunStatement(pkg, StmtOf(stmt), v) == Exec(pkg, stmt, v)
  {
    if Guarded(stmt).Some? {
      GuardedRuns(pkg, stmt, Guarded(stmt).value, v);
    } else if !stmt.CallReset? && !stmt.Nothing? {
      PlainRuns(pkg, stmt, v);
    }
  }

  lemma GuardedRuns(pkg: seq<Decl>, stmt: Reset, inner: Reset, v: Value)
    requires Emitted(stmt) && Guarded(stmt) == Some(inner) && CallsAgree(pkg, stmt, v)
    ensures RunStatement(pkg, IfNotNil(ActionOf(Pointee, inner)), v) == Exec(pkg, stmt, v)
  {
    if v.PtrV? {
      if inner.CallReset? {
        assert Exec(pkg, inner, v.to) == RunReset(pkg, v.to);
        assert RunAction(pkg, CallMethod, v) == Behind(RunReset(pkg, v.to));
      } else {
        PlainRuns(pkg, inner, v.to);
        assert RunAction(pkg, ActionOf(Pointee, inner), v) == Behind(Exec(pkg, inner, v.to));
      }
    } else if !v.Nil? {
      assert RunAction(pkg, ActionOf(Pointee, inner), v) == None || v.StructV?;
    }
  }

  /** The text of a statement, read and run, does what the statement is said to do. */
  lemma TextRuns(pkg: seq<Decl>, access: string, stmt: Reset, v: Value)
    requires access != "" && access[0] == 'x' && Emitted(stmt) && CallsAgree(pkg, stmt, v)
    ensures RunText(pkg, access, Code(access, stmt), v) == Exec(pkg, stmt, v)
  {
    ReadsCode(access, stmt);
    StatementRuns(pkg, stmt, v);
  }

  // ---------------------------------------------------------------- whole methods

  /** Only a field whose type is a marked struct gets an unguarded call, and it holds no pointer. */
  lemma CalledFieldIsStruct(pkg: seq<Decl>, e: Expr, v: Value)
    requires WellFormed(e) && AllNames(Structs(pkg)) && HasType(pkg, e, v)
    ensures Dispatch(Print(e), Structs(pkg)).CallReset? ==> e.Ident? && e.name in Structs(pkg) && v.StructV?
    ensures Dispatch(Print(e), Structs(pkg)).CallResetPtr? ==> e.Star? && e.x.Ident? && e.x.name in Structs(pkg)
  {
    TextLookups(e, Structs(pkg));
    TextShape(e);
    NamesAreIdents(e);
    if e.Star? {
      TextLookups(e.x, Structs(pkg));
    }
  }

  /** What the generator writes for a field of whatever name and type, read and run, is its statement. */
  lemma FieldTextRuns(pkg: seq<Decl>, name: string, typ: string, v: Value)
    requires CallsAgree(pkg, Dispatch(typ, Structs(pkg)), v)
    ensures RunText(pkg, "x." + name, FieldCode(FieldInfo(name, typ), Structs(pkg)), v)
         == Exec(pkg, Dispatch(typ, Structs(pkg)), v)
  {
    DispatchEmits(typ, Structs(pkg));
    TextRuns(pkg, "x." + name, Dispatch(typ, Structs(pkg)), v);
  }

  /** For well-typed values the calls, too, do what the methods are said to do. */
  lemma {:induction false} FieldCodeRuns(pkg: seq<Decl>, name: string, e: Expr, v: Value)
    requires Clean(pkg) && CleanType(pkg, e) && HasType(pkg, e, v)
    ensures RunText(pkg, "x." + name, FieldCode(FieldInfo(name, Print(e)), Structs(pkg)), v)
         == Exec(pkg, Dispatch(Print(e), Structs(pkg)), v)
    decreases v, 4
  {
    var stmt := Dispatch(Print(e), Structs(pkg));
    CalledFieldIsStruct(pkg, e, v);
    if stmt.CallReset? {
      MethodRuns(pkg, e.name, v);
    } else if stmt.CallResetPtr? && v.PtrV? {
      MethodRuns(pkg, e.x.name, v.to);
    }
    FieldTextRuns(pkg, name, Print(e), v);
  }

  /** The texts of a generated method, read and run, are the method; so all that is said of it holds of them. */
  lemma {:induction false} MethodRuns(pkg: seq<Decl>, name: string, v: Value)
    requires Clean(pkg) && name in Structs(pkg) && HasType(pkg, Ident(name), v)
    ensures RunMethod(pkg, v) == RunReset(pkg, v) == Some(Blank(pkg, Ident(name), v))
    decreases v, 1
  {
    CleanLinesOf(pkg, name);
    BodyRuns(pkg, LinesOf(pkg, name), v.fields);
    MethodResets(pkg, name, v);
  }

  lemma {:induction false} BodyRuns(pkg: seq<Decl>, lines: seq<Line>, fields: seq<Value>)
    requires Clean(pkg) && CleanLines(pkg, lines) && FieldsHaveTypes(pkg, Slots(lines), fields)
    ensures RunTexts(pkg, lines, fields) == RunBody(pkg, lines, fields)
    decreases fields, 0
  {
    if lines != [] {
      var w := Width(lines[0]);
      assert CleanLines(pkg, lines[1..]);
      assert Slots(lines)[0].typ == lines[0].typ && Slots(lines)[w..] == Slots(lines[1..]);
      BodyRuns(pkg, lines[1..], fields[w..]);
      if lines[0].names != [] {
        assert CleanType(pkg, lines[0].typ) && HasType(pkg, Slots(lines)[0].typ, fields[0]);
        FieldCodeRuns(pkg, lines[0].names[0], lines[0].typ, fields[0]);
      }
    }
  }

  // ---------------------------------------------------------------- the agent's record

  /** The struct type MemoryMetrics: thirty float64 fields and the slice of the CPUs. */
  const RECORD_LINES: seq<Line> :=
    seq(Metrics.SCALARS, f requires 0 <= f < Metrics.SCALARS => Line([Metrics.FieldName(f)], Ident("float64")))
    + [Line(["CPUutilization"], Array(false, Ident("float64")))]

  const RECORD: seq<Decl> := [Decl("MemoryMetrics", RECORD_LINES)]

  lemma {:induction false} SlotsOfSingles(lines: seq<Line>)
    requires forall i :: 0 <= i < |lines| ==> |lines[i].names| == 1
    ensures |Slots(lines)| == |lines|
    ensures forall i :: 0 <= i < |lines| ==> Slots(lines)[i] == Slot(lines[i].typ, true)
  {
    if lines != [] {
      SlotsOfSingles(lines[1..]);
      forall i | 0 < i < |lines| ensures Slots(lines)[i] == Slot(lines[i].typ, true) {
        assert Slots(lines)[i] == Slots(lines[1..])[i - 1];
      }
    }
  }

  lemma RecordIsClean()
    ensures Clean(RECORD) && Structs(RECORD) == ["MemoryMetrics"] && LinesOf(RECORD, "MemoryMetrics") == RECORD_LINES
    ensures IsPrimitive("float64")
  {
    PrimitivesAreThese("float64");
    PrefixTests("float64");
    assert IsName("MemoryMetrics") && IsName("float64");
    assert !MentionsTime(Ident("float64")) && !MentionsTime(Array(false, Ident("float64")));
  }

  /** What the method generated for it does: all thirty numbers become 0, and the slice has length 0. */
  lemma RecordResets(numbers: seq<real>, cpu: Value)
    requires |numbers| == Metrics.SCALARS && (cpu.Nil? || cpu.SliceV?)
    ensures var fields := seq(Metrics.SCALARS, f requires 0 <= f < Metrics.SCALARS => Number(numbers[f])) + [cpu];
            RunMethod(RECORD, StructV("MemoryMetrics", fields)) ==
              Some(StructV("MemoryMetrics", seq(Metrics.SCALARS, f => Number(0.0))
                           + [if cpu.Nil? then Nil else SliceV([], cpu.elements + cpu.spare)]))
  {
    var fields := seq(Metrics.SCALARS, f requires 0 <= f < Metrics.SCALARS => Number(numbers[f])) + [cpu];
    var v := StructV("MemoryMetrics", fields);
    RecordIsClean();
    SlotsOfSingles(RECORD_LINES);
    var slots := Slots(RECORD_LINES);
    RecordIsTyped(v);
    MethodRuns(RECORD, "MemoryMetrics", v);
    assert BlankFields(RECORD, slots, fields)
        == seq(Metrics.SCALARS, f => Number(0.0)) + [if cpu.Nil? then Nil else SliceV([], cpu.elements + cpu.spare)];
  }

  lemma RecordIsTyped(v: Value)
    requires v.StructV? && v.typ == "MemoryMetrics" && |v.fields| == Metrics.SCALARS + 1
    requires forall f :: 0 <= f < Metrics.SCALARS ==> v.fields[f].Number?
    requires v.fields[Metrics.SCALARS].Nil? || v.fields[Metrics.SCALARS].SliceV?
    ensures HasType(RECORD, Ident("MemoryMetrics"), v)
  {
    RecordIsClean();
    SlotsOfSingles(RECORD_LINES);
    var slots := Slots(RECORD_LINES);
    forall i | 0 <= i < |slots| ensures HasType(RECORD, slots[i].typ, v.fields[i]) {
      assert slots[i].typ == if i < Metrics.SCALARS then Ident("float64") else Array(false, Ident("float64"));
    }
  }
}
