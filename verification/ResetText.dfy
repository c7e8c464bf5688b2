/**
 The text of the generated Reset methods: each statement is rendered, its lines are indented, and the
 statements are joined into a body.
 */
module ResetText {
  import opened Strings
  import opened ResetGenerator
  import opened ResetSemantics

  const NL: char := '\n'

  // ---------------------------------------------------------------- collecting the fields

  /** A field that a statement is generated for: its name and its printed type. */
  datatype FieldInfo = FieldInfo(name: string, typ: string)

  /** The fields of a struct: the first name of every line that declares names. */
  function Fields(lines: seq<Line>): seq<FieldInfo> {
    if lines == [] then []
    else
      (if lines[0].names == [] then [] else [FieldInfo(lines[0].names[0], Print(lines[0].typ))]) + Fields(lines[1..])
  }

  lemma {:induction false} FieldsPush(lines: seq<Line>, line: Line)
    ensures Fields(lines + [line]) == Fields(lines) + Fields([line])
  {
    if lines == [] {
      assert lines + [line] == [line];
    } else {
      assert (lines + [line])[1..] == lines[1..] + [line];
      FieldsPush(lines[1..], line);
    }
  }

  /** index names, in order, exactly the lines that declare names; each gives a field its first name and its type. */
  ghost predicate Declares(lines: seq<Line>, fields: seq<FieldInfo>, index: seq<nat>) {
    && |index| == |fields|
    && (forall k, l :: 0 <= k < l < |index| ==> index[k] < index[l])
    && (forall k :: 0 <= k < |index| ==>
          && index[k] < |lines| && lines[index[k]].names != []
          && fields[k].name == lines[index[k]].names[0] && fields[k].typ == Print(lines[index[k]].typ))
    && (forall i :: 0 <= i < |lines| && lines[i].names != [] ==> i in index)
  }

  lemma {:induction false} DeclaresMore(lines: seq<Line>, fields: seq<FieldInfo>, index: seq<nat>, line: Line)
    requires Declares(lines, fields, index)
    ensures line.names == [] ==> Declares(lines + [line], fields, index)
    ensures line.names != [] ==>
              Declares(lines + [line], fields + [FieldInfo(line.names[0], Print(line.typ))], index + [|lines|])
  {
    var more, longer := lines + [line], index + [|lines|];
    assert forall k :: 0 <= k < |index| ==> more[index[k]] == lines[index[k]] && longer[k] == index[k];
    assert longer[|index|] == |lines|;
    forall i | 0 <= i < |more| && more[i].names != [] ensures i in longer {
      if i < |lines| {
        assert lines[i].names != [] && i in index;
      }
    }
  }

  lemma {:induction false} FieldsAreDeclared(lines: seq<Line>) returns (index: seq<nat>)
    ensures Declares(lines, Fields(lines), index)
  {
    if lines == [] {
      index := [];
    } else {
      var n := |lines| - 1;
      index := FieldsAreDeclared(lines[..n]);
      assert lines == lines[..n] + [lines[n]];
      FieldsPush(lines[..n], lines[n]);
      DeclaresMore(lines[..n], Fields(lines[..n]), index, lines[n]);
      if lines[n].names != [] {
        index := index + [n];
      }
    }
  }

  method CollectFields(lines: seq<Line>) returns (fields: seq<FieldInfo>)
    ensures fields == Fields(lines)
    ensures exists index :: Declares(lines, fields, index)
  {
    ghost var declared := FieldsAreDeclared(lines);
    fields := [];
    for i := 0 to |lines|
      invariant fields == Fields(lines[..i])
    {
      assert lines[..i + 1] == lines[..i] + [lines[i]];
      FieldsPush(lines[..i], lines[i]);
      if lines[i].names != [] {
        fields := fields + [FieldInfo(lines[i].names[0], Print(lines[i].typ))];
      }
    }
    assert lines[..|lines|] == lines;
  }

  // ---------------------------------------------------------------- the text of a statement

  function Unguarded(access: string, target: string, stmt: Reset): string {
    match stmt
    case ZeroTime => target + " = time.Time{}"
    case CallReset => access + ".Reset()"
    case Truncate => target + " = " + (if target == access then access else "(" + target + ")") + "[:0]"
    case ClearMap => "clear(" + target + ")"
    case Zero(literal) => target + " = " + literal
    case _ => ""
  }

  function Code(access: string, stmt: Reset): string {
    match Guarded(stmt)
    case Some(inner) => "if " + access + " != nil {\n\t" + Unguarded(access, "*" + access, inner) + "\n}"
    case None => Unguarded(access, access, stmt)
  }

  function FieldCode(field: FieldInfo, structs: seq<string>): string {
    Code("x." + field.name, Dispatch(field.typ, structs))
  }

  // ---------------------------------------------------------------- the text tells the statement

  /** The statements that are emitted: the literals are those of the primitive types. */
  predicate Emitted(stmt: Reset) {
    (stmt.Zero? || stmt.ZeroPtr?) ==> stmt.literal == "0" || stmt.literal == "false" || stmt.literal == "\"\""
  }

  lemma DispatchEmits(typ: string, structs: seq<string>)
    ensures Emitted(Dispatch(typ, structs))
  {
  }

  lemma SamePrefix(p: string, a: string, b: string)
    requires p + a == p + b
    ensures a == b
  {
    assert a == (p + a)[|p|..];
    assert b == (p + b)[|p|..];
  }

  /** The right-hand side of an assignment begins with a character that tells which one it is. */
  function Mark(target: string, access: string, stmt: Reset): char
    requires Emitted(stmt) && (stmt.ZeroTime? || stmt.Truncate? || stmt.Zero?)
  {
    match stmt
    case ZeroTime => 't'
    case Truncate => if target == access then 'x' else '('
    case Zero(literal) => literal[0]
  }

  predicate Assigns(stmt: Reset) { stmt.ZeroTime? || stmt.Truncate? || stmt.Zero? }

  lemma AssignmentMark(access: string, target: string, stmt: Reset)
    requires access != "" && access[0] == 'x' && (target == access || target == "*" + access)
    requires Emitted(stmt) && Assigns(stmt)
    ensures var text := Unguarded(access, target, stmt);
      |text| > |target| + 3 && text[..|target|] == target && text[|target|] == ' '
      && text[|target| + 3] == Mark(target, access, stmt)
  {
  }

  lemma UnguardedTells(access: string, target: string, r: Reset, s: Reset)
    requires access != "" && access[0] == 'x' && (target == access || target == "*" + access)
    requires Emitted(r) && Emitted(s) && Guarded(r).None? && Guarded(s).None?
    requires Unguarded(access, target, r) == Unguarded(access, target, s)
    ensures r == s
  {
    if Assigns(r) {
      AssignmentMark(access, target, r);
    }
    if Assigns(s) {
      AssignmentMark(access, target, s);
    }
    UnguardedFirst(access, target, r);
    UnguardedFirst(access, target, s);
  }

  lemma UnguardedFirst(access: string, target: string, stmt: Reset)
    requires access != "" && access[0] == 'x' && Guarded(stmt).None?
    ensures var text := Unguarded(access, target, stmt);
      && (stmt.Nothing? ==> text == "")
      && (stmt.ClearMap? ==> |text| > 0 && text[0] == 'c')
      && (stmt.CallReset? ==> |text| > |access| && text[0] == 'x' && text[|access|] == '.')
  {
  }

  lemma GuardTells(front: string, back: string, x: string, y: string)
    requires front + x + back == front + y + back
    ensures x == y
  {
    assert front + x + back == front + (x + back) && front + y + back == front + (y + back);
    SamePrefix(front, x + back, y + back);
    assert x == (x + back)[..|x|] && y == (y + back)[..|y|];
  }

  /** Different statements have different texts: the text determines the statement. */
  lemma CodeTellsStatement(access: string, r: Reset, s: Reset)
    requires access != "" && access[0] == 'x'
    requires Emitted(r) && Emitted(s) && Code(access, r) == Code(access, s)
    ensures r == s
  {
    UnguardedFirstIsNoGuard(access, r);
    UnguardedFirstIsNoGuard(access, s);
    if Guarded(r).None? && Guarded(s).None? {
      UnguardedTells(access, access, r, s);
    } else {
      var x, y := Guarded(r).value, Guarded(s).value;
      GuardTells("if " + access + " != nil {\n\t", "\n}", Unguarded(access, "*" + access, x),
                 Unguarded(access, "*" + access, y));
      UnguardedTells(access, "*" + access, x, y);
    }
  }

  lemma UnguardedFirstIsNoGuard(access: string, stmt: Reset)
    requires access != "" && access[0] == 'x' && Emitted(stmt)
    ensures Guarded(stmt).Some? <==> Code(access, stmt) != "" && Code(access, stmt)[0] == 'i'
  {
    if Guarded(stmt).None? {
      UnguardedFirst(access, access, stmt);
      if Assigns(stmt) {
        AssignmentMark(access, access, stmt);
        assert Code(access, stmt)[0] == access[0];
      }
    }
  }

  /** What the generator writes for a field determines the statement it chose, whatever the field's type. */
  lemma FieldCodeTellsStatement(name: string, typ1: string, typ2: string, structs: seq<string>)
    ensures FieldCode(FieldInfo(name, typ1), structs) == FieldCode(FieldInfo(name, typ2), structs)
            <==> Dispatch(typ1, structs) == Dispatch(typ2, structs)
  {
    if FieldCode(FieldInfo(name, typ1), structs) == FieldCode(FieldInfo(name, typ2), structs) {
      DispatchEmits(typ1, structs);
      DispatchEmits(typ2, structs);
      CodeTellsStatement("x." + name, Dispatch(typ1, structs), Dispatch(typ2, structs));
    }
  }

  // ---------------------------------------------------------------- the body

  function Indented(lines: seq<string>, indent: string): (r: seq<string>)
    ensures |r| == |lines| && forall i :: 0 <= i < |r| ==> r[i] == indent + lines[i]
  { seq(|lines|, i requires 0 <= i < |lines| => indent + lines[i]) }

  /** Indents every line of a statement, and nothing else. */
  method IndentCode(code: string, indent: string) returns (r: string)
    requires NL !in indent
    ensures code == "" ==> r == ""
    ensures code != "" ==> Split(r, NL) == Indented(Split(code, NL), indent)
    ensures code != "" ==> r == Join(Indented(Split(code, NL), indent), NL)
  {
    if code == "" {
      return "";
    }
    var lines := Split(code, NL);
    PartsHaveNoSeparator(code, NL);
    for i := 0 to |lines|
      invariant |lines| == |Split(code, NL)|
      invariant forall k :: 0 <= k < |lines| ==>
        lines[k] == if k < i then indent + Split(code, NL)[k] else Split(code, NL)[k]
    {
      lines := lines[i := indent + lines[i]];
    }
    assert lines == Indented(Split(code, NL), indent);
    SplitJoin(lines, NL);
    return Join(lines, NL);
  }

  /** The lines of a body: those of its statements in field order, indented by a tab. */
  function BodyLines(fields: seq<FieldInfo>, structs: seq<string>): seq<string> {
    if fields == [] then []
    else
      (if fields[0].name == "" || FieldCode(fields[0], structs) == "" then []
       else Indented(Split(FieldCode(fields[0], structs), NL), "\t"))
      + BodyLines(fields[1..], structs)
  }

  lemma {:induction false} BodyLinesPush(fields: seq<FieldInfo>, field: FieldInfo, structs: seq<string>)
    ensures BodyLines(fields + [field], structs) == BodyLines(fields, structs) + BodyLines([field], structs)
  {
    if fields == [] {
      assert fields + [field] == [field];
    } else {
      assert (fields + [field])[1..] == fields[1..] + [field];
      BodyLinesPush(fields[1..], field, structs);
    }
  }

  /** The lines of several texts, one text after the other. */
  function LinesOfAll(texts: seq<string>): seq<string> {
    if texts == [] then [] else Split(texts[0], NL) + LinesOfAll(texts[1..])
  }

  lemma {:induction false} LinesOfAllPush(texts: seq<string>, text: string)
    ensures LinesOfAll(texts + [text]) == LinesOfAll(texts) + Split(text, NL)
  {
    if texts == [] {
      assert texts + [text] == [text];
    } else {
      assert (texts + [text])[1..] == texts[1..] + [text];
      LinesOfAllPush(texts[1..], text);
    }
  }

  /** Joining texts, some of several lines, keeps all their lines in order. */
  lemma {:induction false} JoinKeepsLines(texts: seq<string>)
    requires texts != []
    ensures Split(Join(texts, NL), NL) == LinesOfAll(texts)
  {
    if |texts| > 1 {
      JoinKeepsLines(texts[1..]);
      SplitConcat(texts[0], Join(texts[1..], NL), NL);
    }
  }

  /** The body of a struct's method. Read line by line it is its statements' lines, none lost or split. */
  method StructResetBody(fields: seq<FieldInfo>, structs: seq<string>) returns (body: string)
    ensures BodyLines(fields, structs) == [] ==> body == ""
    ensures BodyLines(fields, structs) != [] ==> Split(body, NL) == BodyLines(fields, structs)
  {
    var texts: seq<string> := [];
    for i := 0 to |fields|
      invariant LinesOfAll(texts) == BodyLines(fields[..i], structs)
      invariant texts == [] <==> LinesOfAll(texts) == []
    {
      assert fields[..i + 1] == fields[..i] + [fields[i]];
      BodyLinesPush(fields[..i], fields[i], structs);
      if fields[i].name == "" {
        continue;
      }
      var code := FieldCode(fields[i], structs);
      if code != "" {
        var indented := IndentCode(code, "\t");
        LinesOfAllPush(texts, indented);
        texts := texts + [indented];
      }
    }
    assert fields[..|fields|] == fields;
    if texts != [] {
      JoinKeepsLines(texts);
    }
    return Join(texts, NL);
  }
}
