/**
 The generated Reset methods on values that share: pointers and maps refer to a heap, so that several
 fields may lead to one object, which is then reset several times. The statements, the types and the
 misled ones are those of the modules ResetGenerator and ResetSemantics.
 */
module ResetSharing {
  import opened Common
  import opened ResetGenerator
  import R = ResetSemantics

  // ---------------------------------------------------------------- values and heaps

  /** A slice's elements lie in an array of their own, which no reset writes to. */
  datatype Value =
    | Bool(b: bool)
    | Text(s: string)
    | Number(n: real)
    | TimeV(ns: int)
    | Nil
    | SliceV(data: nat, len: nat, cap: nat)
    | MapV(table: nat)
    | PtrV(addr: nat)
    | StructV(typ: string, fields: seq<Value>)
    | Opaque(id: int)

  datatype Heap = Heap(objects: map<nat, Value>, tables: map<nat, seq<(Value, Value)>>)

  /** The package, the type of every object, and the maps there are. */
  datatype Typing = Typing(pkg: seq<R.Decl>, types: map<nat, Expr>, tables: set<nat>)

  predicate HasType(g: Typing, e: Expr, v: Value)
    decreases v, 1
  {
    match e
    case Ident(name) =>
      if name in R.Structs(g.pkg) then
        v.StructV? && v.typ == name && FieldsHaveTypes(g, R.Slots(R.LinesOf(g.pkg, name)), v.fields)
      else if name == "bool" then v.Bool?
      else if name == "string" then v.Text?
      else IsPrimitive(name) ==> v.Number?
    case Star(x) => v.Nil? || (v.PtrV? && (R.Supported(g.pkg, x) ==> v.addr in g.types && g.types[v.addr] == x))
    case Array(fixed, _) => fixed || v.Nil? || v.SliceV?
    case MapType(_, _) => v.Nil? || (v.MapV? && v.table in g.tables)
    case Selector(_, _) => IsTime(e) ==> v.TimeV?
    case _ => true
  }

  predicate FieldsHaveTypes(g: Typing, slots: seq<R.Slot>, fields: seq<Value>)
    decreases fields, 0
  {
    && |slots| == |fields|
    && forall i :: 0 <= i < |fields| ==> HasType(g, slots[i].typ, fields[i])
  }

  predicate HeapOk(g: Typing, h: Heap) {
    && h.objects.Keys == g.types.Keys && h.tables.Keys == g.tables
    && forall a :: a in h.objects ==> HasType(g, g.types[a], h.objects[a])
  }

  // ---------------------------------------------------------------- running the statements

  function Assign(literal: string, v: Value): Option<Value> {
    match LiteralKind(literal)
    case Logical => if v.Bool? then Some(Bool(false)) else None
    case Textual => if v.Text? then Some(Text("")) else None
    case Numeric => if v.Number? then Some(Number(0.0)) else None
    case NoKind => None
  }

  /** The statements that change nothing but the field itself. */
  function ExecLocal(stmt: Reset, v: Value): Option<Value> {
    match stmt
    case Nothing => Some(v)
    case ZeroTime => if v.TimeV? then Some(TimeV(0)) else None
    case Truncate => if v.Nil? then Some(v) else if v.SliceV? then Some(v.(len := 0)) else None
    case Zero(literal) => Assign(literal, v)
    case _ => None
  }

  /**
   One statement run on the value of its field, following at most d pointers in a row; None when it
   does not fit the value or when there are more.
   */
  function Exec(pkg: seq<R.Decl>, d: nat, stmt: Reset, h: Heap, v: Value): Option<(Heap, Value)>
    decreases d, v, 2
  {
    match R.Guarded(stmt)
    case Some(inner) =>
      if v.Nil? then Some((h, v))
      else if !v.PtrV? || v.addr !in h.objects || d == 0 then None
      else
        var r := Exec(pkg, d - 1, inner, h, h.objects[v.addr]);
        if r.None? then None
        else Some((r.value.0.(objects := r.value.0.objects[v.addr := r.value.1]), v))
    case None =>
      if stmt.CallReset? then RunReset(pkg, d, h, v)
      else if stmt.ClearMap? then
        if v.Nil? then Some((h, v))
        else if v.MapV? && v.table in h.tables then Some((h.(tables := h.tables[v.table := []]), v))
        else None
      else
        var u := ExecLocal(stmt, v);
        if u.None? then None else Some((h, u.value))
  }

  function RunReset(pkg: seq<R.Decl>, d: nat, h: Heap, v: Value): Option<(Heap, Value)>
    decreases d, v, 1
  {
    if v.StructV? && v.typ in R.Structs(pkg) then
      var r := RunBody(pkg, d, R.LinesOf(pkg, v.typ), h, v.fields);
      if r.None? then None else Some((r.value.0, StructV(v.typ, r.value.1)))
    else None
  }

  /** The statement for the first name of a line, chosen by the printed type, if there is a name. */
  function FirstStatement(pkg: seq<R.Decl>, d: nat, line: R.Line, h: Heap, v: Value): Option<(Heap, Value)>
    decreases d, v, 3
  {
    if line.names == [] then Some((h, v)) else Exec(pkg, d, Dispatch(Print(line.typ), R.Structs(pkg)), h, v)
  }

  /** The statements of a body, one after the other. */
  function RunBody(pkg: seq<R.Decl>, d: nat, lines: seq<R.Line>, h: Heap, fields: seq<Value>)
    : Option<(Heap, seq<Value>)>
    decreases d, fields, 0
  {
    if lines == [] then Some((h, fields))
    else if |fields| < R.Width(lines[0]) then None
    else
      var first := FirstStatement(pkg, d, lines[0], h, fields[0]);
      if first.None? then None
      else
        var w := R.Width(lines[0]);
        var rest := RunBody(pkg, d, lines[1..], first.value.0, fields[w..]);
        if rest.None? then None
        else Some((rest.value.0, [first.value.1] + fields[1..w] + rest.value.1))
  }

  // ---------------------------------------------------------------- what a reset should leave

  /** v with everything reset that lies in the variable itself; what it points at is not looked at. */
  function Blank(pkg: seq<R.Decl>, e: Expr, v: Value): Value
    decreases v, 1
  {
    match e
    case Ident(name) =>
      if name in R.Structs(pkg) then
        if v.StructV? then StructV(v.typ, BlankFields(pkg, R.Slots(R.LinesOf(pkg, name)), v.fields)) else v
      else if name == "bool" then Bool(false)
      else if name == "string" then Text("")
      else if IsPrimitive(name) then Number(0.0)
      else v
    case Array(fixed, _) => if !fixed && v.SliceV? then v.(len := 0) else v
    case Selector(_, _) => if IsTime(e) then TimeV(0) else v
    case _ => v
  }

  function BlankFields(pkg: seq<R.Decl>, slots: seq<R.Slot>, fields: seq<Value>): (r: seq<Value>)
    ensures |r| == |fields|
    decreases fields, 0
  {
    seq(|fields|, i requires 0 <= i < |fields| =>
      if i < |slots| && slots[i].leads then Blank(pkg, slots[i].typ, fields[i]) else fields[i])
  }

  /** The objects that resetting the variable leads to directly. */
  function Pointers(pkg: seq<R.Decl>, e: Expr, v: Value): set<nat>
    decreases v, 1
  {
    match e
    case Ident(name) =>
      if name in R.Structs(pkg) && v.StructV? then FieldPointers(pkg, R.Slots(R.LinesOf(pkg, name)), v.fields) else {}
    case Star(x) => if v.PtrV? && R.Supported(pkg, x) then {v.addr} else {}
    case _ => {}
  }

  function FieldPointers(pkg: seq<R.Decl>, slots: seq<R.Slot>, fields: seq<Value>): set<nat>
    decreases fields, 0
  {
    set i, a | 0 <= i < |fields| && i < |slots| && slots[i].leads && a in Pointers(pkg, slots[i].typ, fields[i]) :: a
  }

  /** The maps that resetting the variable clears directly. */
  function Tables(pkg: seq<R.Decl>, e: Expr, v: Value): set<nat>
    decreases v, 1
  {
    match e
    case Ident(name) =>
      if name in R.Structs(pkg) && v.StructV? then FieldTables(pkg, R.Slots(R.LinesOf(pkg, name)), v.fields) else {}
    case MapType(_, _) => if v.MapV? then {v.table} else {}
    case _ => {}
  }

  function FieldTables(pkg: seq<R.Decl>, slots: seq<R.Slot>, fields: seq<Value>): set<nat>
    decreases fields, 0
  {
    set i, t | 0 <= i < |fields| && i < |slots| && slots[i].leads && t in Tables(pkg, slots[i].typ, fields[i]) :: t
  }

  /** From the variable no chain of more than d pointers is followed. */
  predicate Bounded(g: Typing, h: Heap, e: Expr, v: Value, d: nat)
    decreases d
  {
    forall a :: a in Pointers(g.pkg, e, v) ==>
      d > 0 && a in h.objects && a in g.types && Bounded(g, h, g.types[a], h.objects[a], d - 1)
  }

  /** The variable is reset, and so is everything that it leads to. */
  predicate AllReset(g: Typing, h: Heap, e: Expr, v: Value, d: nat)
    decreases d
  {
    && Blank(g.pkg, e, v) == v
    && (forall t :: t in Tables(g.pkg, e, v) ==> t in h.tables && h.tables[t] == [])
    && (forall a :: a in Pointers(g.pkg, e, v) ==>
          d > 0 && a in h.objects && a in g.types && AllReset(g, h, g.types[a], h.objects[a], d - 1))
  }

  /** k differs from h by resets only. */
  predicate OnlyResets(g: Typing, h: Heap, k: Heap) {
    && k.objects.Keys == h.objects.Keys == g.types.Keys && k.tables.Keys == h.tables.Keys
    && (forall a :: a in h.objects ==>
          k.objects[a] == h.objects[a] || k.objects[a] == Blank(g.pkg, g.types[a], h.objects[a]))
    && (forall t :: t in h.tables ==> k.tables[t] == h.tables[t] || k.tables[t] == [])
  }

  /** A part of the heap that resets starting in it do not leave. */
  predicate Closed(g: Typing, h: Heap, objects: set<nat>, tables: set<nat>) {
    forall a :: a in objects && a in h.objects && a in g.types ==>
      Pointers(g.pkg, g.types[a], h.objects[a]) <= objects && Tables(g.pkg, g.types[a], h.objects[a]) <= tables
  }

  predicate SameOutside(h: Heap, k: Heap, objects: set<nat>, tables: set<nat>) {
    && h.objects.Keys == k.objects.Keys && h.tables.Keys == k.tables.Keys
    && (forall a :: a in h.objects && a !in objects ==> k.objects[a] == h.objects[a])
    && (forall t :: t in h.tables && t !in tables ==> k.tables[t] == h.tables[t])
  }

  // ---------------------------------------------------------------- resets and resets again

  /** A reset value is its own reset value, of the same type, and leads where the value led. */
  lemma {:induction false} BlankKeeps(g: Typing, e: Expr, v: Value)
    ensures var u := Blank(g.pkg, e, v);
            && Blank(g.pkg, e, u) == u
            && Pointers(g.pkg, e, u) == Pointers(g.pkg, e, v)
            && Tables(g.pkg, e, u) == Tables(g.pkg, e, v)
            && (HasType(g, e, v) ==> HasType(g, e, u))
    decreases v
  {
    if e.Ident? && e.name in R.Structs(g.pkg) && v.StructV? {
      var slots := R.Slots(R.LinesOf(g.pkg, e.name));
      var after := BlankFields(g.pkg, slots, v.fields);
      forall i | 0 <= i < |v.fields| && i < |slots|
        ensures slots[i].leads ==> Blank(g.pkg, slots[i].typ, after[i]) == after[i]
        ensures slots[i].leads ==> Pointers(g.pkg, slots[i].typ, after[i]) == Pointers(g.pkg, slots[i].typ, v.fields[i])
        ensures slots[i].leads ==> Tables(g.pkg, slots[i].typ, after[i]) == Tables(g.pkg, slots[i].typ, v.fields[i])
        ensures HasType(g, slots[i].typ, v.fields[i]) ==> HasType(g, slots[i].typ, after[i])
      {
        BlankKeeps(g, slots[i].typ, v.fields[i]);
      }
      assert BlankFields(g.pkg, slots, after) == after;
      if HasType(g, e, v) {
        assert FieldsHaveTypes(g, slots, v.fields);
        forall i | 0 <= i < |after| ensures HasType(g, slots[i].typ, after[i]) {
          assert HasType(g, slots[i].typ, v.fields[i]);
        }
        assert FieldsHaveTypes(g, slots, after);
      }
    }
  }

  lemma {:induction false} ResetsTwice(g: Typing, h: Heap, k: Heap, l: Heap)
    requires OnlyResets(g, h, k) && OnlyResets(g, k, l)
    ensures OnlyResets(g, h, l)
  {
    forall a | a in h.objects
      ensures l.objects[a] == h.objects[a] || l.objects[a] == Blank(g.pkg, g.types[a], h.objects[a])
    {
      BlankKeeps(g, g.types[a], h.objects[a]);
    }
  }

  /** Where an object leads does not change. */
  lemma {:induction false} LeadsTheSame(g: Typing, h: Heap, k: Heap, a: nat)
    requires OnlyResets(g, h, k) && a in h.objects
    ensures Pointers(g.pkg, g.types[a], k.objects[a]) == Pointers(g.pkg, g.types[a], h.objects[a])
    ensures Tables(g.pkg, g.types[a], k.objects[a]) == Tables(g.pkg, g.types[a], h.objects[a])
    ensures HasType(g, g.types[a], h.objects[a]) ==> HasType(g, g.types[a], k.objects[a])
  {
    BlankKeeps(g, g.types[a], h.objects[a]);
  }

  lemma {:induction false} ResetsKeepHeap(g: Typing, h: Heap, k: Heap)
    requires OnlyResets(g, h, k) && HeapOk(g, h)
    ensures HeapOk(g, k)
  {
    forall a | a in k.objects ensures HasType(g, g.types[a], k.objects[a]) {
      LeadsTheSame(g, h, k, a);
    }
  }

  lemma {:induction false} ResetsKeepClosed(g: Typing, h: Heap, k: Heap, objects: set<nat>, tables: set<nat>)
    requires OnlyResets(g, h, k) && Closed(g, h, objects, tables)
    ensures Closed(g, k, objects, tables)
  {
    forall a | a in objects && a in k.objects
      ensures Pointers(g.pkg, g.types[a], k.objects[a]) <= objects && Tables(g.pkg, g.types[a], k.objects[a]) <= tables
    {
      LeadsTheSame(g, h, k, a);
    }
  }

  /** Resets make no chain of pointers longer or shorter. */
  lemma {:induction false} ResetsKeepBounds(g: Typing, h: Heap, k: Heap, e: Expr, v: Value, d: nat)
    requires OnlyResets(g, h, k)
    ensures Bounded(g, h, e, v, d) <==> Bounded(g, k, e, v, d)
    decreases d
  {
    if d > 0 {
      forall a | a in Pointers(g.pkg, e, v) && a in h.objects
        ensures Bounded(g, h, g.types[a], h.objects[a], d - 1) <==> Bounded(g, k, g.types[a], k.objects[a], d - 1)
      {
        ResetsKeepBounds(g, h, k, g.types[a], h.objects[a], d - 1);
        LeadsTheSame(g, h, k, a);
      }
    }
  }

  lemma {:induction false} ResetBehind(g: Typing, h: Heap, k: Heap, e: Expr, v: Value, d: nat, a: nat)
    requires OnlyResets(g, h, k) && AllReset(g, h, e, v, d) && a in Pointers(g.pkg, e, v)
    ensures d > 0 && a in h.objects && a in k.objects && a in g.types
    ensures AllReset(g, h, g.types[a], h.objects[a], d - 1) && k.objects[a] == h.objects[a]
  {
    assert AllReset(g, h, g.types[a], h.objects[a], d - 1);
  }

  lemma {:induction false} ResetTablesStay(g: Typing, h: Heap, k: Heap, e: Expr, v: Value, d: nat)
    requires OnlyResets(g, h, k) && AllReset(g, h, e, v, d)
    ensures Blank(g.pkg, e, v) == v
    ensures forall t :: t in Tables(g.pkg, e, v) ==> t in k.tables && k.tables[t] == []
  {
  }

  /** What is reset stays so. */
  lemma {:induction false} ResetsKeepReset(g: Typing, h: Heap, k: Heap, e: Expr, v: Value, d: nat)
    requires OnlyResets(g, h, k) && AllReset(g, h, e, v, d)
    ensures AllReset(g, k, e, v, d)
    decreases d
  {
    ResetTablesStay(g, h, k, e, v, d);
    forall a | a in Pointers(g.pkg, e, v)
      ensures d > 0 && a in k.objects && a in g.types && AllReset(g, k, g.types[a], k.objects[a], d - 1)
    {
      ResetBehind(g, h, k, e, v, d, a);
      ResetsKeepReset(g, h, k, g.types[a], h.objects[a], d - 1);
    }
  }

  // ---------------------------------------------------------------- the generated code resets

  /** What a reset that succeeds leaves of the heap and of the variable, now holding u. */
  predicate Done(g: Typing, h: Heap, k: Heap, e: Expr, u: Value, d: nat, objects: set<nat>, tables: set<nat>) {
    && HeapOk(g, k) && OnlyResets(g, h, k) && AllReset(g, k, e, u, d) && SameOutside(h, k, objects, tables)
  }

  predicate Within(g: Typing, e: Expr, v: Value, objects: set<nat>, tables: set<nat>) {
    Pointers(g.pkg, e, v) <= objects && Tables(g.pkg, e, v) <= tables
  }

  /** p holds of all fields that lead their lines. */
  predicate Leading(slots: seq<R.Slot>, fields: seq<Value>, p: (Expr, Value) -> bool) {
    forall i :: 0 <= i < |fields| && i < |slots| && slots[i].leads ==> p(slots[i].typ, fields[i])
  }

  predicate FieldsBounded(g: Typing, h: Heap, slots: seq<R.Slot>, fields: seq<Value>, d: nat) {
    Leading(slots, fields, (e, v) => Bounded(g, h, e, v, d))
  }

  predicate FieldsReset(g: Typing, h: Heap, slots: seq<R.Slot>, fields: seq<Value>, d: nat) {
    Leading(slots, fields, (e, v) => AllReset(g, h, e, v, d))
  }

  predicate FieldsWithin(g: Typing, slots: seq<R.Slot>, fields: seq<Value>, objects: set<nat>, tables: set<nat>) {
    Leading(slots, fields, (e, v) => Within(g, e, v, objects, tables))
  }

  lemma {:induction false} StructBounded(g: Typing, h: Heap, name: string, v: Value, d: nat)
    requires name in R.Structs(g.pkg) && v.StructV?
    ensures Bounded(g, h, Ident(name), v, d)
            <==> FieldsBounded(g, h, R.Slots(R.LinesOf(g.pkg, name)), v.fields, d)
  {
    var slots := R.Slots(R.LinesOf(g.pkg, name));
    assert Pointers(g.pkg, Ident(name), v) == FieldPointers(g.pkg, slots, v.fields);
  }

  lemma {:induction false} StructReset(g: Typing, h: Heap, name: string, v: Value, d: nat)
    requires name in R.Structs(g.pkg) && v.StructV?
    requires FieldsReset(g, h, R.Slots(R.LinesOf(g.pkg, name)), v.fields, d)
    ensures AllReset(g, h, Ident(name), v, d)
  {
    var slots := R.Slots(R.LinesOf(g.pkg, name));
    assert BlankFields(g.pkg, slots, v.fields) == v.fields;
    assert Pointers(g.pkg, Ident(name), v) == FieldPointers(g.pkg, slots, v.fields);
    assert Tables(g.pkg, Ident(name), v) == FieldTables(g.pkg, slots, v.fields);
  }

  lemma {:induction false} StructWithin(g: Typing, name: string, v: Value, objects: set<nat>, tables: set<nat>)
    requires name in R.Structs(g.pkg) && v.StructV? && Within(g, Ident(name), v, objects, tables)
    ensures FieldsWithin(g, R.Slots(R.LinesOf(g.pkg, name)), v.fields, objects, tables)
  {
    var slots := R.Slots(R.LinesOf(g.pkg, name));
    forall i | 0 <= i < |v.fields| && i < |slots| && slots[i].leads
      ensures Within(g, slots[i].typ, v.fields[i], objects, tables)
    {
      assert Pointers(g.pkg, slots[i].typ, v.fields[i]) <= FieldPointers(g.pkg, slots, v.fields);
      assert Tables(g.pkg, slots[i].typ, v.fields[i]) <= FieldTables(g.pkg, slots, v.fields);
    }
  }

  lemma {:induction false} NothingDone(g: Typing, h: Heap, e: Expr, v: Value, d: nat,
                                       objects: set<nat>, tables: set<nat>)
    requires HeapOk(g, h) && Pointers(g.pkg, e, v) == {} && Tables(g.pkg, e, v) == {}
    ensures Bounded(g, h, e, v, d)
    ensures Done(g, h, h, e, Blank(g.pkg, e, v), d, objects, tables)
  {
    BlankKeeps(g, e, v);
  }

  lemma {:induction false} PutBack(g: Typing, h: Heap, k: Heap, a: nat, w: Value)
    requires OnlyResets(g, h, k) && a in h.objects && w == Blank(g.pkg, g.types[a], h.objects[a])
    ensures OnlyResets(g, k, k.(objects := k.objects[a := w]))
  {
    BlankKeeps(g, g.types[a], h.objects[a]);
  }

  /** The heap l is k with the object at a put back, which was reset while it was away. */
  lemma {:induction false} PutBackHeap(g: Typing, h: Heap, k: Heap, l: Heap, a: nat, w: Value)
    requires HeapOk(g, h) && OnlyResets(g, h, k) && a in h.objects && w == Blank(g.pkg, g.types[a], h.objects[a])
    requires l == k.(objects := k.objects[a := w])
    ensures OnlyResets(g, k, l) && OnlyResets(g, h, l) && HeapOk(g, l)
  {
    PutBack(g, h, k, a, w);
    ResetsTwice(g, h, k, l);
    ResetsKeepHeap(g, h, l);
  }

  lemma {:induction false} PutBackInside(h: Heap, k: Heap, l: Heap, a: nat, w: Value,
                                         objects: set<nat>, tables: set<nat>)
    requires SameOutside(h, k, objects, tables) && a in h.objects && a in objects
    requires l == k.(objects := k.objects[a := w])
    ensures SameOutside(h, l, objects, tables)
  {
    assert l.objects.Keys == k.objects.Keys;
  }

  lemma {:induction false} PointerReset(g: Typing, k: Heap, l: Heap, x: Expr, v: Value, w: Value, d: nat)
    requires v.PtrV? && v.addr in k.objects && v.addr in g.types && g.types[v.addr] == x && d > 0
    requires OnlyResets(g, k, l) && AllReset(g, k, x, w, d - 1) && v.addr in l.objects && l.objects[v.addr] == w
    ensures AllReset(g, l, Star(x), v, d)
  {
    ResetsKeepReset(g, k, l, x, w, d - 1);
  }

  /** The object behind a pointer, now holding w in the heap k, is put back. */
  lemma {:induction false} PointerDone(g: Typing, h: Heap, k: Heap, x: Expr, v: Value, w: Value, d: nat,
                                       objects: set<nat>, tables: set<nat>)
    requires HeapOk(g, h) && v.PtrV? && v.addr in h.objects && g.types[v.addr] == x && d > 0 && v.addr in objects
    requires Done(g, h, k, x, w, d - 1, objects, tables) && w == Blank(g.pkg, x, h.objects[v.addr])
    ensures Done(g, h, k.(objects := k.objects[v.addr := w]), Star(x), v, d, objects, tables)
  {
    var l := k.(objects := k.objects[v.addr := w]);
    PutBackHeap(g, h, k, l, v.addr, w);
    PutBackInside(h, k, l, v.addr, w, objects, tables);
    PointerReset(g, k, l, x, v, w, d);
  }

  lemma {:induction false} ClearDone(g: Typing, h: Heap, e: Expr, v: Value, d: nat, objects: set<nat>, tables: set<nat>)
    requires HeapOk(g, h) && e.MapType? && v.MapV? && v.table in g.tables && v.table in tables
    ensures Done(g, h, h.(tables := h.tables[v.table := []]), e, v, d, objects, tables)
  {
  }

  /** Statements that lead nowhere only change the variable. */
  lemma {:induction false} LocalResets(g: Typing, d: nat, e: Expr, h: Heap, v: Value)
    requires HasType(g, e, v) && !(e.Ident? && e.name in R.Structs(g.pkg))
    requires Pointers(g.pkg, e, v) == {} && Tables(g.pkg, e, v) == {}
    ensures Exec(g.pkg, d, Choose(e, R.Structs(g.pkg)), h, v) == Some((h, Blank(g.pkg, e, v)))
  {
    if e.Star? {
      R.ChooseBehindPointer(g.pkg, e.x);
    }
  }

  /**
   A statement chosen by the type succeeds exactly when no chain of pointers is longer than d. It resets
   the variable and all that it leads to, and nothing outside any part of the heap that it stays in.
   */
  lemma {:induction false} ChosenResets(g: Typing, d: nat, e: Expr, h: Heap, v: Value,
                                        objects: set<nat>, tables: set<nat>)
    requires R.Clean(g.pkg) && HeapOk(g, h) && HasType(g, e, v)
    requires Closed(g, h, objects, tables) && Within(g, e, v, objects, tables)
    ensures var r := Exec(g.pkg, d, Choose(e, R.Structs(g.pkg)), h, v);
            && (r.Some? <==> Bounded(g, h, e, v, d))
            && (r.Some? ==> r.value.1 == Blank(g.pkg, e, v) && Done(g, h, r.value.0, e, r.value.1, d, objects, tables))
    decreases d, v, 2
  {
    if e.Ident? && e.name in R.Structs(g.pkg) {
      MethodResets(g, d, e.name, h, v, objects, tables);
    } else if e.Star? && v.PtrV? && R.Supported(g.pkg, e.x) {
      assert v.addr in Pointers(g.pkg, e, v);
      PointerResets(g, d, e.x, h, v, objects, tables);
    } else if e.MapType? && v.MapV? {
      ClearDone(g, h, e, v, d, objects, tables);
    } else {
      LocalResets(g, d, e, h, v);
      NothingDone(g, h, e, v, d, objects, tables);
    }
  }

  lemma {:induction false} PointerUnfolds(g: Typing, d: nat, x: Expr, h: Heap, v: Value)
    requires R.Supported(g.pkg, x) && v.PtrV? && v.addr in h.objects && v.addr in g.types && g.types[v.addr] == x
    ensures Bounded(g, h, Star(x), v, d) <==> d > 0 && Bounded(g, h, x, h.objects[v.addr], d - 1)
    ensures Exec(g.pkg, d, Choose(Star(x), R.Structs(g.pkg)), h, v) ==
              if d == 0 then None
              else
                var r := Exec(g.pkg, d - 1, Choose(x, R.Structs(g.pkg)), h, h.objects[v.addr]);
                if r.None? then None
                else Some((r.value.0.(objects := r.value.0.objects[v.addr := r.value.1]), v))
  {
    R.ChooseBehindPointer(g.pkg, x);
    assert Pointers(g.pkg, Star(x), v) == {v.addr};
  }

  lemma {:induction false} PointerResets(g: Typing, d: nat, x: Expr, h: Heap, v: Value,
                                         objects: set<nat>, tables: set<nat>)
    requires R.Clean(g.pkg) && HeapOk(g, h) && v.PtrV? && R.Supported(g.pkg, x)
    requires v.addr in g.types && g.types[v.addr] == x && v.addr in objects && Closed(g, h, objects, tables)
    ensures var r := Exec(g.pkg, d, Choose(Star(x), R.Structs(g.pkg)), h, v);
            && (r.Some? <==> Bounded(g, h, Star(x), v, d))
            && (r.Some? ==> r.value.1 == v && Done(g, h, r.value.0, Star(x), v, d, objects, tables))
    decreases d, v, 1
  {
    PointerUnfolds(g, d, x, h, v);
    if d > 0 {
      ChosenResets(g, d - 1, x, h, h.objects[v.addr], objects, tables);
      var r := Exec(g.pkg, d - 1, Choose(x, R.Structs(g.pkg)), h, h.objects[v.addr]);
      if r.Some? {
        PointerDone(g, h, r.value.0, x, v, r.value.1, d, objects, tables);
      }
    }
  }

  lemma {:induction false} MethodResets(g: Typing, d: nat, name: string, h: Heap, v: Value,
                                        objects: set<nat>, tables: set<nat>)
    requires R.Clean(g.pkg) && HeapOk(g, h) && name in R.Structs(g.pkg) && HasType(g, Ident(name), v)
    requires Closed(g, h, objects, tables) && Within(g, Ident(name), v, objects, tables)
    ensures var r := RunReset(g.pkg, d, h, v);
            && (r.Some? <==> Bounded(g, h, Ident(name), v, d))
            && (r.Some? ==> r.value.1 == Blank(g.pkg, Ident(name), v)
                            && Done(g, h, r.value.0, Ident(name), r.value.1, d, objects, tables))
    decreases d, v, 1
  {
    var lines := R.LinesOf(g.pkg, name);
    R.CleanLinesOf(g.pkg, name);
    StructWithin(g, name, v, objects, tables);
    StructBounded(g, h, name, v, d);
    BodyResets(g, d, lines, h, v.fields, objects, tables);
    var r := RunBody(g.pkg, d, lines, h, v.fields);
    if r.Some? {
      StructReset(g, r.value.0, name, StructV(name, r.value.1), d);
    }
  }

  lemma {:induction false} StatementResets(g: Typing, d: nat, line: R.Line, h: Heap, v: Value,
                                           objects: set<nat>, tables: set<nat>)
    requires R.Clean(g.pkg) && HeapOk(g, h) && HasType(g, line.typ, v) && Closed(g, h, objects, tables)
    requires line.names != [] ==> R.CleanType(g.pkg, line.typ) && Within(g, line.typ, v, objects, tables)
    ensures var r := FirstStatement(g.pkg, d, line, h, v);
            && (r.Some? <==> (line.names != [] ==> Bounded(g, h, line.typ, v, d)))
            && (r.Some? && line.names == [] ==> r.value == (h, v))
            && (r.Some? && line.names != [] ==>
                  r.value.1 == Blank(g.pkg, line.typ, v)
                  && Done(g, h, r.value.0, line.typ, r.value.1, d, objects, tables))
    decreases d, v, 3
  {
    if line.names != [] {
      DispatchAgrees(line.typ, R.Structs(g.pkg));
      ChosenResets(g, d, line.typ, h, v, objects, tables);
    }
  }

  /** The slots of the first line, and those of the others. */
  lemma {:induction false} FirstLine(lines: seq<R.Line>)
    requires lines != []
    ensures var slots, w := R.Slots(lines), R.Width(lines[0]);
            && |slots| == w + |R.Slots(lines[1..])|
            && slots[0] == R.Slot(lines[0].typ, lines[0].names != [])
            && (forall i :: 0 < i < w ==> !slots[i].leads)
            && (forall j :: 0 <= j < |R.Slots(lines[1..])| ==> slots[w + j] == R.Slots(lines[1..])[j])
  {
  }

  lemma {:induction false} LeadingFirst(lines: seq<R.Line>, fields: seq<Value>, p: (Expr, Value) -> bool)
    requires lines != [] && |fields| == |R.Slots(lines)|
    ensures |fields| >= R.Width(lines[0])
    ensures Leading(R.Slots(lines), fields, p) <==>
              && (lines[0].names != [] ==> p(lines[0].typ, fields[0]))
              && Leading(R.Slots(lines[1..]), fields[R.Width(lines[0])..], p)
  {
    FirstLine(lines);
    LeadingSplit(R.Slots(lines), R.Slots(lines[1..]), R.Width(lines[0]), fields, p);
  }

  lemma {:induction false} LeadingSplit(slots: seq<R.Slot>, tail: seq<R.Slot>, w: nat, fields: seq<Value>,
                                        p: (Expr, Value) -> bool)
    requires 0 < w && |slots| == w + |tail| == |fields|
    requires forall i :: 0 < i < w ==> !slots[i].leads
    requires forall j :: 0 <= j < |tail| ==> slots[w + j] == tail[j]
    ensures Leading(slots, fields, p) <==>
              (slots[0].leads ==> p(slots[0].typ, fields[0])) && Leading(tail, fields[w..], p)
  {
    if Leading(slots, fields, p) {
      forall j | 0 <= j < |tail| && tail[j].leads ensures p(tail[j].typ, fields[w..][j]) {
        assert slots[w + j].leads;
      }
    }
    if (slots[0].leads ==> p(slots[0].typ, fields[0])) && Leading(tail, fields[w..], p) {
      forall i | 0 <= i < |slots| && slots[i].leads ensures p(slots[i].typ, fields[i]) {
        if i >= w {
          assert slots[w + (i - w)] == tail[i - w];
        }
      }
    }
  }

  predicate Every(slots: seq<R.Slot>, fields: seq<Value>, p: (Expr, Value) -> bool) {
    |slots| == |fields| && forall i :: 0 <= i < |fields| ==> p(slots[i].typ, fields[i])
  }

  lemma {:induction false} EveryFirst(lines: seq<R.Line>, fields: seq<Value>, p: (Expr, Value) -> bool)
    requires lines != [] && Every(R.Slots(lines), fields, p)
    ensures |fields| >= R.Width(lines[0])
    ensures p(lines[0].typ, fields[0])
    ensures Every(R.Slots(lines[1..]), fields[R.Width(lines[0])..], p)
  {
    FirstLine(lines);
    var slots, w, tail := R.Slots(lines), R.Width(lines[0]), R.Slots(lines[1..]);
    forall j | 0 <= j < |tail| ensures p(tail[j].typ, fields[w..][j]) {
      assert slots[w + j] == tail[j];
    }
    assert p(slots[0].typ, fields[0]);
  }

  lemma {:induction false} TailHasTypes(g: Typing, lines: seq<R.Line>, fields: seq<Value>)
    requires lines != [] && FieldsHaveTypes(g, R.Slots(lines), fields)
    ensures |fields| >= R.Width(lines[0])
    ensures HasType(g, lines[0].typ, fields[0])
    ensures FieldsHaveTypes(g, R.Slots(lines[1..]), fields[R.Width(lines[0])..])
  {
    var p := (e, v) => HasType(g, e, v);
    HaveTypes(g, R.Slots(lines), fields, p);
    EveryFirst(lines, fields, p);
    HaveTypes(g, R.Slots(lines[1..]), fields[R.Width(lines[0])..], p);
  }

  lemma {:induction false} HaveTypes(g: Typing, slots: seq<R.Slot>, fields: seq<Value>, p: (Expr, Value) -> bool)
    requires forall e, v :: p(e, v) <==> HasType(g, e, v)
    ensures Every(slots, fields, p) <==> FieldsHaveTypes(g, slots, fields)
  {
  }

  lemma {:induction false} FieldsKeepBounds(g: Typing, h: Heap, k: Heap, slots: seq<R.Slot>, fields: seq<Value>, d: nat)
    requires OnlyResets(g, h, k)
    ensures FieldsBounded(g, h, slots, fields, d) <==> FieldsBounded(g, k, slots, fields, d)
  {
    forall i | 0 <= i < |fields| && i < |slots| && slots[i].leads
      ensures Bounded(g, h, slots[i].typ, fields[i], d) <==> Bounded(g, k, slots[i].typ, fields[i], d)
    {
      ResetsKeepBounds(g, h, k, slots[i].typ, fields[i], d);
    }
  }

  predicate Applied(slots: seq<R.Slot>, fields: seq<Value>, after: seq<Value>, f: (Expr, Value) -> Value) {
    && |slots| == |fields| == |after|
    && forall i :: 0 <= i < |fields| ==> after[i] == if slots[i].leads then f(slots[i].typ, fields[i]) else fields[i]
  }

  lemma {:induction false} AppliedSplit(slots: seq<R.Slot>, tail: seq<R.Slot>, w: nat, fields: seq<Value>,
                                        after: seq<Value>, us: seq<Value>, f: (Expr, Value) -> Value)
    requires 0 < w && |slots| == w + |tail| && Applied(slots, fields, after, f) && Applied(tail, fields[w..], us, f)
    requires forall i :: 0 < i < w ==> !slots[i].leads
    requires forall j :: 0 <= j < |tail| ==> slots[w + j] == tail[j]
    ensures [after[0]] + fields[1..w] + us == after
  {
    forall i | w <= i < |fields| ensures after[i] == us[i - w] {
      assert slots[w + (i - w)] == tail[i - w];
    }
    assert after[1..w] == fields[1..w];
  }

  lemma {:induction false} BlankApplied(g: Typing, slots: seq<R.Slot>, fields: seq<Value>, f: (Expr, Value) -> Value)
    requires |slots| == |fields| && forall e, v :: f(e, v) == Blank(g.pkg, e, v)
    ensures Applied(slots, fields, BlankFields(g.pkg, slots, fields), f)
  {
  }

  /** The fields after the first statement, in the heap k, and the others, in the heap l. */
  lemma {:induction false} BodyDone(g: Typing, d: nat, lines: seq<R.Line>, fields: seq<Value>, k: Heap, l: Heap,
                                    u: Value, us: seq<Value>)
    requires lines != [] && |fields| == |R.Slots(lines)| && |fields| >= R.Width(lines[0]) && OnlyResets(g, k, l)
    requires if lines[0].names == [] then u == fields[0]
             else u == Blank(g.pkg, lines[0].typ, fields[0]) && AllReset(g, k, lines[0].typ, u, d)
    requires us == BlankFields(g.pkg, R.Slots(lines[1..]), fields[R.Width(lines[0])..])
    requires FieldsReset(g, l, R.Slots(lines[1..]), us, d)
    ensures [u] + fields[1..R.Width(lines[0])] + us == BlankFields(g.pkg, R.Slots(lines), fields)
    ensures FieldsReset(g, l, R.Slots(lines), BlankFields(g.pkg, R.Slots(lines), fields), d)
  {
    var w := R.Width(lines[0]);
    var f := (e, v) => Blank(g.pkg, e, v);
    FirstLine(lines);
    BlankApplied(g, R.Slots(lines), fields, f);
    BlankApplied(g, R.Slots(lines[1..]), fields[w..], f);
    AppliedSplit(R.Slots(lines), R.Slots(lines[1..]), w, fields, BlankFields(g.pkg, R.Slots(lines), fields), us, f);
    if lines[0].names != [] {
      ResetsKeepReset(g, k, l, lines[0].typ, u, d);
    }
    var all := [u] + fields[1..w] + us;
    assert all[w..] == us && all[0] == u;
    LeadingFirst(lines, all, (e, v) => AllReset(g, l, e, v, d));
  }

  lemma {:induction false} BodyResets(g: Typing, d: nat, lines: seq<R.Line>, h: Heap, fields: seq<Value>,
                                      objects: set<nat>, tables: set<nat>)
    requires R.Clean(g.pkg) && R.CleanLines(g.pkg, lines)
    requires HeapOk(g, h) && FieldsHaveTypes(g, R.Slots(lines), fields)
    requires Closed(g, h, objects, tables) && FieldsWithin(g, R.Slots(lines), fields, objects, tables)
    ensures var r := RunBody(g.pkg, d, lines, h, fields);
            && (r.Some? <==> FieldsBounded(g, h, R.Slots(lines), fields, d))
            && (r.Some? ==>
                  && r.value.1 == BlankFields(g.pkg, R.Slots(lines), fields)
                  && HeapOk(g, r.value.0) && OnlyResets(g, h, r.value.0)
                  && FieldsReset(g, r.value.0, R.Slots(lines), r.value.1, d)
                  && SameOutside(h, r.value.0, objects, tables))
    decreases d, fields, 0
  {
    if lines != [] {
      var tail, rest := lines[1..], fields[R.Width(lines[0])..];
      assert R.CleanLines(g.pkg, tail);
      TailHasTypes(g, lines, fields);
      LeadingFirst(lines, fields, (e, v) => Bounded(g, h, e, v, d));
      LeadingFirst(lines, fields, (e, v) => Within(g, e, v, objects, tables));
      StatementResets(g, d, lines[0], h, fields[0], objects, tables);
      var first := FirstStatement(g.pkg, d, lines[0], h, fields[0]);
      if first.Some? {
        var k := first.value.0;
        BodyResetsRest(g, d, tail, h, k, rest, objects, tables);
        BodyResets(g, d, tail, k, rest, objects, tables);
        var r := RunBody(g.pkg, d, tail, k, rest);
        if r.Some? {
          ResetsTwice(g, h, k, r.value.0);
          BodyDone(g, d, lines, fields, k, r.value.0, first.value.1, r.value.1);
        }
      }
    }
  }

  /** What the first statement leaves meets what the rest of the body needs. */
  lemma {:induction false} BodyResetsRest(g: Typing, d: nat, tail: seq<R.Line>, h: Heap, k: Heap, rest: seq<Value>,
                       objects: set<nat>, tables: set<nat>)
    requires HeapOk(g, h) && OnlyResets(g, h, k) && Closed(g, h, objects, tables)
    ensures HeapOk(g, k) && Closed(g, k, objects, tables)
    ensures FieldsBounded(g, h, R.Slots(tail), rest, d) <==> FieldsBounded(g, k, R.Slots(tail), rest, d)
  {
    ResetsKeepHeap(g, h, k);
    ResetsKeepClosed(g, h, k, objects, tables);
    FieldsKeepBounds(g, h, k, R.Slots(tail), rest, d);
  }

  // ---------------------------------------------------------------- what is reset

  /** v holds nothing any more, but for pointers and maps, in every field that is reset. */
  predicate Cleared(pkg: seq<R.Decl>, e: Expr, v: Value)
    decreases v, 1
  {
    match e
    case Ident(name) =>
      if name in R.Structs(pkg) then v.StructV? && FieldsCleared(pkg, R.Slots(R.LinesOf(pkg, name)), v.fields)
      else if name == "bool" then v == Bool(false)
      else if name == "string" then v == Text("")
      else IsPrimitive(name) ==> v == Number(0.0)
    case Array(fixed, _) => !fixed && v.SliceV? ==> v.len == 0
    case Selector(_, _) => IsTime(e) ==> v == TimeV(0)
    case _ => true
  }

  predicate FieldsCleared(pkg: seq<R.Decl>, slots: seq<R.Slot>, fields: seq<Value>)
    decreases fields, 0
  {
    forall i :: 0 <= i < |fields| && i < |slots| && slots[i].leads ==> Cleared(pkg, slots[i].typ, fields[i])
  }

  /** Of the values of a type those that a reset leaves alone are exactly the cleared ones. */
  lemma {:induction false} OnlyClearedStay(g: Typing, e: Expr, v: Value)
    requires HasType(g, e, v)
    ensures Blank(g.pkg, e, v) == v <==> Cleared(g.pkg, e, v)
    decreases v
  {
    if e.Ident? && e.name in R.Structs(g.pkg) {
      var slots := R.Slots(R.LinesOf(g.pkg, e.name));
      var after := BlankFields(g.pkg, slots, v.fields);
      forall i | 0 <= i < |v.fields|
        ensures slots[i].leads ==> (after[i] == v.fields[i] <==> Cleared(g.pkg, slots[i].typ, v.fields[i]))
      {
        OnlyClearedStay(g, slots[i].typ, v.fields[i]);
      }
      if FieldsCleared(g.pkg, slots, v.fields) {
        assert after == v.fields;
      }
    }
  }

  // ---------------------------------------------------------------- the result

  /** The objects that lead to reset ones only, themselves included. */
  ghost function ResetObjects(g: Typing, h: Heap): set<nat> {
    set a | a in h.objects && a in g.types && exists d: nat :: AllReset(g, h, g.types[a], h.objects[a], d)
  }

  function EmptyTables(h: Heap): set<nat> { set t | t in h.tables && h.tables[t] == [] }

  lemma {:induction false} ResetObjectsAreClosed(g: Typing, h: Heap)
    ensures Closed(g, h, ResetObjects(g, h), EmptyTables(h))
  {
    forall a | a in ResetObjects(g, h)
      ensures Pointers(g.pkg, g.types[a], h.objects[a]) <= ResetObjects(g, h)
      ensures Tables(g.pkg, g.types[a], h.objects[a]) <= EmptyTables(h)
    {
      var d: nat :| AllReset(g, h, g.types[a], h.objects[a], d);
      forall b | b in Pointers(g.pkg, g.types[a], h.objects[a]) ensures b in ResetObjects(g, h) {
        assert AllReset(g, h, g.types[b], h.objects[b], d - 1);
      }
    }
  }

  /** Where all is reset, resets change nothing. */
  lemma {:induction false} NothingToReset(g: Typing, h: Heap, k: Heap)
    requires OnlyResets(g, h, k) && SameOutside(h, k, ResetObjects(g, h), EmptyTables(h))
    ensures k == h
  {
    forall a | a in h.objects ensures k.objects[a] == h.objects[a] {
      if a in ResetObjects(g, h) {
        var d: nat :| AllReset(g, h, g.types[a], h.objects[a], d);
      }
    }
    assert k.objects == h.objects && k.tables == h.tables;
  }

  /**
   A generated method run on any value of its struct, however its pointers and maps share, gets by with
   d pointers in a row exactly when no longer chain starts in the value; module ResetCycles says when
   there is such a d. Then the value and everything that it leads to is reset; the heap differs by resets
   only, and not at all outside any part that the value does not lead out of; and a second run changes
   nothing.
   */
  lemma {:induction false} GeneratedResets(g: Typing, d: nat, name: string, h: Heap, v: Value,
                                           objects: set<nat>, tables: set<nat>)
    requires R.Clean(g.pkg) && name in R.Structs(g.pkg) && HeapOk(g, h) && HasType(g, Ident(name), v)
    requires Closed(g, h, objects, tables) && Within(g, Ident(name), v, objects, tables)
    ensures RunReset(g.pkg, d, h, v).Some? <==> Bounded(g, h, Ident(name), v, d)
    ensures Bounded(g, h, Ident(name), v, d) ==>
              var (k, u) := RunReset(g.pkg, d, h, v).value;
              && u == Blank(g.pkg, Ident(name), v)
              && AllReset(g, k, Ident(name), u, d)
              && OnlyResets(g, h, k) && SameOutside(h, k, objects, tables)
              && RunReset(g.pkg, d, k, u) == Some((k, u))
  {
    MethodResets(g, d, name, h, v, objects, tables);
    if Bounded(g, h, Ident(name), v, d) {
      var (k, u) := RunReset(g.pkg, d, h, v).value;
      SecondRun(g, d, name, h, k, v, u);
    }
  }

  lemma {:induction false} SecondRun(g: Typing, d: nat, name: string, h: Heap, k: Heap, v: Value, u: Value)
    requires R.Clean(g.pkg) && name in R.Structs(g.pkg) && HeapOk(g, k) && HasType(g, Ident(name), v)
    requires u == Blank(g.pkg, Ident(name), v) && AllReset(g, k, Ident(name), u, d)
    ensures RunReset(g.pkg, d, k, u) == Some((k, u))
  {
    BlankKeeps(g, Ident(name), v);
    ResetObjectsAreClosed(g, k);
    ResetIsBounded(g, k, Ident(name), u, d);
    assert Within(g, Ident(name), u, ResetObjects(g, k), EmptyTables(k)) by {
      forall a | a in Pointers(g.pkg, Ident(name), u) ensures a in ResetObjects(g, k) {
        assert AllReset(g, k, g.types[a], k.objects[a], d - 1);
      }
    }
    MethodResets(g, d, name, k, u, ResetObjects(g, k), EmptyTables(k));
    NothingToReset(g, k, RunReset(g.pkg, d, k, u).value.0);
  }

  lemma {:induction false} ResetIsBounded(g: Typing, h: Heap, e: Expr, v: Value, d: nat)
    requires AllReset(g, h, e, v, d)
    ensures Bounded(g, h, e, v, d)
    decreases d
  {
    forall a | a in Pointers(g.pkg, e, v)
      ensures d > 0 && a in h.objects && a in g.types && Bounded(g, h, g.types[a], h.objects[a], d - 1)
    {
      ResetIsBounded(g, h, g.types[a], h.objects[a], d - 1);
    }
  }
}
