/**
 When a generated Reset method ends: exactly on values without a cycle of pointers. The depth to which
 module ResetSharing follows pointers is no restriction, for it makes no difference once it suffices.
 */
module ResetCycles {
  import opened Common
  import opened ResetGenerator
  import opened ResetSharing
  import opened Strings
  import R = ResetSemantics

  // ---------------------------------------------------------------- chains of pointers

  /** The path follows pointers: its first object from the variable, every other from the one before. */
  predicate Chain(g: Typing, h: Heap, e: Expr, v: Value, path: seq<nat>)
    decreases |path|
  {
    path == [] ||
    (&& path[0] in Pointers(g.pkg, e, v) && path[0] in h.objects && path[0] in g.types
     && Chain(g, h, g.types[path[0]], h.objects[path[0]], path[1..]))
  }

  predicate NoRepeat(path: seq<nat>) { forall i, j :: 0 <= i < j < |path| ==> path[i] != path[j] }

  /** No chain from the variable comes back to an object. */
  ghost predicate Acyclic(g: Typing, h: Heap, e: Expr, v: Value) {
    forall path :: Chain(g, h, e, v, path) ==> NoRepeat(path)
  }

  /** Every object on a chain is in the heap. */
  lemma {:induction false} ChainStaysInHeap(g: Typing, h: Heap, e: Expr, v: Value, path: seq<nat>)
    requires Chain(g, h, e, v, path)
    ensures forall i :: 0 <= i < |path| ==> path[i] in h.objects && path[i] in g.types
    decreases |path|
  {
    if path != [] {
      ChainStaysInHeap(g, h, g.types[path[0]], h.objects[path[0]], path[1..]);
      assert forall i :: 0 < i < |path| ==> path[i] == path[1..][i - 1];
    }
  }

  /** Cut behind its first k objects a chain is a chain, and another one from the last of these. */
  lemma {:induction false} ChainCut(g: Typing, h: Heap, e: Expr, v: Value, path: seq<nat>, k: nat)
    requires Chain(g, h, e, v, path) && 0 < k <= |path|
    ensures Chain(g, h, e, v, path[..k])
    ensures path[k - 1] in h.objects && path[k - 1] in g.types
    ensures Chain(g, h, g.types[path[k - 1]], h.objects[path[k - 1]], path[k..])
    decreases |path|
  {
    var a := path[0];
    assert path[..k][1..] == path[1..][..k - 1];
    if k > 1 {
      ChainCut(g, h, g.types[a], h.objects[a], path[1..], k - 1);
      assert path[1..][k - 2] == path[k - 1] && path[1..][k - 1..] == path[k..];
    }
  }

  /** Along a chain the bound falls by one for each object. */
  lemma {:induction false} BoundFalls(g: Typing, h: Heap, e: Expr, v: Value, path: seq<nat>, d: nat)
    requires Chain(g, h, e, v, path) && path != [] && Bounded(g, h, e, v, d)
    ensures |path| <= d
    ensures var a := path[|path| - 1];
            a in h.objects && a in g.types && Bounded(g, h, g.types[a], h.objects[a], d - |path|)
    decreases |path|
  {
    if |path| > 1 {
      BoundFalls(g, h, g.types[path[0]], h.objects[path[0]], path[1..], d - 1);
      assert path[1..][|path| - 2] == path[|path| - 1];
    }
  }

  /** An object that leads back to itself, over any number of others, has no bound. */
  lemma {:induction false} LoopHasNoBound(g: Typing, h: Heap, a: nat, loop: seq<nat>, d: nat)
    requires a in h.objects && a in g.types && loop != [] && loop[|loop| - 1] == a
    requires Chain(g, h, g.types[a], h.objects[a], loop)
    ensures !Bounded(g, h, g.types[a], h.objects[a], d)
    decreases d
  {
    if Bounded(g, h, g.types[a], h.objects[a], d) {
      BoundFalls(g, h, g.types[a], h.objects[a], loop, d);
      LoopHasNoBound(g, h, a, loop, d - |loop|);
    }
  }

  /** Between two visits of an object a chain is a loop. */
  lemma {:induction false} LoopBetween(g: Typing, h: Heap, e: Expr, v: Value, path: seq<nat>, i: nat, j: nat)
    requires Chain(g, h, e, v, path) && i < j < |path| && path[i] == path[j]
    ensures path[i] in h.objects && path[i] in g.types
    ensures Chain(g, h, e, v, path[..i + 1]) && path[..i + 1][i] == path[i]
    ensures var loop := path[i + 1..j + 1];
            Chain(g, h, g.types[path[i]], h.objects[path[i]], loop) && loop[|loop| - 1] == path[i]
  {
    var a, rest := path[i], path[i + 1..];
    ChainCut(g, h, e, v, path, i + 1);
    ChainCut(g, h, g.types[a], h.objects[a], rest, j - i);
    assert rest[..j - i] == path[i + 1..j + 1];
  }

  /** A chain that comes back to one of its objects is followed for ever. */
  lemma {:induction false} CycleNeverEnds(g: Typing, h: Heap, e: Expr, v: Value, path: seq<nat>, d: nat)
    requires Chain(g, h, e, v, path) && !NoRepeat(path)
    ensures !Bounded(g, h, e, v, d)
  {
    var i, j :| 0 <= i < j < |path| && path[i] == path[j];
    LoopBetween(g, h, e, v, path, i, j);
    if Bounded(g, h, e, v, d) {
      BoundFalls(g, h, e, v, path[..i + 1], d);
      LoopHasNoBound(g, h, path[i], path[i + 1..j + 1], d - i - 1);
    }
  }

  // ---------------------------------------------------------------- without a cycle

  lemma {:induction false} TypedPointersExist(g: Typing, h: Heap, e: Expr, v: Value)
    requires HeapOk(g, h) && HasType(g, e, v)
    ensures Pointers(g.pkg, e, v) <= h.objects.Keys && Tables(g.pkg, e, v) <= h.tables.Keys
    decreases v
  {
    if e.Ident? && e.name in R.Structs(g.pkg) {
      var slots := R.Slots(R.LinesOf(g.pkg, e.name));
      forall i | 0 <= i < |v.fields|
        ensures Pointers(g.pkg, slots[i].typ, v.fields[i]) <= h.objects.Keys
        ensures Tables(g.pkg, slots[i].typ, v.fields[i]) <= h.tables.Keys
      {
        TypedPointersExist(g, h, slots[i].typ, v.fields[i]);
      }
    }
  }

  /** Where d is no bound there is a chain of d + 1 objects. */
  lemma {:induction false} LongChain(g: Typing, h: Heap, e: Expr, v: Value, d: nat) returns (path: seq<nat>)
    requires HeapOk(g, h) && HasType(g, e, v) && !Bounded(g, h, e, v, d)
    ensures Chain(g, h, e, v, path) && |path| == d + 1
    decreases d
  {
    TypedPointersExist(g, h, e, v);
    var a :| a in Pointers(g.pkg, e, v) && !(d > 0 && Bounded(g, h, g.types[a], h.objects[a], d - 1));
    var rest := [];
    if d > 0 {
      rest := LongChain(g, h, g.types[a], h.objects[a], d - 1);
    }
    path := [a] + rest;
    assert path[1..] == rest;
  }

  /** A sequence without repetition is no longer than the set it is drawn from. */
  lemma {:induction false} Pigeonhole(path: seq<nat>, s: set<nat>)
    requires NoRepeat(path) && forall i :: 0 <= i < |path| ==> path[i] in s
    ensures |path| <= |s|
    decreases |path|
  {
    if path != [] {
      var n := |path| - 1;
      Pigeonhole(path[..n], s - {path[n]});
      assert |s - {path[n]}| == |s| - 1;
    }
  }

  /** Without a cycle no chain is longer than there are objects. */
  lemma {:induction false} AcyclicIsBounded(g: Typing, h: Heap, e: Expr, v: Value)
    requires HeapOk(g, h) && HasType(g, e, v) && Acyclic(g, h, e, v)
    ensures Bounded(g, h, e, v, |h.objects|)
  {
    assert |h.objects.Keys| == |h.objects|;
    if !Bounded(g, h, e, v, |h.objects|) {
      var path := LongChain(g, h, e, v, |h.objects|);
      ChainStaysInHeap(g, h, e, v, path);
      Pigeonhole(path, h.objects.Keys);
    }
  }

  /** Some depth bounds the chains from a variable exactly when none of them comes back to an object. */
  lemma {:induction false} BoundedExactly(g: Typing, h: Heap, e: Expr, v: Value)
    requires HeapOk(g, h) && HasType(g, e, v)
    ensures (exists d: nat :: Bounded(g, h, e, v, d)) <==> Acyclic(g, h, e, v)
  {
    if d: nat :| Bounded(g, h, e, v, d) {
      forall path | Chain(g, h, e, v, path) ensures NoRepeat(path) {
        if !NoRepeat(path) {
          CycleNeverEnds(g, h, e, v, path, d);
        }
      }
    }
    if Acyclic(g, h, e, v) {
      var n: nat := |h.objects|;
      AcyclicIsBounded(g, h, e, v);
      assert Bounded(g, h, e, v, n);
    }
  }

  // ---------------------------------------------------------------- the depth does not matter

  lemma {:induction false} MoreForStatement(pkg: seq<R.Decl>, d: nat, more: nat, stmt: Reset, h: Heap, v: Value)
    requires d <= more && Exec(pkg, d, stmt, h, v).Some?
    ensures Exec(pkg, more, stmt, h, v) == Exec(pkg, d, stmt, h, v)
    decreases d, v, 2
  {
    match R.Guarded(stmt) {
      case Some(inner) =>
        if v.PtrV? {
          MoreForStatement(pkg, d - 1, more - 1, inner, h, h.objects[v.addr]);
        }
      case None =>
        if stmt.CallReset? {
          MoreForMethod(pkg, d, more, h, v);
        }
    }
  }

  lemma {:induction false} MoreForMethod(pkg: seq<R.Decl>, d: nat, more: nat, h: Heap, v: Value)
    requires d <= more && RunReset(pkg, d, h, v).Some?
    ensures RunReset(pkg, more, h, v) == RunReset(pkg, d, h, v)
    decreases d, v, 1
  {
    MoreForBody(pkg, d, more, R.LinesOf(pkg, v.typ), h, v.fields);
  }

  lemma {:induction false} MoreForBody(pkg: seq<R.Decl>, d: nat, more: nat, lines: seq<R.Line>, h: Heap,
                                       fields: seq<Value>)
    requires d <= more && RunBody(pkg, d, lines, h, fields).Some?
    ensures RunBody(pkg, more, lines, h, fields) == RunBody(pkg, d, lines, h, fields)
    decreases d, fields, 0
  {
    if lines != [] {
      if lines[0].names != [] {
        MoreForStatement(pkg, d, more, Dispatch(Print(lines[0].typ), R.Structs(pkg)), h, fields[0]);
      }
      var first := FirstStatement(pkg, d, lines[0], h, fields[0]);
      assert FirstStatement(pkg, more, lines[0], h, fields[0]) == first;
      MoreForBody(pkg, d, more, lines[1..], first.value.0, fields[R.Width(lines[0])..]);
    }
  }

  // ---------------------------------------------------------------- the result

  /** The whole heap is a part that resets do not leave. */
  lemma {:induction false} WholeHeapIsClosed(g: Typing, h: Heap)
    requires HeapOk(g, h)
    ensures Closed(g, h, h.objects.Keys, h.tables.Keys)
  {
    forall a | a in h.objects
      ensures Pointers(g.pkg, g.types[a], h.objects[a]) <= h.objects.Keys
      ensures Tables(g.pkg, g.types[a], h.objects[a]) <= h.tables.Keys
    {
      TypedPointersExist(g, h, g.types[a], h.objects[a]);
    }
  }

  /** What all is reset in: the variable, every object on a chain from it, and the maps that they refer to. */
  lemma {:induction false} AllIsCleared(g: Typing, h: Heap, e: Expr, v: Value, d: nat, path: seq<nat>)
    requires HeapOk(g, h) && HasType(g, e, v) && AllReset(g, h, e, v, d) && Chain(g, h, e, v, path)
    ensures Cleared(g.pkg, e, v) && (forall t :: t in Tables(g.pkg, e, v) ==> t in h.tables && h.tables[t] == [])
    ensures path != [] ==>
              var a := path[|path| - 1];
              && a in h.objects && a in g.types && Cleared(g.pkg, g.types[a], h.objects[a])
              && (forall t :: t in Tables(g.pkg, g.types[a], h.objects[a]) ==> t in h.tables && h.tables[t] == [])
    decreases |path|
  {
    OnlyClearedStay(g, e, v);
    if path != [] {
      AllIsCleared(g, h, g.types[path[0]], h.objects[path[0]], d - 1, path[1..]);
      assert |path| > 1 ==> path[1..][|path| - 2] == path[|path| - 1];
    }
  }

  /** A generated method ends, at some depth of pointers, exactly on values without a cycle. */
  lemma {:induction false} EndsExactly(g: Typing, name: string, h: Heap, v: Value)
    requires R.Clean(g.pkg) && name in R.Structs(g.pkg) && HeapOk(g, h) && HasType(g, Ident(name), v)
    ensures (exists d: nat :: RunReset(g.pkg, d, h, v).Some?) <==> Acyclic(g, h, Ident(name), v)
  {
    WholeHeapIsClosed(g, h);
    TypedPointersExist(g, h, Ident(name), v);
    BoundedExactly(g, h, Ident(name), v);
    if Acyclic(g, h, Ident(name), v) {
      var n: nat := |h.objects|;
      AcyclicIsBounded(g, h, Ident(name), v);
      GeneratedResets(g, n, name, h, v, h.objects.Keys, h.tables.Keys);
      assert RunReset(g.pkg, n, h, v).Some?;
    }
    if d: nat :| RunReset(g.pkg, d, h, v).Some? {
      GeneratedResets(g, d, name, h, v, h.objects.Keys, h.tables.Keys);
      assert Bounded(g, h, Ident(name), v, d);
    }
  }

  /**
   On every value without a cycle a generated method ends, at the depth of the number of objects and with
   the same result at every other depth at which it ends. The value and everything that it leads to is
   reset; the heap differs by resets only, and not at all outside any part that the value does not lead
   out of; and a second run changes nothing.
   */
  lemma {:induction false} AcyclicResets(g: Typing, name: string, h: Heap, v: Value)
    requires R.Clean(g.pkg) && name in R.Structs(g.pkg) && HeapOk(g, h) && HasType(g, Ident(name), v)
    requires Acyclic(g, h, Ident(name), v)
    ensures RunReset(g.pkg, |h.objects|, h, v).Some?
    ensures forall d: nat :: RunReset(g.pkg, d, h, v).Some? ==>
              RunReset(g.pkg, d, h, v) == RunReset(g.pkg, |h.objects|, h, v)
    ensures var (k, u) := RunReset(g.pkg, |h.objects|, h, v).value;
            && u == Blank(g.pkg, Ident(name), v)
            && AllReset(g, k, Ident(name), u, |h.objects|)
            && HeapOk(g, k) && HasType(g, Ident(name), u) && Cleared(g.pkg, Ident(name), u)
            && OnlyResets(g, h, k)
            && RunReset(g.pkg, |h.objects|, k, u) == Some((k, u))
            && forall objects, tables ::
                 Closed(g, h, objects, tables) && Within(g, Ident(name), v, objects, tables) ==>
                   SameOutside(h, k, objects, tables)
  {
    var n := |h.objects|;
    AcyclicIsBounded(g, h, Ident(name), v);
    WholeHeapIsClosed(g, h);
    TypedPointersExist(g, h, Ident(name), v);
    GeneratedResets(g, n, name, h, v, h.objects.Keys, h.tables.Keys);
    ResetsKeepHeap(g, h, RunReset(g.pkg, n, h, v).value.0);
    BlankKeeps(g, Ident(name), v);
    OnlyClearedStay(g, Ident(name), Blank(g.pkg, Ident(name), v));
    forall d: nat | RunReset(g.pkg, d, h, v).Some?
      ensures RunReset(g.pkg, d, h, v) == RunReset(g.pkg, n, h, v)
    {
      if d <= n {
        MoreForMethod(g.pkg, d, n, h, v);
      } else {
        MoreForMethod(g.pkg, n, d, h, v);
      }
    }
    forall objects, tables | Closed(g, h, objects, tables) && Within(g, Ident(name), v, objects, tables)
      ensures SameOutside(h, RunReset(g.pkg, n, h, v).value.0, objects, tables)
    {
      GeneratedResets(g, n, name, h, v, objects, tables);
    }
  }

  // ---------------------------------------------------------------- a cycle

  /** The package of the one marked struct type Node, whose only field next is a *Node. */
  const NODES: seq<R.Decl> := [R.Decl("Node", [R.Line(["next"], Star(Ident("Node")))])]

  /** Two nodes that point at each other. */
  const TWO: Heap := Heap(map[0 := StructV("Node", [PtrV(1)]), 1 := StructV("Node", [PtrV(0)])], map[])

  const TWO_TYPES: Typing := Typing(NODES, map[0 := Ident("Node"), 1 := Ident("Node")], {})

  lemma NodesAreClean()
    ensures R.Clean(NODES) && R.Structs(NODES) == ["Node"]
    ensures R.LinesOf(NODES, "Node") == NODES[0].lines
    ensures R.Slots(NODES[0].lines) == [R.Slot(Star(Ident("Node")), true)]
  {
    assert IsName("Node");
    PrefixTests("Node");
  }

  lemma NodeIsTyped(a: nat)
    requires a in TWO.objects
    ensures HasType(TWO_TYPES, Ident("Node"), StructV("Node", [PtrV(a)]))
    ensures Pointers(NODES, Ident("Node"), StructV("Node", [PtrV(a)])) == {a}
  {
    NodesAreClean();
    var slots := R.Slots(NODES[0].lines);
    assert HasType(TWO_TYPES, slots[0].typ, PtrV(a));
    assert Pointers(NODES, slots[0].typ, PtrV(a)) == {a};
    assert a in FieldPointers(NODES, slots, [PtrV(a)]) by {
      assert slots[0].leads && [PtrV(a)][0] == PtrV(a);
    }
    assert FieldPointers(NODES, slots, [PtrV(a)]) == {a};
  }

  /** The method generated for Node does not end on either of two nodes that point at each other. */
  lemma TwoNodesNeverEnd(d: nat)
    ensures R.Clean(NODES) && HeapOk(TWO_TYPES, TWO)
    ensures HasType(TWO_TYPES, Ident("Node"), TWO.objects[0]) && !Acyclic(TWO_TYPES, TWO, Ident("Node"), TWO.objects[0])
    ensures RunReset(NODES, d, TWO, TWO.objects[0]) == None
  {
    var v, path := TWO.objects[0], [1, 0, 1];
    NodesAreClean();
    NodeIsTyped(0);
    NodeIsTyped(1);
    assert path[1..] == [0, 1] && path[1..][1..] == [1] && path[1..][1..][1..] == [];
    assert Chain(TWO_TYPES, TWO, Ident("Node"), TWO.objects[1], []);
    assert Chain(TWO_TYPES, TWO, Ident("Node"), TWO.objects[0], [1]);
    assert Chain(TWO_TYPES, TWO, Ident("Node"), TWO.objects[1], [0, 1]);
    assert Chain(TWO_TYPES, TWO, Ident("Node"), v, path);
    assert path[0] == path[2];
    EndsExactly(TWO_TYPES, "Node", TWO, v);
  }
}
