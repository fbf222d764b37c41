/** The staged intermediate representation the back ends read: syntax nodes,
    elaborated types, programs (quoted stages) with their persists,
    procedures, and the whole `CompilerIR` graph. Everything is immutable;
    the program and procedure tables are id-indexed arenas whose absent
    entries are explicit `None`s. */
module IR {
  import opened Wrappers

  /** The closed set of syntax-node kinds. Every node carries the id that
      keys the type table and the def-use map. */
  datatype Node =
    | Literal(id: nat, litType: string)
    | Seq(id: nat, lhs: Node, rhs: Node)
    | Let(id: nat, ident: string, expr: Node)
    | Assign(id: nat, ident: string, expr: Node)
    | Lookup(id: nat, ident: string)
    | Unary(id: nat, op: string, expr: Node)
    | Binary(id: nat, op: string, lhs: Node, rhs: Node)
    | Quote(id: nat, annotation: string, expr: Node)
    | Escape(id: nat, kind: string, expr: Node)
    | Run(id: nat, expr: Node)
    | Fun(id: nat, params: seq<string>, body: Node)
    | Call(id: nat, fn: Node, args: seq<Node>)
    | Extern(id: nat, ident: string)
    | Persist(id: nat, index: nat)
    | If(id: nat, cond: Node, thenBranch: Node, elseBranch: Node)
    | While(id: nat, cond: Node, body: Node)
    | MacroCall(id: nat, macro: string, args: seq<Node>)

  /** Elaborated types, after the type classes of the front end. */
  datatype Type =
    | PrimType(name: string)
    | FunType(params: seq<Type>, ret: Type)
    | CodeType(inner: Type, annotation: string)
    | OverloadedType(variants: seq<Type>)
    | AnyType
    | VoidType

  /** The two primitive types the back ends distinguish. */
  const INT: Type := PrimType("Int")
  const FLOAT: Type := PrimType("Float")

  /** A value computed in the enclosing stage and bound into this one: the
      escape node's id and the escaped expression. */
  datatype PersistEntry = PersistEntry(id: nat, body: Node)

  /** One quoted stage. Annotation "s" marks a shader stage, vertex or
      fragment alike; the fragment stage is the one nested in another. */
  datatype Prog = Prog(
    id: nat,
    annotation: string,
    subprograms: seq<nat>,
    persist: seq<PersistEntry>,
    body: Node)

  datatype Proc = Proc(id: nat, params: seq<nat>, body: Node)

  datatype CompilerIR = CompilerIR(
    progs: seq<Option<Prog>>,
    procs: seq<Option<Proc>>,
    containingProgs: map<nat, nat>,
    quotedProcs: map<nat, seq<nat>>,
    toplevelProcs: seq<nat>,
    main: Proc,
    typeTable: map<nat, Type>,
    defuse: map<nat, nat>,
    externs: map<nat, string>)

  /** Every way code generation can fail. The messages are the strings the
      compiler throws; `Undefined` stands for reading a missing table entry
      (which the host language turns into a runtime type error). */
  datatype Err =
    | PairingViolation
    | NonIntUniform
    | NonPrimitiveUniform
    | DynamicVtx
    | UnrecognizedType
    | UnknownUnaryOp
    | IncompatibleOperand
    | UnknownBinOp
    | NotImplementedYet
    | IncompatibleOperands
    | UnknownVariable
    | NotImplemented
    | Undefined(table: string, key: nat)
  {
    function Message(): string {
      match this
      case PairingViolation => "error: vertex quote must have exactly one fragment quote"
      case NonIntUniform => "error: only integer uniforms are supported"
      case NonPrimitiveUniform => "error: uniforms must be primitive types"
      case DynamicVtx => "dynamic `vtx` calls unimplemented"
      case UnrecognizedType => "Unrecognized Type"
      case UnknownUnaryOp => "Unknown unary op"
      case IncompatibleOperand => "Incompatible Operand"
      case UnknownBinOp => "Unknown bin op"
      case NotImplementedYet => "Not implemented yet"
      case IncompatibleOperands => "Incompatible Operands"
      case UnknownVariable => "Unknown variable name"
      case NotImplemented => "not implemented"
      case Undefined(_, _) => "undefined"
    }
  }

  /** `ir.progs[id]`: absent when out of range or elided. A program found
      this way is one of the programs the table walk visits. */
  function ProgAt(ir: CompilerIR, id: nat): (p: Option<Prog>)
    ensures p.Some? ==> p.value in Present(ir.progs)
  {
    if id < |ir.progs| then
      if ir.progs[id].Some? then
        PresentMembership(ir.progs, ir.progs[id].value);
        ir.progs[id]
      else None
    else None
  }

  /** `ir.procs[id]`: absent when out of range or elided. */
  function ProcAt(ir: CompilerIR, id: nat): Option<Proc> {
    if id < |ir.procs| then ir.procs[id] else None
  }

  /** `ir.type_table[id]`. */
  function TypeOf(ir: CompilerIR, id: nat): Option<Type> {
    if id in ir.typeTable then Some(ir.typeTable[id]) else None
  }

  /** The present programs of a table, in table order. */
  function Present(progs: seq<Option<Prog>>): (r: seq<Prog>)
    ensures |r| <= |progs|
    decreases |progs|
  {
    if progs == [] then []
    else
      var rest := Present(progs[1..]);
      if progs[0].Some? then [progs[0].value] + rest else rest
  }

  /** Reading the table piecewise reads the present programs piecewise. */
  lemma {:induction false} PresentAppend(a: seq<Option<Prog>>, b: seq<Option<Prog>>)
    ensures Present(a + b) == Present(a) + Present(b)
    decreases |a|
  {
    if a == [] {
      assert a + b == b;
    } else {
      assert (a + b)[0] == a[0];
      assert (a + b)[1..] == a[1..] + b;
      PresentAppend(a[1..], b);
    }
  }

  /** Every present slot contributes its program exactly once, between the
      programs of the slots before it and those of the slots after it; an
      absent slot contributes nothing. */
  lemma PresentSlot(progs: seq<Option<Prog>>, i: nat)
    requires i < |progs|
    ensures progs[i].Some? ==>
      Present(progs) == Present(progs[..i]) + [progs[i].value] + Present(progs[i + 1..])
    ensures progs[i].None? ==>
      Present(progs) == Present(progs[..i]) + Present(progs[i + 1..])
  {
    var single := [progs[i]];
    assert progs == progs[..i] + (single + progs[i + 1..]);
    PresentAppend(progs[..i], single + progs[i + 1..]);
    PresentAppend(single, progs[i + 1..]);
    assert single[1..] == [];
    assert Present(single) == (if progs[i].Some? then [progs[i].value] else []);
  }

  /** A program is among the present ones exactly when some slot holds it. */
  lemma {:induction false} PresentMembership(progs: seq<Option<Prog>>, p: Prog)
    ensures p in Present(progs) <==> exists i :: 0 <= i < |progs| && progs[i] == Some(p)
    decreases |progs|
  {
    if progs != [] {
      PresentMembership(progs[1..], p);
      if p in Present(progs[1..]) {
        var i :| 0 <= i < |progs[1..]| && progs[1..][i] == Some(p);
        assert progs[i + 1] == Some(p);
      }
      if exists i :: 0 <= i < |progs| && progs[i] == Some(p) {
        var i :| 0 <= i < |progs| && progs[i] == Some(p);
        if i > 0 {
          assert progs[1..][i - 1] == Some(p);
        }
      }
    }
  }

  /** A program is a top-level stage when the parent map has no entry. */
  predicate IsTopLevel(ir: CompilerIR, id: nat) {
    id !in ir.containingProgs
  }

  predicate IsShader(p: Prog) {
    p.annotation == "s"
  }

  /** The shape of an IR whose shader setup cannot fail: table slots hold
      the program with that id, and every top-level shader (vertex) stage has
      exactly one child stage, which is present. The nested fragment stage is
      itself annotated "s" and has no children, so the pairing demand is on
      top-level shader stages only. The back end does not assume this; it
      checks pairing itself (see `WebGL.GetProgPair`). */
  predicate WellFormed(ir: CompilerIR) {
    && (forall i :: 0 <= i < |ir.progs| && ir.progs[i].Some? ==> ir.progs[i].value.id == i)
    && (forall i :: 0 <= i < |ir.progs| && ir.progs[i].Some? && IsShader(ir.progs[i].value) && IsTopLevel(ir, i) ==>
          |ir.progs[i].value.subprograms| == 1 && ProgAt(ir, ir.progs[i].value.subprograms[0]).Some?)
  }
}
