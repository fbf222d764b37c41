/** The native back end (src/backends/llvm.ts). Most node kinds are not
    implemented; what is implemented is a selection: which constant a
    literal becomes, which instruction an operator on given operand types
    becomes, and how a variable reference is resolved. The LLVM builder is
    replaced by an abstract instruction that names what would be built. */
module Llvm {
  import opened Wrappers
  import opened Text
  import opened IR

  /** What the builder is asked to produce. Constants carry only their kind;
      a load names the pointer it reads and the name it is given. */
  datatype Instr =
    | Add | Mul | AddF | MulF
    | Neg | NegF
    | ConstI32 | ConstDouble | ConstStr
    | Load(ptr: nat, name: string)

  /** The type of the value an instruction computes, where the instruction
      alone determines it. This is the reference the selection is checked
      against: integer operands must give integer instructions and float
      operands float ones. */
  function InstrType(i: Instr): Option<Type> {
    match i
    case Add => Some(INT)
    case Mul => Some(INT)
    case Neg => Some(INT)
    case ConstI32 => Some(INT)
    case AddF => Some(FLOAT)
    case MulF => Some(FLOAT)
    case NegF => Some(FLOAT)
    case ConstDouble => Some(FLOAT)
    case ConstStr => None
    case Load(_, _) => None
  }

  /** The operator an arithmetic instruction implements. */
  function InstrOp(i: Instr): Option<string> {
    match i
    case Add => Some("+")
    case AddF => Some("+")
    case Mul => Some("*")
    case MulF => Some("*")
    case Neg => Some("-")
    case NegF => Some("-")
    case _ => None
  }

  // ---------------------------------------------------------------------
  // Literals (src/backends/llvm.ts:88-97)
  // ---------------------------------------------------------------------

  function VisitLiteral(litType: string): (r: Result<Instr, Err>)
    ensures r.Success? <==> litType == "int" || litType == "float" || litType == "string"
    ensures r.Failure? ==> r.error == UnrecognizedType
    ensures r == Success(ConstI32) <==> litType == "int"
    ensures r == Success(ConstDouble) <==> litType == "float"
    ensures r == Success(ConstStr) <==> litType == "string"
  {
    if litType == "int" then Success(ConstI32)
    else if litType == "float" then Success(ConstDouble)
    else if litType == "string" then Success(ConstStr)
    else Failure(UnrecognizedType)
  }

  // ---------------------------------------------------------------------
  // Unary operators (src/backends/llvm.ts:117-134)
  // ---------------------------------------------------------------------

  function VisitUnary(op: string, operand: Type): (r: Result<Instr, Err>)
    ensures r.Success? <==> op == "-" && (operand == INT || operand == FLOAT)
    ensures r.Success? ==> InstrType(r.value) == Some(operand) && InstrOp(r.value) == Some(op)
    ensures operand != INT && operand != FLOAT ==> r == Failure(IncompatibleOperand)
    ensures (operand == INT || operand == FLOAT) && op != "-" ==> r == Failure(UnknownUnaryOp)
  {
    if operand == INT then
      if op == "-" then Success(Neg) else Failure(UnknownUnaryOp)
    else if operand == FLOAT then
      if op == "-" then Success(NegF) else Failure(UnknownUnaryOp)
    else
      Failure(IncompatibleOperand)
  }

  // ---------------------------------------------------------------------
  // Binary operators (src/backends/llvm.ts:136-177)
  // ---------------------------------------------------------------------

  function VisitBinary(op: string, lhs: Type, rhs: Type): (r: Result<Instr, Err>)
    ensures r.Success? <==> (op == "+" || op == "*") && (lhs == rhs == INT || lhs == rhs == FLOAT)
    ensures r.Success? ==> InstrType(r.value) == Some(lhs) && InstrType(r.value) == Some(rhs)
    ensures r.Success? ==> InstrOp(r.value) == Some(op)
    ensures (lhs == rhs == INT || lhs == rhs == FLOAT) && op != "+" && op != "*" ==> r == Failure(UnknownBinOp)
    ensures (lhs == FLOAT && rhs == INT) || (lhs == INT && rhs == FLOAT) ==> r == Failure(NotImplementedYet)
    ensures (lhs != INT && lhs != FLOAT) || (rhs != INT && rhs != FLOAT) ==> r == Failure(IncompatibleOperands)
  {
    if lhs == INT && rhs == INT then
      if op == "+" then Success(Add)
      else if op == "*" then Success(Mul)
      else Failure(UnknownBinOp)
    else if lhs == FLOAT && rhs == FLOAT then
      if op == "+" then Success(AddF)
      else if op == "*" then Success(MulF)
      else Failure(UnknownBinOp)
    else if lhs == FLOAT && rhs == INT then
      Failure(NotImplementedYet)
    else if lhs == INT && rhs == FLOAT then
      Failure(NotImplementedYet)
    else
      Failure(IncompatibleOperands)
  }

  /** The arithmetic selection is a function of the operator and the
      operand type: distinct (operator, type) pairs never select the same
      instruction, and the instruction gives both back. */
  lemma SelectionDeterminesOpAndType(op1: string, t1: Type, op2: string, t2: Type)
    requires VisitBinary(op1, t1, t1).Success? && VisitBinary(op2, t2, t2).Success?
    ensures VisitBinary(op1, t1, t1) == VisitBinary(op2, t2, t2) <==> op1 == op2 && t1 == t2
  {
  }

  // ---------------------------------------------------------------------
  // Variables (src/backends/llvm.ts:32-43, 61-81)
  // ---------------------------------------------------------------------

  /** Extern references are not implemented, for function and value types
      alike. */
  function EmitExtern(name: string, t: Type): (r: Result<Instr, Err>)
    ensures r.Failure? && r.error.Message() == "Not implemented yet"
  {
    if t.FunType? then Failure(NotImplementedYet)
    else Failure(NotImplementedYet)
  }

  /** The variable name of a definition (the JavaScript back end's `varsym`). */
  function VarSym(defid: nat): string {
    "v" + NatToString(defid)
  }

  /** What the native generator reads while selecting: the IR and the
      pointers it has allocated for named variables. */
  datatype Emitter = Emitter(ir: CompilerIR, namedValues: map<string, nat>)

  function EmitLookup(em: Emitter, ext: (string, Type) -> Result<Instr, Err>, tree: Node): (r: Result<Instr, Err>)
    requires tree.Lookup?
    ensures tree.id !in em.ir.defuse ==> r == Failure(Undefined("defuse", tree.id))
    ensures tree.id in em.ir.defuse && em.ir.defuse[tree.id] in em.ir.externs ==>
      r == (if tree.id in em.ir.typeTable
            then ext(em.ir.externs[em.ir.defuse[tree.id]], em.ir.typeTable[tree.id])
            else Failure(Undefined("type_table", tree.id)))
    ensures tree.id in em.ir.defuse && em.ir.defuse[tree.id] !in em.ir.externs ==>
      var name := VarSym(em.ir.defuse[tree.id]);
      && (r.Success? <==> name in em.namedValues)
      && (r.Failure? ==> r.error == UnknownVariable)
      && (r.Success? ==> r.value == Load(em.namedValues[name], name))
  {
    if tree.id !in em.ir.defuse then Failure(Undefined("defuse", tree.id))
    else
      var defid := em.ir.defuse[tree.id];
      if defid in em.ir.externs then
        var name := em.ir.externs[defid];
        if tree.id !in em.ir.typeTable then Failure(Undefined("type_table", tree.id))
        else ext(name, em.ir.typeTable[tree.id])
      else
        var id := VarSym(defid);
        if id !in em.namedValues then Failure(UnknownVariable)
        else Success(Load(em.namedValues[id], id))
  }

  /** With the built-in extern handling, a lookup succeeds only as a load of
      the pointer recorded for the variable, under the variable's name. */
  lemma LookupLoadsNamedPointer(em: Emitter, tree: Node)
    requires tree.Lookup?
    requires EmitLookup(em, EmitExtern, tree).Success?
    ensures var name := VarSym(em.ir.defuse[tree.id]);
      && em.ir.defuse[tree.id] !in em.ir.externs
      && name in em.namedValues
      && EmitLookup(em, EmitExtern, tree) == Success(Load(em.namedValues[name], name))
  {
  }

  // ---------------------------------------------------------------------
  // The node-kind dispatch (src/backends/llvm.ts:87-218)
  // ---------------------------------------------------------------------

  /** Selection for one node: literals, lookups, and unary and binary
      operators are handled; every other kind is not implemented. */
  function Select(em: Emitter, tree: Node): (r: Result<Instr, Err>)
    ensures tree.Literal? ==> r == VisitLiteral(tree.litType)
    ensures tree.Lookup? ==> r == EmitLookup(em, EmitExtern, tree)
    ensures tree.Unary? ==>
      r == (if tree.expr.id in em.ir.typeTable then VisitUnary(tree.op, em.ir.typeTable[tree.expr.id])
            else Failure(Undefined("type_table", tree.expr.id)))
    ensures tree.Binary? ==>
      r == (if tree.lhs.id !in em.ir.typeTable then Failure(Undefined("type_table", tree.lhs.id))
            else if tree.rhs.id !in em.ir.typeTable then Failure(Undefined("type_table", tree.rhs.id))
            else VisitBinary(tree.op, em.ir.typeTable[tree.lhs.id], em.ir.typeTable[tree.rhs.id]))
    ensures r.Success? ==> tree.Literal? || tree.Lookup? || tree.Unary? || tree.Binary?
    ensures !(tree.Literal? || tree.Lookup? || tree.Unary? || tree.Binary?) ==> r == Failure(NotImplemented)
  {
    match tree
    case Literal(_, litType) => VisitLiteral(litType)
    case Lookup(_, _) => EmitLookup(em, EmitExtern, tree)
    case Unary(_, op, expr) =>
      (match TypeOf(em.ir, expr.id)
       case None => Failure(Undefined("type_table", expr.id))
       case Some(t) => VisitUnary(op, t))
    case Binary(_, op, lhs, rhs) =>
      (match (TypeOf(em.ir, lhs.id), TypeOf(em.ir, rhs.id))
       case (None, _) => Failure(Undefined("type_table", lhs.id))
       case (_, None) => Failure(Undefined("type_table", rhs.id))
       case (Some(lt), Some(rt)) => VisitBinary(op, lt, rt))
    case _ => Failure(NotImplemented)
  }

  /** Whatever the selection builds for an operator computes a value of its
      operands' elaborated type, and implements that operator. */
  lemma SelectPreservesOperandType(em: Emitter, tree: Node)
    requires tree.Unary? || tree.Binary?
    requires Select(em, tree).Success?
    ensures tree.Unary? ==>
      && tree.expr.id in em.ir.typeTable
      && InstrType(Select(em, tree).value) == Some(em.ir.typeTable[tree.expr.id])
      && InstrOp(Select(em, tree).value) == Some(tree.op)
    ensures tree.Binary? ==>
      && tree.lhs.id in em.ir.typeTable && tree.rhs.id in em.ir.typeTable
      && InstrType(Select(em, tree).value) == Some(em.ir.typeTable[tree.lhs.id])
      && em.ir.typeTable[tree.lhs.id] == em.ir.typeTable[tree.rhs.id]
      && InstrOp(Select(em, tree).value) == Some(tree.op)
  {
  }

  /** A reference to an extern never gets through selection. */
  lemma ExternLookupFails(em: Emitter, tree: Node)
    requires tree.Lookup? && tree.id in em.ir.defuse && em.ir.defuse[tree.id] in em.ir.externs
    ensures Select(em, tree).Failure?
  {
  }
}
