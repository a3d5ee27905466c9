/**
 * The code generator of src/compiler/compiler.cpp as pure functions from a
 * compiler state to the next one.
 *
 * The state holds what the `Compiler` object changes: `type_map`, the
 * module (an append-only log, see module Ir), the builder's insertion
 * block, the current scope and `current_function`. Each `_visit*` member
 * function and `_resolveValue` becomes a function of the same shape; the
 * class in module Compiling runs the same steps in place and is proved to
 * reach the state these functions compute.
 *
 * The C++ code dereferences child pointers without checking them, so the
 * functions require a tree without null children where the compiler
 * reads one (`Compilable`): every declaration has an initializer, every
 * operand, return value and body is present, and names are identifiers.
 */
module LowerSpec {
  import opened Wrappers
  import opened Ast
  import T = Tokens
  import Ir
  import E = Environment

  /** The pair `(llvm::Value*, llvm::Type*)` the visit functions return; `None` is `nullptr`. */
  datatype Typed = Typed(value: Option<Ir.Value>, ty: Option<Ir.Ty>)

  const NullPair := Typed(None, None)

  datatype CState = CState(
    typeMap: map<string, Ir.Ty>,
    ir: Ir.Module,
    insert: Option<nat>,
    scope: E.Scope,
    current: Option<nat>)

  /**
   * `type_map[n]`. `operator[]` inserts a null entry for a missing key; a
   * later read of that key gives null again, so the insertion is not kept.
   */
  function TypeNamed(tm: map<string, Ir.Ty>, n: string): (t: Option<Ir.Ty>)
    ensures t.Some? <==> n in tm
    ensures t.Some? ==> t.value == tm[n]
  {
    if n in tm then Some(tm[n]) else None
  }

  const TwoTo32: nat := 0x1_0000_0000
  const TwoTo31: nat := 0x8000_0000

  /** The signed reading of a 32-bit pattern (two's complement). */
  function Signed32(bits: nat): int
  {
    if bits < TwoTo31 then bits else bits - TwoTo32
  }

  /** Only code was appended: globals, functions and blocks are as before. */
  predicate OnlyCode(m0: Ir.Module, m1: Ir.Module)
  {
    m1 == m0.(code := m1.code) && m0.code <= m1.code
  }

  // ---------------------------------------------------------------------
  // Which trees the compiler can take

  predicate NamedType(t: GenericType)
  {
    t.name.IdentifierLiteral?
  }

  predicate CompilableExpression(e: Expression)
  {
    match e
    case InfixExpression(l, _, r) =>
      l.Some? && r.Some? && CompilableExpression(l.value) && CompilableExpression(r.value)
    case _ => true
  }

  predicate CompilableParameters(ps: seq<Parameter>)
  {
    forall i :: 0 <= i < |ps| ==> ps[i].name.IdentifierLiteral? && NamedType(ps[i].valueType)
  }

  predicate AllCompilable(ss: seq<Statement>)
  {
    forall i :: 0 <= i < |ss| ==> Compilable(ss[i])
  }

  predicate AllCompilableExpressions(es: seq<Expression>)
  {
    forall i :: 0 <= i < |es| ==> CompilableExpression(es[i])
  }

  predicate Compilable(s: Statement)
  {
    match s
    case ExpressionStatement(e) => e.Some? && CompilableExpression(e.value)
    case BlockStatement(ss) => forall i :: 0 <= i < |ss| ==> Compilable(ss[i])
    case ReturnStatement(v) => v.Some? && CompilableExpression(v.value)
    case FunctionStatement(name, ps, rt, body) =>
      name.IdentifierLiteral? && CompilableParameters(ps) && NamedType(rt) && body.Some? && Compilable(body.value)
    case VariableDeclarationStatement(name, t, v) =>
      name.IdentifierLiteral? && NamedType(t) && v.Some? && CompilableExpression(v.value)
    case VariableAssignmentStatement(name, v) =>
      name.IdentifierLiteral? && v.Some? && CompilableExpression(v.value)
  }

  // ---------------------------------------------------------------------
  // The constructor and _initializeBuiltins (compiler.cpp:3-22)

  /** A default-constructed compiler before `_initializeBuiltins`. */
  function Fresh(): CState
  {
    CState(map[], Ir.Module("main", [], [], [], []), None, E.Scope(None, "unnamed", map[]), None)
  }

  function Builtins(st: CState): CState
  {
    var tm := st.typeMap["int" := Ir.Int32]["float" := Ir.Float32]["bool" := Ir.Int1];
    var g := |st.ir.globals|;
    var globals := st.ir.globals
      + [Ir.Global("True", Some(Ir.Int1), true, Ir.ConstInt(1, 1)),
         Ir.Global("False", Some(Ir.Int1), true, Ir.ConstInt(1, 0))];
    var scope := st.scope.With("True", E.Binding(Some(Ir.GlobalRef(g)), Some(Ir.Int1), None))
                         .With("False", E.Binding(Some(Ir.GlobalRef(g + 1)), Some(Ir.Int1), None));
    st.(typeMap := tm, ir := st.ir.(globals := globals), scope := scope)
  }

  /**
   * The state after `Compiler()`: the three builtin types, the constant
   * globals `True` and `False`, bound in the root scope with type bool and
   * no storage slot.
   */
  function Initial(): (st: CState)
    ensures TypeNamed(st.typeMap, "int") == Some(Ir.Int32)
    ensures TypeNamed(st.typeMap, "float") == Some(Ir.Float32)
    ensures TypeNamed(st.typeMap, "bool") == Some(Ir.Int1)
    ensures E.Lookup(st.scope, "True") == E.Binding(Some(Ir.GlobalRef(0)), Some(Ir.Int1), None)
    ensures E.Lookup(st.scope, "False") == E.Binding(Some(Ir.GlobalRef(1)), Some(Ir.Int1), None)
    ensures |st.ir.globals| == 2 && st.ir.globals[0].name == "True" && st.ir.globals[1].name == "False"
    ensures st.ir.globals[0].init == Ir.ConstInt(1, 1) && st.ir.globals[1].init == Ir.ConstInt(1, 0)
    ensures forall n :: n != "True" && n != "False" ==> E.Lookup(st.scope, n) == E.Absent
    ensures st.scope.parent.None? && st.insert.None? && st.ir.code == []
  {
    Builtins(Fresh())
  }

  // ---------------------------------------------------------------------
  // _resolveValue and _visitInfixExpression (compiler.cpp:94-185, 316-355)

  predicate ArithmeticOp(op: T.TokenType)
  {
    op.Plus? || op.Dash? || op.Asterisk? || op.ForwardSlash?
  }

  predicate ComparisonOp(op: T.TokenType)
  {
    op.GreaterThan? || op.LessThan? || op.EqualEqual? || op.GreaterThanOrEqual? || op.LessThanOrEqual? || op.NotEquals?
  }

  predicate BothOf(tm: map<string, Ir.Ty>, n: string, lt: Option<Ir.Ty>, rt: Option<Ir.Ty>)
  {
    lt == TypeNamed(tm, n) && rt == TypeNamed(tm, n)
  }

  /**
   * The typing rule of infix expressions: arithmetic on two ints or two
   * floats has the operand type, a comparison of them is a bool, and
   * everything else has no type.
   */
  function InfixType(tm: map<string, Ir.Ty>, lt: Option<Ir.Ty>, rt: Option<Ir.Ty>, op: T.TokenType): Option<Ir.Ty>
  {
    if !(BothOf(tm, "int", lt, rt) || BothOf(tm, "float", lt, rt)) then None
    else if ArithmeticOp(op) then lt
    else if ComparisonOp(op) then TypeNamed(tm, "bool")
    else None
  }

  predicate IntegerInst(i: Ir.Inst)
  {
    (i.Binary? && (i.op.Add? || i.op.Sub? || i.op.Mul? || i.op.SDiv?)) || i.ICmp?
  }

  predicate FloatInst(i: Ir.Inst)
  {
    (i.Binary? && (i.op.FAdd? || i.op.FSub? || i.op.FMul? || i.op.FDiv?)) || i.FCmp?
  }

  function IntegerCase(l: Typed, r: Typed, op: T.TokenType, intTy: Option<Ir.Ty>, boolTy: Option<Ir.Ty>): Option<(Ir.Inst, Option<Ir.Ty>)>
  {
    if op.Plus? then Some((Ir.Binary(Ir.Add, l.value, r.value, "addtmp"), intTy))
    else if op.Dash? then Some((Ir.Binary(Ir.Sub, l.value, r.value, "subtmp"), intTy))
    else if op.Asterisk? then Some((Ir.Binary(Ir.Mul, l.value, r.value, "multmp"), intTy))
    else if op.ForwardSlash? then Some((Ir.Binary(Ir.SDiv, l.value, r.value, "divtmp"), intTy))
    else if op.GreaterThan? then Some((Ir.ICmp(Ir.Sgt, l.value, r.value, "gttmp"), boolTy))
    else if op.LessThan? then Some((Ir.ICmp(Ir.Slt, l.value, r.value, "lttmp"), boolTy))
    else if op.EqualEqual? then Some((Ir.ICmp(Ir.Eq, l.value, r.value, "eqtmp"), boolTy))
    else if op.GreaterThanOrEqual? then Some((Ir.ICmp(Ir.Sge, l.value, r.value, "getmp"), boolTy))
    else if op.LessThanOrEqual? then Some((Ir.ICmp(Ir.Sle, l.value, r.value, "letmp"), boolTy))
    else if op.NotEquals? then Some((Ir.ICmp(Ir.Ne, l.value, r.value, "netmp"), boolTy))
    else None
  }

  function FloatCase(l: Typed, r: Typed, op: T.TokenType, floatTy: Option<Ir.Ty>, boolTy: Option<Ir.Ty>): Option<(Ir.Inst, Option<Ir.Ty>)>
  {
    if op.Plus? then Some((Ir.Binary(Ir.FAdd, l.value, r.value, "addtmp"), floatTy))
    else if op.Dash? then Some((Ir.Binary(Ir.FSub, l.value, r.value, "subtmp"), floatTy))
    else if op.Asterisk? then Some((Ir.Binary(Ir.FMul, l.value, r.value, "multmp"), floatTy))
    else if op.ForwardSlash? then Some((Ir.Binary(Ir.FDiv, l.value, r.value, "divtmp"), floatTy))
    else if op.GreaterThan? then Some((Ir.FCmp(Ir.Ogt, l.value, r.value, "gttmp"), boolTy))
    else if op.LessThan? then Some((Ir.FCmp(Ir.Olt, l.value, r.value, "lttmp"), boolTy))
    else if op.EqualEqual? then Some((Ir.FCmp(Ir.Oeq, l.value, r.value, "eqtmp"), boolTy))
    else if op.GreaterThanOrEqual? then Some((Ir.FCmp(Ir.Oge, l.value, r.value, "getmp"), boolTy))
    else if op.LessThanOrEqual? then Some((Ir.FCmp(Ir.Ole, l.value, r.value, "letmp"), boolTy))
    else if op.NotEquals? then Some((Ir.FCmp(Ir.One, l.value, r.value, "netmp"), boolTy))
    else None
  }

  /**
   * The instruction `_visitInfixExpression` creates for two lowered
   * operands, with the type it reports; `None` when it creates nothing and
   * returns `(null, null)`.
   */
  function InfixInstruction(tm: map<string, Ir.Ty>, l: Typed, r: Typed, op: T.TokenType): (o: Option<(Ir.Inst, Option<Ir.Ty>)>)
    ensures o.Some? <==> (BothOf(tm, "int", l.ty, r.ty) || BothOf(tm, "float", l.ty, r.ty)) && (ArithmeticOp(op) || ComparisonOp(op))
    ensures o.Some? ==> o.value.1 == InfixType(tm, l.ty, r.ty, op)
    ensures o.Some? ==> o.value.0.Binary? || o.value.0.ICmp? || o.value.0.FCmp?
    ensures o.Some? ==> o.value.0.lhs == l.value && o.value.0.rhs == r.value
    ensures o.Some? ==> (ComparisonOp(op) <==> o.value.0.ICmp? || o.value.0.FCmp?)
    ensures o.Some? && BothOf(tm, "int", l.ty, r.ty) ==> IntegerInst(o.value.0)
    ensures o.Some? && !BothOf(tm, "int", l.ty, r.ty) ==> FloatInst(o.value.0)
  {
    if BothOf(tm, "int", l.ty, r.ty) then IntegerCase(l, r, op, TypeNamed(tm, "int"), TypeNamed(tm, "bool"))
    else if BothOf(tm, "float", l.ty, r.ty) then FloatCase(l, r, op, TypeNamed(tm, "float"), TypeNamed(tm, "bool"))
    else None
  }

  /**
   * `_resolveValue` on the expression kinds of the tree: constants for
   * literals (the integer truncated to its low 32 bits), a load from the
   * storage slot for an identifier, `_visitInfixExpression` for an infix
   * expression, and `(null, null)` for a string literal. Only code is
   * appended; nothing else of the state changes.
   */
  function Resolve(st: CState, e: Expression): (r: (CState, Typed))
    requires CompilableExpression(e)
    ensures r.0 == st.(ir := r.0.ir) && OnlyCode(st.ir, r.0.ir)
    decreases e
  {
    match e
    case IntegerLiteral(v) => (st, Typed(Some(Ir.ConstInt(32, v % TwoTo32)), TypeNamed(st.typeMap, "int")))
    case FloatLiteral(d) => (st, Typed(Some(Ir.ConstFloat(d)), TypeNamed(st.typeMap, "float")))
    case BooleanLiteral(b) => (st, Typed(Some(Ir.ConstInt(1, if b then 1 else 0)), TypeNamed(st.typeMap, "bool")))
    case StringLiteral(_) => (st, NullPair)
    case IdentifierLiteral(n) =>
      var b := E.Lookup(st.scope, n);
      var (m, v) := Ir.Emit(st.ir, st.insert, Ir.Load(b.ty, b.alloca, n));
      (st.(ir := m), Typed(Some(v), b.ty))
    case InfixExpression(l, op, rt) =>
      var (s1, lt) := Resolve(st, l.value);
      var (s2, rv) := Resolve(s1, rt.value);
      EmitInfix(s2, InfixInstruction(st.typeMap, lt, rv, op))
  }

  /** Create the chosen infix instruction, or return `(null, null)` when there is none. */
  function EmitInfix(st: CState, o: Option<(Ir.Inst, Option<Ir.Ty>)>): (r: (CState, Typed))
    ensures r.0 == st.(ir := r.0.ir) && OnlyCode(st.ir, r.0.ir)
  {
    match o
    case None => (st, NullPair)
    case Some((inst, ty)) =>
      var (m, v) := Ir.Emit(st.ir, st.insert, inst);
      (st.(ir := m), Typed(Some(v), ty))
  }

  /**
   * `compile(node)` on an expression node: an infix expression is lowered
   * and its value dropped; a boolean literal makes a constant nothing
   * uses; every other kind only prints "Unknown node type".
   */
  function CompileExpression(st: CState, e: Expression): (r: CState)
    requires CompilableExpression(e)
    ensures r == st.(ir := r.ir) && OnlyCode(st.ir, r.ir)
  {
    if e.InfixExpression? then Resolve(st, e).0 else st
  }

  // ---------------------------------------------------------------------
  // Declarations, assignments, returns (compiler.cpp:187-214, 310-314)

  /**
   * `_visitVariableDeclarationStatement`: the initializer is lowered first;
   * then, only when no scope of the chain knows the name, a slot of the
   * declared type is allocated, the value stored and the name added to the
   * current scope. Otherwise it only prints "Variable already declared".
   */
  function Declaration(st: CState, n: string, typeName: string, v: Expression): (r: CState)
    requires CompilableExpression(v)
    ensures r.typeMap == st.typeMap && r.insert == st.insert && r.current == st.current
    ensures OnlyCode(st.ir, r.ir)
  {
    var ty := TypeNamed(st.typeMap, typeName);
    var (s1, t) := Resolve(st, v);
    if E.Lookup(s1.scope, n) == E.Absent then
      var (m1, slot) := Ir.Emit(s1.ir, s1.insert, Ir.Alloca(ty, n));
      var (m2, _) := Ir.Emit(m1, s1.insert, Ir.Store(t.value, Some(slot)));
      s1.(ir := m2, scope := s1.scope.With(n, E.Binding(t.value, ty, Some(slot))))
    else
      s1
  }

  /**
   * `_visitVariableAssignmentStatement`: the value is lowered, then stored
   * into the slot of the name's record when there is one; the record
   * itself is not changed.
   */
  function Assignment(st: CState, n: string, v: Expression): (r: CState)
    requires CompilableExpression(v)
    ensures r == st.(ir := r.ir) && OnlyCode(st.ir, r.ir)
  {
    var (s1, t) := Resolve(st, v);
    var b := E.Lookup(s1.scope, n);
    if b != E.Absent then
      var (m, _) := Ir.Emit(s1.ir, s1.insert, Ir.Store(t.value, b.alloca));
      s1.(ir := m)
    else
      s1
  }

  /** `_visitReturnStatement`: lower the value, then `ret` it. */
  function Return(st: CState, v: Expression): (r: CState)
    requires CompilableExpression(v)
    ensures r == st.(ir := r.ir) && OnlyCode(st.ir, r.ir)
  {
    var (s1, t) := Resolve(st, v);
    var (m, _) := Ir.Emit(s1.ir, s1.insert, Ir.Ret(t.value));
    s1.(ir := m)
  }

  // ---------------------------------------------------------------------
  // Functions (compiler.cpp:252-291)

  function ParamNames(ps: seq<Parameter>): (names: seq<string>)
    requires CompilableParameters(ps)
    ensures |names| == |ps|
  {
    seq(|ps|, i requires 0 <= i < |ps| => ps[i].name.name)
  }

  function ParamTypes(tm: map<string, Ir.Ty>, ps: seq<Parameter>): (tys: seq<Option<Ir.Ty>>)
    requires CompilableParameters(ps)
    ensures |tys| == |ps|
  {
    seq(|ps|, i requires 0 <= i < |ps| => TypeNamed(tm, ps[i].valueType.name.name))
  }

  /**
   * The parameter loop: for arguments `i..`, in order, a slot of the
   * argument's type named after it, a store of the argument into it, and
   * a binding of the name to (argument, type, slot) in the current scope.
   */
  function BindParams(st: CState, f: nat, names: seq<string>, tys: seq<Option<Ir.Ty>>, i: nat): (r: CState)
    requires |names| == |tys| && i <= |names|
    ensures r == st.(ir := r.ir, scope := r.scope) && OnlyCode(st.ir, r.ir)
    ensures r.scope.parent == st.scope.parent && r.scope.name == st.scope.name
    decreases |names| - i
  {
    if i == |names| then st
    else BindParams(BindParam(st, f, names, tys, i), f, names, tys, i + 1)
  }

  /** One iteration of the parameter loop, for argument `i`. */
  function BindParam(st: CState, f: nat, names: seq<string>, tys: seq<Option<Ir.Ty>>, i: nat): (r: CState)
    requires |names| == |tys| && i < |names|
  {
    var slot := Ir.InstRef(|st.ir.code|);
    var code := [Ir.Emitted(st.insert, Ir.Alloca(tys[i], names[i])),
                 Ir.Emitted(st.insert, Ir.Store(Some(Ir.ArgumentRef(f, i)), Some(slot)))];
    var b := E.Binding(Some(Ir.ArgumentRef(f, i)), tys[i], Some(slot));
    st.(ir := st.ir.(code := st.ir.code + code), scope := st.scope.With(names[i], b))
  }

  lemma BindParamsStep(st: CState, f: nat, names: seq<string>, tys: seq<Option<Ir.Ty>>, i: nat)
    requires |names| == |tys| && i < |names|
    ensures BindParams(st, f, names, tys, i) == BindParams(BindParam(st, f, names, tys, i), f, names, tys, i + 1)
  {
  }

  /** The `FunctionType` built from the return type's and the parameters' names. */
  function FunctionTypeOf(tm: map<string, Ir.Ty>, ps: seq<Parameter>, rt: GenericType): Ir.Ty
    requires CompilableParameters(ps) && NamedType(rt)
  {
    Ir.FunctionType(TypeNamed(tm, rt.name.name), ParamTypes(tm, ps))
  }

  /** The record both the function's own scope and the enclosing one get for its name. */
  function FunctionBinding(st: CState, ps: seq<Parameter>, rt: GenericType): E.Binding
    requires CompilableParameters(ps) && NamedType(rt)
  {
    E.Binding(Some(Ir.FunctionRef(|st.ir.functions|)), Some(FunctionTypeOf(st.typeMap, ps, rt)), None)
  }

  /**
   * The state in which the body is compiled: the function and its entry
   * block `<name>_entry` created, the insertion point there, a fresh scope
   * named after the function whose parent is a copy of the old one, holding
   * the function's own name and then every parameter, and
   * `current_function` set.
   */
  function BodyState(st: CState, name: string, ps: seq<Parameter>, rt: GenericType): (r: CState)
    requires CompilableParameters(ps) && NamedType(rt)
    ensures r.typeMap == st.typeMap && Ir.Extends(st.ir, r.ir)
    ensures r.scope.parent == Some(st.scope) && r.scope.name == name
  {
    var names := ParamNames(ps);
    var tys := ParamTypes(st.typeMap, ps);
    var f := |st.ir.functions|;
    var m1 := st.ir.(functions := st.ir.functions + [Ir.Function(name, FunctionTypeOf(st.typeMap, ps, rt), names)]);
    var (m2, entry) := Ir.AddBlock(m1, name + "_entry", f);
    var inner := E.Scope(Some(st.scope), name, map[]).With(name, FunctionBinding(st, ps, rt));
    var s1 := BindParams(st.(ir := m2, insert := Some(entry), scope := inner), f, names, tys, 0);
    s1.(current := Some(f))
  }

  // ---------------------------------------------------------------------
  // compile, _visitProgram, _visitBlockStatement (compiler.cpp:24-92, 246-250)

  /**
   * `compile(stmt)` for every statement kind of the tree. The module only
   * grows and `type_map` is never changed.
   */
  function CompileStatement(st: CState, s: Statement): (r: CState)
    requires Compilable(s)
    ensures Ir.Extends(st.ir, r.ir) && r.typeMap == st.typeMap
    decreases s, 0
  {
    match s
    case ExpressionStatement(e) => CompileExpression(st, e.value)
    case BlockStatement(ss) => CompileSeq(st, ss)
    case ReturnStatement(v) => Return(st, v.value)
    case FunctionStatement(name, ps, rt, body) => FunctionDeclaration(st, name.name, ps, rt, body.value)
    case VariableDeclarationStatement(name, t, v) => Declaration(st, name.name, t.name.name, v.value)
    case VariableAssignmentStatement(name, v) => Assignment(st, name.name, v.value)
  }

  /**
   * `_visitFunctionDeclarationStatement`: the body is compiled in
   * `BodyState`; then the saved scope is restored and the function's name
   * added to it.
   */
  function FunctionDeclaration(st: CState, name: string, ps: seq<Parameter>, rt: GenericType, body: Statement): (r: CState)
    requires CompilableParameters(ps) && NamedType(rt) && Compilable(body)
    ensures Ir.Extends(st.ir, r.ir) && r.typeMap == st.typeMap
    decreases body, 1
  {
    var s2 := CompileStatement(BodyState(st, name, ps, rt), body);
    Ir.ExtendsTransitive(st.ir, BodyState(st, name, ps, rt).ir, s2.ir);
    s2.(scope := st.scope.With(name, FunctionBinding(st, ps, rt)))
  }

  /** The statements compiled one after the other, as both loops do. */
  function CompileSeq(st: CState, ss: seq<Statement>): (r: CState)
    requires AllCompilable(ss)
    ensures Ir.Extends(st.ir, r.ir) && r.typeMap == st.typeMap
    decreases ss, 2
  {
    if ss == [] then st
    else
      var s1 := CompileStatement(st, ss[0]);
      var s2 := CompileSeq(s1, ss[1..]);
      Ir.ExtendsTransitive(st.ir, s1.ir, s2.ir);
      s2
  }

  lemma CompileSeqStep(st: CState, ss: seq<Statement>, i: nat)
    requires i < |ss| && AllCompilable(ss)
    ensures AllCompilable(ss[i..]) && AllCompilable(ss[i + 1..])
    ensures CompileSeq(st, ss[i..]) == CompileSeq(CompileStatement(st, ss[i]), ss[i + 1..])
  {
    assert ss[i..][0] == ss[i] && ss[i..][1..] == ss[i + 1..];
  }

  function CompileProgram(st: CState, p: Program): CState
    requires AllCompilable(p.statements)
  {
    CompileSeq(st, p.statements)
  }

  // ---------------------------------------------------------------------
  // If/else and calls: no node of the tree has these types, so `compile`
  // and `_resolveValue` never reach them; they take their parts directly.

  /** The insertion block exists, so `GetInsertBlock()->getParent()` is defined. */
  predicate HasInsertBlock(st: CState)
  {
    st.insert.Some? && st.insert.value < |st.ir.blocks|
  }

  /**
   * One arm of an if/else: compiled with the insertion point at its block,
   * then closed by a branch to `cont` wherever the arm left the cursor.
   */
  function Arm(st: CState, block: nat, s: Statement, cont: nat): (r: CState)
    requires Compilable(s)
    ensures Ir.Extends(st.ir, r.ir) && r.typeMap == st.typeMap
  {
    var s1 := CompileStatement(st.(insert := Some(block)), s);
    var (m, _) := Ir.Emit(s1.ir, s1.insert, Ir.Br(cont));
    s1.(ir := m)
  }

  /**
   * `_visitIfElseStatement` (compiler.cpp:216-244): the condition is
   * lowered; blocks `then`, [`else`,] `cont` are added to the current
   * function; a conditional branch ends the current block; each arm is
   * compiled in its own block and closed with a branch to `cont`, where
   * the insertion point is left.
   */
  function IfElse(st: CState, cond: Expression, consequence: Statement, alternative: Option<Statement>): (r: CState)
    requires HasInsertBlock(st) && CompilableExpression(cond) && Compilable(consequence)
    requires alternative.Some? ==> Compilable(alternative.value)
    ensures Ir.Extends(st.ir, r.ir) && r.typeMap == st.typeMap
  {
    var (s1, c) := Resolve(st, cond);
    var f := s1.ir.blocks[st.insert.value].parent;
    if alternative.None? then IfThen(s1, c, f, consequence)
    else IfThenElse(s1, c, f, consequence, alternative.value)
  }

  function IfThen(s1: CState, c: Typed, f: nat, consequence: Statement): (r: CState)
    requires Compilable(consequence)
    ensures Ir.Extends(s1.ir, r.ir) && r.typeMap == s1.typeMap
  {
    var (m1, thenB) := Ir.AddBlock(s1.ir, "then", f);
    var (m2, contB) := Ir.AddBlock(m1, "cont", f);
    var (m3, _) := Ir.Emit(m2, s1.insert, Ir.CondBr(c.value, thenB, contB));
    Arm(s1.(ir := m3), thenB, consequence, contB).(insert := Some(contB))
  }

  function IfThenElse(s1: CState, c: Typed, f: nat, consequence: Statement, alternative: Statement): (r: CState)
    requires Compilable(consequence) && Compilable(alternative)
    ensures Ir.Extends(s1.ir, r.ir) && r.typeMap == s1.typeMap
  {
    var (m1, thenB) := Ir.AddBlock(s1.ir, "then", f);
    var (m2, elseB) := Ir.AddBlock(m1, "else", f);
    var (m3, contB) := Ir.AddBlock(m2, "cont", f);
    var (m4, _) := Ir.Emit(m3, s1.insert, Ir.CondBr(c.value, thenB, elseB));
    var s2 := Arm(s1.(ir := m4), thenB, consequence, contB);
    var s3 := Arm(s2, elseB, alternative, contB);
    Ir.ExtendsTransitive(s1.ir, s2.ir, s3.ir);
    s3.(insert := Some(contB))
  }

  /** The argument loop of `_visitCallExpression`: each argument lowered, left to right. */
  function ResolveArgs(st: CState, args: seq<Expression>): (r: (CState, seq<Option<Ir.Value>>))
    requires AllCompilableExpressions(args)
    ensures r.0 == st.(ir := r.0.ir) && OnlyCode(st.ir, r.0.ir)
    ensures |r.1| == |args|
    decreases |args|
  {
    if args == [] then (st, [])
    else
      var (s1, t) := Resolve(st, args[0]);
      var (s2, vs) := ResolveArgs(s1, args[1..]);
      (s2, [t.value] + vs)
  }

  /**
   * `_visitCallExpression` (compiler.cpp:293-308): arguments first; then,
   * for a known name, a call of its value with the lowered arguments,
   * typed with the type stored for the name; for an unknown name
   * `(null, null)` and no call.
   */
  function Call(st: CState, name: string, args: seq<Expression>): (r: (CState, Typed))
    requires AllCompilableExpressions(args)
    ensures r.0 == st.(ir := r.0.ir) && OnlyCode(st.ir, r.0.ir)
  {
    var (s1, vals) := ResolveArgs(st, args);
    var b := E.Lookup(s1.scope, name);
    if b != E.Absent then
      var (m, v) := Ir.Emit(s1.ir, s1.insert, Ir.Call(b.value, vals, "calltmp"));
      (s1.(ir := m), Typed(Some(v), b.ty))
    else
      (s1, NullPair)
  }

  lemma ResolveArgsStep(st: CState, args: seq<Expression>, i: nat)
    requires i < |args| && AllCompilableExpressions(args)
    ensures AllCompilableExpressions(args[i..]) && AllCompilableExpressions(args[i + 1..])
    ensures var (s1, t) := Resolve(st, args[i]);
            var (s2, vs) := ResolveArgs(s1, args[i + 1..]);
            ResolveArgs(st, args[i..]) == (s2, [t.value] + vs)
  {
    assert args[i..][0] == args[i] && args[i..][1..] == args[i + 1..];
  }
}
