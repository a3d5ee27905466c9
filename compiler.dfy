/**
 * The `Compiler` class of src/compiler/compiler.cpp, updating its fields
 * in place: `type_map`, the module, the builder's insertion block,
 * `current_function` and the `enviornment` object (saved, replaced and
 * restored around a function body). Every method is proved to leave the
 * object in the state the matching function of module LowerSpec computes.
 */
module Compiling {
  import opened Wrappers
  import opened Ast
  import Ir
  import E = Environment
  import opened LowerSpec

  class Compiler {
    var typeMap: map<string, Ir.Ty>
    var ir: Ir.Module
    var insert: Option<nat>
    var currentFunction: Option<nat>
    const env: E.Environment

    function State(): CState
      reads this, env
    {
      CState(typeMap, ir, insert, env.Snapshot(), currentFunction)
    }

    /** `Compiler()`: a module named "main", a root scope, then the builtins. */
    constructor()
      ensures State() == Initial()
    {
      typeMap := map[];
      ir := Ir.Module("main", [], [], [], []);
      insert := None;
      currentFunction := None;
      env := new E.Environment();
      new;
      InitializeBuiltins();
    }

    /** `_initializeBuiltins`: the three types, the globals True and False, and their records. */
    method InitializeBuiltins()
      modifies this, env
      ensures State() == Builtins(old(State()))
    {
      typeMap := typeMap["int" := Ir.Int32];
      typeMap := typeMap["float" := Ir.Float32];
      typeMap := typeMap["bool" := Ir.Int1];
      var boolTy := TypeNamed(typeMap, "bool");
      var g := |ir.globals|;
      ir := ir.(globals := ir.globals + [Ir.Global("True", boolTy, true, Ir.ConstInt(1, 1))]);
      ir := ir.(globals := ir.globals + [Ir.Global("False", boolTy, true, Ir.ConstInt(1, 0))]);
      env.Add("True", boolTy, Some(Ir.GlobalRef(g)), None);
      env.Add("False", boolTy, Some(Ir.GlobalRef(g + 1)), None);
    }

    /** An `IRBuilder::Create*` call: the instruction goes into the insertion block. */
    method Emit(inst: Ir.Inst) returns (v: Ir.Value)
      modifies this
      ensures (ir, v) == Ir.Emit(old(ir), insert, inst)
      ensures typeMap == old(typeMap) && insert == old(insert) && currentFunction == old(currentFunction)
    {
      v := Ir.InstRef(|ir.code|);
      ir := ir.(code := ir.code + [Ir.Emitted(insert, inst)]);
    }

    /** `BasicBlock::Create(context, name, function)`. */
    method CreateBlock(name: string, f: nat) returns (b: nat)
      modifies this
      ensures (ir, b) == Ir.AddBlock(old(ir), name, f)
      ensures typeMap == old(typeMap) && insert == old(insert) && currentFunction == old(currentFunction)
    {
      b := |ir.blocks|;
      ir := ir.(blocks := ir.blocks + [Ir.Block(name, f)]);
    }

    /** `_resolveValue`. */
    method ResolveValue(e: Expression) returns (t: Typed)
      requires CompilableExpression(e)
      modifies this
      ensures (State(), t) == Resolve(old(State()), e)
      decreases e, 1
    {
      match e
      case IntegerLiteral(v) =>
        t := Typed(Some(Ir.ConstInt(32, v % TwoTo32)), TypeNamed(typeMap, "int"));
      case FloatLiteral(d) =>
        t := Typed(Some(Ir.ConstFloat(d)), TypeNamed(typeMap, "float"));
      case BooleanLiteral(b) =>
        t := Typed(Some(Ir.ConstInt(1, if b then 1 else 0)), TypeNamed(typeMap, "bool"));
      case StringLiteral(_) =>
        t := NullPair;
      case IdentifierLiteral(n) =>
        var b := env.Get(n);
        E.LookupIsVisible(env.Snapshot(), n);
        var v := Emit(Ir.Load(b.ty, b.alloca, n));
        t := Typed(Some(v), b.ty);
      case InfixExpression(_, _, _) =>
        t := VisitInfixExpression(e);
    }

    /** `_visitInfixExpression`: left operand, right operand, then the instruction. */
    method VisitInfixExpression(e: Expression) returns (t: Typed)
      requires e.InfixExpression? && CompilableExpression(e)
      modifies this
      ensures (State(), t) == Resolve(old(State()), e)
      decreases e, 0
    {
      var lhs := ResolveValue(e.left.value);
      var rhs := ResolveValue(e.right.value);
      var intTy := TypeNamed(typeMap, "int");
      var floatTy := TypeNamed(typeMap, "float");
      var boolTy := TypeNamed(typeMap, "bool");
      if lhs.ty == intTy && rhs.ty == intTy {
        t := IntegerInfix(lhs, rhs, e.op, intTy, boolTy);
      } else if lhs.ty == floatTy && rhs.ty == floatTy {
        t := FloatInfix(lhs, rhs, e.op, floatTy, boolTy);
      } else {
        t := NullPair;
      }
    }

    /** The int×int branch of `_visitInfixExpression` (compiler.cpp:102-135). */
    method IntegerInfix(l: Typed, r: Typed, op: Tokens.TokenType, intTy: Option<Ir.Ty>, boolTy: Option<Ir.Ty>)
      returns (t: Typed)
      modifies this
      ensures (State(), t) == EmitInfix(old(State()), IntegerCase(l, r, op, intTy, boolTy))
    {
      var v: Ir.Value;
      if op.Plus? {
        v := Emit(Ir.Binary(Ir.Add, l.value, r.value, "addtmp"));
        t := Typed(Some(v), intTy);
      } else if op.Dash? {
        v := Emit(Ir.Binary(Ir.Sub, l.value, r.value, "subtmp"));
        t := Typed(Some(v), intTy);
      } else if op.Asterisk? {
        v := Emit(Ir.Binary(Ir.Mul, l.value, r.value, "multmp"));
        t := Typed(Some(v), intTy);
      } else if op.ForwardSlash? {
        v := Emit(Ir.Binary(Ir.SDiv, l.value, r.value, "divtmp"));
        t := Typed(Some(v), intTy);
      } else if op.GreaterThan? {
        v := Emit(Ir.ICmp(Ir.Sgt, l.value, r.value, "gttmp"));
        t := Typed(Some(v), boolTy);
      } else if op.LessThan? {
        v := Emit(Ir.ICmp(Ir.Slt, l.value, r.value, "lttmp"));
        t := Typed(Some(v), boolTy);
      } else if op.EqualEqual? {
        v := Emit(Ir.ICmp(Ir.Eq, l.value, r.value, "eqtmp"));
        t := Typed(Some(v), boolTy);
      } else if op.GreaterThanOrEqual? {
        v := Emit(Ir.ICmp(Ir.Sge, l.value, r.value, "getmp"));
        t := Typed(Some(v), boolTy);
      } else if op.LessThanOrEqual? {
        v := Emit(Ir.ICmp(Ir.Sle, l.value, r.value, "letmp"));
        t := Typed(Some(v), boolTy);
      } else if op.NotEquals? {
        v := Emit(Ir.ICmp(Ir.Ne, l.value, r.value, "netmp"));
        t := Typed(Some(v), boolTy);
      } else {
        t := NullPair;
      }
    }

    /** The float×float branch of `_visitInfixExpression` (compiler.cpp:136-170). */
    method FloatInfix(l: Typed, r: Typed, op: Tokens.TokenType, floatTy: Option<Ir.Ty>, boolTy: Option<Ir.Ty>)
      returns (t: Typed)
      modifies this
      ensures (State(), t) == EmitInfix(old(State()), FloatCase(l, r, op, floatTy, boolTy))
    {
      var v: Ir.Value;
      if op.Plus? {
        v := Emit(Ir.Binary(Ir.FAdd, l.value, r.value, "addtmp"));
        t := Typed(Some(v), floatTy);
      } else if op.Dash? {
        v := Emit(Ir.Binary(Ir.FSub, l.value, r.value, "subtmp"));
        t := Typed(Some(v), floatTy);
      } else if op.Asterisk? {
        v := Emit(Ir.Binary(Ir.FMul, l.value, r.value, "multmp"));
        t := Typed(Some(v), floatTy);
      } else if op.ForwardSlash? {
        v := Emit(Ir.Binary(Ir.FDiv, l.value, r.value, "divtmp"));
        t := Typed(Some(v), floatTy);
      } else if op.GreaterThan? {
        v := Emit(Ir.FCmp(Ir.Ogt, l.value, r.value, "gttmp"));
        t := Typed(Some(v), boolTy);
      } else if op.LessThan? {
        v := Emit(Ir.FCmp(Ir.Olt, l.value, r.value, "lttmp"));
        t := Typed(Some(v), boolTy);
      } else if op.EqualEqual? {
        v := Emit(Ir.FCmp(Ir.Oeq, l.value, r.value, "eqtmp"));
        t := Typed(Some(v), boolTy);
      } else if op.GreaterThanOrEqual? {
        v := Emit(Ir.FCmp(Ir.Oge, l.value, r.value, "getmp"));
        t := Typed(Some(v), boolTy);
      } else if op.LessThanOrEqual? {
        v := Emit(Ir.FCmp(Ir.Ole, l.value, r.value, "letmp"));
        t := Typed(Some(v), boolTy);
      } else if op.NotEquals? {
        v := Emit(Ir.FCmp(Ir.One, l.value, r.value, "netmp"));
        t := Typed(Some(v), boolTy);
      } else {
        t := NullPair;
      }
    }

    /** `compile(node)` on an expression node. */
    method CompileExpressionNode(e: Expression)
      requires CompilableExpression(e)
      modifies this
      ensures State() == CompileExpression(old(State()), e)
    {
      if e.InfixExpression? {
        var _ := VisitInfixExpression(e);
      }
    }

    /** `compile(node)` on a statement: the switch over its node type. */
    method Compile(s: Statement)
      requires Compilable(s)
      modifies this, env
      ensures State() == CompileStatement(old(State()), s)
      decreases s, 1
    {
      match s
      case ExpressionStatement(e) => CompileExpressionNode(e.value);
      case BlockStatement(_) => VisitBlockStatement(s);
      case ReturnStatement(v) => VisitReturnStatement(v.value);
      case FunctionStatement(_, _, _, _) => VisitFunctionDeclarationStatement(s);
      case VariableDeclarationStatement(_, _, _) => VisitVariableDeclarationStatement(s);
      case VariableAssignmentStatement(_, _) => VisitVariableAssignmentStatement(s);
    }

    /** `_visitProgram`: every statement in order. */
    method VisitProgram(p: Program)
      requires AllCompilable(p.statements)
      modifies this, env
      ensures State() == CompileProgram(old(State()), p)
    {
      var ss := p.statements;
      var i := 0;
      while i < |ss|
        invariant 0 <= i <= |ss|
        invariant CompileSeq(State(), ss[i..]) == CompileSeq(old(State()), ss)
      {
        ghost var before := State();
        CompileSeqStep(before, ss, i);
        Compile(ss[i]);
        i := i + 1;
      }
    }

    /** `_visitBlockStatement`: every statement in order, in the same scope. */
    method VisitBlockStatement(s: Statement)
      requires s.BlockStatement? && Compilable(s)
      modifies this, env
      ensures State() == CompileStatement(old(State()), s)
      decreases s, 0
    {
      var ss := s.statements;
      var i := 0;
      while i < |ss|
        invariant 0 <= i <= |ss|
        invariant CompileSeq(State(), ss[i..]) == CompileSeq(old(State()), ss)
      {
        ghost var before := State();
        CompileSeqStep(before, ss, i);
        Compile(ss[i]);
        i := i + 1;
      }
    }

    /** `_visitVariableDeclarationStatement`. */
    method VisitVariableDeclarationStatement(s: Statement)
      requires s.VariableDeclarationStatement? && Compilable(s)
      modifies this, env
      ensures State() == CompileStatement(old(State()), s)
    {
      var n := s.name.name;
      var varType := TypeNamed(typeMap, s.valueType.name.name);
      var t := ResolveValue(s.value.value);
      var b := env.Get(n);
      E.LookupIsVisible(env.Snapshot(), n);
      if b == E.Absent {
        var slot := Emit(Ir.Alloca(varType, n));
        var _ := Emit(Ir.Store(t.value, Some(slot)));
        env.Add(n, varType, t.value, Some(slot));
      }
    }

    /** `_visitVariableAssignmentStatement`. */
    method VisitVariableAssignmentStatement(s: Statement)
      requires s.VariableAssignmentStatement? && Compilable(s)
      modifies this, env
      ensures State() == CompileStatement(old(State()), s)
    {
      var n := s.name.name;
      var t := ResolveValue(s.value.value);
      var b := env.Get(n);
      E.LookupIsVisible(env.Snapshot(), n);
      if b != E.Absent {
        var _ := Emit(Ir.Store(t.value, b.alloca));
      }
    }

    /** `_visitReturnStatement`. */
    method VisitReturnStatement(v: Expression)
      requires CompilableExpression(v)
      modifies this, env
      ensures State() == Return(old(State()), v)
    {
      var t := ResolveValue(v);
      var _ := Emit(Ir.Ret(t.value));
    }

    /** `_visitFunctionDeclarationStatement`. */
    method VisitFunctionDeclarationStatement(s: Statement)
      requires s.FunctionStatement? && Compilable(s)
      modifies this, env
      ensures State() == CompileStatement(old(State()), s)
      decreases s, 0
    {
      var name := s.name.name;
      var ps := s.parameters;
      var paramNames, paramTypes := CollectParameters(ps);
      var returnType := TypeNamed(typeMap, s.returnType.name.name);
      var funcType := Ir.FunctionType(returnType, paramTypes);
      var f := |ir.functions|;
      ir := ir.(functions := ir.functions + [Ir.Function(name, funcType, paramNames)]);
      var entry := CreateBlock(name + "_entry", f);
      insert := Some(entry);

      var prevEnv := env.Snapshot();
      env.Assign(E.Scope(Some(prevEnv), name, map[]));
      env.Add(name, Some(funcType), Some(Ir.FunctionRef(f)), None);
      BindParameters(f, paramNames, paramTypes);
      currentFunction := Some(f);
      assert State() == BodyState(old(State()), name, ps, s.returnType);
      Compile(s.body.value);
      env.Assign(prevEnv);
      env.Add(name, Some(funcType), Some(Ir.FunctionRef(f)), None);
    }

    /** The first loop of `_visitFunctionDeclarationStatement`: parameter names and types. */
    method CollectParameters(ps: seq<Parameter>) returns (paramNames: seq<string>, paramTypes: seq<Option<Ir.Ty>>)
      requires CompilableParameters(ps)
      ensures paramNames == ParamNames(ps) && paramTypes == ParamTypes(typeMap, ps)
    {
      paramNames := [];
      paramTypes := [];
      var i := 0;
      while i < |ps|
        invariant 0 <= i <= |ps|
        invariant paramNames == ParamNames(ps)[..i] && paramTypes == ParamTypes(typeMap, ps)[..i]
      {
        paramNames := paramNames + [ps[i].name.name];
        paramTypes := paramTypes + [TypeNamed(typeMap, ps[i].valueType.name.name)];
        i := i + 1;
      }
    }

    /** The last loop of `_visitFunctionDeclarationStatement`: a slot per argument, stored and bound. */
    method BindParameters(f: nat, paramNames: seq<string>, paramTypes: seq<Option<Ir.Ty>>)
      requires |paramNames| == |paramTypes|
      modifies this, env
      ensures State() == BindParams(old(State()), f, paramNames, paramTypes, 0)
    {
      var j := 0;
      while j < |paramNames|
        invariant 0 <= j <= |paramNames|
        invariant BindParams(State(), f, paramNames, paramTypes, j) == BindParams(old(State()), f, paramNames, paramTypes, 0)
      {
        ghost var before := State();
        BindParameter(f, paramNames, paramTypes, j);
        BindParamsStep(before, f, paramNames, paramTypes, j);
        j := j + 1;
      }
    }

    /** One iteration: `CreateAlloca`, `CreateStore` of the argument, `add` of its record. */
    method BindParameter(f: nat, paramNames: seq<string>, paramTypes: seq<Option<Ir.Ty>>, j: nat)
      requires |paramNames| == |paramTypes| && j < |paramNames|
      modifies this, env
      ensures State() == BindParam(old(State()), f, paramNames, paramTypes, j)
    {
      var slot := Emit(Ir.Alloca(paramTypes[j], paramNames[j]));
      var _ := Emit(Ir.Store(Some(Ir.ArgumentRef(f, j)), Some(slot)));
      env.Add(paramNames[j], paramTypes[j], Some(Ir.ArgumentRef(f, j)), Some(slot));
    }

    /** `_visitIfElseStatement`. */
    method VisitIfElseStatement(cond: Expression, consequence: Statement, alternative: Option<Statement>)
      requires HasInsertBlock(State()) && CompilableExpression(cond) && Compilable(consequence)
      requires alternative.Some? ==> Compilable(alternative.value)
      modifies this, env
      ensures State() == IfElse(old(State()), cond, consequence, alternative)
    {
      var c := ResolveValue(cond);
      var f := ir.blocks[insert.value].parent;
      if alternative.None? {
        VisitIfThen(c, f, consequence);
      } else {
        VisitIfThenElse(c, f, consequence, alternative.value);
      }
    }

    /** compiler.cpp:222-229, the form without an alternative. */
    method VisitIfThen(c: Typed, f: nat, consequence: Statement)
      requires Compilable(consequence)
      modifies this, env
      ensures State() == IfThen(old(State()), c, f, consequence)
    {
      var thenB := CreateBlock("then", f);
      var contB := CreateBlock("cont", f);
      var _ := Emit(Ir.CondBr(c.value, thenB, contB));
      CompileArm(thenB, consequence, contB);
      insert := Some(contB);
    }

    /** compiler.cpp:231-242, the form with an alternative. */
    method VisitIfThenElse(c: Typed, f: nat, consequence: Statement, alternative: Statement)
      requires Compilable(consequence) && Compilable(alternative)
      modifies this, env
      ensures State() == IfThenElse(old(State()), c, f, consequence, alternative)
    {
      var thenB := CreateBlock("then", f);
      var elseB := CreateBlock("else", f);
      var contB := CreateBlock("cont", f);
      var _ := Emit(Ir.CondBr(c.value, thenB, elseB));
      CompileArm(thenB, consequence, contB);
      CompileArm(elseB, alternative, contB);
      insert := Some(contB);
    }

    /** `SetInsertPoint(block); compile(arm); CreateBr(cont)`. */
    method CompileArm(block: nat, s: Statement, cont: nat)
      requires Compilable(s)
      modifies this, env
      ensures State() == Arm(old(State()), block, s, cont)
    {
      insert := Some(block);
      Compile(s);
      var _ := Emit(Ir.Br(cont));
    }

    /** `_visitCallExpression`. */
    method VisitCallExpression(name: string, args: seq<Expression>) returns (t: Typed)
      requires AllCompilableExpressions(args)
      modifies this
      ensures (State(), t) == Call(old(State()), name, args)
    {
      var vals: seq<Option<Ir.Value>> := [];
      var i := 0;
      ghost var all := ResolveArgs(State(), args);
      assert args[0..] == args;
      while i < |args|
        invariant 0 <= i <= |args|
        invariant AllCompilableExpressions(args[i..])
        invariant ResolveArgs(State(), args[i..]).0 == all.0
        invariant vals + ResolveArgs(State(), args[i..]).1 == all.1
      {
        ghost var before := State();
        ResolveArgsStep(before, args, i);
        var a := ResolveValue(args[i]);
        ghost var rest := ResolveArgs(State(), args[i + 1..]);
        assert ResolveArgs(before, args[i..]) == (rest.0, [a.value] + rest.1);
        assert (vals + [a.value]) + rest.1 == vals + ([a.value] + rest.1);
        vals := vals + [a.value];
        i := i + 1;
      }
      assert args[i..] == [];
      assert State() == all.0 && vals == all.1;
      var b := env.Get(name);
      E.LookupIsVisible(env.Snapshot(), name);
      if b != E.Absent {
        var v := Emit(Ir.Call(b.value, vals, "calltmp"));
        t := Typed(Some(v), b.ty);
      } else {
        t := NullPair;
      }
    }
  }
}
