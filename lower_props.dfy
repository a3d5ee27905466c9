/** What the code generator guarantees, stated over the functions of module LowerSpec. */
module LowerProperties {
  import opened Wrappers
  import opened Ast
  import T = Tokens
  import Ir
  import E = Environment
  import opened LowerSpec

  // ---------------------------------------------------------------------
  // Literals and identifiers

  /**
   * An integer literal is the 32-bit constant with the literal's low 32
   * bits, typed int; read as a signed 32-bit number it is congruent to
   * the literal modulo 2^32, and equal to it when it fits.
   */
  lemma IntegerLiteralLowering(st: CState, v: int)
    ensures var (s1, t) := Resolve(st, IntegerLiteral(v));
            s1 == st && t.ty == TypeNamed(st.typeMap, "int")
            && t.value.Some? && t.value.value.ConstInt? && t.value.value.width == 32
            && t.value.value.bits < TwoTo32
            && Signed32(t.value.value.bits) % TwoTo32 == v % TwoTo32
            && (-0x8000_0000 <= v < TwoTo31 ==> Signed32(t.value.value.bits) == v)
  {
    var bits := v % TwoTo32;
    if bits >= TwoTo31 {
      assert (bits - TwoTo32) % TwoTo32 == bits;
    }
    if -0x8000_0000 <= v < 0 {
      assert bits == v + TwoTo32;
    }
  }

  /** Float and boolean literals are constants of the float and bool types; a string literal is (null, null). */
  lemma OtherLiteralsLowering(st: CState, d: Double, b: bool, text: string)
    ensures Resolve(st, FloatLiteral(d)) == (st, Typed(Some(Ir.ConstFloat(d)), TypeNamed(st.typeMap, "float")))
    ensures Resolve(st, BooleanLiteral(b)) == (st, Typed(Some(Ir.ConstInt(1, if b then 1 else 0)), TypeNamed(st.typeMap, "bool")))
    ensures Resolve(st, StringLiteral(text)) == (st, NullPair)
  {
  }

  /**
   * An identifier is one load, of the type recorded for the name, from the
   * slot recorded for it; the load is typed with the recorded type. An
   * unknown name loads from a null slot with a null type.
   */
  lemma IdentifierLowering(st: CState, n: string)
    ensures var b := E.Lookup(st.scope, n);
            var (s1, t) := Resolve(st, IdentifierLiteral(n));
            s1.ir.code == st.ir.code + [Ir.Emitted(st.insert, Ir.Load(b.ty, b.alloca, n))]
            && t == Typed(Some(Ir.InstRef(|st.ir.code|)), b.ty)
  {
  }

  // ---------------------------------------------------------------------
  // Infix expressions

  predicate Handled(tm: map<string, Ir.Ty>, lt: Option<Ir.Ty>, rt: Option<Ir.Ty>, op: T.TokenType)
  {
    (BothOf(tm, "int", lt, rt) || BothOf(tm, "float", lt, rt)) && (ArithmeticOp(op) || ComparisonOp(op))
  }

  /**
   * The left operand is lowered first, then the right one, then (when the
   * operand types and the operator are handled) exactly one instruction on
   * the two operand values; otherwise nothing more and `(null, null)`.
   */
  lemma InfixLowering(st: CState, l: Expression, op: T.TokenType, r: Expression)
    requires CompilableExpression(l) && CompilableExpression(r)
    ensures var (s1, lt) := Resolve(st, l);
            var (s2, rt) := Resolve(s1, r);
            var (s3, t) := Resolve(st, InfixExpression(Some(l), op, Some(r)));
            st.ir.code <= s1.ir.code <= s2.ir.code <= s3.ir.code
            && (Handled(st.typeMap, lt.ty, rt.ty, op) ==>
                  |s3.ir.code| == |s2.ir.code| + 1
                  && s3.ir.code[|s2.ir.code|].block == st.insert
                  && s3.ir.code[|s2.ir.code|].inst.lhs == lt.value
                  && s3.ir.code[|s2.ir.code|].inst.rhs == rt.value
                  && t == Typed(Some(Ir.InstRef(|s2.ir.code|)), InfixType(st.typeMap, lt.ty, rt.ty, op)))
            && (!Handled(st.typeMap, lt.ty, rt.ty, op) ==> s3 == s2 && t == NullPair)
  {
    var (s1, lt) := Resolve(st, l);
    var (s2, rt) := Resolve(s1, r);
    var o := InfixInstruction(st.typeMap, lt, rt, op);
    assert Resolve(st, InfixExpression(Some(l), op, Some(r))) == EmitInfix(s2, o);
  }

  /**
   * The typing rule: int×int and float×float arithmetic has the operand
   * type, their comparisons are bool, and every other combination is
   * untyped and has no value.
   */
  lemma InfixTyping(tm: map<string, Ir.Ty>, lt: Option<Ir.Ty>, rt: Option<Ir.Ty>, op: T.TokenType)
    ensures BothOf(tm, "int", lt, rt) && ArithmeticOp(op) ==> InfixType(tm, lt, rt, op) == TypeNamed(tm, "int")
    ensures BothOf(tm, "float", lt, rt) && ArithmeticOp(op) ==> InfixType(tm, lt, rt, op) == TypeNamed(tm, "float")
    ensures Handled(tm, lt, rt, op) && ComparisonOp(op) ==> InfixType(tm, lt, rt, op) == TypeNamed(tm, "bool")
    ensures !Handled(tm, lt, rt, op) ==> InfixType(tm, lt, rt, op).None?
  {
  }

  /** With the builtin types, `1 + 2.5` has neither a value nor a type, and emits nothing. */
  lemma MixedOperandsAreRejected(d: Double)
    ensures var e := InfixExpression(Some(IntegerLiteral(1)), T.Plus, Some(FloatLiteral(d)));
            CompilableExpression(e) && Resolve(Initial(), e) == (Initial(), NullPair)
  {
    var st := Initial();
    assert CompilableExpression(FloatLiteral(d));
    assert CompilableExpression(InfixExpression(Some(IntegerLiteral(1)), T.Plus, Some(FloatLiteral(d))));
    assert Resolve(st, IntegerLiteral(1)).1.ty == Some(Ir.Int32);
    assert Resolve(st, FloatLiteral(d)).1.ty == Some(Ir.Float32);
  }

  /** With the builtin types, `1 < 2` is a signed comparison typed bool. */
  lemma IntegerComparisonIsBool()
    ensures var e := InfixExpression(Some(IntegerLiteral(1)), T.LessThan, Some(IntegerLiteral(2)));
            CompilableExpression(e)
            && Resolve(Initial(), e).1.ty == Some(Ir.Int1)
            && Resolve(Initial(), e).0.ir.code
               == [Ir.Emitted(None, Ir.ICmp(Ir.Slt, Some(Ir.ConstInt(32, 1)), Some(Ir.ConstInt(32, 2)), "lttmp"))]
  {
    var st := Initial();
    assert CompilableExpression(InfixExpression(Some(IntegerLiteral(1)), T.LessThan, Some(IntegerLiteral(2))));
    assert Resolve(st, IntegerLiteral(1)) == (st, Typed(Some(Ir.ConstInt(32, 1)), Some(Ir.Int32)));
    assert Resolve(st, IntegerLiteral(2)) == (st, Typed(Some(Ir.ConstInt(32, 2)), Some(Ir.Int32)));
  }

  /** `compile` on an expression statement lowers infix expressions only: a bare name is not even loaded. */
  lemma ExpressionStatementLowering(st: CState, e: Expression)
    requires CompilableExpression(e)
    ensures !e.InfixExpression? ==> CompileStatement(st, ExpressionStatement(Some(e))) == st
    ensures e.InfixExpression? ==> CompileStatement(st, ExpressionStatement(Some(e))) == Resolve(st, e).0
  {
  }

  // ---------------------------------------------------------------------
  // Declarations and assignments

  function Declare(n: string, typeName: string, v: Expression): Statement
  {
    VariableDeclarationStatement(IdentifierLiteral(n), GenericType(IdentifierLiteral(typeName), []), Some(v))
  }

  /**
   * A declaration lowers its initializer first. When no scope of the chain
   * knows the name, it then allocates a slot of the declared type, stores
   * the initializer's value there and records (value, declared type, slot)
   * in the current scope. Otherwise nothing but the initializer happens.
   */
  lemma DeclarationLowering(st: CState, n: string, typeName: string, v: Expression)
    requires CompilableExpression(v)
    ensures var (s1, t) := Resolve(st, v);
            var ty := TypeNamed(st.typeMap, typeName);
            var slot := Ir.InstRef(|s1.ir.code|);
            var r := Declaration(st, n, typeName, v);
            (E.Lookup(st.scope, n) == E.Absent ==>
               E.Lookup(r.scope, n) == E.Binding(t.value, ty, Some(slot))
               && r.scope == st.scope.With(n, E.Binding(t.value, ty, Some(slot)))
               && r.ir.code == s1.ir.code + [Ir.Emitted(st.insert, Ir.Alloca(ty, n)),
                                             Ir.Emitted(st.insert, Ir.Store(t.value, Some(slot)))])
            && (E.Lookup(st.scope, n) != E.Absent ==> r == s1)
  {
    var (s1, t) := Resolve(st, v);
    assert s1.scope == st.scope;
  }

  /** A declaration changes no other name's lookup, and no enclosing scope. */
  lemma DeclarationFrame(st: CState, n: string, typeName: string, v: Expression, m: string)
    requires CompilableExpression(v) && m != n
    ensures var r := Declaration(st, n, typeName, v);
            E.Lookup(r.scope, m) == E.Lookup(st.scope, m) && r.scope.parent == st.scope.parent
  {
    DeclarationLowering(st, n, typeName, v);
    var (s1, t) := Resolve(st, v);
    var ty := TypeNamed(st.typeMap, typeName);
    E.AddFrame(st.scope, n, E.Binding(t.value, ty, Some(Ir.InstRef(|s1.ir.code|))), m);
  }

  /** `compile` dispatches a declaration node to `Declaration`. */
  lemma DeclarationNode(st: CState, n: string, typeName: string, v: Expression)
    requires CompilableExpression(v)
    ensures Compilable(Declare(n, typeName, v))
    ensures CompileStatement(st, Declare(n, typeName, v)) == Declaration(st, n, typeName, v)
  {
  }

  /** A name an outer scope knows cannot be declared again in an inner one: the scopes stay as they are. */
  lemma OuterNameBlocksDeclaration(st: CState, n: string, typeName: string, v: Expression)
    requires CompilableExpression(v)
    requires st.scope.parent.Some? && n !in st.scope.records && E.Lookup(st.scope.parent.value, n) != E.Absent
    ensures Declaration(st, n, typeName, v).scope == st.scope
  {
    E.MissDelegatesToParent(st.scope.parent.value, st.scope.name, st.scope.records, n);
    DeclarationLowering(st, n, typeName, v);
  }

  /** `True` and `False` are taken from the start: declaring either changes no scope. */
  lemma BuiltinNamesCannotBeDeclared(typeName: string, v: Expression)
    requires CompilableExpression(v)
    ensures Declaration(Initial(), "True", typeName, v).scope == Initial().scope
    ensures Declaration(Initial(), "False", typeName, v).scope == Initial().scope
  {
    DeclarationLowering(Initial(), "True", typeName, v);
    DeclarationLowering(Initial(), "False", typeName, v);
  }

  /**
   * An assignment lowers the value, then stores it into the slot recorded
   * for the name; no record changes. An undeclared name gets no store.
   */
  lemma AssignmentLowering(st: CState, n: string, v: Expression)
    requires CompilableExpression(v)
    ensures var (s1, t) := Resolve(st, v);
            var b := E.Lookup(st.scope, n);
            var r := Assignment(st, n, v);
            r.scope == st.scope
            && (b != E.Absent ==> r.ir.code == s1.ir.code + [Ir.Emitted(st.insert, Ir.Store(t.value, b.alloca))])
            && (b == E.Absent ==> r == s1)
  {
  }

  /** A return lowers its value and then returns it from the insertion block. */
  lemma ReturnLowering(st: CState, v: Expression)
    requires CompilableExpression(v)
    ensures var (s1, t) := Resolve(st, v);
            var r := Return(st, v);
            r == s1.(ir := r.ir) && r.ir.code == s1.ir.code + [Ir.Emitted(st.insert, Ir.Ret(t.value))]
  {
  }

  // ---------------------------------------------------------------------
  // If/else

  /**
   * Without an alternative (after the condition is lowered to `c`, in
   * state `s1` whose insertion block belongs to function `f`): blocks
   * `then` and `cont` are added to `f`, the current block ends with a
   * conditional branch to them, the consequence is compiled in `then` and
   * closed with a branch to `cont`, and the insertion point is left at
   * `cont`.
   */
  lemma IfWithoutElse(s1: CState, c: Typed, f: nat, consequence: Statement)
    requires Compilable(consequence)
    ensures var k := |s1.ir.blocks|;
            var r := IfThen(s1, c, f, consequence);
            |r.ir.blocks| >= k + 2
            && r.ir.blocks[k] == Ir.Block("then", f) && r.ir.blocks[k + 1] == Ir.Block("cont", f)
            && |r.ir.code| > |s1.ir.code|
            && r.ir.code[|s1.ir.code|] == Ir.Emitted(s1.insert, Ir.CondBr(c.value, k, k + 1))
            && r.ir.code[|r.ir.code| - 1].inst == Ir.Br(k + 1)
            && r.insert == Some(k + 1)
  {
    var (m1, thenB) := Ir.AddBlock(s1.ir, "then", f);
    var (m2, contB) := Ir.AddBlock(m1, "cont", f);
    var (m3, _) := Ir.Emit(m2, s1.insert, Ir.CondBr(c.value, thenB, contB));
    var s2 := CompileStatement(s1.(ir := m3, insert := Some(thenB)), consequence);
    assert m3.blocks <= s2.ir.blocks && m3.code <= s2.ir.code;
  }

  /**
   * With an alternative: blocks `then`, `else` and `cont`; the conditional
   * branch goes to `then` or `else`; the consequence is compiled in `then`
   * and the alternative in `else`, each arm closed with a branch to
   * `cont` (the then-arm's branch comes before the else-arm's code); the
   * insertion point is left at `cont`.
   */
  lemma IfWithElse(s1: CState, c: Typed, f: nat, consequence: Statement, alternative: Statement)
    requires Compilable(consequence) && Compilable(alternative)
    ensures var k := |s1.ir.blocks|;
            var r := IfThenElse(s1, c, f, consequence, alternative);
            |r.ir.blocks| >= k + 3
            && r.ir.blocks[k] == Ir.Block("then", f) && r.ir.blocks[k + 1] == Ir.Block("else", f)
            && r.ir.blocks[k + 2] == Ir.Block("cont", f)
            && |r.ir.code| > |s1.ir.code|
            && r.ir.code[|s1.ir.code|] == Ir.Emitted(s1.insert, Ir.CondBr(c.value, k, k + 1))
            && r.ir.code[|r.ir.code| - 1].inst == Ir.Br(k + 2)
            && (exists j :: |s1.ir.code| < j < |r.ir.code| - 1 && r.ir.code[j].inst == Ir.Br(k + 2))
            && r.insert == Some(k + 2)
  {
    var (m1, thenB) := Ir.AddBlock(s1.ir, "then", f);
    var (m2, elseB) := Ir.AddBlock(m1, "else", f);
    var (m3, contB) := Ir.AddBlock(m2, "cont", f);
    var (m4, _) := Ir.Emit(m3, s1.insert, Ir.CondBr(c.value, thenB, elseB));
    var s2 := Arm(s1.(ir := m4), thenB, consequence, contB);
    var s3 := Arm(s2, elseB, alternative, contB);
    Ir.ExtendsTransitive(m4, s2.ir, s3.ir);
    assert m4.blocks <= s3.ir.blocks && m4.code <= s3.ir.code;
    ArmEndsWithBranch(s1.(ir := m4), thenB, consequence, contB);
    ArmEndsWithBranch(s2, elseB, alternative, contB);
    var j := |s2.ir.code| - 1;
    assert s2.ir.code <= s3.ir.code;
    assert s3.ir.code[j] == s2.ir.code[j];
  }

  /** The then-arm of an if/else closes with a branch to the continuation block. */
  lemma ArmEndsWithBranch(st: CState, block: nat, s: Statement, cont: nat)
    requires Compilable(s)
    ensures var r := Arm(st, block, s, cont);
            |r.ir.code| > |st.ir.code| && r.ir.code[|r.ir.code| - 1] == Ir.Emitted(CompileStatement(st.(insert := Some(block)), s).insert, Ir.Br(cont))
  {
  }

  /** `_visitIfElseStatement` lowers the condition and hands over to `IfThen` or `IfThenElse`, in the insertion block's function. */
  lemma IfElseDispatch(st: CState, cond: Expression, consequence: Statement, alternative: Option<Statement>)
    requires HasInsertBlock(st) && CompilableExpression(cond) && Compilable(consequence)
    requires alternative.Some? ==> Compilable(alternative.value)
    ensures var (s1, c) := Resolve(st, cond);
            var f := st.ir.blocks[st.insert.value].parent;
            s1.insert == st.insert && |s1.ir.blocks| == |st.ir.blocks|
            && IfElse(st, cond, consequence, alternative)
               == if alternative.None? then IfThen(s1, c, f, consequence)
                  else IfThenElse(s1, c, f, consequence, alternative.value)
  {
  }

  // ---------------------------------------------------------------------
  // Function declarations

  /** `names[j]` is not repeated later, so its binding is the one that stays. */
  predicate LastOccurrence(names: seq<string>, j: nat)
    requires j < |names|
  {
    forall k :: j < k < |names| ==> names[k] != names[j]
  }

  /** One argument's step appends its alloca and its store. */
  lemma BindParamCode(st: CState, f: nat, names: seq<string>, tys: seq<Option<Ir.Ty>>, i: nat)
    requires |names| == |tys| && i < |names|
    ensures var r := BindParam(st, f, names, tys, i);
            r.ir.code == st.ir.code + [Ir.Emitted(st.insert, Ir.Alloca(tys[i], names[i])),
                                       Ir.Emitted(st.insert, Ir.Store(Some(Ir.ArgumentRef(f, i)), Some(Ir.InstRef(|st.ir.code|))))]
            && r.scope == st.scope.With(names[i], E.Binding(Some(Ir.ArgumentRef(f, i)), tys[i], Some(Ir.InstRef(|st.ir.code|))))
  {
  }

  /** `n` has the same entry, or none, in both record maps. */
  predicate SameEntry(m1: map<string, E.Binding>, m0: map<string, E.Binding>, n: string)
  {
    (n in m1 <==> n in m0) && (n in m0 ==> m1[n] == m0[n])
  }

  /** The loop from argument `i` leaves the records of a name that no later argument has. */
  lemma {:induction false} BindParamsKeeps(st: CState, f: nat, names: seq<string>, tys: seq<Option<Ir.Ty>>, i: nat, n: string)
    requires |names| == |tys| && i <= |names| && forall k :: i <= k < |names| ==> names[k] != n
    ensures SameEntry(BindParams(st, f, names, tys, i).scope.records, st.scope.records, n)
    decreases |names| - i
  {
    if i < |names| {
      var s1 := BindParam(st, f, names, tys, i);
      var r := BindParams(s1, f, names, tys, i + 1);
      assert BindParams(st, f, names, tys, i) == r by {
        BindParamsStep(st, f, names, tys, i);
      }
      assert SameEntry(s1.scope.records, st.scope.records, n) by {
        BindParamCode(st, f, names, tys, i);
        assert names[i] != n;
      }
      assert SameEntry(r.scope.records, s1.scope.records, n) by {
        BindParamsKeeps(s1, f, names, tys, i + 1, n);
      }
    }
  }

  /**
   * After the parameter loop from argument `i`, argument `j` has, in
   * order, its alloca and its store at positions 2(j-i) and 2(j-i)+1
   * after the old code.
   */
  lemma {:induction false} BindParamsCode(st: CState, f: nat, names: seq<string>, tys: seq<Option<Ir.Ty>>, i: nat, j: nat)
    requires |names| == |tys| && i <= j < |names|
    ensures var code := BindParams(st, f, names, tys, i).ir.code;
            var p := |st.ir.code| + 2 * (j - i);
            |code| > p + 1
            && code[p] == Ir.Emitted(st.insert, Ir.Alloca(tys[j], names[j]))
            && code[p + 1] == Ir.Emitted(st.insert, Ir.Store(Some(Ir.ArgumentRef(f, j)), Some(Ir.InstRef(p))))
    decreases j - i
  {
    var s1 := BindParam(st, f, names, tys, i);
    var r := BindParams(s1, f, names, tys, i + 1);
    var p := |st.ir.code| + 2 * (j - i);
    assert BindParams(st, f, names, tys, i) == r by {
      BindParamsStep(st, f, names, tys, i);
    }
    assert s1.ir.code == st.ir.code + [Ir.Emitted(st.insert, Ir.Alloca(tys[i], names[i])),
                                       Ir.Emitted(st.insert, Ir.Store(Some(Ir.ArgumentRef(f, i)), Some(Ir.InstRef(|st.ir.code|))))]
           && s1.insert == st.insert by {
      BindParamCode(st, f, names, tys, i);
    }
    if j == i {
      assert s1.ir.code <= r.ir.code;
      assert r.ir.code[p] == s1.ir.code[p] && r.ir.code[p + 1] == s1.ir.code[p + 1];
    } else {
      assert |s1.ir.code| + 2 * (j - (i + 1)) == p;
      BindParamsCode(s1, f, names, tys, i + 1, j);
    }
  }

  /**
   * After the parameter loop from argument `i`, the name of argument `j`
   * is bound to (argument, type, slot) unless a later argument has the
   * same name.
   */
  lemma {:induction false} BindParamsBinds(st: CState, f: nat, names: seq<string>, tys: seq<Option<Ir.Ty>>, i: nat, j: nat)
    requires |names| == |tys| && i <= j < |names| && LastOccurrence(names, j)
    ensures var records := BindParams(st, f, names, tys, i).scope.records;
            var slot := Ir.InstRef(|st.ir.code| + 2 * (j - i));
            names[j] in records && records[names[j]] == E.Binding(Some(Ir.ArgumentRef(f, j)), tys[j], Some(slot))
    decreases j - i
  {
    var s1 := BindParam(st, f, names, tys, i);
    var r := BindParams(s1, f, names, tys, i + 1);
    var slot := Ir.InstRef(|st.ir.code| + 2 * (j - i));
    assert BindParams(st, f, names, tys, i) == r by {
      BindParamsStep(st, f, names, tys, i);
    }
    assert |s1.ir.code| == |st.ir.code| + 2
           && s1.scope.records == st.scope.records[names[i] := E.Binding(Some(Ir.ArgumentRef(f, i)), tys[i], Some(Ir.InstRef(|st.ir.code|)))] by {
      BindParamCode(st, f, names, tys, i);
    }
    if j == i {
      assert SameEntry(r.scope.records, s1.scope.records, names[j]) by {
        BindParamsKeeps(s1, f, names, tys, i + 1, names[j]);
      }
    } else {
      assert Ir.InstRef(|s1.ir.code| + 2 * (j - (i + 1))) == slot;
      BindParamsBinds(s1, f, names, tys, i + 1, j);
    }
  }

  /**
   * Inside the body: the function's entry block is the insertion point,
   * each parameter's alloca and store come in parameter order, each
   * parameter name (its last occurrence) is bound to its argument and
   * slot, the function's own name is bound to the function unless a
   * parameter hides it, and every other name is looked up in the scope
   * the declaration was compiled in.
   */
  lemma FunctionBodyScope(st: CState, name: string, ps: seq<Parameter>, rt: GenericType, j: nat, n: string)
    requires CompilableParameters(ps) && NamedType(rt) && j < |ps|
    ensures var b := BodyState(st, name, ps, rt);
            var names := ParamNames(ps);
            var tys := ParamTypes(st.typeMap, ps);
            var f := |st.ir.functions|;
            var entry := |st.ir.blocks|;
            var p := |st.ir.code| + 2 * j;
            |b.ir.blocks| > entry && |b.ir.functions| > f && |b.ir.code| > p + 1
            && b.insert == Some(entry) && b.ir.blocks[entry] == Ir.Block(name + "_entry", f)
            && b.ir.functions[f] == Ir.Function(name, FunctionTypeOf(st.typeMap, ps, rt), names)
            && b.ir.code[p] == Ir.Emitted(Some(entry), Ir.Alloca(tys[j], names[j]))
            && b.ir.code[p + 1] == Ir.Emitted(Some(entry), Ir.Store(Some(Ir.ArgumentRef(f, j)), Some(Ir.InstRef(p))))
            && (LastOccurrence(names, j) ==>
                  E.Lookup(b.scope, names[j]) == E.Binding(Some(Ir.ArgumentRef(f, j)), tys[j], Some(Ir.InstRef(p))))
            && (n !in names && n == name ==> E.Lookup(b.scope, n) == FunctionBinding(st, ps, rt))
            && (n !in names && n != name ==> E.Lookup(b.scope, n) == E.Lookup(st.scope, n))
            && b.current == Some(f)
  {
    var names := ParamNames(ps);
    var tys := ParamTypes(st.typeMap, ps);
    var f := |st.ir.functions|;
    var m1 := st.ir.(functions := st.ir.functions + [Ir.Function(name, FunctionTypeOf(st.typeMap, ps, rt), names)]);
    var (m2, entry) := Ir.AddBlock(m1, name + "_entry", f);
    var inner := E.Scope(Some(st.scope), name, map[]).With(name, FunctionBinding(st, ps, rt));
    var s0 := st.(ir := m2, insert := Some(entry), scope := inner);
    var s1 := BindParams(s0, f, names, tys, 0);
    assert BodyState(st, name, ps, rt) == s1.(current := Some(f));
    BindParamsCode(s0, f, names, tys, 0, j);
    if LastOccurrence(names, j) {
      BindParamsBinds(s0, f, names, tys, 0, j);
    }
    if n !in names {
      BindParamsKeeps(s0, f, names, tys, 0, n);
    }
  }

  /**
   * After the declaration the scope is the one before plus the function's
   * name only: nothing the body or the parameters bound is left, and every
   * other name looks up as before.
   */
  lemma FunctionScopeAfterwards(st: CState, name: string, ps: seq<Parameter>, rt: GenericType, body: Statement, m: string)
    requires CompilableParameters(ps) && NamedType(rt) && Compilable(body)
    ensures var r := FunctionDeclaration(st, name, ps, rt, body);
            r.scope == st.scope.With(name, FunctionBinding(st, ps, rt))
            && E.Lookup(r.scope, name) == FunctionBinding(st, ps, rt)
            && (m != name ==> E.Lookup(r.scope, m) == E.Lookup(st.scope, m))
            && |r.ir.functions| > |st.ir.functions|
            && r.ir.functions[|st.ir.functions|] == Ir.Function(name, FunctionTypeOf(st.typeMap, ps, rt), ParamNames(ps))
  {
    var b := BodyState(st, name, ps, rt);
    var s2 := CompileStatement(b, body);
    assert b.ir.functions[|st.ir.functions|] == Ir.Function(name, FunctionTypeOf(st.typeMap, ps, rt), ParamNames(ps));
    assert b.ir.functions <= s2.ir.functions;
    if m != name {
      E.AddFrame(st.scope, name, FunctionBinding(st, ps, rt), m);
    }
  }
  // ---------------------------------------------------------------------
  // Calls

  /** Arguments are lowered left to right: lowering `a + b` is lowering `a`, then `b` from where `a` left off. */
  lemma {:induction false} ResolveArgsAppend(st: CState, a: seq<Expression>, b: seq<Expression>)
    requires AllCompilableExpressions(a) && AllCompilableExpressions(b)
    ensures AllCompilableExpressions(a + b)
    ensures var (s1, va) := ResolveArgs(st, a);
            var (s2, vb) := ResolveArgs(s1, b);
            ResolveArgs(st, a + b) == (s2, va + vb)
    decreases |a|
  {
    assert AllCompilableExpressions(a + b) by {
      forall i | 0 <= i < |a + b| ensures CompilableExpression((a + b)[i]) {
        if i >= |a| {
          assert (a + b)[i] == b[i - |a|];
        }
      }
    }
    if a != [] {
      assert (a + b)[0] == a[0] && (a + b)[1..] == a[1..] + b;
      var (s1, t) := Resolve(st, a[0]);
      assert AllCompilableExpressions(a[1..]);
      ResolveArgsAppend(s1, a[1..], b);
      var (s2, va) := ResolveArgs(s1, a[1..]);
      var (s3, vb) := ResolveArgs(s2, b);
      assert [t.value] + (va + vb) == ([t.value] + va) + vb;
    } else {
      assert a + b == b;
      assert ResolveArgs(st, a) == (st, []);
      var (s2, vb) := ResolveArgs(st, b);
      assert [] + vb == vb;
    }
  }

  /**
   * A call lowers its arguments first. A name no scope knows gives
   * (null, null) and no call; a known name gives one call of its value on
   * the argument values, typed with the type recorded for the name.
   */
  lemma CallLowering(st: CState, name: string, args: seq<Expression>)
    requires AllCompilableExpressions(args)
    ensures var (s1, vals) := ResolveArgs(st, args);
            var b := E.Lookup(st.scope, name);
            var (r, t) := Call(st, name, args);
            |vals| == |args|
            && (b == E.Absent ==> r == s1 && t == NullPair)
            && (b != E.Absent ==>
                  t == Typed(Some(Ir.InstRef(|s1.ir.code|)), b.ty)
                  && r.ir.code == s1.ir.code + [Ir.Emitted(st.insert, Ir.Call(b.value, vals, "calltmp"))])
  {
  }

  /**
   * Calling a function right after declaring it gives a value typed with
   * the function's `FunctionType`, not with its return type.
   */
  lemma CallAfterDeclarationHasFunctionType(st: CState, name: string, ps: seq<Parameter>, rt: GenericType,
                                            body: Statement, args: seq<Expression>)
    requires CompilableParameters(ps) && NamedType(rt) && Compilable(body) && AllCompilableExpressions(args)
    ensures var s := FunctionDeclaration(st, name, ps, rt, body);
            Call(s, name, args).1.ty == Some(FunctionTypeOf(st.typeMap, ps, rt))
  {
    var s := FunctionDeclaration(st, name, ps, rt, body);
    FunctionScopeAfterwards(st, name, ps, rt, body, name);
    CallLowering(s, name, args);
  }

  // ---------------------------------------------------------------------
  // Programs

  /** Compiling `a + b` is compiling `a`, then `b` from the state `a` left. */
  lemma {:induction false} CompileSeqAppend(st: CState, a: seq<Statement>, b: seq<Statement>)
    requires AllCompilable(a) && AllCompilable(b)
    ensures AllCompilable(a + b)
    ensures CompileSeq(st, a + b) == CompileSeq(CompileSeq(st, a), b)
    decreases |a|
  {
    assert AllCompilable(a + b) by {
      forall i | 0 <= i < |a + b| ensures Compilable((a + b)[i]) {
        if i >= |a| {
          assert (a + b)[i] == b[i - |a|];
        }
      }
    }
    if a != [] {
      assert (a + b)[0] == a[0] && (a + b)[1..] == a[1..] + b;
      assert AllCompilable(a[1..]);
      CompileSeqAppend(CompileStatement(st, a[0]), a[1..], b);
    } else {
      assert a + b == b;
    }
  }

  /** A program and a block of the same statements compile alike: a block opens no scope of its own. */
  lemma BlockOpensNoScope(st: CState, ss: seq<Statement>)
    requires AllCompilable(ss)
    ensures CompileStatement(st, BlockStatement(ss)) == CompileProgram(st, Program(ss))
  {
  }
}
