/**
 * The part of LLVM that src/compiler/compiler.cpp drives, as plain data.
 *
 * LLVM itself is a foreign library; here a module is an append-only log:
 * the globals, functions and basic blocks created so far, and every
 * instruction the `IRBuilder` was asked to create, tagged with the block
 * that was the insertion point at the time. Values are symbolic handles
 * (a constant, a global, a function, an argument, or the result of the
 * instruction at a given position of the log); floating-point constants
 * stay opaque. Type identity is structural, as LLVM types are uniqued
 * per context.
 */
module Ir {
  import opened Wrappers
  import Ast

  datatype Ty =
    | Int32
    | Float32
    | Int1
    | FunctionType(result: Option<Ty>, params: seq<Option<Ty>>)

  datatype Value =
    | ConstInt(width: nat, bits: nat)    // an `APInt`: the low `width` bits, unsigned
    | ConstFloat(literal: Ast.Double)    // `ConstantFP::get(APFloat(d))`
    | GlobalRef(global: nat)             // index into Module.globals
    | FunctionRef(index: nat)              // index into Module.functions
    | ArgumentRef(owner: nat, index: nat)
    | InstRef(position: nat)             // the instruction at this index of Module.code

  datatype BinaryOp = Add | Sub | Mul | SDiv | FAdd | FSub | FMul | FDiv

  /** Integer (`ICmp`, signed) and ordered floating-point (`FCmpO`) predicates. */
  datatype IntPredicate = Eq | Ne | Sgt | Sge | Slt | Sle
  datatype FloatPredicate = Oeq | One | Ogt | Oge | Olt | Ole

  /** Operands are `Option`s: the compiler hands null values to the builder unchecked. */
  datatype Inst =
    | Binary(op: BinaryOp, lhs: Option<Value>, rhs: Option<Value>, name: string)
    | ICmp(ipred: IntPredicate, lhs: Option<Value>, rhs: Option<Value>, name: string)
    | FCmp(fpred: FloatPredicate, lhs: Option<Value>, rhs: Option<Value>, name: string)
    | Alloca(slotType: Option<Ty>, name: string)
    | Store(stored: Option<Value>, ptr: Option<Value>)
    | Load(loaded: Option<Ty>, ptr: Option<Value>, name: string)
    | Call(callee: Option<Value>, args: seq<Option<Value>>, name: string)
    | Ret(returned: Option<Value>)
    | Br(dest: nat)
    | CondBr(cond: Option<Value>, ifTrue: nat, ifFalse: nat)

  /** An instruction and the insertion block it was created in (`None`: no insertion point). */
  datatype Emitted = Emitted(block: Option<nat>, inst: Inst)

  datatype Block = Block(blockName: string, parent: nat)
  datatype Function = Function(name: string, ty: Ty, argNames: seq<string>)
  datatype Global = Global(name: string, ty: Option<Ty>, isConstant: bool, init: Value)

  datatype Module = Module(
    name: string,
    globals: seq<Global>,
    functions: seq<Function>,
    blocks: seq<Block>,
    code: seq<Emitted>)

  /** `IRBuilder::Create*`: append the instruction at the insertion point; its result is a fresh handle. */
  function Emit(m: Module, insert: Option<nat>, inst: Inst): (r: (Module, Value))
    ensures r.0 == m.(code := r.0.code)
    ensures r.0.code == m.code + [Emitted(insert, inst)]
    ensures r.1 == InstRef(|m.code|) && r.0.code[|m.code|].inst == inst
  {
    (m.(code := m.code + [Emitted(insert, inst)]), InstRef(|m.code|))
  }

  /** `BasicBlock::Create(context, name, function)`: the new block's index. */
  function AddBlock(m: Module, blockName: string, parent: nat): (r: (Module, nat))
    ensures r.0 == m.(blocks := r.0.blocks)
    ensures r.0.blocks == m.blocks + [Block(blockName, parent)] && r.1 == |m.blocks|
  {
    (m.(blocks := m.blocks + [Block(blockName, parent)]), |m.blocks|)
  }

  /**
   * Code, blocks, functions and globals are only ever appended to: `m1` is
   * `m0` with more entries at the end of each list.
   */
  predicate Extends(m0: Module, m1: Module)
  {
    m1.name == m0.name
    && m0.globals <= m1.globals
    && m0.functions <= m1.functions
    && m0.blocks <= m1.blocks
    && m0.code <= m1.code
  }

  lemma ExtendsTransitive(m0: Module, m1: Module, m2: Module)
    requires Extends(m0, m1) && Extends(m1, m2)
    ensures Extends(m0, m2)
  {
  }
}
