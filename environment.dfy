/**
 * The compiler's scope chain, src/compiler/enviornment/.
 *
 * `Enviornment` maps names to the triple (value, type, storage slot) the
 * compiler records for them, and links to the enclosing scope. `add`
 * writes the current scope only; `get` looks the name up innermost first
 * and returns the all-null triple when no scope of the chain has it.
 *
 * The parent of a scope is a shared pointer to a copy the compiler takes
 * (and never changes afterwards), so it is modelled by its value, `Scope`;
 * the scope the compiler updates in place is the class `Environment`.
 * The `Record` classes of the header are kept as the record datatype too.
 */
module Environment {
  import opened Wrappers
  import Ir

  // ---------------------------------------------------------------------
  // Records (enviornment.hpp)

  datatype RecordType = RecordClassType | RecordEnumType | BuiltinType | RecordVariable | RecordFunction

  /** The four source positions `set_meta_data` assigns. */
  datatype MetaData = MetaData(stLineNo: int, stColNo: int, endLineNo: int, endColNo: int)

  /**
   * `Record` and its five subclasses in one class: `kind` is the tag every
   * subclass constructor sets, and the remaining fields are those of the
   * subclasses (left unspecified by the constructors that do not set them,
   * as in C++).
   */
  class Record {
    var kind: RecordType
    var name: string
    var metaData: MetaData
    // RecordBuiltinType
    var builtinType: Option<Ir.Ty>
    // RecordVariable
    var value: Option<Ir.Value>
    var valueType: Option<Ir.Ty>
    var allocaInst: Option<Ir.Value>
    // RecordFunction
    var func: Option<Ir.Value>
    var functionType: Option<Ir.Ty>
    var arguments: seq<(string, Record)>

    constructor ClassType(name: string)
      ensures kind == RecordClassType && this.name == name
    {
      kind := RecordClassType;
      this.name := name;
    }

    constructor EnumType(name: string)
      ensures kind == RecordEnumType && this.name == name
    {
      kind := RecordEnumType;
      this.name := name;
    }

    constructor Builtin(name: string)
      ensures kind == BuiltinType && this.name == name
    {
      kind := BuiltinType;
      this.name := name;
    }

    constructor BuiltinWithType(name: string, ty: Option<Ir.Ty>)
      ensures kind == BuiltinType && this.name == name && builtinType == ty
    {
      kind := BuiltinType;
      this.name := name;
      builtinType := ty;
    }

    constructor Variable(name: string)
      ensures kind == RecordVariable && this.name == name
    {
      kind := RecordVariable;
      this.name := name;
    }

    constructor VariableWith(name: string, value: Option<Ir.Value>, ty: Option<Ir.Ty>, allocaInst: Option<Ir.Value>)
      ensures kind == RecordVariable && this.name == name
      ensures this.value == value && valueType == ty && this.allocaInst == allocaInst
    {
      kind := RecordVariable;
      this.name := name;
      this.value := value;
      valueType := ty;
      this.allocaInst := allocaInst;
    }

    constructor Function(name: string)
      ensures kind == RecordFunction && this.name == name
    {
      kind := RecordFunction;
      this.name := name;
    }

    constructor FunctionWith(name: string, func: Option<Ir.Value>, functionType: Option<Ir.Ty>,
                             arguments: seq<(string, Record)>)
      ensures kind == RecordFunction && this.name == name
      ensures this.func == func && this.functionType == functionType && this.arguments == arguments
    {
      kind := RecordFunction;
      this.name := name;
      this.func := func;
      this.functionType := functionType;
      this.arguments := arguments;
    }

    /** `set_meta_data`: the four positions change, nothing else does. */
    method SetMetaData(stLineNo: int, stColNo: int, endLineNo: int, endColNo: int)
      modifies this
      ensures metaData == MetaData(stLineNo, stColNo, endLineNo, endColNo)
      ensures kind == old(kind) && name == old(name) && builtinType == old(builtinType)
      ensures value == old(value) && valueType == old(valueType) && allocaInst == old(allocaInst)
      ensures func == old(func) && functionType == old(functionType) && arguments == old(arguments)
    {
      metaData := metaData.(stLineNo := stLineNo, stColNo := stColNo);
      metaData := metaData.(endLineNo := endLineNo, endColNo := endColNo);
    }
  }

  // ---------------------------------------------------------------------
  // Scopes (enviornment.cpp)

  /** The tuple `add` stores: value, type and storage slot (`AllocaInst*`). */
  datatype Binding = Binding(value: Option<Ir.Value>, ty: Option<Ir.Ty>, alloca: Option<Ir.Value>)

  /** `std::make_tuple(nullptr, nullptr, nullptr)`. */
  const Absent := Binding(None, None, None)

  /** A scope as a value: what `std::make_shared<Enviornment>(env)` captures. */
  datatype Scope = Scope(parent: Option<Scope>, name: string, records: map<string, Binding>)
  {
    /** The scope after `add(n, ...)`: only the current records change. */
    function With(n: string, b: Binding): (s: Scope)
      ensures s.parent == parent && s.name == name && s.records == records[n := b]
    {
      this.(records := records[n := b])
    }
  }

  /** `get`: the current scope's entry, otherwise the parent's answer, otherwise all null. */
  function Lookup(s: Scope, n: string): Binding
  {
    if n in s.records then s.records[n]
    else if s.parent.Some? then Lookup(s.parent.value, n)
    else Absent
  }

  /**
   * Independent reading of a chain: every scope's records, outer ones
   * first, each inner scope overriding the names it declares.
   */
  function Visible(s: Scope): map<string, Binding>
  {
    (if s.parent.Some? then Visible(s.parent.value) else map[]) + s.records
  }

  /** `get` finds exactly what the flattened chain holds, and the null triple elsewhere. */
  lemma {:induction false} LookupIsVisible(s: Scope, n: string)
    ensures Lookup(s, n) == if n in Visible(s) then Visible(s)[n] else Absent
  {
    if n !in s.records && s.parent.Some? {
      LookupIsVisible(s.parent.value, n);
    }
  }

  /** add(n, t, v, a) then get(n) on the same scope gives (v, t, a). */
  lemma AddThenGet(s: Scope, n: string, v: Option<Ir.Value>, t: Option<Ir.Ty>, a: Option<Ir.Value>)
    ensures Lookup(s.With(n, Binding(v, t, a)), n) == Binding(v, t, a)
  {
  }

  /** A second add of the same name replaces the first entry. */
  lemma AddOverwrites(s: Scope, n: string, b1: Binding, b2: Binding)
    ensures s.With(n, b1).With(n, b2) == s.With(n, b2)
  {
  }

  /** add of n changes no other name's lookup and leaves the parent alone. */
  lemma AddFrame(s: Scope, n: string, b: Binding, m: string)
    requires m != n
    ensures Lookup(s.With(n, b), m) == Lookup(s, m)
    ensures s.With(n, b).parent == s.parent
  {
  }

  /** A name the current scope holds hides every outer entry for it. */
  lemma InnermostShadows(p: Scope, name: string, records: map<string, Binding>, n: string)
    requires n in records
    ensures Lookup(Scope(Some(p), name, records), n) == records[n]
  {
  }

  /** A name the current scope lacks is looked up in the parent. */
  lemma MissDelegatesToParent(p: Scope, name: string, records: map<string, Binding>, n: string)
    requires n !in records
    ensures Lookup(Scope(Some(p), name, records), n) == Lookup(p, n)
  {
  }

  /** At the root, a missing name gives the all-null triple. */
  lemma RootMissIsNull(name: string, records: map<string, Binding>, n: string)
    requires n !in records
    ensures Lookup(Scope(None, name, records), n) == Absent
  {
  }

  /** `Enviornment`: the scope the compiler holds and updates in place. */
  class Environment {
    var parent: Option<Scope>
    var name: string
    var records: map<string, Binding>

    /** The value a copy of this object holds. */
    function Snapshot(): Scope
      reads this
    {
      Scope(parent, name, records)
    }

    /** Defaults: no parent, no records, name "unnamed". */
    constructor(parent: Option<Scope> := None, records: map<string, Binding> := map[], name: string := "unnamed")
      ensures Snapshot() == Scope(parent, name, records)
    {
      this.parent := parent;
      this.name := name;
      this.records := records;
    }

    /** `add`: `records[name] = (value, type, alloca)`. */
    method Add(n: string, ty: Option<Ir.Ty>, value: Option<Ir.Value>, alloca: Option<Ir.Value>)
      modifies this
      ensures Snapshot() == old(Snapshot()).With(n, Binding(value, ty, alloca))
    {
      records := records[n := Binding(value, ty, alloca)];
    }

    /** `get`: innermost first, then the parent chain, then the all-null triple. */
    function Get(n: string): (b: Binding)
      reads this
      ensures b == if n in Visible(Snapshot()) then Visible(Snapshot())[n] else Absent
    {
      LookupIsVisible(Snapshot(), n);
      if n in records then records[n]
      else if parent.Some? then Lookup(parent.value, n)
      else Absent
    }

    /** Copy assignment from a saved scope (`env = *prev_env`, `env = Enviornment(...)`). */
    method Assign(s: Scope)
      modifies this
      ensures Snapshot() == s
    {
      parent := s.parent;
      name := s.name;
      records := s.records;
    }
  }

  /** The defaults of the constructor: a root scope named "unnamed" that finds nothing. */
  method NewRootEnvironment(n: string) returns (e: Environment, b: Binding)
    ensures e.parent == None && e.records == map[] && e.name == "unnamed"
    ensures b == Absent
  {
    e := new Environment();
    b := e.Get(n);
  }
}
