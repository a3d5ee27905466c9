/** The node tags and their names: `NodeType` and `nodeTypeToString` of src/parser/AST. */
module NodeTypes {
  /** The tags, in declaration order. The enumeration has no tag for if/else statements or calls. */
  datatype NodeType =
    | Program | Unknown
    | ExpressionStatement | VariableDeclarationStatement | VariableAssignmentStatement
    | FunctionStatement | BlockStatement | ReturnStatement
    | Type | UnionType
    | InfixedExpression
    | IntegerLiteral | FloatLiteral | BooleanLiteral | StringLiteral | IdentifierLiteral

  /** `nodeTypeToString`: the tag's name; `Type` is "TypeStatement" and `Unknown` falls to the default. */
  function NodeTypeToString(t: NodeType): string
  {
    match t
    case Program => "Program"
    case ExpressionStatement => "ExpressionStatement"
    case VariableDeclarationStatement => "VariableDeclarationStatement"
    case VariableAssignmentStatement => "VariableAssignmentStatement"
    case FunctionStatement => "FunctionStatement"
    case BlockStatement => "BlockStatement"
    case ReturnStatement => "ReturnStatement"
    case Type => "TypeStatement"
    case UnionType => "UnionType"
    case InfixedExpression => "InfixedExpression"
    case IntegerLiteral => "IntegerLiteral"
    case FloatLiteral => "FloatLiteral"
    case StringLiteral => "StringLiteral"
    case IdentifierLiteral => "IdentifierLiteral"
    case BooleanLiteral => "BooleanLiteral"
    case Unknown => "UNKNOWN"
  }

  /** The statement and literal tags. */
  lemma NodeTypeNamesOfStatements()
    ensures NodeTypeToString(Program) == "Program"
    ensures NodeTypeToString(Type) == "TypeStatement"
    ensures NodeTypeToString(Unknown) == "UNKNOWN"
    ensures NodeTypeToString(InfixedExpression) == "InfixedExpression"
  {
  }

  /**
   * The tag a name belongs to; a left inverse of `NodeTypeToString`. The
   * names are compared within groups of equal length.
   */
  function NodeTypeNamed(s: string): (t: NodeType)
  {
    match |s|
    case 7 => if s == "Program" then Program else Unknown
    case 9 => if s == "UnionType" then UnionType else Unknown
    case 12 => if s == "FloatLiteral" then FloatLiteral else Unknown
    case 13 => if s == "TypeStatement" then Type else if s == "StringLiteral" then StringLiteral else Unknown
    case 14 =>
      if s == "BlockStatement" then BlockStatement
      else if s == "IntegerLiteral" then IntegerLiteral
      else if s == "BooleanLiteral" then BooleanLiteral
      else Unknown
    case 15 => if s == "ReturnStatement" then ReturnStatement else Unknown
    case 17 =>
      if s == "FunctionStatement" then FunctionStatement
      else if s == "InfixedExpression" then InfixedExpression
      else if s == "IdentifierLiteral" then IdentifierLiteral
      else Unknown
    case 19 => if s == "ExpressionStatement" then ExpressionStatement else Unknown
    case 27 => if s == "VariableAssignmentStatement" then VariableAssignmentStatement else Unknown
    case 28 => if s == "VariableDeclarationStatement" then VariableDeclarationStatement else Unknown
    case _ => Unknown
  }

  /** Every tag has a name of its own: reading the name back gives the tag. */
  lemma NodeTypeNamedInverts(t: NodeType)
    ensures NodeTypeNamed(NodeTypeToString(t)) == t
  {
  }

  lemma NodeTypeToStringInjective(a: NodeType, b: NodeType)
    requires NodeTypeToString(a) == NodeTypeToString(b)
    ensures a == b
  {
    NodeTypeNamedInverts(a);
    NodeTypeNamedInverts(b);
  }
}

/**
 * The syntax tree of src/parser/AST/ast.hpp and its JSON form
 * (src/parser/AST/ast.cpp).
 *
 * Each node class is a constructor. A child the parser can leave null is
 * an `Option`: expressions (the prefix handler of a grouped expression
 * returns null when the `)` is missing, and that null can become the left
 * operand of an infix expression) and a function's body. Names, types and
 * parameters are never null where they are built and are plain values.
 */
module Ast {
  import opened Wrappers
  import Tokens
  import NT = NodeTypes

  /** A `double` produced by `std::stod` from the literal's text, kept opaque. */
  datatype Double = FromDecimal(text: string)

  datatype Expression =
    | InfixExpression(left: Option<Expression>, op: Tokens.TokenType, right: Option<Expression>)
    | IntegerLiteral(integer: int)
    | FloatLiteral(float: Double)
    | StringLiteral(text: string)
    | IdentifierLiteral(name: string)
    | BooleanLiteral(truth: bool)

  /** `GenericType`, the only kind of `BaseType`: a name with generic arguments. */
  datatype GenericType = GenericType(name: Expression, generics: seq<GenericType>)

  /** `FunctionStatement::parameter`. */
  datatype Parameter = Parameter(name: Expression, valueType: GenericType)

  datatype Statement =
    | ExpressionStatement(expr: Option<Expression>)
    | BlockStatement(statements: seq<Statement>)
    | ReturnStatement(value: Option<Expression>)
    | FunctionStatement(name: Expression, parameters: seq<Parameter>, returnType: GenericType, body: Option<Statement>)
    | VariableDeclarationStatement(name: Expression, valueType: GenericType, value: Option<Expression>)
    | VariableAssignmentStatement(name: Expression, value: Option<Expression>)

  datatype Program = Program(statements: seq<Statement>)

  // ---------------------------------------------------------------------
  // type()

  function ExpressionType(e: Expression): NT.NodeType
  {
    match e
    case InfixExpression(_, _, _) => NT.InfixedExpression
    case IntegerLiteral(_) => NT.IntegerLiteral
    case FloatLiteral(_) => NT.FloatLiteral
    case StringLiteral(_) => NT.StringLiteral
    case IdentifierLiteral(_) => NT.IdentifierLiteral
    case BooleanLiteral(_) => NT.BooleanLiteral
  }

  function StatementType(s: Statement): NT.NodeType
  {
    match s
    case ExpressionStatement(_) => NT.ExpressionStatement
    case BlockStatement(_) => NT.BlockStatement
    case ReturnStatement(_) => NT.ReturnStatement
    case FunctionStatement(_, _, _, _) => NT.FunctionStatement
    case VariableDeclarationStatement(_, _, _) => NT.VariableDeclarationStatement
    case VariableAssignmentStatement(_, _) => NT.VariableAssignmentStatement
  }

  /** Both `GenericType` and `FunctionStatement::parameter` report the `Type` tag. */
  const GenericTypeType: NT.NodeType := NT.Type
  const ParameterType: NT.NodeType := NT.Type
  const ProgramType: NT.NodeType := NT.Program

  // ---------------------------------------------------------------------
  // JSON

  /** The JSON values the serialiser builds: null, Booleans, numbers, strings, arrays and objects. */
  datatype Json =
    | Null
    | Bool(b: bool)
    | Int(i: int)
    | Real(d: Double)
    | Str(s: string)
    | Array(items: seq<Json>)
    | Object(fields: map<string, Json>)

  function TypeTag(t: NT.NodeType): Json { Str(NT.NodeTypeToString(t)) }

  /** A null child serialises as JSON null. */
  function OptionJson(e: Option<Expression>): Json
    requires OptionSerialisable(e)
  {
    match e
    case None => Null
    case Some(x) => ExpressionJson(x)
  }

  /** The expressions whose `toJSON` dereferences no null left operand, all the way down. */
  predicate ExpressionSerialisable(e: Expression)
  {
    match e
    case InfixExpression(l, _, r) =>
      l.Some? && ExpressionSerialisable(l.value) && (r.Some? ==> ExpressionSerialisable(r.value))
    case _ => true
  }

  predicate OptionSerialisable(e: Option<Expression>)
  {
    e.Some? ==> ExpressionSerialisable(e.value)
  }

  predicate TypeSerialisable(t: GenericType)
  {
    ExpressionSerialisable(t.name) && forall i :: 0 <= i < |t.generics| ==> TypeSerialisable(t.generics[i])
  }

  predicate ParameterSerialisable(p: Parameter)
  {
    ExpressionSerialisable(p.name) && TypeSerialisable(p.valueType)
  }

  function ExpressionJson(e: Expression): Json
    requires ExpressionSerialisable(e)
  {
    var start := map["type" := TypeTag(ExpressionType(e))];
    match e
    case InfixExpression(l, op, r) =>
      Object(start["operator" := Str(Tokens.TokenTypeString(op))]["left_node" := ExpressionJson(l.value)]
                  ["right_node" := OptionJson(r)])
    case IntegerLiteral(v) => Object(start["value" := Int(v)])
    case FloatLiteral(v) => Object(start["value" := Real(v)])
    case StringLiteral(v) => Object(start["value" := Str(v)])
    case IdentifierLiteral(v) => Object(start["value" := Str(v)])
    case BooleanLiteral(v) => Object(start["value" := Bool(v)])
  }

  function GenericTypeJson(t: GenericType): Json
    requires TypeSerialisable(t)
  {
    Object(map["type" := TypeTag(GenericTypeType)]["name" := ExpressionJson(t.name)]
              ["generics" := Array(seq(|t.generics|, i requires 0 <= i < |t.generics| => GenericTypeJson(t.generics[i])))])
  }

  /** `parameter::toJSON` writes "type" twice; the second write, the value type's JSON, is the one kept. */
  function ParameterJson(p: Parameter): Json
    requires ParameterSerialisable(p)
  {
    Object(map["type" := TypeTag(ParameterType)]["name" := ExpressionJson(p.name)]["type" := GenericTypeJson(p.valueType)])
  }

  /**
   * The statements whose `toJSON` dereferences no null child: an
   * assignment has a value, a function a body, and every expression in them
   * is serialisable, all the way down.
   */
  predicate Serialisable(s: Statement)
  {
    match s
    case ExpressionStatement(e) => OptionSerialisable(e)
    case BlockStatement(ss) => forall i :: 0 <= i < |ss| ==> Serialisable(ss[i])
    case ReturnStatement(v) => OptionSerialisable(v)
    case FunctionStatement(name, ps, rt, body) =>
      ExpressionSerialisable(name) && (forall i :: 0 <= i < |ps| ==> ParameterSerialisable(ps[i]))
      && TypeSerialisable(rt) && body.Some? && Serialisable(body.value)
    case VariableDeclarationStatement(name, t, v) =>
      ExpressionSerialisable(name) && TypeSerialisable(t) && OptionSerialisable(v)
    case VariableAssignmentStatement(name, v) =>
      ExpressionSerialisable(name) && v.Some? && ExpressionSerialisable(v.value)
  }

  function StatementsJson(ss: seq<Statement>): Json
    requires forall i :: 0 <= i < |ss| ==> Serialisable(ss[i])
  {
    Array(seq(|ss|, i requires 0 <= i < |ss| => StatementJson(ss[i])))
  }

  function StatementJson(s: Statement): Json
    requires Serialisable(s)
  {
    var start := map["type" := TypeTag(StatementType(s))];
    match s
    case ExpressionStatement(e) => Object(start["Expression" := OptionJson(e)])
    case BlockStatement(ss) => Object(start["statements" := StatementsJson(ss)])
    case ReturnStatement(v) => Object(start["value" := OptionJson(v)])
    case FunctionStatement(name, ps, rt, body) =>
      Object(start["name" := ExpressionJson(name)]
                  ["parameters" := Array(seq(|ps|, i requires 0 <= i < |ps| => ParameterJson(ps[i])))]
                  ["return_type" := GenericTypeJson(rt)]["body" := StatementJson(body.value)])
    case VariableDeclarationStatement(name, t, v) =>
      Object(start["identifier" := ExpressionJson(name)]["value_type" := GenericTypeJson(t)]["value" := OptionJson(v)])
    case VariableAssignmentStatement(name, v) =>
      Object(start["identifier" := ExpressionJson(name)]["value" := ExpressionJson(v.value)])
  }

  function ProgramJson(p: Program): Json
    requires forall i :: 0 <= i < |p.statements| ==> Serialisable(p.statements[i])
  {
    Object(map["type" := TypeTag(ProgramType)]["statements" := StatementsJson(p.statements)])
  }

  // ---------------------------------------------------------------------
  // Properties of the JSON form

  /** Every expression's object carries its own tag under "type", and literals their payload under "value". */
  lemma ExpressionJsonShape(e: Expression)
    requires ExpressionSerialisable(e)
    ensures var j := ExpressionJson(e);
            j.Object? && "type" in j.fields && j.fields["type"] == Str(NT.NodeTypeToString(ExpressionType(e)))
            && (!e.InfixExpression? <==> "value" in j.fields)
            && (e.IntegerLiteral? ==> j.fields["value"] == Int(e.integer))
            && (e.StringLiteral? ==> j.fields["value"] == Str(e.text))
            && (e.IdentifierLiteral? ==> j.fields["value"] == Str(e.name))
            && (e.BooleanLiteral? ==> j.fields["value"] == Bool(e.truth))
  {
  }

  /**
   * An infix expression names its operator by `tokenTypeString` and holds
   * both operands; a missing right operand is JSON null.
   */
  lemma InfixJsonShape(e: Expression)
    requires e.InfixExpression? && ExpressionSerialisable(e)
    ensures var f := ExpressionJson(e).fields;
            f.Keys == {"type", "operator", "left_node", "right_node"}
            && f["operator"] == Str(Tokens.TokenTypeString(e.op))
            && f["left_node"] == ExpressionJson(e.left.value)
            && (f["right_node"] == Null <==> e.right == None)
  {
    if e.right.Some? {
      ExpressionJsonShape(e.right.value);
    }
  }

  /** Every statement's object carries its own tag under "type". */
  lemma StatementJsonTagged(s: Statement)
    requires Serialisable(s)
    ensures var j := StatementJson(s);
            j.Object? && "type" in j.fields && j.fields["type"] == Str(NT.NodeTypeToString(StatementType(s)))
  {
  }

  /** Null children serialise as JSON null, and present ones never do. */
  lemma NullChildrenAreNull(s: Statement)
    requires Serialisable(s)
    ensures var f := StatementJson(s).fields;
            (s.ExpressionStatement? ==> (f["Expression"] == Null <==> s.expr == None))
            && (s.ReturnStatement? ==> (f["value"] == Null <==> s.value == None))
            && (s.VariableDeclarationStatement? ==> (f["value"] == Null <==> s.value == None))
  {
    if s.ExpressionStatement? && s.expr.Some? {
      ExpressionJsonShape(s.expr.value);
    }
    if (s.ReturnStatement? || s.VariableDeclarationStatement?) && s.value.Some? {
      ExpressionJsonShape(s.value.value);
    }
  }

  /** A program's and a block's "statements" array has one entry per statement, in order. */
  lemma StatementsInOrder(ss: seq<Statement>)
    requires forall i :: 0 <= i < |ss| ==> Serialisable(ss[i])
    ensures var p := ProgramJson(Program(ss)).fields["statements"];
            var b := StatementJson(BlockStatement(ss)).fields["statements"];
            p == b && p.Array? && |p.items| == |ss|
            && forall i :: 0 <= i < |ss| ==> p.items[i] == StatementJson(ss[i])
  {
  }

  /** The parameter's "type" is its value type's object, not the tag name written first. */
  lemma ParameterTypeOverwritten(p: Parameter)
    requires ParameterSerialisable(p)
    ensures var f := ParameterJson(p).fields;
            f.Keys == {"type", "name"} && f["type"] == GenericTypeJson(p.valueType)
            && f["type"] != Str(NT.NodeTypeToString(ParameterType))
  {
  }

  // The serialiser loses nothing: distinct trees have distinct JSON.

  lemma {:induction false} ExpressionJsonInjective(a: Expression, b: Expression)
    requires ExpressionSerialisable(a) && ExpressionSerialisable(b) && ExpressionJson(a) == ExpressionJson(b)
    ensures a == b
    decreases a
  {
    var fa, fb := ExpressionJson(a).fields, ExpressionJson(b).fields;
    assert fa["type"] == fb["type"];
    NT.NodeTypeToStringInjective(ExpressionType(a), ExpressionType(b));
    if a.InfixExpression? {
      assert fa["left_node"] == fb["left_node"];
      ExpressionJsonInjective(a.left.value, b.left.value);
      assert Str(Tokens.TokenTypeString(a.op)) == fa["operator"] == fb["operator"];
      Tokens.TokenTypeStringInjective(a.op, b.op);
      assert OptionJson(a.right) == fa["right_node"] == fb["right_node"] == OptionJson(b.right);
      if a.right.Some? {
        ExpressionJsonShape(a.right.value);
        if b.right.Some? {
          ExpressionJsonInjective(a.right.value, b.right.value);
        }
      } else if b.right.Some? {
        ExpressionJsonShape(b.right.value);
      }
    } else {
      assert fa["value"] == fb["value"];
    }
  }

  lemma OptionJsonInjective(a: Option<Expression>, b: Option<Expression>)
    requires OptionSerialisable(a) && OptionSerialisable(b) && OptionJson(a) == OptionJson(b)
    ensures a == b
  {
    if a.Some? {
      ExpressionJsonShape(a.value);
      if b.Some? {
        ExpressionJsonInjective(a.value, b.value);
      }
    } else if b.Some? {
      ExpressionJsonShape(b.value);
    }
  }

  lemma {:induction false} GenericTypeJsonInjective(a: GenericType, b: GenericType)
    requires TypeSerialisable(a) && TypeSerialisable(b) && GenericTypeJson(a) == GenericTypeJson(b)
    ensures a == b
    decreases a
  {
    var fa, fb := GenericTypeJson(a).fields, GenericTypeJson(b).fields;
    assert fa["name"] == fb["name"];
    ExpressionJsonInjective(a.name, b.name);
    var ga, gb := fa["generics"].items, fb["generics"].items;
    assert |a.generics| == |ga| == |gb| == |b.generics|;
    forall i | 0 <= i < |a.generics| ensures a.generics[i] == b.generics[i] {
      assert ga[i] == GenericTypeJson(a.generics[i]);
      assert gb[i] == GenericTypeJson(b.generics[i]);
      GenericTypeJsonInjective(a.generics[i], b.generics[i]);
    }
  }

  lemma ParameterJsonInjective(a: Parameter, b: Parameter)
    requires ParameterSerialisable(a) && ParameterSerialisable(b) && ParameterJson(a) == ParameterJson(b)
    ensures a == b
  {
    var fa, fb := ParameterJson(a).fields, ParameterJson(b).fields;
    assert fa["name"] == fb["name"] && fa["type"] == fb["type"];
    ExpressionJsonInjective(a.name, b.name);
    GenericTypeJsonInjective(a.valueType, b.valueType);
  }

  lemma {:induction false} StatementJsonInjective(a: Statement, b: Statement)
    requires Serialisable(a) && Serialisable(b) && StatementJson(a) == StatementJson(b)
    ensures a == b
    decreases a, 1
  {
    StatementJsonTagged(a);
    StatementJsonTagged(b);
    NT.NodeTypeToStringInjective(StatementType(a), StatementType(b));
    if a.ExpressionStatement? || a.ReturnStatement? {
      OptionalValueJsonInjective(a, b);
    } else if a.BlockStatement? {
      BlockJsonInjective(a, b);
    } else if a.VariableDeclarationStatement? {
      DeclarationJsonInjective(a, b);
    } else if a.VariableAssignmentStatement? {
      AssignmentJsonInjective(a, b);
    } else {
      FunctionJsonInjective(a, b);
    }
  }

  /** Expression and return statements: the one optional child decides the statement. */
  lemma OptionalValueJsonInjective(a: Statement, b: Statement)
    requires (a.ExpressionStatement? && b.ExpressionStatement?) || (a.ReturnStatement? && b.ReturnStatement?)
    requires Serialisable(a) && Serialisable(b) && StatementJson(a) == StatementJson(b)
    ensures a == b
  {
    var fa, fb := StatementJson(a).fields, StatementJson(b).fields;
    if a.ExpressionStatement? {
      assert fa["Expression"] == fb["Expression"];
      OptionJsonInjective(a.expr, b.expr);
    } else {
      assert fa["value"] == fb["value"];
      OptionJsonInjective(a.value, b.value);
    }
  }

  lemma {:induction false} BlockJsonInjective(a: Statement, b: Statement)
    requires a.BlockStatement? && b.BlockStatement?
    requires Serialisable(a) && Serialisable(b) && StatementJson(a) == StatementJson(b)
    ensures a == b
    decreases a, 0
  {
    var fa, fb := StatementJson(a).fields, StatementJson(b).fields;
    assert fa["statements"] == fb["statements"];
    StatementsJsonInjective(a.statements, b.statements);
  }

  lemma DeclarationJsonInjective(a: Statement, b: Statement)
    requires a.VariableDeclarationStatement? && b.VariableDeclarationStatement?
    requires Serialisable(a) && Serialisable(b) && StatementJson(a) == StatementJson(b)
    ensures a == b
  {
    var fa, fb := StatementJson(a).fields, StatementJson(b).fields;
    assert fa["identifier"] == fb["identifier"] && fa["value_type"] == fb["value_type"] && fa["value"] == fb["value"];
    ExpressionJsonInjective(a.name, b.name);
    GenericTypeJsonInjective(a.valueType, b.valueType);
    OptionJsonInjective(a.value, b.value);
  }

  lemma AssignmentJsonInjective(a: Statement, b: Statement)
    requires a.VariableAssignmentStatement? && b.VariableAssignmentStatement?
    requires Serialisable(a) && Serialisable(b) && StatementJson(a) == StatementJson(b)
    ensures a == b
  {
    var fa, fb := StatementJson(a).fields, StatementJson(b).fields;
    assert fa["identifier"] == fb["identifier"] && fa["value"] == fb["value"];
    ExpressionJsonInjective(a.name, b.name);
    ExpressionJsonInjective(a.value.value, b.value.value);
  }

  lemma {:induction false} FunctionJsonInjective(a: Statement, b: Statement)
    requires a.FunctionStatement? && b.FunctionStatement?
    requires Serialisable(a) && Serialisable(b) && StatementJson(a) == StatementJson(b)
    ensures a == b
    decreases a, 0
  {
    var fa, fb := StatementJson(a).fields, StatementJson(b).fields;
    assert fa["name"] == fb["name"] && fa["return_type"] == fb["return_type"] && fa["body"] == fb["body"];
    ExpressionJsonInjective(a.name, b.name);
    GenericTypeJsonInjective(a.returnType, b.returnType);
    StatementJsonInjective(a.body.value, b.body.value);
    var pa, pb := fa["parameters"].items, fb["parameters"].items;
    assert |a.parameters| == |pa| == |pb| == |b.parameters|;
    forall i | 0 <= i < |a.parameters| ensures a.parameters[i] == b.parameters[i] {
      assert pa[i] == ParameterJson(a.parameters[i]) && pb[i] == ParameterJson(b.parameters[i]);
      ParameterJsonInjective(a.parameters[i], b.parameters[i]);
    }
  }

  lemma {:induction false} StatementsJsonInjective(a: seq<Statement>, b: seq<Statement>)
    requires forall i :: 0 <= i < |a| ==> Serialisable(a[i])
    requires forall i :: 0 <= i < |b| ==> Serialisable(b[i])
    requires StatementsJson(a) == StatementsJson(b)
    ensures a == b
    decreases a, 0
  {
    var ja, jb := StatementsJson(a).items, StatementsJson(b).items;
    assert |a| == |ja| == |jb| == |b|;
    forall i | 0 <= i < |a| ensures a[i] == b[i] {
      assert ja[i] == StatementJson(a[i]) && jb[i] == StatementJson(b[i]);
      StatementJsonInjective(a[i], b[i]);
    }
  }

  lemma ProgramJsonInjective(a: Program, b: Program)
    requires forall i :: 0 <= i < |a.statements| ==> Serialisable(a.statements[i])
    requires forall i :: 0 <= i < |b.statements| ==> Serialisable(b.statements[i])
    requires ProgramJson(a) == ProgramJson(b)
    ensures a == b
  {
    assert ProgramJson(a).fields["statements"] == ProgramJson(b).fields["statements"];
    StatementsJsonInjective(a.statements, b.statements);
  }
}
