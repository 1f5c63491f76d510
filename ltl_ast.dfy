/** The LTL syntax tree of `tulip/spec/ast.py` and its rendering into the gr1c, JTLV,
    SMV, Promela (SPIN) and Python dialects. The graph that the source threads through
    its node constructors only ever holds a strict tree, so here a node owns its
    children. */
module LtlAst {
  import opened Wrappers
  import opened Text

  // ---------------------------------------------------------------------------
  // Token tables

  /** Normalisation of temporal operator tokens at construction. */
  const TemporalOpMap: map<string, string> := map[
    "G" := "G", "F" := "F", "X" := "X",
    "[]" := "G", "<>" := "F", "next" := "X",
    "U" := "U", "V" := "R", "R" := "R",
    "'" := "X", "FALSE" := "False", "TRUE" := "True"]

  const JtlvMap: map<string, string> := map[
    "G" := "[]", "F" := "<>", "X" := "next",
    "U" := "U", "||" := "||", "&&" := "&&",
    "False" := "FALSE", "True" := "TRUE"]

  const Gr1cMap: map<string, string> := map[
    "G" := "[]", "F" := "<>", "X" := "'", "||" := "|", "&&" := "&",
    "False" := "False", "True" := "True"]

  const SmvMap: map<string, string> := map["G" := "G", "F" := "F", "X" := "X", "U" := "U", "R" := "V"]

  const SpinMap: map<string, string> := map["G" := "[]", "F" := "<>", "U" := "U", "R" := "V"]

  const PythonMap: map<string, string> := map["&&" := "and", "||" := "or", "!" := "not", "xor" := "^"]

  // ---------------------------------------------------------------------------
  // Syntax tree

  /** The operator of a unary node: `Not`, or an `UnTempOp` holding its normalised token. */
  datatype UnaryOp = Not | UnTemp(op: string)

  /** The operator of a binary node; the last four hold the token they were built with. */
  datatype BinaryOp = And | Or | Xor | Imp | BiImp | BiTemp(op: string) | Comparator(op: string) | Arithmetic(op: string)

  /** `Const(t)` holds the token `t`; the source stores it as `"t"`, quotes included. */
  datatype Node =
    | Num(val: int)
    | Var(name: string)
    | Const(token: string)
    | Bool(truth: bool)
    | Unary(uop: UnaryOp, operand: Node)
    | Binary(bop: BinaryOp, left: Node, right: Node)

  datatype LtlError =
    | LTLException(msg: string)
    | KeyError(key: string)

  datatype Dialect = Gr1c(primed: bool) | Jtlv | Smv | Promela | Python

  /** `UnTempOp(operator, x)`: the token is normalised through the temporal table; an
      unknown token is a `KeyError`. */
  function NewUnTempOp(token: string, x: Node): (r: Result<Node, LtlError>)
    ensures r.Ok? <==> token in TemporalOpMap
    ensures r.Ok? ==> r.value.Unary? && r.value.operand == x && r.value.uop.UnTemp?
                      && r.value.uop.op in {"G", "F", "X", "U", "R", "False", "True"}
    ensures r.Err? ==> r.error == KeyError(token)
  {
    if token in TemporalOpMap then Ok(Unary(UnTemp(TemporalOpMap[token]), x)) else Err(KeyError(token))
  }

  /** `BiTempOp(operator, x, y)`, normalised like `UnTempOp`. */
  function NewBiTempOp(token: string, x: Node, y: Node): (r: Result<Node, LtlError>)
    ensures r.Ok? <==> token in TemporalOpMap
    ensures r.Ok? ==> r.value.Binary? && r.value.left == x && r.value.right == y && r.value.bop.BiTemp?
                      && r.value.bop.op in {"G", "F", "X", "U", "R", "False", "True"}
    ensures r.Err? ==> r.error == KeyError(token)
  {
    if token in TemporalOpMap then Ok(Binary(BiTemp(TemporalOpMap[token]), x, y)) else Err(KeyError(token))
  }

  /** `Comparator(operator, x, y)`: `==` is stored as `=`. */
  function NewComparator(token: string, x: Node, y: Node): (r: Node)
    ensures r.Binary? && r.bop.Comparator? && r.left == x && r.right == y
    ensures r.bop.op != "=="
    ensures token != "==" ==> r.bop.op == token
  {
    Binary(Comparator(if token == "==" then "=" else token), x, y)
  }

  /** `Bool(t)`: true exactly when `t` upper-cases to `TRUE`. */
  function NewBool(token: string): (r: Node)
    ensures r.Bool?
    ensures r.truth <==> |token| == 4 && forall i | 0 <= i < 4 :: UpperChar(token[i]) == "TRUE"[i]
  {
    var up := Upper(token);
    assert up == "TRUE" <==> |token| == 4 && forall i | 0 <= i < 4 :: UpperChar(token[i]) == "TRUE"[i] by {
      if |token| == 4 && forall i | 0 <= i < 4 :: UpperChar(token[i]) == "TRUE"[i] {
        assert forall i | 0 <= i < 4 :: up[i] == "TRUE"[i];
      }
    }
    Bool(up == "TRUE")
  }

  /** The normalised temporal tokens are fixed points of the table, except the two
      boolean constants, which the table only knows in upper case. */
  lemma TemporalNormalisation(token: string)
    requires token in TemporalOpMap
    ensures token in {"[]", "G"} ==> TemporalOpMap[token] == "G"
    ensures token in {"<>", "F"} ==> TemporalOpMap[token] == "F"
    ensures token in {"next", "'", "X"} ==> TemporalOpMap[token] == "X"
    ensures token in {"V", "R"} ==> TemporalOpMap[token] == "R"
    ensures var o := TemporalOpMap[token];
            (o in TemporalOpMap && TemporalOpMap[o] == o) <==> o !in {"False", "True"}
  {
  }

  // ---------------------------------------------------------------------------
  // __len__, get_vars, map

  /** `len(node)`: the number of nodes in the tree. */
  function Size(n: Node): (r: nat)
    ensures r >= 1
    ensures n.Unary? ==> r > Size(n.operand)
    ensures n.Binary? ==> r > Size(n.left) && r > Size(n.right)
  {
    match n
    case Unary(_, x) => 1 + Size(x)
    case Binary(_, x, y) => 1 + Size(x) + Size(y)
    case _ => 1
  }

  /** The nodes of a tree in pre-order: a reference for what `Size` and `Vars` range over. */
  function Nodes(n: Node): (r: seq<Node>)
    ensures r != [] && r[0] == n
  {
    match n
    case Unary(_, x) => [n] + Nodes(x)
    case Binary(_, x, y) => [n] + Nodes(x) + Nodes(y)
    case _ => [n]
  }

  lemma {:induction false} SizeCountsNodes(n: Node)
    ensures Size(n) == |Nodes(n)|
  {
    match n
    case Unary(_, x) => SizeCountsNodes(x);
    case Binary(_, x, y) => SizeCountsNodes(x); SizeCountsNodes(y);
    case _ =>
  }

  /** `get_vars(tree)`: the variable nodes of the tree. */
  function Vars(n: Node): (r: set<Node>)
    ensures forall v | v in r :: v.Var?
  {
    match n
    case Var(_) => {n}
    case Unary(_, x) => Vars(x)
    case Binary(_, x, y) => Vars(x) + Vars(y)
    case _ => {}
  }

  lemma {:induction false} VarsAreVarNodes(n: Node, v: Node)
    ensures v in Vars(n) <==> v.Var? && v in Nodes(n)
  {
    match n
    case Unary(_, x) => VarsAreVarNodes(x, v);
    case Binary(_, x, y) => VarsAreVarNodes(x, v); VarsAreVarNodes(y, v);
    case _ =>
  }

  /** `node.map(f)`: rebuild the children bottom-up, then apply `f` to the rebuilt node. */
  function Map(n: Node, f: Node -> Node): Node {
    match n
    case Unary(op, x) => f(Unary(op, Map(x, f)))
    case Binary(op, x, y) => f(Binary(op, Map(x, f), Map(y, f)))
    case _ => f(n)
  }

  lemma {:induction false} MapIdentity(n: Node)
    ensures Map(n, m => m) == n
  {
    match n
    case Unary(_, x) => MapIdentity(x);
    case Binary(_, x, y) => MapIdentity(x); MapIdentity(y);
    case _ =>
  }

  /** The kind of a node with its operator, ignoring leaf values and children. */
  predicate SameShape(a: Node, b: Node) {
    match a
    case Num(_) => b.Num?
    case Var(_) => b.Var?
    case Const(_) => b.Const?
    case Bool(_) => b.Bool?
    case Unary(op, _) => b.Unary? && b.uop == op
    case Binary(op, _, _) => b.Binary? && b.bop == op
  }

  /** The operators of a tree. */
  datatype Op = UOp(u: UnaryOp) | BOp(b: BinaryOp)

  function Operators(n: Node): set<Op> {
    match n
    case Unary(op, x) => {UOp(op)} + Operators(x)
    case Binary(op, x, y) => {BOp(op)} + Operators(x) + Operators(y)
    case _ => {}
  }

  /** A map whose function only rewrites leaves and keeps every node's kind and operator
      (a renaming of variables, say) keeps the size and the operators of the tree. */
  lemma {:induction false} MapKeepsShape(n: Node, f: Node -> Node)
    requires forall m :: SameShape(m, f(m)) && (m.Unary? ==> f(m).operand == m.operand)
                         && (m.Binary? ==> f(m).left == m.left && f(m).right == m.right)
    ensures Size(Map(n, f)) == Size(n)
    ensures Operators(Map(n, f)) == Operators(n)
  {
    match n
    case Unary(op, x) =>
      MapKeepsShape(x, f);
      assert Map(n, f) == Unary(op, Map(x, f));
    case Binary(op, x, y) =>
      MapKeepsShape(x, f);
      MapKeepsShape(y, f);
      assert Map(n, f) == Binary(op, Map(x, f), Map(y, f));
    case _ =>
      assert SameShape(n, f(n));
  }

  // ---------------------------------------------------------------------------
  // Rendering

  /** `str(node)`: every dialect-independent operator written as the node's `op`. */
  function UnaryOpText(op: UnaryOp): string {
    match op
    case Not => "!"
    case UnTemp(o) => o
  }

  function BinaryOpText(op: BinaryOp): string {
    match op
    case And => "&"
    case Or => "|"
    case Xor => "xor"
    case Imp => "->"
    case BiImp => "<->"
    case BiTemp(o) => o
    case Comparator(o) => o
    case Arithmetic(o) => o
  }

  function BoolText(b: bool): string {
    if b then "True" else "False"
  }

  function Quoted(t: string): string {
    "\"" + t + "\""
  }

  function Repr(n: Node): string {
    match n
    case Num(v) => IntToString(v)
    case Var(x) => x
    case Const(t) => Quoted(t)
    case Bool(b) => BoolText(b)
    case Unary(op, x) => "( " + UnaryOpText(op) + " " + Repr(x) + " )"
    case Binary(op, x, y) => "( " + Repr(x) + " " + BinaryOpText(op) + " " + Repr(y) + " )"
  }

  /** A variable or constant leaf: primed in gr1c when asked, parenthesised in JTLV. */
  function NameText(s: string, d: Dialect): string {
    match d
    case Gr1c(primed) => if primed then s + "'" else s
    case Jtlv => "(" + s + ")"
    case _ => s
  }

  /** Looking a token up in a table, with the `LTLException` the source raises when it is
      missing. */
  function Lookup(table: map<string, string>, o: string, dialectName: string): Result<string, LtlError> {
    if o in table then Ok(table[o]) else Err(Unsupported(o, dialectName))
  }

  function Unsupported(o: string, dialectName: string): LtlError {
    LTLException("Operator " + o + " not supported in " + dialectName + " syntax map")
  }

  /** The token a unary node is written with in a dialect (Not in Python aside). */
  function UnaryToken(op: UnaryOp, d: Dialect): Result<string, LtlError> {
    match op
    case Not => Ok("!")
    case UnTemp(o) =>
      match d
      case Gr1c(_) => if o == "X" then Ok("") else Lookup(Gr1cMap, o, "gr1c")
      case Jtlv => Lookup(JtlvMap, o, "JTLV")
      case Smv => if o in SmvMap then Ok(SmvMap[o]) else Err(KeyError(o))
      case Promela => Lookup(SpinMap, o, "Promela")
      case Python => Ok(o)
  }

  /** The dialect the operand of a unary node is written in: gr1c's next operator primes
      its operand. */
  function OperandDialect(op: UnaryOp, d: Dialect): Dialect {
    if op == UnTemp("X") && d.Gr1c? then Gr1c(true) else d
  }

  /** The token a binary node is written with in a dialect (Imp and BiImp in Python
      aside). */
  function BinaryToken(op: BinaryOp, d: Dialect): Result<string, LtlError> {
    match op
    case And => Ok(match d case Jtlv => "&&" case Promela => "&&" case Python => "and" case _ => "&")
    case Or => Ok(match d case Jtlv => "||" case Promela => "||" case Python => "or" case _ => "|")
    case Xor => Ok(if d.Python? then "^" else "xor")
    case Imp => Ok("->")
    case BiImp => Ok("<->")
    case BiTemp(o) =>
      (match d
       case Gr1c(_) => Lookup(Gr1cMap, o, "gr1c")
       case Jtlv => Lookup(JtlvMap, o, "JTLV")
       case Smv => if o in SmvMap then Ok(SmvMap[o]) else Err(KeyError(o))
       case Promela => Lookup(SpinMap, o, "Promela")
       case Python => Ok(o))
    case Comparator(o) => Ok(if (d.Promela? || d.Python?) && o == "=" then "==" else o)
    case Arithmetic(o) => Ok(o)
  }

  /** The dialect the children of a binary node are written in: a temporal binary node in
      gr1c drops the primed mode, a comparator in Python writes its children as Promela. */
  function ChildDialect(op: BinaryOp, d: Dialect): Dialect {
    if op.BiTemp? && d.Gr1c? then Gr1c(false)
    else if op.Comparator? && d.Python? then Promela
    else d
  }

  /** `node.to_gr1c(primed)`, `to_jtlv()`, `to_smv()`, `to_promela()` and `to_python()`.
      The operator token is looked up before the children are written, the left child
      before the right one; the first failure is the result. */
  function Render(n: Node, d: Dialect): Result<string, LtlError> {
    match n
    case Num(v) => Ok(IntToString(v))
    case Var(x) => Ok(NameText(x, d))
    case Const(t) => Ok(NameText(Quoted(t), d))
    case Bool(b) =>
      Ok(match d case Gr1c(_) => Gr1cMap[BoolText(b)] case Jtlv => JtlvMap[BoolText(b)] case _ => BoolText(b))
    case Unary(op, x) =>
      if op == Not && d == Python then Ok(PythonMap["!"])
      else
        var t :- UnaryToken(op, d);
        var s :- Render(x, OperandDialect(op, d));
        Ok("( " + t + " " + s + " )")
    case Binary(op, x, y) =>
      if op == Imp && d == Python then
        Ok("( (not (" + Repr(x) + ")) or " + Repr(y) + ")")
      else if op == BiImp && d == Python then
        Ok("( " + Repr(x) + " and " + Repr(y) + " ) or not ( " + Repr(x) + " or " + Repr(y) + " )")
      else
        var t :- BinaryToken(op, d);
        var l :- Render(x, ChildDialect(op, d));
        var r :- Render(y, ChildDialect(op, d));
        Ok("( " + l + " " + t + " " + r + " )")
  }

  // ---------------------------------------------------------------------------
  // Properties of rendering

  /** Whether a dialect's tables know an operator; the primed mode of gr1c does not
      matter. */
  predicate Supported(o: Op, d: Dialect) {
    match o
    case UOp(UnTemp(t)) =>
      (match d
       case Gr1c(_) => t == "X" || t in Gr1cMap
       case Jtlv => t in JtlvMap
       case Smv => t in SmvMap
       case Promela => t in SpinMap
       case Python => true)
    case BOp(BiTemp(t)) =>
      (match d
       case Gr1c(_) => t in Gr1cMap
       case Jtlv => t in JtlvMap
       case Smv => t in SmvMap
       case Promela => t in SpinMap
       case Python => true)
    case _ => true
  }

  predicate AllSupported(n: Node, d: Dialect) {
    forall o | o in Operators(n) :: Supported(o, d)
  }

  /** Outside Python, a tree renders exactly when every operator in it is in the
      dialect's tables. */
  lemma {:induction false} RenderOkIff(n: Node, d: Dialect)
    requires !d.Python?
    ensures Render(n, d).Ok? <==> AllSupported(n, d)
  {
    match n
    case Unary(op, x) =>
      var cd := OperandDialect(op, d);
      RenderOkIff(x, cd);
      SupportedModeFree(x, cd, d);
      UnaryOkStep(op, x, d);
    case Binary(op, x, y) =>
      var cd := ChildDialect(op, d);
      RenderOkIff(x, cd);
      RenderOkIff(y, cd);
      SupportedModeFree(x, cd, d);
      SupportedModeFree(y, cd, d);
      BinaryOkStep(op, x, y, d);
    case _ =>
  }

  /** The primed mode of gr1c does not change which operators are supported. */
  lemma SupportedModeFree(x: Node, cd: Dialect, d: Dialect)
    requires cd == d || (cd.Gr1c? && d.Gr1c?)
    ensures AllSupported(x, cd) <==> AllSupported(x, d)
  {
    if cd != d {
      assert forall o :: Supported(o, cd) == Supported(o, d);
    }
  }

  /** A unary node renders when its token is in the tables and its operand renders. */
  lemma UnaryOkStep(op: UnaryOp, x: Node, d: Dialect)
    requires !d.Python?
    requires Render(x, OperandDialect(op, d)).Ok? <==> AllSupported(x, d)
    ensures Render(Unary(op, x), d).Ok? <==> AllSupported(Unary(op, x), d)
  {
    assert UnaryToken(op, d).Ok? <==> Supported(UOp(op), d);
  }

  /** A binary node renders when its token is in the tables and both children render. */
  lemma BinaryOkStep(op: BinaryOp, x: Node, y: Node, d: Dialect)
    requires !d.Python?
    requires Render(x, ChildDialect(op, d)).Ok? <==> AllSupported(x, d)
    requires Render(y, ChildDialect(op, d)).Ok? <==> AllSupported(y, d)
    ensures Render(Binary(op, x, y), d).Ok? <==> AllSupported(Binary(op, x, y), d)
  {
    assert BinaryToken(op, d).Ok? <==> Supported(BOp(op), d);
    BinaryRenderOk(op, x, y, d);
    assert AllSupported(Binary(op, x, y), d) <==> Supported(BOp(op), d) && AllSupported(x, d) && AllSupported(y, d);
  }

  /** Outside Python, a binary node renders exactly when its token and both children do. */
  lemma BinaryRenderOk(op: BinaryOp, x: Node, y: Node, d: Dialect)
    requires !d.Python?
    ensures Render(Binary(op, x, y), d).Ok? <==>
            BinaryToken(op, d).Ok? && Render(x, ChildDialect(op, d)).Ok? && Render(y, ChildDialect(op, d)).Ok?
  {
  }

  /** Python rendering fails only inside a comparator, whose children are written as
      Promela. */
  lemma {:induction false} PythonRenders(n: Node)
    requires forall o | o in Operators(n) :: !(o.BOp? && o.b.Comparator?)
    ensures Render(n, Python).Ok?
  {
    match n
    case Unary(op, x) =>
      assert Operators(x) <= Operators(n);
      PythonRenders(x);
    case Binary(op, x, y) =>
      assert BOp(op) in Operators(n) && Operators(x) <= Operators(n) && Operators(y) <= Operators(n);
      PythonRenders(x);
      PythonRenders(y);
    case _ =>
  }

  /** SMV has no error handling, so its failures are raw `KeyError`s; every other dialect
      fails with an `LTLException`. */
  lemma {:induction false} RenderErrorKind(n: Node, d: Dialect)
    requires Render(n, d).Err?
    ensures d.Smv? ==> Render(n, d).error.KeyError?
    ensures !d.Smv? ==> Render(n, d).error.LTLException?
  {
    match n
    case Unary(op, x) =>
      if UnaryToken(op, d).Ok? {
        RenderErrorKind(x, OperandDialect(op, d));
      }
    case Binary(op, x, y) =>
      if BinaryToken(op, d).Ok? {
        if Render(x, ChildDialect(op, d)).Err? {
          RenderErrorKind(x, ChildDialect(op, d));
        } else {
          RenderErrorKind(y, ChildDialect(op, d));
        }
      }
    case _ =>
  }

  /** The operator/dialect pairs the tables leave out: until and release in gr1c, release
      in JTLV, next in Promela. The node's own operator is reported, whatever its children. */
  lemma Gr1cRejectsUntilRelease(o: string, x: Node, y: Node, p: bool)
    requires o in {"U", "R"}
    ensures Render(Binary(BiTemp(o), x, y), Gr1c(p)) == Err(Unsupported(o, "gr1c"))
  {
  }

  lemma JtlvRejectsRelease(x: Node, y: Node)
    ensures Render(Binary(BiTemp("R"), x, y), Jtlv) == Err(Unsupported("R", "JTLV"))
    ensures Render(Unary(UnTemp("R"), x), Jtlv) == Err(Unsupported("R", "JTLV"))
  {
  }

  lemma PromelaRejectsNext(x: Node)
    ensures Render(Unary(UnTemp("X"), x), Promela) == Err(Unsupported("X", "Promela"))
  {
  }

  /** Every binary temporal node built from the source's tokens fails in gr1c. */
  lemma Gr1cRejectsBinaryTemporal(token: string, x: Node, y: Node, p: bool)
    requires token in {"U", "V", "R"}
    ensures NewBiTempOp(token, x, y).Ok?
    ensures Render(NewBiTempOp(token, x, y).value, Gr1c(p)).Err?
  {
    var o := TemporalOpMap[token];
    assert o in {"U", "R"};
    Gr1cRejectsUntilRelease(o, x, y, p);
  }

  /** In gr1c the next operator is written with an empty token and its operand primed,
      whatever the surrounding mode. */
  lemma Gr1cNext(x: Node, p: bool)
    ensures Render(Unary(UnTemp("X"), x), Gr1c(p)) ==
            match Render(x, Gr1c(true))
            case Ok(s) => Ok("(  " + s + " )")
            case Err(e) => Err(e)
  {
    match Render(x, Gr1c(true))
    case Ok(s) => assert "( " + "" + " " + s + " )" == "(  " + s + " )";
    case Err(_) =>
  }

  /** A tree without variables or constants reads the same primed and unprimed in gr1c:
      numbers and booleans ignore the primed mode, while a variable gains a trailing
      quote. */
  lemma {:induction false} PrimedOnlyTouchesNames(n: Node)
    requires forall m | m in Nodes(n) :: !m.Var? && !m.Const?
    ensures Render(n, Gr1c(true)) == Render(n, Gr1c(false))
  {
    match n
    case Unary(op, x) =>
      assert forall m | m in Nodes(x) :: m in Nodes(n);
      PrimedOnlyTouchesNames(x);
      UnaryModeStep(op, x);
    case Binary(op, x, y) =>
      assert forall m | m in Nodes(x) :: m in Nodes(n);
      assert forall m | m in Nodes(y) :: m in Nodes(n);
      PrimedOnlyTouchesNames(x);
      PrimedOnlyTouchesNames(y);
      BinaryModeStep(op, x, y);
    case _ =>
  }

  /** A unary node reads the same in both gr1c modes when its operand does. */
  lemma UnaryModeStep(op: UnaryOp, x: Node)
    requires Render(x, Gr1c(true)) == Render(x, Gr1c(false))
    ensures Render(Unary(op, x), Gr1c(true)) == Render(Unary(op, x), Gr1c(false))
  {
    assert UnaryToken(op, Gr1c(true)) == UnaryToken(op, Gr1c(false));
    assert Render(x, OperandDialect(op, Gr1c(true))) == Render(x, OperandDialect(op, Gr1c(false)));
  }

  /** A binary node reads the same in both gr1c modes when its children do. */
  lemma BinaryModeStep(op: BinaryOp, x: Node, y: Node)
    requires Render(x, Gr1c(true)) == Render(x, Gr1c(false))
    requires Render(y, Gr1c(true)) == Render(y, Gr1c(false))
    ensures Render(Binary(op, x, y), Gr1c(true)) == Render(Binary(op, x, y), Gr1c(false))
  {
    assert BinaryToken(op, Gr1c(true)) == BinaryToken(op, Gr1c(false));
    assert ChildDialect(op, Gr1c(true)) == ChildDialect(op, Gr1c(false)) || ChildDialect(op, Gr1c(true)) == Gr1c(true);
  }

  lemma LeafRendering(v: int, x: string, t: string, b: bool)
    ensures Render(Num(v), Gr1c(true)) == Render(Num(v), Gr1c(false)) == Ok(IntToString(v))
    ensures Render(Var(x), Gr1c(true)) == Ok(x + "'") && Render(Var(x), Gr1c(false)) == Ok(x)
    ensures Render(Const(t), Gr1c(true)) == Ok("\"" + t + "\"'")
    ensures Render(Var(x), Jtlv) == Ok("(" + x + ")")
    ensures Render(Bool(b), Jtlv) == Ok(if b then "TRUE" else "FALSE")
    ensures Render(Bool(b), Gr1c(false)) == Render(Bool(b), Gr1c(true)) == Ok(if b then "True" else "False")
    ensures Render(Bool(b), Python) == Ok(if b then "True" else "False")
  {
    assert Quoted(t) + "'" == "\"" + t + "\"'";
  }

  /** A comparator built with `==` or `=` is written `==` in Promela and Python, and `=`
      in the other dialects; in Python its children are written as Promela. */
  lemma ComparatorEquality(x: Node, y: Node, d: Dialect)
    ensures NewComparator("==", x, y) == NewComparator("=", x, y)
    ensures Render(NewComparator("==", x, y), d) ==
            match Render(x, ChildDialect(Comparator("="), d))
            case Err(e) => Err(e)
            case Ok(l) =>
              match Render(y, ChildDialect(Comparator("="), d))
              case Err(e) => Err(e)
              case Ok(r) => Ok("( " + l + (if d.Promela? || d.Python? then " == " else " = ") + r + " )")
    ensures Render(Binary(Comparator("="), x, y), Python) == Render(Binary(Comparator("="), x, y), Promela)
  {
    var cd := ChildDialect(Comparator("="), d);
    if Render(x, cd).Ok? && Render(y, cd).Ok? {
      ComparatorGlue(Render(x, cd).value, Render(y, cd).value);
    }
    PythonComparatorIsPromela("=", x, y);
  }

  lemma ComparatorGlue(l: string, r: string)
    ensures "( " + l + " " + "==" + " " + r + " )" == "( " + l + " == " + r + " )"
    ensures "( " + l + " " + "=" + " " + r + " )" == "( " + l + " = " + r + " )"
  {
    assert " " + "==" + " " == " == " && " " + "=" + " " == " = ";
  }

  /** In Python a comparator node is written exactly as in Promela. */
  lemma PythonComparatorIsPromela(o: string, x: Node, y: Node)
    ensures Render(Binary(Comparator(o), x, y), Python) == Render(Binary(Comparator(o), x, y), Promela)
  {
    assert ChildDialect(Comparator(o), Python) == ChildDialect(Comparator(o), Promela) == Promela;
    assert BinaryToken(Comparator(o), Python) == BinaryToken(Comparator(o), Promela);
  }

  /** The Python quirks: `Not` is written as the bare keyword, and implication and
      equivalence write their children with `str`, even when a child cannot be written
      in Python. */
  lemma PythonQuirks(x: Node, y: Node)
    ensures Render(Unary(Not, x), Python) == Ok("not")
    ensures Render(Binary(Imp, x, y), Python) == Ok("( (not (" + Repr(x) + ")) or " + Repr(y) + ")")
    ensures Render(Binary(BiImp, x, y), Python).Ok?
  {
  }

  // ---------------------------------------------------------------------------
  // Parenthesisation

  function Delta(c: char): int {
    if c == '(' then 1 else if c == ')' then -1 else 0
  }

  /** The nesting depth after reading `s` from depth `k`, or -1 once it drops below 0. */
  function Run(s: string, k: nat): (r: int)
    ensures r >= -1
  {
    if s == [] then k
    else if k + Delta(s[0]) < 0 then -1
    else Run(s[1..], k + Delta(s[0]))
  }

  /** Every `(` is closed by a later `)`, and no `)` comes before its `(`. */
  predicate Balanced(s: string) {
    Run(s, 0) == 0
  }

  predicate ParenFree(s: string) {
    forall i | 0 <= i < |s| :: s[i] != '(' && s[i] != ')'
  }

  lemma {:induction false} RunConcat(a: string, b: string, k: nat)
    requires Run(a, k) >= 0
    ensures Run(a + b, k) == Run(b, Run(a, k))
    decreases |a|
  {
    if a == [] {
      assert a + b == b;
    } else {
      assert (a + b)[0] == a[0];
      assert (a + b)[1..] == a[1..] + b;
      assert k + Delta(a[0]) >= 0;
      assert Run(a, k) == Run(a[1..], k + Delta(a[0]));
      RunConcat(a[1..], b, k + Delta(a[0]));
    }
  }

  lemma {:induction false} RunLift(s: string, k: nat)
    requires Run(s, k) >= 0
    ensures Run(s, k + 1) == Run(s, k) + 1
    decreases |s|
  {
    if s != [] {
      RunLift(s[1..], k + Delta(s[0]));
    }
  }

  lemma {:induction false} RunParenFree(s: string, k: nat)
    requires ParenFree(s)
    ensures Run(s, k) == k
    decreases |s|
  {
    if s != [] {
      assert s[0] != '(' && s[0] != ')';
      RunParenFree(s[1..], k);
    }
  }

  /** Appending text without parentheses keeps the depth. */
  lemma AppendFree(a: string, b: string, k: nat)
    requires Run(a, k) >= 0 && ParenFree(b)
    ensures Run(a + b, k) == Run(a, k)
  {
    RunConcat(a, b, k);
    RunParenFree(b, Run(a, k));
  }

  /** Appending balanced text keeps the depth. */
  lemma AppendBalanced(a: string, b: string, k: nat)
    requires Run(a, k) >= 0 && Balanced(b)
    ensures Run(a + b, k) == Run(a, k)
  {
    RunConcat(a, b, k);
    var j := Run(a, k);
    var i := 0;
    while i < j
      invariant 0 <= i <= j && Run(b, i) == i
    {
      RunLift(b, i);
      i := i + 1;
    }
  }

  lemma FreeConcat(a: string, b: string)
    requires ParenFree(a) && ParenFree(b)
    ensures ParenFree(a + b)
  {
    assert forall i | 0 <= i < |a + b| :: (a + b)[i] == if i < |a| then a[i] else b[i - |a|];
  }

  lemma OpenParen(k: nat)
    ensures Run("( ", k) == k + 1
  {
    assert "( "[0] == '(' && "( "[1..] == " ";
    RunParenFree(" ", k + 1);
  }

  lemma CloseParen(k: nat)
    requires k >= 1
    ensures Run(")", k) == k - 1 && Run(" )", k) == k - 1
  {
    assert ")"[0] == ')' && ")"[1..] == "";
    assert " )"[0] == ' ' && " )"[1..] == ")";
  }

  /** `( s )`, spaces inside the parentheses. */
  lemma WrapBalanced(s: string)
    requires Balanced(s)
    ensures Balanced("( " + s + " )")
  {
    OpenParen(0);
    AppendBalanced("( ", s, 0);
    RunConcat("( " + s, " )", 0);
    CloseParen(1);
  }

  /** Balanced text on both sides of text without parentheses. */
  lemma BalancedJoin(l: string, t: string, r: string)
    requires Balanced(l) && ParenFree(t) && Balanced(r)
    ensures Balanced(l + t + r)
  {
    AppendFree(l, t, 0);
    AppendBalanced(l + t, r, 0);
  }

  lemma EmptyBalanced()
    ensures Balanced("")
  {
  }

  /** `( t s )`: a parenthesised token and operand. */
  lemma UnaryBalanced(t: string, s: string)
    requires ParenFree(t) && Balanced(s)
    ensures Balanced("( " + t + " " + s + " )")
  {
    FreeConcat(t, " ");
    EmptyBalanced();
    BalancedJoin("", t + " ", s);
    assert "" + (t + " ") + s == t + " " + s;
    WrapBalanced(t + " " + s);
    assert "( " + (t + " " + s) + " )" == "( " + t + " " + s + " )";
  }

  /** `( l t r )`: a parenthesised pair of operands around a token. */
  lemma BinaryBalanced(l: string, t: string, r: string)
    requires Balanced(l) && ParenFree(t) && Balanced(r)
    ensures Balanced("( " + l + " " + t + " " + r + " )")
  {
    FreeConcat(" ", t);
    FreeConcat(" " + t, " ");
    BalancedJoin(l, " " + t + " ", r);
    WrapBalanced(l + (" " + t + " ") + r);
    assert "( " + (l + (" " + t + " ") + r) + " )" == "( " + l + " " + t + " " + r + " )";
  }

  lemma NotOpenRun()
    ensures Run("( (not (", 0) == 3
  {
    assert "( (not (" == "( " + "(not (";
    OpenParen(0);
    assert "(not ("[0] == '(' && "(not ("[1..] == "not (";
    assert "not (" == "not " + "(";
    RunConcat("not ", "(", 2);
    RunParenFree("not ", 2);
    assert "("[0] == '(' && "("[1..] == "";
    RunConcat("( ", "(not (", 0);
  }

  lemma NotCloseRun()
    ensures Run(")) or ", 3) == 1
  {
    assert ")) or "[0] == ')' && ")) or "[1..] == ") or ";
    assert ") or "[0] == ')' && ") or "[1..] == " or ";
    RunParenFree(" or ", 1);
  }

  /** Python's rendering of an implication, `( (not (l)) or r)`. */
  lemma ImpBalanced(l: string, r: string)
    requires Balanced(l) && Balanced(r)
    ensures Balanced("( (not (" + l + ")) or " + r + ")")
  {
    var s1 := "( (not (" + l;
    NotOpenRun();
    AppendBalanced("( (not (", l, 0);
    NotCloseRun();
    RunConcat(s1, ")) or ", 0);
    var s2 := s1 + ")) or ";
    AppendBalanced(s2, r, 0);
    RunConcat(s2 + r, ")", 0);
    CloseParen(1);
  }

  /** Python's rendering of an equivalence, `( l and r ) or not ( l or r )`. */
  lemma BiImpBalanced(l: string, r: string)
    requires Balanced(l) && Balanced(r)
    ensures Balanced("( " + l + " and " + r + " ) or not ( " + l + " or " + r + " )")
  {
    BalancedJoin(l, " and ", r);
    WrapBalanced(l + " and " + r);
    BalancedJoin(l, " or ", r);
    WrapBalanced(l + " or " + r);
    var a := "( " + (l + " and " + r) + " )";
    var b := "( " + (l + " or " + r) + " )";
    BalancedJoin(a, " or not ", b);
    assert a + " or not " + b == "( " + l + " and " + r + " ) or not ( " + l + " or " + r + " )";
  }

  /** Leaves and user-given operator tokens free of parentheses. */
  predicate Clean(n: Node) {
    match n
    case Num(_) => true
    case Var(x) => ParenFree(x)
    case Const(t) => ParenFree(t)
    case Bool(_) => true
    case Unary(op, x) => ParenFree(UnaryOpText(op)) && Clean(x)
    case Binary(op, x, y) => ParenFree(BinaryOpText(op)) && Clean(x) && Clean(y)
  }

  lemma IntTextFree(v: int)
    ensures ParenFree(IntToString(v))
  {
    var s := IntToString(v);
    if v < 0 {
      assert s == "-" + NatToString(-v);
      assert forall i | 1 <= i < |s| :: s[i] == NatToString(-v)[i - 1];
    }
  }

  lemma TablesFree()
    ensures forall o | o in Gr1cMap :: ParenFree(Gr1cMap[o])
    ensures forall o | o in JtlvMap :: ParenFree(JtlvMap[o])
    ensures forall o | o in SmvMap :: ParenFree(SmvMap[o])
    ensures forall o | o in SpinMap :: ParenFree(SpinMap[o])
  {
    Gr1cTableFree();
    JtlvTableFree();
    SmvTableFree();
    SpinTableFree();
  }

  lemma Gr1cTableFree()
    ensures forall o | o in Gr1cMap :: ParenFree(Gr1cMap[o])
  {
  }

  lemma JtlvTableFree()
    ensures forall o | o in JtlvMap :: ParenFree(JtlvMap[o])
  {
  }

  lemma SmvTableFree()
    ensures forall o | o in SmvMap :: ParenFree(SmvMap[o])
  {
  }

  lemma SpinTableFree()
    ensures forall o | o in SpinMap :: ParenFree(SpinMap[o])
  {
  }

  lemma TokensFree(n: Node, d: Dialect)
    requires Clean(n)
    ensures n.Unary? && UnaryToken(n.uop, d).Ok? ==> ParenFree(UnaryToken(n.uop, d).value)
    ensures n.Binary? && BinaryToken(n.bop, d).Ok? ==> ParenFree(BinaryToken(n.bop, d).value)
  {
    TablesFree();
  }

  lemma {:induction false} ReprBalanced(n: Node)
    requires Clean(n)
    ensures Balanced(Repr(n))
  {
    match n
    case Num(v) => IntTextFree(v); RunParenFree(Repr(n), 0);
    case Const(t) =>
      assert ParenFree(Quoted(t));
      RunParenFree(Repr(n), 0);
    case Unary(op, x) =>
      ReprBalanced(x);
      UnaryBalanced(UnaryOpText(op), Repr(x));
    case Binary(op, x, y) =>
      ReprBalanced(x);
      ReprBalanced(y);
      BinaryBalanced(Repr(x), BinaryOpText(op), Repr(y));
    case _ => RunParenFree(Repr(n), 0);
  }

  lemma NameBalanced(s: string, d: Dialect)
    requires ParenFree(s)
    ensures Balanced(NameText(s, d))
  {
    match d
    case Jtlv =>
      OpenParen(0);
      AppendFree("(", s, 0);
      RunConcat("(" + s, ")", 0);
      CloseParen(1);
    case Gr1c(p) =>
      assert ParenFree(NameText(s, d));
      RunParenFree(NameText(s, d), 0);
    case _ => RunParenFree(s, 0);
  }

  /** With leaves and operator tokens free of parentheses, every rendering in every
      dialect is balanced. Which nodes get an outer pair of their own is stated by
      `RenderWrapped`. */
  lemma {:induction false} RenderBalanced(n: Node, d: Dialect)
    requires Clean(n) && Render(n, d).Ok?
    ensures Balanced(Render(n, d).value)
  {
    match n
    case Num(v) => IntTextFree(v); RunParenFree(IntToString(v), 0);
    case Var(x) => NameBalanced(x, d);
    case Const(t) =>
      assert ParenFree(Quoted(t));
      NameBalanced(Quoted(t), d);
    case Bool(b) =>
      TablesFree();
      RunParenFree(Render(n, d).value, 0);
    case Unary(op, x) =>
      if op == Not && d == Python {
        RunParenFree("not", 0);
      } else {
        TokensFree(n, d);
        RenderBalanced(x, OperandDialect(op, d));
        UnaryBalanced(UnaryToken(op, d).value, Render(x, OperandDialect(op, d)).value);
      }
    case Binary(op, x, y) =>
      if op == Imp && d == Python {
        ReprBalanced(x);
        ReprBalanced(y);
        ImpBalanced(Repr(x), Repr(y));
      } else if op == BiImp && d == Python {
        ReprBalanced(x);
        ReprBalanced(y);
        BiImpBalanced(Repr(x), Repr(y));
      } else {
        var cd := ChildDialect(op, d);
        TokensFree(n, d);
        RenderBalanced(x, cd);
        RenderBalanced(y, cd);
        BinaryBalanced(Render(x, cd).value, BinaryToken(op, d).value, Render(y, cd).value);
      }
  }

  // ---------------------------------------------------------------------------
  // Full parenthesisation

  /** Helper for `RenderWrapped`, unfolding one case of `Render`: a unary node is written
      `( op o )` around its operand's rendering, except `Not` in Python, which is the
      bare `not`. */
  lemma UnaryShape(op: UnaryOp, x: Node, d: Dialect)
    ensures op == Not && d == Python ==> Render(Unary(op, x), d) == Ok("not")
    ensures !(op == Not && d == Python) ==>
              (Render(Unary(op, x), d).Ok? <==> UnaryToken(op, d).Ok? && Render(x, OperandDialect(op, d)).Ok?)
    ensures !(op == Not && d == Python) && Render(Unary(op, x), d).Ok? ==>
              Render(Unary(op, x), d).value
              == "( " + UnaryToken(op, d).value + " " + Render(x, OperandDialect(op, d)).value + " )"
  {
  }

  /** Helper for `RenderWrapped`, unfolding one case of `Render`: a binary node is written
      `( l op r )` around its children's renderings, except implication and equivalence
      in Python, which write their children with `str`. */
  lemma BinaryShape(op: BinaryOp, x: Node, y: Node, d: Dialect)
    ensures op == Imp && d == Python ==>
              Render(Binary(op, x, y), d) == Ok("( (not (" + Repr(x) + ")) or " + Repr(y) + ")")
    ensures op == BiImp && d == Python ==>
              Render(Binary(op, x, y), d)
              == Ok("( " + Repr(x) + " and " + Repr(y) + " ) or not ( " + Repr(x) + " or " + Repr(y) + " )")
    ensures !(op in {Imp, BiImp} && d == Python) ==>
              (Render(Binary(op, x, y), d).Ok? <==>
                 BinaryToken(op, d).Ok? && Render(x, ChildDialect(op, d)).Ok? && Render(y, ChildDialect(op, d)).Ok?)
    ensures !(op in {Imp, BiImp} && d == Python) && Render(Binary(op, x, y), d).Ok? ==>
              Render(Binary(op, x, y), d).value
              == "( " + Render(x, ChildDialect(op, d)).value + " " + BinaryToken(op, d).value + " "
                 + Render(y, ChildDialect(op, d)).value + " )"
  {
  }

  /** `s` is `( inner )` and the opening parenthesis is closed by the last one. */
  predicate Wrapped(s: string) {
    |s| >= 4 && s[..2] == "( " && s[|s| - 2..] == " )" && Balanced(s[2..|s| - 2])
  }

  lemma WrappedOf(inner: string)
    requires Balanced(inner)
    ensures Wrapped("( " + inner + " )")
  {
    var s := "( " + inner + " )";
    assert s[..2] == "( ";
    assert s[|s| - 2..] == " )";
    assert s[2..|s| - 2] == inner;
  }

  /** `( t s )` is one group. */
  lemma UnaryWrapped(t: string, s: string)
    requires ParenFree(t) && Balanced(s)
    ensures Wrapped("( " + t + " " + s + " )")
  {
    FreeConcat(t, " ");
    EmptyBalanced();
    BalancedJoin("", t + " ", s);
    assert "" + (t + " ") + s == t + " " + s;
    WrappedOf(t + " " + s);
    assert "( " + (t + " " + s) + " )" == "( " + t + " " + s + " )";
  }

  /** `( l t r )` is one group. */
  lemma BinaryWrapped(l: string, t: string, r: string)
    requires Balanced(l) && ParenFree(t) && Balanced(r)
    ensures Wrapped("( " + l + " " + t + " " + r + " )")
  {
    FreeConcat(" ", t);
    FreeConcat(" " + t, " ");
    BalancedJoin(l, " " + t + " ", r);
    WrappedOf(l + (" " + t + " ") + r);
    assert "( " + (l + (" " + t + " ") + r) + " )" == "( " + l + " " + t + " " + r + " )";
  }

  /** `( a & b )` and not `a & (b)`: the rendering of every operator node of a clean tree
      is one parenthesised group, outside the Python `not`, implication and equivalence. */
  lemma RenderWrapped(n: Node, d: Dialect)
    requires Clean(n) && Render(n, d).Ok?
    ensures n.Unary? && !(n.uop == Not && d == Python) ==> Wrapped(Render(n, d).value)
    ensures n.Binary? && !(n.bop in {Imp, BiImp} && d == Python) ==> Wrapped(Render(n, d).value)
  {
    match n
    case Unary(op, x) =>
      if !(op == Not && d == Python) {
        var cd := OperandDialect(op, d);
        UnaryShape(op, x, d);
        TokensFree(n, d);
        RenderBalanced(x, cd);
        UnaryWrapped(UnaryToken(op, d).value, Render(x, cd).value);
      }
    case Binary(op, x, y) =>
      if !(op in {Imp, BiImp} && d == Python) {
        var cd := ChildDialect(op, d);
        BinaryShape(op, x, y, d);
        TokensFree(n, d);
        RenderBalanced(x, cd);
        RenderBalanced(y, cd);
        BinaryWrapped(Render(x, cd).value, BinaryToken(op, d).value, Render(y, cd).value);
      }
    case _ =>
  }
}
