/** Pushing NOT down to the atoms of a filter (cloneASTWithInversionPushDown, cloneDAGWithInversionPushDown). */
module Inversion {
  import opened Options

  datatype Relation =
    | Equals | NotEquals | Less | GreaterOrEquals | Greater | LessOrEquals
    | In | NotIn | GlobalIn | GlobalNotIn | NullIn | NotNullIn | GlobalNullIn | GlobalNotNullIn | GlobalNullNotIn
    | IsNull | IsNotNull | Like | NotLike | ILike | NotILike | Empty | NotEmpty

  /** The inverse table. GlobalNotNullIn has no entry. */
  function Inverse(r: Relation): Option<Relation> {
    match r
    case Equals => Some(NotEquals)
    case NotEquals => Some(Equals)
    case Less => Some(GreaterOrEquals)
    case GreaterOrEquals => Some(Less)
    case Greater => Some(LessOrEquals)
    case LessOrEquals => Some(Greater)
    case In => Some(NotIn)
    case NotIn => Some(In)
    case GlobalIn => Some(GlobalNotIn)
    case GlobalNotIn => Some(GlobalIn)
    case NullIn => Some(NotNullIn)
    case NotNullIn => Some(NullIn)
    case GlobalNullIn => Some(GlobalNotNullIn)
    case GlobalNullNotIn => Some(GlobalNullIn)
    case IsNull => Some(IsNotNull)
    case IsNotNull => Some(IsNull)
    case Like => Some(NotLike)
    case NotLike => Some(Like)
    case ILike => Some(NotILike)
    case NotILike => Some(ILike)
    case Empty => Some(NotEmpty)
    case NotEmpty => Some(Empty)
    case GlobalNotNullIn => None
  }

  datatype Value = Null | Number(n: int)

  /** A filter expression. `Other` is any function outside the logical operators and the table; a trivial cast converts a
      value to the type it already has. */
  datatype Node =
    | Column(name: string)
    | Constant(value: Value)
    | Alias(child: Node)
    | ArrayJoin(child: Node)
    | Materialize(child: Node)
    | TrivialCast(child: Node)
    | Not(child: Node)
    | And(children: seq<Node>)
    | Or(children: seq<Node>)
    | Compare(relation: Relation, children: seq<Node>)
    | Other(id: nat, children: seq<Node>)

  // ---- meaning ----

  datatype Truth = False | Unknown | True

  function Negate(t: Truth): Truth {
    match t case False => True case Unknown => Unknown case True => False
  }

  function TruthOf(v: Value): Truth {
    if v.Null? then Unknown else if v.n == 0 then False else True
  }

  function FromTruth(t: Truth): Value {
    match t case False => Number(0) case Unknown => Null case True => Number(1)
  }

  function All(ts: seq<Truth>): Truth {
    if False in ts then False else if Unknown in ts then Unknown else True
  }

  function Any(ts: seq<Truth>): Truth {
    if True in ts then True else if Unknown in ts then Unknown else False
  }

  /** The row, and what the functions do that are not computed here. */
  datatype Env = Env(
    column: string -> Value, member: (Relation, seq<Value>) -> Truth, other: (nat, seq<Value>) -> Value,
    arrayJoin: Value -> Value)

  function Ordering(holds: (int, int) -> bool, args: seq<Value>): Truth {
    if |args| != 2 || args[0].Null? || args[1].Null? then Unknown
    else if holds(args[0].n, args[1].n) then True else False
  }

  /** Comparisons over a total order; membership and pattern tests are given by the environment, their negative forms are
      their negations. */
  function Related(env: Env, r: Relation, args: seq<Value>): Truth {
    match r
    case Equals => Ordering((a, b) => a == b, args)
    case NotEquals => Ordering((a, b) => a != b, args)
    case Less => Ordering((a, b) => a < b, args)
    case GreaterOrEquals => Ordering((a, b) => a >= b, args)
    case Greater => Ordering((a, b) => a > b, args)
    case LessOrEquals => Ordering((a, b) => a <= b, args)
    case IsNull => if |args| == 1 && args[0].Null? then True else False
    case IsNotNull => if |args| == 1 && args[0].Null? then False else True
    case In => env.member(In, args)
    case NotIn => Negate(env.member(In, args))
    case GlobalIn => env.member(GlobalIn, args)
    case GlobalNotIn => Negate(env.member(GlobalIn, args))
    case NullIn => env.member(NullIn, args)
    case NotNullIn => Negate(env.member(NullIn, args))
    case GlobalNullIn => env.member(GlobalNullIn, args)
    case GlobalNotNullIn => Negate(env.member(GlobalNullIn, args))
    case GlobalNullNotIn => Negate(env.member(GlobalNullIn, args))
    case Like => env.member(Like, args)
    case NotLike => Negate(env.member(Like, args))
    case ILike => env.member(ILike, args)
    case NotILike => Negate(env.member(ILike, args))
    case Empty => env.member(Empty, args)
    case NotEmpty => Negate(env.member(Empty, args))
  }

  lemma InverseNegates(env: Env, r: Relation, args: seq<Value>)
    ensures Inverse(r).Some? ==> Related(env, Inverse(r).value, args) == Negate(Related(env, r, args))
  {
  }

  /** GlobalNotNullIn alone has no inverse, and only the two relations over it are not each other's. */
  lemma InverseTable(r: Relation)
    ensures Inverse(r).None? <==> r.GlobalNotNullIn?
    ensures Inverse(r).Some? && !r.GlobalNullIn? && !r.GlobalNullNotIn? ==> Inverse(Inverse(r).value) == Some(r)
  {
  }

  function Eval(env: Env, node: Node): Value
    decreases node
  {
    match node
    case Column(name) => env.column(name)
    case Constant(value) => value
    case Alias(child) => Eval(env, child)
    case ArrayJoin(child) => env.arrayJoin(Eval(env, child))
    case Materialize(child) => Eval(env, child)
    case TrivialCast(child) => Eval(env, child)
    case Not(child) => FromTruth(Negate(TruthOf(Eval(env, child))))
    case And(children) => FromTruth(All(Truths(EvalAll(env, children))))
    case Or(children) => FromTruth(Any(Truths(EvalAll(env, children))))
    case Compare(relation, children) => FromTruth(Related(env, relation, EvalAll(env, children)))
    case Other(id, children) => env.other(id, EvalAll(env, children))
  }

  function EvalAll(env: Env, nodes: seq<Node>): (values: seq<Value>)
    ensures |values| == |nodes| && forall i :: 0 <= i < |nodes| ==> values[i] == Eval(env, nodes[i])
    decreases nodes
  {
    if nodes == [] then [] else [Eval(env, nodes[0])] + EvalAll(env, nodes[1..])
  }

  function Truths(values: seq<Value>): (ts: seq<Truth>)
    ensures |ts| == |values|
  {
    seq(|values|, i requires 0 <= i < |values| => TruthOf(values[i]))
  }

  function Holds(env: Env, node: Node): Truth {
    TruthOf(Eval(env, node))
  }

  // ---- the AST version ----

  function NotIf(needed: bool, node: Node): Node {
    if needed then Not(node) else node
  }

  function CloneAst(node: Node, needInversion: bool): Node
    decreases node
  {
    match node
    case Not(child) => CloneAst(child, !needInversion)
    case And(children) =>
      if needInversion then Or(CloneAstAll(children, true)) else And(CloneAstAll(children, false))
    case Or(children) =>
      if needInversion then And(CloneAstAll(children, true)) else Or(CloneAstAll(children, false))
    case Compare(relation, children) =>
      if Inverse(relation).Some? then (if needInversion then Compare(Inverse(relation).value, children) else node)
      else if needInversion then Not(node) else node
    case _ => if needInversion then Not(node) else node
  }

  function CloneAstAll(nodes: seq<Node>, needInversion: bool): (r: seq<Node>)
    ensures |r| == |nodes| && forall i :: 0 <= i < |nodes| ==> r[i] == CloneAst(nodes[i], needInversion)
    decreases nodes
  {
    if nodes == [] then [] else [CloneAst(nodes[0], needInversion)] + CloneAstAll(nodes[1..], needInversion)
  }

  function Sign(t: Truth, inverted: bool): Truth {
    if inverted then Negate(t) else t
  }

  /** Swapping AND and OR over inverted operands negates the whole. */
  lemma DeMorgan(a: seq<Truth>, b: seq<Truth>)
    requires |a| == |b| && forall i :: 0 <= i < |a| ==> b[i] == Negate(a[i])
    ensures Any(b) == Negate(All(a)) && All(b) == Negate(Any(a))
  {
    if False in a { var i :| 0 <= i < |a| && a[i] == False; assert b[i] == True; }
    if True in a { var i :| 0 <= i < |a| && a[i] == True; assert b[i] == False; }
    if Unknown in a { var i :| 0 <= i < |a| && a[i] == Unknown; assert b[i] == Unknown; }
  }

  lemma HoldsNotIf(env: Env, needed: bool, node: Node)
    ensures Holds(env, NotIf(needed, node)) == Sign(Holds(env, node), needed)
    ensures needed ==> Eval(env, NotIf(needed, node)) == FromTruth(Negate(Holds(env, node)))
  {
  }

  /** The clone with inversion requested means the negation of the original; without it, the original. */
  lemma {:induction false} CloneAstPreservesMeaning(env: Env, node: Node, needInversion: bool)
    ensures Holds(env, CloneAst(node, needInversion)) == Sign(Holds(env, node), needInversion)
    decreases node
  {
    hide Related, All, Any, Truths, CloneAstAll, EvalAll;
    HoldsNotIf(env, needInversion, node);
    match node
    case Not(child) => CloneAstPreservesMeaning(env, child, !needInversion);
    case And(children) => CloneAstChildren(env, children, needInversion);
    case Or(children) => CloneAstChildren(env, children, needInversion);
    case Compare(relation, children) => InverseNegates(env, relation, EvalAll(env, children));
    case _ =>
  }

  lemma {:induction false} CloneAstChildren(env: Env, children: seq<Node>, needInversion: bool)
    ensures var a, b := Truths(EvalAll(env, children)), Truths(EvalAll(env, CloneAstAll(children, needInversion)));
            if needInversion then Any(b) == Negate(All(a)) && All(b) == Negate(Any(a)) else b == a
    decreases children
  {
    var a, b := Truths(EvalAll(env, children)), Truths(EvalAll(env, CloneAstAll(children, needInversion)));
    forall i | 0 <= i < |children| ensures b[i] == Sign(a[i], needInversion) {
      CloneAstPreservesMeaning(env, children[i], needInversion);
    }
    if needInversion {
      DeMorgan(a, b);
    }
  }

  /** NOT stands only before something that neither is a logical operator nor has an inverse. */
  predicate NotOnlyOnAtoms(node: Node)
    decreases node
  {
    match node
    case Not(child) =>
      !child.Not? && !child.And? && !child.Or? && !(child.Compare? && Inverse(child.relation).Some?)
    case And(children) => forall i :: 0 <= i < |children| ==> NotOnlyOnAtoms(children[i])
    case Or(children) => forall i :: 0 <= i < |children| ==> NotOnlyOnAtoms(children[i])
    case _ => true
  }

  lemma {:induction false} CloneAstPushesDown(node: Node, needInversion: bool)
    ensures NotOnlyOnAtoms(CloneAst(node, needInversion))
    decreases node
  {
    match node
    case Not(child) => CloneAstPushesDown(child, !needInversion);
    case And(children) =>
      forall i | 0 <= i < |children| { CloneAstPushesDown(children[i], needInversion); }
    case Or(children) =>
      forall i | 0 <= i < |children| { CloneAstPushesDown(children[i], needInversion); }
    case _ =>
  }

  // ---- the DAG version ----

  function CloneDag(node: Node, needInversion: bool): Node
    decreases node
  {
    match node
    case Column(_) => NotIf(needInversion, node)
    case Constant(_) => NotIf(needInversion, node)
    case Alias(child) => CloneDag(child, needInversion)
    case ArrayJoin(child) => NotIf(needInversion, ArrayJoin(CloneDag(child, false)))
    case Not(child) => CloneDag(child, !needInversion)
    case Materialize(child) => CloneDag(child, needInversion)
    case TrivialCast(child) => CloneDag(child, needInversion)
    case And(children) => if needInversion then Or(CloneDagAll(children, true)) else And(CloneDagAll(children, false))
    case Or(children) => if needInversion then And(CloneDagAll(children, true)) else Or(CloneDagAll(children, false))
    case Compare(relation, children) =>
      var arguments := CloneDagAll(children, false);
      if Inverse(relation).Some? then Compare(if needInversion then Inverse(relation).value else relation, arguments)
      else NotIf(needInversion, Compare(relation, arguments))
    case Other(id, children) => NotIf(needInversion, Other(id, CloneDagAll(children, false)))
  }

  function CloneDagAll(nodes: seq<Node>, needInversion: bool): (r: seq<Node>)
    ensures |r| == |nodes| && forall i :: 0 <= i < |nodes| ==> r[i] == CloneDag(nodes[i], needInversion)
    decreases nodes
  {
    if nodes == [] then [] else [CloneDag(nodes[0], needInversion)] + CloneDagAll(nodes[1..], needInversion)
  }

  /** What the clone of a node is used for: its truth value, its value, or the value of the inverted clone. */
  datatype Use = ForTruth | ForValue | ForInverse

  predicate IsTruthValue(v: Value) {
    v == FromTruth(TruthOf(v))
  }

  /**
   * In this row nothing but 0, 1 or NULL is negated twice where the value counts: the clone drops both negations and
   * uncovers the operand. The value of an argument counts; of an operand of NOT, AND and OR just the truth value does.
   */
  predicate Safe(env: Env, node: Node, use: Use)
    decreases node
  {
    match node
    case Column(_) => true
    case Constant(_) => true
    case Alias(child) => Safe(env, child, use)
    case Materialize(child) => Safe(env, child, use)
    case TrivialCast(child) => Safe(env, child, use)
    case ArrayJoin(child) => Safe(env, child, ForValue)
    case Not(child) =>
      (match use
       case ForTruth => Safe(env, child, ForTruth)
       case ForValue => Safe(env, child, ForInverse)
       case ForInverse => Safe(env, child, ForValue) && IsTruthValue(Eval(env, child)))
    case And(children) => forall i :: 0 <= i < |children| ==> Safe(env, children[i], ForTruth)
    case Or(children) => forall i :: 0 <= i < |children| ==> Safe(env, children[i], ForTruth)
    case Compare(_, children) => forall i :: 0 <= i < |children| ==> Safe(env, children[i], ForValue)
    case Other(_, children) => forall i :: 0 <= i < |children| ==> Safe(env, children[i], ForValue)
  }

  /** What the clone promises for each use. */
  predicate Kept(env: Env, node: Node, use: Use) {
    && Holds(env, CloneDag(node, false)) == Holds(env, node)
    && Holds(env, CloneDag(node, true)) == Negate(Holds(env, node))
    && (use.ForValue? ==> Eval(env, CloneDag(node, false)) == Eval(env, node))
    && (use.ForInverse? ==> Eval(env, CloneDag(node, true)) == FromTruth(Negate(Holds(env, node))))
  }

  lemma {:induction false} CloneDagKeeps(env: Env, node: Node, use: Use)
    requires Safe(env, node, use)
    ensures Kept(env, node, use)
    decreases node
  {
    hide Related, All, Any, Truths, CloneDagAll, EvalAll;
    match node
    case Column(_) =>
    case Constant(_) =>
    case Alias(child) => CloneDagKeeps(env, child, use);
    case Materialize(child) => CloneDagKeeps(env, child, use);
    case TrivialCast(child) => CloneDagKeeps(env, child, use);
    case ArrayJoin(child) => CloneDagKeeps(env, child, ForValue);
    case Not(child) =>
      CloneDagKeeps(env, child, if use.ForTruth? then ForTruth else if use.ForValue? then ForInverse else ForValue);
    case And(children) => CloneDagOperands(env, children);
    case Or(children) => CloneDagOperands(env, children);
    case Compare(relation, children) =>
      CloneDagArguments(env, children);
      InverseNegates(env, relation, EvalAll(env, children));
    case Other(id, children) => CloneDagArguments(env, children);
  }

  lemma {:induction false} CloneDagArguments(env: Env, children: seq<Node>)
    requires forall i :: 0 <= i < |children| ==> Safe(env, children[i], ForValue)
    ensures EvalAll(env, CloneDagAll(children, false)) == EvalAll(env, children)
    decreases children
  {
    forall i | 0 <= i < |children| ensures Eval(env, CloneDag(children[i], false)) == Eval(env, children[i]) {
      CloneDagKeeps(env, children[i], ForValue);
    }
  }

  lemma {:induction false} CloneDagOperands(env: Env, children: seq<Node>)
    requires forall i :: 0 <= i < |children| ==> Safe(env, children[i], ForTruth)
    ensures Truths(EvalAll(env, CloneDagAll(children, false))) == Truths(EvalAll(env, children))
    ensures var a, b := Truths(EvalAll(env, children)), Truths(EvalAll(env, CloneDagAll(children, true)));
            Any(b) == Negate(All(a)) && All(b) == Negate(Any(a))
    decreases children
  {
    var a, b := Truths(EvalAll(env, children)), Truths(EvalAll(env, CloneDagAll(children, true)));
    var c := Truths(EvalAll(env, CloneDagAll(children, false)));
    forall i | 0 <= i < |children| ensures b[i] == Negate(a[i]) && c[i] == a[i] {
      CloneDagKeeps(env, children[i], ForTruth);
    }
    DeMorgan(a, b);
  }

  /** The clone of every argument of a relation or another function, at every depth, has the value of the original. */
  predicate ArgumentsKept(env: Env, node: Node)
    decreases node, 0
  {
    match node
    case Column(_) => true
    case Constant(_) => true
    case Alias(child) => ArgumentsKept(env, child)
    case Materialize(child) => ArgumentsKept(env, child)
    case TrivialCast(child) => ArgumentsKept(env, child)
    case Not(child) => ArgumentsKept(env, child)
    case ArrayJoin(child) => KeptWithin(env, child)
    case And(children) => forall i :: 0 <= i < |children| ==> ArgumentsKept(env, children[i])
    case Or(children) => forall i :: 0 <= i < |children| ==> ArgumentsKept(env, children[i])
    case Compare(_, children) => forall i :: 0 <= i < |children| ==> KeptWithin(env, children[i])
    case Other(_, children) => forall i :: 0 <= i < |children| ==> KeptWithin(env, children[i])
  }

  predicate KeptWithin(env: Env, node: Node)
    decreases node, 1
  {
    ArgumentsKept(env, node) && Eval(env, CloneDag(node, false)) == Eval(env, node)
  }

  /** What is safe for any use is safe for its truth value. */
  lemma {:induction false} SafeForTruth(env: Env, node: Node, use: Use)
    requires Safe(env, node, use)
    ensures Safe(env, node, ForTruth)
    decreases node
  {
    match node
    case Alias(child) => SafeForTruth(env, child, use);
    case Materialize(child) => SafeForTruth(env, child, use);
    case TrivialCast(child) => SafeForTruth(env, child, use);
    case Not(child) =>
      SafeForTruth(env, child, if use.ForTruth? then ForTruth else if use.ForValue? then ForInverse else ForValue);
    case _ =>
  }

  /** All arguments inside keep their values exactly in the safe rows, and the value of the whole with them exactly in those
      safe for a value. */
  lemma {:induction false} ArgumentsKeptExact(env: Env, node: Node)
    ensures ArgumentsKept(env, node) <==> Safe(env, node, ForTruth)
    ensures KeptWithin(env, node) <==> Safe(env, node, ForValue)
    decreases node
  {
    ArgumentsExact(env, node);
    if Safe(env, node, ForValue) {
      SafeForTruth(env, node, ForValue);
    }
    if Safe(env, node, ForTruth) {
      ValueExact(env, node);
    }
  }

  lemma {:induction false} ArgumentsExact(env: Env, node: Node)
    ensures ArgumentsKept(env, node) <==> Safe(env, node, ForTruth)
    decreases node, 0
  {
    hide Eval, CloneDag, KeptWithin;
    match node
    case Alias(child) => ArgumentsExact(env, child);
    case Materialize(child) => ArgumentsExact(env, child);
    case TrivialCast(child) => ArgumentsExact(env, child);
    case Not(child) => ArgumentsExact(env, child);
    case ArrayJoin(child) => ArgumentsKeptExact(env, child);
    case And(children) => forall i | 0 <= i < |children| { ArgumentsExact(env, children[i]); }
    case Or(children) => forall i | 0 <= i < |children| { ArgumentsExact(env, children[i]); }
    case Compare(_, children) => forall i | 0 <= i < |children| { ArgumentsKeptExact(env, children[i]); }
    case Other(_, children) => forall i | 0 <= i < |children| { ArgumentsKeptExact(env, children[i]); }
    case _ =>
  }

  /** Exactly in the safe rows all arguments keep their values, and then the DAG clone with inversion requested means the
      negation of the original, and without it the original. */
  lemma CloneDagPreservesMeaning(env: Env, node: Node, needInversion: bool)
    ensures ArgumentsKept(env, node) <==> Safe(env, node, ForTruth)
    ensures ArgumentsKept(env, node) ==> Holds(env, CloneDag(node, needInversion)) == Sign(Holds(env, node), needInversion)
  {
    ArgumentsKeptExact(env, node);
    if Safe(env, node, ForTruth) {
      CloneDagKeeps(env, node, ForTruth);
    }
  }

  /** The clone keeps the value of the original and of every argument exactly in the rows that are safe for a value. */
  lemma CloneDagPreservesValue(env: Env, node: Node)
    ensures ArgumentsKept(env, node) && Eval(env, CloneDag(node, false)) == Eval(env, node) <==> Safe(env, node, ForValue)
    ensures ArgumentsKept(env, node) && Eval(env, CloneDag(node, true)) == FromTruth(Negate(Holds(env, node)))
       <==> Safe(env, node, ForInverse)
  {
    ArgumentsKeptExact(env, node);
    if Safe(env, node, ForTruth) {
      ValueExact(env, node);
    }
    if Safe(env, node, ForInverse) {
      SafeForTruth(env, node, ForInverse);
    }
  }

  /** Where the arguments inside are safe, the value survives exactly under the condition on double negations, and so does
      the value of the negation. */
  lemma {:induction false} ValueExact(env: Env, node: Node)
    requires Safe(env, node, ForTruth)
    ensures Eval(env, CloneDag(node, false)) == Eval(env, node) <==> Safe(env, node, ForValue)
    ensures Eval(env, CloneDag(node, true)) == FromTruth(Negate(Holds(env, node))) <==> Safe(env, node, ForInverse)
    decreases node
  {
    hide Related, CloneDagAll, EvalAll;
    CloneDagKeeps(env, node, ForTruth);
    if Safe(env, node, ForValue) {
      CloneDagKeeps(env, node, ForValue);
    }
    if Safe(env, node, ForInverse) {
      CloneDagKeeps(env, node, ForInverse);
    }
    match node
    case Alias(child) => ValueExact(env, child);
    case Materialize(child) => ValueExact(env, child);
    case TrivialCast(child) => ValueExact(env, child);
    case Not(child) =>
      ValueExact(env, child);
      if !IsTruthValue(Eval(env, child)) {
        OddValueKept(env, child);
      }
    case _ =>
  }

  /** Only columns, constants and results of other functions have values beside 0, 1 and NULL, and those are cloned as
      they are. */
  lemma {:induction false} OddValueKept(env: Env, node: Node)
    requires Safe(env, node, ForTruth) && !IsTruthValue(Eval(env, node))
    ensures Safe(env, node, ForValue)
    decreases node
  {
    match node
    case Alias(child) => OddValueKept(env, child);
    case Materialize(child) => OddValueKept(env, child);
    case TrivialCast(child) => OddValueKept(env, child);
    case _ =>
  }

  /** The value is 0, 1 or NULL in every row. */
  predicate IsBoolean(node: Node) {
    match node
    case Alias(child) => IsBoolean(child)
    case Materialize(child) => IsBoolean(child)
    case TrivialCast(child) => IsBoolean(child)
    case Not(_) => true
    case And(_) => true
    case Or(_) => true
    case Compare(_, _) => true
    case Constant(value) => IsTruthValue(value)
    case _ => false
  }

  /** The condition read off the expression, for every row at once. */
  predicate SafeForm(node: Node, use: Use)
    decreases node
  {
    match node
    case Column(_) => true
    case Constant(_) => true
    case Alias(child) => SafeForm(child, use)
    case Materialize(child) => SafeForm(child, use)
    case TrivialCast(child) => SafeForm(child, use)
    case ArrayJoin(child) => SafeForm(child, ForValue)
    case Not(child) =>
      (match use
       case ForTruth => SafeForm(child, ForTruth)
       case ForValue => SafeForm(child, ForInverse)
       case ForInverse => SafeForm(child, ForValue) && IsBoolean(child))
    case And(children) => forall i :: 0 <= i < |children| ==> SafeForm(children[i], ForTruth)
    case Or(children) => forall i :: 0 <= i < |children| ==> SafeForm(children[i], ForTruth)
    case Compare(_, children) => forall i :: 0 <= i < |children| ==> SafeForm(children[i], ForValue)
    case Other(_, children) => forall i :: 0 <= i < |children| ==> SafeForm(children[i], ForValue)
  }

  /** A row in which every column and every function gives 5. */
  function Fives(): Env {
    Env(_ => Number(5), (_, _) => True, (_, _) => Number(5), _ => Number(5))
  }

  /** The condition on the form holds for an expression exactly if every row is safe: one row decides. */
  lemma SafeFormExact(env: Env, node: Node, use: Use)
    ensures SafeForm(node, use) ==> Safe(env, node, use)
    ensures Safe(Fives(), node, use) ==> SafeForm(node, use)
  {
    if SafeForm(node, use) {
      SafeFormIsSafe(env, node, use);
    }
    if Safe(Fives(), node, use) {
      SafeInOddRow(Fives(), node, use);
    }
  }

  /** A row in which no column and no function gives 0, 1 or NULL is safe only if nothing but a boolean is negated twice. */
  lemma {:induction false} SafeInOddRow(env: Env, node: Node, use: Use)
    requires Safe(env, node, use)
    requires (forall name :: !IsTruthValue(env.column(name))) && (forall v :: !IsTruthValue(env.arrayJoin(v)))
    requires forall id, args :: !IsTruthValue(env.other(id, args))
    ensures SafeForm(node, use)
    decreases node
  {
    match node
    case Alias(child) => SafeInOddRow(env, child, use);
    case Materialize(child) => SafeInOddRow(env, child, use);
    case TrivialCast(child) => SafeInOddRow(env, child, use);
    case ArrayJoin(child) => SafeInOddRow(env, child, ForValue);
    case Not(child) =>
      SafeInOddRow(env, child, if use.ForTruth? then ForTruth else if use.ForValue? then ForInverse else ForValue);
      if !IsBoolean(child) {
        OddRow(env, child);
      }
    case And(children) => forall i | 0 <= i < |children| { SafeInOddRow(env, children[i], ForTruth); }
    case Or(children) => forall i | 0 <= i < |children| { SafeInOddRow(env, children[i], ForTruth); }
    case Compare(_, children) => forall i | 0 <= i < |children| { SafeInOddRow(env, children[i], ForValue); }
    case Other(_, children) => forall i | 0 <= i < |children| { SafeInOddRow(env, children[i], ForValue); }
    case _ =>
  }

  lemma {:induction false} OddRow(env: Env, node: Node)
    requires !IsBoolean(node)
    requires (forall name :: !IsTruthValue(env.column(name))) && (forall v :: !IsTruthValue(env.arrayJoin(v)))
    requires forall id, args :: !IsTruthValue(env.other(id, args))
    ensures !IsTruthValue(Eval(env, node))
    decreases node
  {
    match node
    case Alias(child) => OddRow(env, child);
    case Materialize(child) => OddRow(env, child);
    case TrivialCast(child) => OddRow(env, child);
    case _ =>
  }

  lemma {:induction false} SafeFormIsSafe(env: Env, node: Node, use: Use)
    requires SafeForm(node, use)
    ensures Safe(env, node, use)
    decreases node
  {
    match node
    case Alias(child) => SafeFormIsSafe(env, child, use);
    case Materialize(child) => SafeFormIsSafe(env, child, use);
    case TrivialCast(child) => SafeFormIsSafe(env, child, use);
    case ArrayJoin(child) => SafeFormIsSafe(env, child, ForValue);
    case Not(child) =>
      SafeFormIsSafe(env, child, if use.ForTruth? then ForTruth else if use.ForValue? then ForInverse else ForValue);
      if IsBoolean(child) {
        BooleanValue(env, child);
      }
    case And(children) => forall i | 0 <= i < |children| { SafeFormIsSafe(env, children[i], ForTruth); }
    case Or(children) => forall i | 0 <= i < |children| { SafeFormIsSafe(env, children[i], ForTruth); }
    case Compare(_, children) => forall i | 0 <= i < |children| { SafeFormIsSafe(env, children[i], ForValue); }
    case Other(_, children) => forall i | 0 <= i < |children| { SafeFormIsSafe(env, children[i], ForValue); }
    case _ =>
  }

  lemma {:induction false} BooleanValue(env: Env, node: Node)
    requires IsBoolean(node)
    ensures IsTruthValue(Eval(env, node))
    decreases node
  {
    match node
    case Alias(child) => BooleanValue(env, child);
    case Materialize(child) => BooleanValue(env, child);
    case TrivialCast(child) => BooleanValue(env, child);
    case _ =>
  }

  /** No wrapper is left, and NOT stands only before something that neither is a logical operator nor has an inverse, also
      inside arguments. */
  predicate PushedDown(node: Node)
    decreases node
  {
    match node
    case Column(_) => true
    case Constant(_) => true
    case Alias(_) => false
    case Materialize(_) => false
    case TrivialCast(_) => false
    case ArrayJoin(child) => PushedDown(child)
    case Not(child) =>
      && !child.Not? && !child.And? && !child.Or? && !(child.Compare? && Inverse(child.relation).Some?)
      && PushedDown(child)
    case And(children) => forall i :: 0 <= i < |children| ==> PushedDown(children[i])
    case Or(children) => forall i :: 0 <= i < |children| ==> PushedDown(children[i])
    case Compare(_, children) => forall i :: 0 <= i < |children| ==> PushedDown(children[i])
    case Other(_, children) => forall i :: 0 <= i < |children| ==> PushedDown(children[i])
  }

  lemma {:induction false} CloneDagPushesDown(node: Node, needInversion: bool)
    ensures PushedDown(CloneDag(node, needInversion))
    decreases node
  {
    match node
    case Alias(child) => CloneDagPushesDown(child, needInversion);
    case Materialize(child) => CloneDagPushesDown(child, needInversion);
    case TrivialCast(child) => CloneDagPushesDown(child, needInversion);
    case ArrayJoin(child) => CloneDagPushesDown(child, false);
    case Not(child) => CloneDagPushesDown(child, !needInversion);
    case And(children) => forall i | 0 <= i < |children| { CloneDagPushesDown(children[i], needInversion); }
    case Or(children) => forall i | 0 <= i < |children| { CloneDagPushesDown(children[i], needInversion); }
    case Compare(relation, children) =>
      forall i | 0 <= i < |children| { CloneDagPushesDown(children[i], false); }
      assert PushedDown(Compare(relation, CloneDagAll(children, false)));
    case Other(id, children) =>
      forall i | 0 <= i < |children| { CloneDagPushesDown(children[i], false); }
      assert PushedDown(Other(id, CloneDagAll(children, false)));
    case _ =>
  }

  /** A double negation in a value position keeps its value exactly for the rows in which its operand is 0, 1 or NULL. */
  lemma DoubleNegationExact(env: Env, operand: Node)
    requires Safe(env, operand, ForValue)
    ensures Eval(env, CloneDag(Not(Not(operand)), false)) == Eval(env, Not(Not(operand)))
       <==> Eval(env, operand) in {Null, Number(0), Number(1)}
  {
    CloneDagKeeps(env, operand, ForValue);
  }

  /** equals(not(not(x)), 1) where x is 5: true, but its clone equals(x, 1) is false. */
  lemma DoubleNegationCounterexample(env: Env)
    requires env.column("x") == Number(5)
    ensures var node := Compare(Equals, [Not(Not(Column("x"))), Constant(Number(1))]);
            Holds(env, node) == True && Holds(env, CloneDag(node, false)) == False && !Safe(env, node, ForTruth)
  {
    var node := Compare(Equals, [Not(Not(Column("x"))), Constant(Number(1))]);
    var clone := CloneDag(node, false);
    assert EvalAll(env, node.children) == [Number(1), Number(1)];
    assert clone.children == [Column("x"), Constant(Number(1))];
    assert EvalAll(env, clone.children) == [Number(5), Number(1)];
    assert !Safe(env, node.children[0], ForValue);
  }

  /** greater(not(not(x)), 0) where x is 5: the clone greater(x, 0) has another argument, and the comparison does not notice. */
  lemma UnnoticedExample(env: Env)
    requires env.column("x") == Number(5)
    ensures var node := Compare(Greater, [Not(Not(Column("x"))), Constant(Number(0))]);
            Holds(env, node) == Holds(env, CloneDag(node, false)) == True && !Safe(env, node, ForTruth)
  {
    var node := Compare(Greater, [Not(Not(Column("x"))), Constant(Number(0))]);
    var clone := CloneDag(node, false);
    assert EvalAll(env, node.children) == [Number(1), Number(0)];
    assert clone.children == [Column("x"), Constant(Number(0))];
    assert EvalAll(env, clone.children) == [Number(5), Number(0)];
    assert !Safe(env, node.children[0], ForValue);
  }
}
