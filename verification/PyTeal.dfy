/** The translation of PyTeal specification expressions into K integer terms (prover.py:61-110), and
    what the two sides mean. */
module PyTeal {
  import opened Common
  import opened Characters
  import opened DivMod

  datatype Op = Eq | Neq | Ge | Gt | Le | Lt | Div | Mul | Add | Minus
              | Unsupported(opcode: string)

  /** `SymbolicInt` is a subclass of `Int`: an `Int` of value 0 that also has a variable name. */
  datatype Expr =
    | Int(value: nat, varName: Option<string>)
    | BinaryExpr(op: Op, argLeft: Expr, argRight: Expr)
    | NaryExpr(op: Op, args: seq<Expr>)
    | OtherExpr

  datatype KTerm = KVariable(name: string) | KInt(value: int) | KApply(name: string, args: seq<KTerm>)

  function KOp(op: Op): string
    requires !op.Unsupported?
  {
    match op
    case Eq => "_==Int_"
    case Neq => "_=/=Int_"
    case Ge => "_>=Int_"
    case Gt => "_>Int_"
    case Le => "_<=Int_"
    case Lt => "_<Int_"
    case Div => "_/Int_"
    case Mul => "_*Int_"
    case Add => "_+Int_"
    case Minus => "_-Int_"
  }

  /** None is the ValueError for an unsupported expression. */
  function ToKast(e: Expr): Option<KTerm> {
    match e
    case Int(value, varName) =>
      if varName.Some? then Some(KVariable(Upper(varName.value))) else Some(KInt(value))
    case BinaryExpr(op, l, r) =>
      if op.Unsupported? then None else Both(op, ToKast(l), ToKast(r))
    case NaryExpr(op, args) =>
      if |args| == 2 && !op.Unsupported? then Both(op, ToKast(args[0]), ToKast(args[1])) else None
    case OtherExpr => None
  }

  function Both(op: Op, l: Option<KTerm>, r: Option<KTerm>): Option<KTerm>
    requires !op.Unsupported?
  {
    if l.Some? && r.Some? then Some(KApply(KOp(op), [l.value, r.value])) else None
  }

  // ----- what TEAL computes: uint64, panicking -----

  predicate IsComparison(op: Op) {
    op.Eq? || op.Neq? || op.Ge? || op.Gt? || op.Le? || op.Lt?
  }

  function Quotient(x: nat, y: nat): nat
    requires 0 < y
  {
    x / y
  }

  function Truth(b: bool): nat { if b then 1 else 0 }

  function TealOp(op: Op, x: nat, y: nat): Option<nat> {
    match op
    case Eq => Some(Truth(x == y))
    case Neq => Some(Truth(x != y))
    case Ge => Some(Truth(x >= y))
    case Gt => Some(Truth(x > y))
    case Le => Some(Truth(x <= y))
    case Lt => Some(Truth(x < y))
    case Div => if y == 0 then None else Some(Quotient(x, y))
    case Mul => if x * y <= MAX_UINT64 then Some(x * y) else None
    case Add => if x + y <= MAX_UINT64 then Some(x + y) else None
    case Minus => if y <= x then Some(x - y) else None
    case Unsupported(_) => None
  }

  function EvalTeal(e: Expr, env: string -> nat): Option<nat> {
    match e
    case Int(value, varName) =>
      var v := if varName.Some? then env(varName.value) else value;
      if v <= MAX_UINT64 then Some(v) else None
    case BinaryExpr(op, l, r) => Applied(op, EvalTeal(l, env), EvalTeal(r, env))
    case NaryExpr(op, args) =>
      if |args| == 2 then Applied(op, EvalTeal(args[0], env), EvalTeal(args[1], env)) else None
    case OtherExpr => None
  }

  function Applied(op: Op, x: Option<nat>, y: Option<nat>): Option<nat> {
    if x.Some? && y.Some? then TealOp(op, x.value, y.value) else None
  }

  // ----- what K computes: unbounded integers and Booleans -----

  datatype KValue = I(i: int) | B(b: bool)

  /** K's `/Int` rounds toward zero. */
  function Truncate(x: int, y: int): int
    requires y != 0
  {
    if (x >= 0) == (y > 0) || x == 0 then Abs(x) / Abs(y) else -(Abs(x) / Abs(y))
  }

  function Abs(x: int): nat { if x < 0 then -x else x }

  function KApplied(name: string, x: int, y: int): Option<KValue> {
    if name == "_==Int_" then Some(B(x == y))
    else if name == "_=/=Int_" then Some(B(x != y))
    else if name == "_>=Int_" then Some(B(x >= y))
    else if name == "_>Int_" then Some(B(x > y))
    else if name == "_<=Int_" then Some(B(x <= y))
    else if name == "_<Int_" then Some(B(x < y))
    else if name == "_/Int_" then if y == 0 then None else Some(I(Truncate(x, y)))
    else if name == "_*Int_" then Some(I(x * y))
    else if name == "_+Int_" then Some(I(x + y))
    else if name == "_-Int_" then Some(I(x - y))
    else None
  }

  /** None: a division by zero, or a term that is not well-sorted. */
  function EvalK(t: KTerm, env: string -> int): Option<KValue> {
    match t
    case KVariable(name) => Some(I(env(name)))
    case KInt(value) => Some(I(value))
    case KApply(name, args) =>
      if |args| != 2 then None else
        var x, y := EvalK(args[0], env), EvalK(args[1], env);
        if x.Some? && x.value.I? && y.Some? && y.value.I? then KApplied(name, x.value.i, y.value.i) else None
  }

  /** Every subterm has a value, and it fits in a uint64 when it is an integer. */
  predicate InRange(t: KTerm, env: string -> int) {
    && EvalK(t, env).Some?
    && (EvalK(t, env).value.I? ==> 0 <= EvalK(t, env).value.i <= MAX_UINT64)
    && (t.KApply? ==> forall i :: 0 <= i < |t.args| ==> InRange(t.args[i], env))
  }

  // ----- the translation keeps the meaning -----

  /** The two operands of a translated node. */
  function Left(e: Expr): Expr
    requires e.BinaryExpr? || (e.NaryExpr? && |e.args| == 2)
  {
    if e.BinaryExpr? then e.argLeft else e.args[0]
  }

  function Right(e: Expr): Expr
    requires e.BinaryExpr? || (e.NaryExpr? && |e.args| == 2)
  {
    if e.BinaryExpr? then e.argRight else e.args[1]
  }

  predicate IsNode(e: Expr) {
    (e.BinaryExpr? || (e.NaryExpr? && |e.args| == 2)) && !e.op.Unsupported?
  }

  predicate Supported(e: Expr) {
    e.Int? || (IsNode(e) && Supported(Left(e)) && Supported(Right(e)))
  }

  lemma {:induction false} TranslatesSupported(e: Expr)
    ensures ToKast(e).Some? <==> Supported(e)
  {
    if IsNode(e) {
      TranslatesSupported(Left(e));
      TranslatesSupported(Right(e));
    }
  }

  /** Comparisons at the root only: below it everything is arithmetic. */
  predicate Arithmetic(e: Expr) {
    e.Int? || (IsNode(e) && !IsComparison(e.op) && Arithmetic(Left(e)) && Arithmetic(Right(e)))
  }

  predicate WellSorted(e: Expr) {
    e.Int? || (IsNode(e) && Arithmetic(Left(e)) && Arithmetic(Right(e)))
  }

  function Names(e: Expr): set<string> {
    match e
    case Int(_, varName) => if varName.Some? then {varName.value} else {}
    case BinaryExpr(_, l, r) => Names(l) + Names(r)
    case NaryExpr(_, args) => set i, n | 0 <= i < |args| && n in Names(args[i]) :: n
    case OtherExpr => {}
  }

  /** The K valuation gives every variable of `e`, under its upper-case name, its TEAL value. */
  ghost predicate Matches(e: Expr, env: string -> nat, kenv: string -> int) {
    forall n :: n in Names(e) ==> kenv(Upper(n)) == env(n)
  }

  function Meaning(e: Expr, v: nat): KValue {
    if IsNode(e) && IsComparison(e.op) then B(v == 1) else I(v)
  }

  lemma OpAgrees(op: Op, x: nat, y: nat)
    requires !op.Unsupported? && x <= MAX_UINT64 && y <= MAX_UINT64
    ensures var k := KApplied(KOp(op), x, y);
      && (TealOp(op, x, y).Some? <==> k.Some? && (k.value.I? ==> 0 <= k.value.i <= MAX_UINT64))
      && (TealOp(op, x, y).Some? ==>
            k.value == if IsComparison(op) then B(TealOp(op, x, y).value == 1) else I(TealOp(op, x, y).value))
      && (k.Some? ==> (k.value.B? <==> IsComparison(op)))
      && (TealOp(op, x, y).Some? ==> TealOp(op, x, y).value <= MAX_UINT64)
  {
    if op.Div? && y != 0 {
      QuotientAtMost(x, y);
    }
  }

  lemma QuotientAtMost(x: nat, y: nat)
    requires 0 < y
    ensures x / y <= x
  {
    var q := x / y;
    assert y * q <= x;
    if 0 < q {
      MulGrows(y, q);
    }
  }

  lemma NamesOfOperands(e: Expr)
    requires IsNode(e)
    ensures Names(Left(e)) <= Names(e) && Names(Right(e)) <= Names(e)
  {
  }

  /** A supported expression is well-sorted and evaluates without a panic on uint64 values exactly
      when every subterm of its translation has a value that fits; and then the values agree. */
  lemma {:induction false} SameMeaning(e: Expr, env: string -> nat, kenv: string -> int)
    requires ToKast(e).Some?
    requires Matches(e, env, kenv)
    ensures InRange(ToKast(e).value, kenv) <==> WellSorted(e) && EvalTeal(e, env).Some?
    ensures WellSorted(e) && EvalTeal(e, env).Some? ==>
      EvalTeal(e, env).value <= MAX_UINT64
      && EvalK(ToKast(e).value, kenv) == Some(Meaning(e, EvalTeal(e, env).value))
  {
    hide KApplied, TealOp, Names, Upper, KOp;
    if IsNode(e) {
      var l, r := Left(e), Right(e);
      NamesOfOperands(e);
      SameMeaning(l, env, kenv);
      SameMeaning(r, env, kenv);
      var k := ToKast(e).value;
      assert k == KApply(KOp(e.op), [ToKast(l).value, ToKast(r).value]);
      assert k.args[0] == ToKast(l).value && k.args[1] == ToKast(r).value;
      if InRange(k.args[0], kenv) && InRange(k.args[1], kenv) {
        OpAgrees(e.op, EvalTeal(l, env).value, EvalTeal(r, env).value);
      }
    } else {
      LeafMeaning(e, env, kenv);
    }
  }

  lemma LeafMeaning(e: Expr, env: string -> nat, kenv: string -> int)
    requires e.Int? && Matches(e, env, kenv)
    ensures InRange(ToKast(e).value, kenv) <==> EvalTeal(e, env).Some?
    ensures EvalTeal(e, env).Some? ==> EvalK(ToKast(e).value, kenv) == Some(I(EvalTeal(e, env).value))
  {
  }

  // ----- leaves and variable names -----

  /** The leaves of a term, left to right. */
  function Leaves(t: KTerm): seq<KTerm> {
    match t
    case KApply(_, args) => LeavesOfAll(args)
    case _ => [t]
  }

  function LeavesOfAll(ts: seq<KTerm>): seq<KTerm> {
    if ts == [] then [] else Leaves(ts[0]) + LeavesOfAll(ts[1..])
  }

  function ExprLeaves(e: Expr): seq<Expr> {
    if IsNode(e) then ExprLeaves(Left(e)) + ExprLeaves(Right(e)) else [e]
  }

  /** The leaves are translated one by one, in order; a symbolic one always becomes its variable and
      never the literal 0 that it carries as an `Int`. */
  lemma {:induction false} LeavesTranslated(e: Expr)
    requires ToKast(e).Some?
    ensures |Leaves(ToKast(e).value)| == |ExprLeaves(e)|
    ensures forall i :: 0 <= i < |ExprLeaves(e)| ==>
      var leaf := ExprLeaves(e)[i];
      && leaf.Int?
      && Leaves(ToKast(e).value)[i]
           == if leaf.varName.Some? then KVariable(Upper(leaf.varName.value)) else KInt(leaf.value)
  {
    hide Upper;
    if IsNode(e) {
      LeavesTranslated(Left(e));
      LeavesTranslated(Right(e));
      var k, kl, kr := ToKast(e).value, ToKast(Left(e)).value, ToKast(Right(e)).value;
      assert k.args == [kl, kr] && k.args[1..] == [kr] && [kr][1..] == [];
      assert LeavesOfAll([kr]) == Leaves(kr) + LeavesOfAll([]) == Leaves(kr);
      assert Leaves(k) == Leaves(kl) + LeavesOfAll([kr]);
    }
  }

  ghost predicate DistinctUpper(e: Expr) {
    forall m, n :: m in Names(e) && n in Names(e) && Upper(m) == Upper(n) ==> m == n
  }

  ghost function NameFor(e: Expr, k: string): (n: string)
    requires exists n :: n in Names(e) && Upper(n) == k
    ensures n in Names(e) && Upper(n) == k
  {
    var n :| n in Names(e) && Upper(n) == k;
    n
  }

  ghost predicate Matchable(e: Expr, env: string -> nat) {
    exists kenv :: Matches(e, env, kenv)
  }

  /** Every valuation has a matching one in K exactly when no two names collide in upper case. */
  lemma MatchingValuation(e: Expr)
    ensures DistinctUpper(e) <==> forall env: string -> nat :: Matchable(e, env)
  {
    hide Names, Upper;
    if DistinctUpper(e) {
      forall env: string -> nat ensures Matchable(e, env) {
        var kenv: string -> int :=
          k => if exists n :: n in Names(e) && Upper(n) == k then env(NameFor(e, k)) else 0;
        forall n | n in Names(e) ensures kenv(Upper(n)) == env(n) {
          assert NameFor(e, Upper(n)) == n;
        }
        assert Matches(e, env, kenv);
      }
    } else {
      var m, n :| m in Names(e) && n in Names(e) && Upper(m) == Upper(n) && m != n;
      var env: string -> nat := s => if s == m then 1 else 0;
      forall kenv ensures !Matches(e, env, kenv) {
        assert Matches(e, env, kenv) ==> kenv(Upper(m)) == env(m) && kenv(Upper(n)) == env(n);
      }
      assert !Matchable(e, env);
    }
  }

  // ----- the operators -----

  const AN_OPERATOR := [Eq, Neq, Ge, Gt, Le, Lt, Div, Mul, Add, Minus]

  /** The K operator of each PyTeal operator, applied to two literals. */
  lemma OperatorNames(x: nat, y: nat, k: nat)
    requires k < 10
    ensures ToKast(BinaryExpr(AN_OPERATOR[k], Int(x, None), Int(y, None))) == Some(KApply(
      ["_==Int_", "_=/=Int_", "_>=Int_", "_>Int_", "_<=Int_", "_<Int_", "_/Int_", "_*Int_", "_+Int_", "_-Int_"][k],
      [KInt(x), KInt(y)]))
    ensures ToKast(NaryExpr(AN_OPERATOR[k], [Int(x, None), Int(y, None)]))
         == ToKast(BinaryExpr(AN_OPERATOR[k], Int(x, None), Int(y, None)))
  {
  }
}
