/** Kconfig dependency expressions, their tristate meaning, and the structural
    lowering of a condition Y to "Y = n".

    n, m and y are 0, 1 and 2; "&&" is the minimum, "||" the maximum and "!e" is
    2 - e, as in the section "Menu dependencies" of the kernel's Kconfig Language
    document.  A comparison is n or y; which one is left to the environment, except
    that comparing a symbol with "n" must agree with the symbol's own value.
 */
module KconfigExpr {

  datatype CmpOp = Eq | Ne | Lt | Le | Gt | Ge

  datatype Token =
    | AndTok
    | OrTok
    | NotTok
    | LPar
    | RPar
    | Rel(op: CmpOp)
    | Atom(text: string)

  // The right operand of a comparison is whatever single token follows the operator.
  datatype Expr =
    | Sym(name: string)
    | Cmp(op: CmpOp, left: string, right: Token)
    | Not(arg: Expr)
    | And(l: Expr, r: Expr)
    | Or(l: Expr, r: Expr)

  type Tristate = v: int | 0 <= v <= 2

  datatype Env = Env(value: string -> Tristate, holds: (CmpOp, string, Token) -> bool)
  {
    ghost predicate Valid() {
      && (forall s :: holds(Eq, s, Atom("n")) <==> value(s) == 0)
      && (forall s :: holds(Ne, s, Atom("n")) <==> value(s) != 0)
      && value("y") == 2
      && value("\"y\"") == 2
    }
  }

  function Min(a: Tristate, b: Tristate): Tristate { if a < b then a else b }

  function Max(a: Tristate, b: Tristate): Tristate { if a < b then b else a }

  function Eval(e: Expr, env: Env): Tristate {
    match e
    case Sym(s) => env.value(s)
    case Cmp(op, a, b) => if env.holds(op, a, b) then 2 else 0
    case Not(a) => 2 - Eval(a, env)
    case And(a, b) => Min(Eval(a, env), Eval(b, env))
    case Or(a, b) => Max(Eval(a, env), Eval(b, env))
  }

  /** The two-valued reading of an expression: a bare symbol stands for "not n". */
  predicate Truth(e: Expr, env: Env) {
    match e
    case Sym(s) => env.value(s) != 0
    case Cmp(op, a, b) => env.holds(op, a, b)
    case Not(a) => !Truth(a, env)
    case And(a, b) => Truth(a, env) && Truth(b, env)
    case Or(a, b) => Truth(a, env) || Truth(b, env)
  }

  /** The lowering on trees; `Emit(Lower(e, equal))` is the text the source produces
      (KconfigRewrite.TransCompareIsEmittedLowering). */
  function Lower(e: Expr, equal: bool): Expr {
    match e
    case Sym(s) => Cmp(if equal then Eq else Ne, s, Atom("n"))
    case Not(a) => Lower(a, !equal)
    case Cmp(_, _, _) => if equal then Not(e) else e
    case And(a, b) =>
      var inner := Or(Lower(a, true), Lower(b, true));
      if equal then inner else Not(inner)
    case Or(a, b) =>
      var inner := And(Lower(a, true), Lower(b, true));
      if equal then inner else Not(inner)
  }

  /** What the lowering means: it never evaluates to m, and it is y exactly when the
      two-valued reading is false (for "= n") or true (for "!= n"). */
  lemma {:induction false} LoweringExact(e: Expr, equal: bool, env: Env)
    requires env.Valid()
    ensures Eval(Lower(e, equal), env) == if Truth(e, env) != equal then 2 else 0
  {
    match e
    case Sym(s) =>
    case Cmp(op, a, b) =>
    case Not(a) => LoweringExact(a, !equal, env);
    case And(a, b) => LoweringExact(a, true, env); LoweringExact(b, true, env);
    case Or(a, b) => LoweringExact(a, true, env); LoweringExact(b, true, env);
  }

  /** The environment in which every symbol that is m has become y. */
  function Promoted(env: Env): (p: Env)
    ensures env.Valid() ==> p.Valid()
  {
    Env(s => if env.value(s) == 0 then 0 else 2, env.holds)
  }

  lemma {:induction false} PromotedEval(e: Expr, env: Env)
    ensures Eval(e, Promoted(env)) == if Truth(e, env) then 2 else 0
  {
    match e
    case Sym(s) =>
    case Cmp(op, a, b) =>
    case Not(a) => PromotedEval(a, env);
    case And(a, b) => PromotedEval(a, env); PromotedEval(b, env);
    case Or(a, b) => PromotedEval(a, env); PromotedEval(b, env);
  }

  /** The lowered condition is the value comparison "Y = n" taken in the environment
      where every m has been promoted to y. */
  lemma LoweringIsPromotedComparison(e: Expr, env: Env)
    requires env.Valid()
    ensures Eval(Lower(e, true), env) == if Eval(e, Promoted(env)) == 0 then 2 else 0
  {
    LoweringExact(e, true, env);
    PromotedEval(e, env);
  }

  /** The two readings can only differ where the tristate value is m. */
  lemma {:induction false} TruthBracketsValue(e: Expr, env: Env)
    ensures Eval(e, env) == 0 ==> !Truth(e, env)
    ensures Eval(e, env) == 2 ==> Truth(e, env)
  {
    match e
    case Sym(s) =>
    case Cmp(op, a, b) =>
    case Not(a) => TruthBracketsValue(a, env);
    case And(a, b) => TruthBracketsValue(a, env); TruthBracketsValue(b, env);
    case Or(a, b) => TruthBracketsValue(a, env); TruthBracketsValue(b, env);
  }

  /** Whenever Y is n the lowered condition is y, so the rewritten dependency is never
      stricter than the dependency with the value comparison. */
  lemma LoweringNeverStricter(x: Expr, y: Expr, env: Env)
    requires env.Valid()
    ensures Max(Eval(x, env), if Eval(y, env) == 0 then 2 else 0)
         <= Eval(Or(x, Lower(y, true)), env)
    ensures Eval(y, env) == 2 ==> Eval(Or(x, Lower(y, true)), env) == Eval(x, env)
  {
    TruthBracketsValue(y, env);
    LoweringExact(y, true, env);
  }

  /** The lowering and the value comparison differ exactly when Y is m although its
      two-valued reading is false. */
  lemma LoweringMissesComparisonExactly(y: Expr, env: Env)
    requires env.Valid()
    ensures Eval(Lower(y, true), env) != (if Eval(y, env) == 0 then 2 else 0)
       <==> Eval(y, env) == 1 && Eval(y, Promoted(env)) == 0
  {
    TruthBracketsValue(y, env);
    LoweringExact(y, true, env);
    PromotedEval(y, env);
  }

  /** No bare symbol under an odd number of "!" is m (an even number when `flip`). */
  predicate NoNegatedModule(e: Expr, flip: bool, env: Env) {
    match e
    case Sym(s) => flip ==> env.value(s) != 1
    case Cmp(_, _, _) => true
    case Not(a) => NoNegatedModule(a, !flip, env)
    case And(a, b) => NoNegatedModule(a, flip, env) && NoNegatedModule(b, flip, env)
    case Or(a, b) => NoNegatedModule(a, flip, env) && NoNegatedModule(b, flip, env)
  }

  lemma {:induction false} PolarityDecides(e: Expr, flip: bool, env: Env)
    requires NoNegatedModule(e, flip, env)
    ensures !flip && Eval(e, env) != 0 ==> Truth(e, env)
    ensures flip && Eval(e, env) != 2 ==> !Truth(e, env)
  {
    match e
    case Sym(s) =>
    case Cmp(op, a, b) =>
    case Not(a) => PolarityDecides(a, !flip, env);
    case And(a, b) => PolarityDecides(a, flip, env); PolarityDecides(b, flip, env);
    case Or(a, b) => PolarityDecides(a, flip, env); PolarityDecides(b, flip, env);
  }

  lemma LoweringIsValueComparison(y: Expr, env: Env)
    requires env.Valid() && NoNegatedModule(y, false, env)
    ensures Eval(Lower(y, true), env) == if Eval(y, env) == 0 then 2 else 0
  {
    PolarityDecides(y, false, env);
    TruthBracketsValue(y, env);
    LoweringExact(y, true, env);
  }

  /** Sources with tristates do tell the two apart: for "!A" with A = m the value
      comparison gives n and the lowering gives y. */
  lemma LoweringCanExceedComparison(env: Env, s: string)
    requires env.Valid() && env.value(s) == 1
    ensures Eval(Not(Sym(s)), env) != 0
    ensures Eval(Lower(Not(Sym(s)), true), env) == 2
  {
  }

  /** Every valuation of the symbols extends to an environment. */
  function Extend(value: string -> Tristate): Env {
    Env(value, (op: CmpOp, s: string, t: Token) =>
      t == Atom("n") && (if op.Eq? then value(s) == 0 else op.Ne? && value(s) != 0))
  }

  lemma ExtendIsValid(value: string -> Tristate)
    requires value("y") == 2 && value("\"y\"") == 2
    ensures Extend(value).Valid() && Extend(value).value == value
  {
  }

  /** So it happens with A built as a module and everything else built in. */
  lemma ModuleTellsThemApart()
    ensures exists env: Env :: env.Valid() && Eval(Not(Sym("A")), env) == 1 && Eval(Lower(Not(Sym("A")), true), env) == 2
  {
    var value: string -> Tristate := s => if s == "A" then 1 else 2;
    ExtendIsValid(value);
    LoweringCanExceedComparison(Extend(value), "A");
  }

  /** The other encoding of "depends on X if Y", made inside the parser: no change for
      a constant y, X || (Y = n) for a bare symbol, X || !Y otherwise. */
  function PatchedDependency(x: Expr, y: Expr): Expr {
    if y == Sym("y") || y == Sym("\"y\"") then x
    else if y.Sym? then Or(x, Cmp(Eq, y.name, Atom("n")))
    else Or(x, Not(y))
  }

  /** The two encodings have the same value exactly when Y is a bare symbol, or Y is
      not m, or X already decides the result. */
  lemma EncodingsAgreeExactly(x: Expr, y: Expr, env: Env)
    requires env.Valid()
    ensures Eval(PatchedDependency(x, y), env) == Eval(Or(x, Lower(y, true)), env)
       <==> || y.Sym?
            || Eval(y, env) != 1
            || Eval(x, env) == 2
            || (Eval(x, env) == 1 && Eval(y, Promoted(env)) == 2)
  {
    TruthBracketsValue(y, env);
    LoweringExact(y, true, env);
    PromotedEval(y, env);
  }

  predicate NoModule(e: Expr, env: Env) {
    match e
    case Sym(s) => env.value(s) != 1
    case Cmp(_, _, _) => true
    case Not(a) => NoModule(a, env)
    case And(a, b) => NoModule(a, env) && NoModule(b, env)
    case Or(a, b) => NoModule(a, env) && NoModule(b, env)
  }

  lemma {:induction false} NoModuleIsTwoValued(e: Expr, env: Env)
    requires NoModule(e, env)
    ensures Eval(e, env) != 1
  {
    match e
    case Sym(s) =>
    case Cmp(op, a, b) =>
    case Not(a) => NoModuleIsTwoValued(a, env);
    case And(a, b) => NoModuleIsTwoValued(a, env); NoModuleIsTwoValued(b, env);
    case Or(a, b) => NoModuleIsTwoValued(a, env); NoModuleIsTwoValued(b, env);
  }

  lemma EncodingsAgreeWithoutModules(x: Expr, y: Expr, env: Env)
    requires env.Valid() && NoModule(y, env)
    ensures Eval(PatchedDependency(x, y), env) == Eval(Or(x, Lower(y, true)), env)
  {
    NoModuleIsTwoValued(y, env);
    EncodingsAgreeExactly(x, y, env);
  }
}
