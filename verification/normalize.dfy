/**
  The propositional rewrite passes: biconditional elimination, implication
  elimination, negation pushing (De Morgan and quantifier duality) and the
  distribution of disjunction over conjunction, iterated to a fixpoint.
  Each pass walks through quantifiers and rewrites the body; each is stated
  against the reference semantics of the formula tree.
 */
module Normalize {
  import opened Syntax

  // ---------------------------------------------------------------------------
  // Biconditional elimination

  /** Rewrites every `P <-> Q` into `(P -> Q) & (Q -> P)`, bottom-up. */
  function RemoveBiconditionals(f: Formula): (r: Formula)
    ensures IffFree(r)
    ensures Quantifiers(r) == Quantifiers(f) && Binders(r) == Binders(f)
    ensures Atoms(r) == Atoms(f)
    ensures QuantifierFree(r) <==> QuantifierFree(f)
    ensures IffFree(f) ==> r == f
  {
    match f
    case Atom(_) => f
    case Not(x) => Not(RemoveBiconditionals(x))
    case Bin(op, l, r) =>
      var p, q := RemoveBiconditionals(l), RemoveBiconditionals(r);
      if op == Iff then Bin(And, Bin(Imp, p, q), Bin(Imp, q, p)) else Bin(op, p, q)
    case Quant(k, v, b) => Quant(k, v, RemoveBiconditionals(b))
  }

  lemma {:induction false} RemoveBiconditionalsSound(f: Formula, env: Env)
    ensures Eval(RemoveBiconditionals(f), env) == Eval(f, env)
  {
    match f
    case Atom(_) =>
    case Not(x) =>
      RemoveBiconditionalsSound(x, env);
    case Bin(_, l, r) =>
      RemoveBiconditionalsSound(l, env);
      RemoveBiconditionalsSound(r, env);
    case Quant(_, v, b) =>
      RemoveBiconditionalsSound(b, Update(env, v, true));
      RemoveBiconditionalsSound(b, Update(env, v, false));
  }

  // ---------------------------------------------------------------------------
  // Implication elimination

  /** Rewrites every `P -> Q` into `(- P) v Q`, bottom-up. */
  function RemoveImplications(f: Formula): (r: Formula)
    ensures ImpFree(r)
    ensures IffFree(f) ==> IffFree(r)
    ensures Quantifiers(r) == Quantifiers(f) && Binders(r) == Binders(f)
    ensures Atoms(r) == Atoms(f)
    ensures QuantifierFree(r) <==> QuantifierFree(f)
    ensures ImpFree(f) ==> r == f
  {
    match f
    case Atom(_) => f
    case Not(x) => Not(RemoveImplications(x))
    case Bin(op, l, r) =>
      var p, q := RemoveImplications(l), RemoveImplications(r);
      if op == Imp then Bin(Or, Not(p), q) else Bin(op, p, q)
    case Quant(k, v, b) => Quant(k, v, RemoveImplications(b))
  }

  lemma {:induction false} RemoveImplicationsSound(f: Formula, env: Env)
    ensures Eval(RemoveImplications(f), env) == Eval(f, env)
  {
    match f
    case Atom(_) =>
    case Not(x) =>
      RemoveImplicationsSound(x, env);
    case Bin(_, l, r) =>
      RemoveImplicationsSound(l, env);
      RemoveImplicationsSound(r, env);
    case Quant(_, v, b) =>
      RemoveImplicationsSound(b, Update(env, v, true));
      RemoveImplicationsSound(b, Update(env, v, false));
  }

  /** Running both eliminations leaves no arrow of either kind. */
  lemma EliminationsArrowFree(f: Formula)
    ensures ArrowFree(RemoveImplications(RemoveBiconditionals(f)))
  {
  }

  // ---------------------------------------------------------------------------
  // Negation pushing

  function Dual(k: Kind): Kind {
    match k
    case Forall => Exists
    case Exists => Forall
  }

  /** Moves negations inwards: double negations cancel, De Morgan's laws turn a
      negated conjunction into a disjunction of negations and back, and a
      negated quantifier becomes the dual quantifier over the same variable.
      A negation above an atom, or above an arrow, stays where it is. */
  function PushNegations(f: Formula): (r: Formula)
    decreases Size(f)
    ensures ArrowFree(f) ==> ArrowFree(r) && IsNnf(r)
    ensures Binders(r) == Binders(f)
    ensures Atoms(r) == Atoms(f)
    ensures QuantifierFree(r) <==> QuantifierFree(f)
    ensures IsNnf(f) ==> r == f
  {
    match f
    case Atom(_) => f
    case Quant(k, v, b) => Quant(k, v, PushNegations(b))
    case Bin(op, l, r) => Bin(op, PushNegations(l), PushNegations(r))
    case Not(x) =>
      match x
      case Not(y) =>
        assert ArrowFree(f) ==> ArrowFree(x) && ArrowFree(y);
        PushNegations(y)
      case Bin(And, l, r) =>
        assert ArrowFree(f) ==> ArrowFree(x);
        assert ArrowFree(x) ==> ArrowFree(Not(l)) && ArrowFree(Not(r));
        Bin(Or, PushNegations(Not(l)), PushNegations(Not(r)))
      case Bin(Or, l, r) =>
        assert ArrowFree(f) ==> ArrowFree(x);
        assert ArrowFree(x) ==> ArrowFree(Not(l)) && ArrowFree(Not(r));
        Bin(And, PushNegations(Not(l)), PushNegations(Not(r)))
      case Quant(k, v, b) =>
        assert ArrowFree(f) ==> ArrowFree(x);
        assert ArrowFree(x) ==> ArrowFree(Not(b));
        Quant(Dual(k), v, PushNegations(Not(b)))
      case _ => Not(PushNegations(x))
  }

  lemma {:induction false} PushNegationsSound(f: Formula, env: Env)
    decreases Size(f)
    ensures Eval(PushNegations(f), env) == Eval(f, env)
  {
    match f
    case Atom(_) =>
    case Quant(_, v, b) =>
      PushNegationsSound(b, Update(env, v, true));
      PushNegationsSound(b, Update(env, v, false));
    case Bin(_, l, r) =>
      PushNegationsSound(l, env);
      PushNegationsSound(r, env);
    case Not(x) =>
      match x
      case Not(y) =>
        assert Size(y) < Size(x);
        PushNegationsSound(y, env);
      case Bin(And, l, r) =>
        PushNegationsSound(Not(l), env);
        PushNegationsSound(Not(r), env);
      case Bin(Or, l, r) =>
        PushNegationsSound(Not(l), env);
        PushNegationsSound(Not(r), env);
      case Quant(_, v, b) =>
        assert Size(Not(b)) < Size(f);
        PushNegationsSound(Not(b), Update(env, v, true));
        PushNegationsSound(Not(b), Update(env, v, false));
      case _ =>
        PushNegationsSound(x, env);
  }

  /** A negated quantifier turns into its dual over the same variable, with
      the negation moved into the body. */
  lemma {:induction false} NegatedQuantifier(k: Kind, v: Name, b: Formula, env: Env)
    requires ArrowFree(b)
    ensures var r := PushNegations(Not(Quant(k, v, b)));
      && r.Quant? && r.kind != k && r.binder == v
      && IsNnf(r.body)
      && Eval(r.body, env) == !Eval(b, env)
  {
    PushNegationsSound(Not(b), env);
  }

  /** Pushing negations twice gives the same tree as pushing them once, for the
      arrow-free trees the pipeline feeds it. */
  lemma PushNegationsIdempotent(f: Formula)
    requires ArrowFree(f)
    ensures PushNegations(PushNegations(f)) == PushNegations(f)
  {
  }

  // ---------------------------------------------------------------------------
  // Distribution of disjunction over conjunction

  /** A measure that distribution keeps fixed: a disjunction weighs the
      product of its children, every other node the sum plus one, and every
      tree at least two. Distributing splits one product into a sum of
      smaller ones, which is what makes the rewrite terminate. */
  function Weight(f: Formula): (w: nat)
    ensures w >= 2
  {
    match f
    case Atom(_) => 2
    case Not(x) => Weight(x) + 1
    case Bin(Or, l, r) => Weight(l) * Weight(r)
    case Bin(_, l, r) => Weight(l) + Weight(r)
    case Quant(_, _, b) => Weight(b) + 1
  }

  lemma ProductGrows(a: nat, b: nat)
    requires a >= 2 && b >= 2
    ensures a < a * b && b < a * b
  {
  }

  /** Splitting the right factor: `a * (b + c)` is `a * b + a * c`, and each
      part is smaller than the whole. */
  lemma SplitRight(a: nat, b: nat, c: nat)
    requires a >= 2 && b >= 2 && c >= 2
    ensures a * (b + c) == a * b + a * c
    ensures a * b < a * (b + c) && a * c < a * (b + c)
  {
  }

  /** Splitting the left factor: `(a + b) * c` is `a * c + b * c`. */
  lemma SplitLeft(a: nat, b: nat, c: nat)
    requires a >= 2 && b >= 2 && c >= 2
    ensures (a + b) * c == a * c + b * c
    ensures a * c < (a + b) * c && b * c < (a + b) * c
  {
  }

  /** One bottom-up pass of `P v (Q & R)` to `(P v Q) & (P v R)` and
      `(P & Q) v R` to `(P v R) & (Q v R)`, re-distributing each new
      disjunction. */
  function Distribute(f: Formula): (r: Formula)
    decreases Weight(f), 1
    ensures IsCnf(r)
    ensures Weight(r) == Weight(f)
    ensures QuantifierFree(r) <==> QuantifierFree(f)
    ensures IsNnf(f) ==> IsNnf(r)
    ensures ArrowFree(f) ==> ArrowFree(r)
    ensures Atoms(r) == Atoms(f)
    ensures Quantifiers(r) == Quantifiers(f)
  {
    match f
    case Atom(_) => f
    case Not(x) => Not(Distribute(x))
    case Quant(k, v, b) => Quant(k, v, Distribute(b))
    case Bin(op, l, r) =>
      ProductGrows(Weight(l), Weight(r));
      if op == Or then DistributeOr(Distribute(l), Distribute(r))
      else Bin(op, Distribute(l), Distribute(r))
  }

  /** The disjunction of two distributed trees, distributed: the right
      conjunction is split first, then the left one. */
  function DistributeOr(left: Formula, right: Formula): (r: Formula)
    decreases Weight(left) * Weight(right), 0
    ensures IsCnf(r) || !(IsCnf(left) && IsCnf(right))
    ensures Weight(r) == Weight(left) * Weight(right)
    ensures QuantifierFree(r) <==> QuantifierFree(left) && QuantifierFree(right)
    ensures IsNnf(left) && IsNnf(right) ==> IsNnf(r)
    ensures ArrowFree(left) && ArrowFree(right) ==> ArrowFree(r)
    ensures Atoms(r) == Atoms(left) + Atoms(right)
    ensures Quantifiers(r) == Quantifiers(left) + Quantifiers(right)
  {
    if right.Bin? && right.op == And then
      SplitRight(Weight(left), Weight(right.left), Weight(right.right));
      Bin(And, Distribute(Bin(Or, left, right.left)), Distribute(Bin(Or, left, right.right)))
    else if left.Bin? && left.op == And then
      SplitLeft(Weight(left.left), Weight(left.right), Weight(right));
      Bin(And, Distribute(Bin(Or, left.left, right)), Distribute(Bin(Or, left.right, right)))
    else
      Bin(Or, left, right)
  }

  lemma {:induction false} DistributeSound(f: Formula, env: Env)
    decreases Weight(f), 1
    ensures Eval(Distribute(f), env) == Eval(f, env)
  {
    match f
    case Atom(_) =>
    case Not(x) =>
      DistributeSound(x, env);
    case Quant(_, v, b) =>
      DistributeSound(b, Update(env, v, true));
      DistributeSound(b, Update(env, v, false));
    case Bin(op, l, r) =>
      ProductGrows(Weight(l), Weight(r));
      DistributeSound(l, env);
      DistributeSound(r, env);
      if op == Or {
        DistributeOrSound(Distribute(l), Distribute(r), env);
      }
  }

  lemma {:induction false} DistributeOrSound(left: Formula, right: Formula, env: Env)
    decreases Weight(left) * Weight(right), 0
    ensures Eval(DistributeOr(left, right), env) == (Eval(left, env) || Eval(right, env))
  {
    if right.Bin? && right.op == And {
      SplitRight(Weight(left), Weight(right.left), Weight(right.right));
      DistributeSound(Bin(Or, left, right.left), env);
      DistributeSound(Bin(Or, left, right.right), env);
    } else if left.Bin? && left.op == And {
      SplitLeft(Weight(left.left), Weight(left.right), Weight(right));
      DistributeSound(Bin(Or, left.left, right), env);
      DistributeSound(Bin(Or, left.right, right), env);
    }
  }

  /** A tree with no disjunction above a conjunction is a fixpoint. */
  lemma {:induction false} DistributeFixesCnf(f: Formula)
    ensures IsCnf(f) ==> Distribute(f) == f
  {
    match f
    case Atom(_) =>
    case Not(x) =>
      DistributeFixesCnf(x);
    case Quant(_, _, b) =>
      DistributeFixesCnf(b);
    case Bin(_, l, r) =>
      DistributeFixesCnf(l);
      DistributeFixesCnf(r);
  }

  /** The bound on distribution passes. */
  const MaxIterations: nat := 100

  /** Distribution passes until a pass changes nothing or `passes` run out. */
  function Converge(f: Formula, passes: nat): (r: Formula)
    decreases passes
    ensures passes > 0 ==> IsCnf(r)
    ensures IsCnf(f) ==> r == f
    ensures QuantifierFree(r) <==> QuantifierFree(f)
    ensures IsNnf(f) ==> IsNnf(r)
    ensures ArrowFree(f) ==> ArrowFree(r)
  {
    if passes == 0 then f
    else
      var g := Distribute(f);
      DistributeFixesCnf(f);
      if g == f then g else Converge(g, passes - 1)
  }

  /** The fixpoint is reached after a single pass: the second pass finds
      nothing to do and the loop stops there, far below its bound. */
  lemma {:induction false} ConvergeAfterOnePass(f: Formula, passes: nat)
    requires passes >= 2
    ensures Converge(f, passes) == Distribute(f)
  {
    var g := Distribute(f);
    if g != f {
      DistributeFixesCnf(g);
      assert Distribute(g) == g;
    }
  }

  /** The quantifier-free matrix converted to conjunctive normal form. */
  function ConvertMatrixToCnf(f: Formula): (r: Formula)
    ensures IsCnf(r)
    ensures IsCnf(f) ==> r == f
    ensures QuantifierFree(r) <==> QuantifierFree(f)
    ensures IsNnf(f) ==> IsNnf(r)
    ensures ArrowFree(f) ==> ArrowFree(r)
  {
    Converge(f, MaxIterations)
  }

  lemma ConvertMatrixToCnfSound(f: Formula, env: Env)
    ensures ConvertMatrixToCnf(f) == Distribute(f)
    ensures Eval(ConvertMatrixToCnf(f), env) == Eval(f, env)
  {
    ConvergeAfterOnePass(f, MaxIterations);
    DistributeSound(f, env);
  }
}
