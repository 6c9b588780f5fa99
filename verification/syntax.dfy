/**
  The formula tree of the first-order normaliser: atoms, negation, the four
  binary connectives and the two quantifiers, together with the structural
  predicates the rewrite passes establish and a reference semantics.
 */
module Syntax {

  /** Quantifier kinds, written `A` (for all) and `E` (exists). */
  datatype Kind = Forall | Exists

  /** Binary connectives, from the loosest binding to the tightest. */
  datatype BinOp = Iff | Imp | Or | And

  /** A variable or constant name: a single letter, or a letter followed by the
      decimal suffix that standardisation appends to make a binder fresh. */
  datatype Name = Plain(letter: char) | Indexed(letter: char, index: nat)

  datatype Formula =
    | Atom(name: Name)
    | Not(operand: Formula)
    | Bin(op: BinOp, left: Formula, right: Formula)
    | Quant(kind: Kind, binder: Name, body: Formula)

  predicate IsLower(c: char) {
    'a' <= c <= 'z'
  }

  /** A name the parser can produce: one lower-case letter. */
  predicate IsVariableName(n: Name) {
    n.Plain? && IsLower(n.letter)
  }

  function Size(f: Formula): (n: nat)
    ensures n >= 1
  {
    match f
    case Atom(_) => 1
    case Not(x) => 1 + Size(x)
    case Bin(_, l, r) => 1 + Size(l) + Size(r)
    case Quant(_, _, b) => 1 + Size(b)
  }

  // ---------------------------------------------------------------------------
  // Names occurring in a formula

  /** The names bound by some quantifier of `f`. */
  function Binders(f: Formula): set<Name> {
    match f
    case Atom(_) => {}
    case Not(x) => Binders(x)
    case Bin(_, l, r) => Binders(l) + Binders(r)
    case Quant(_, v, b) => {v} + Binders(b)
  }

  /** The names used as atoms in `f`. */
  function Atoms(f: Formula): set<Name> {
    match f
    case Atom(n) => {n}
    case Not(x) => Atoms(x)
    case Bin(_, l, r) => Atoms(l) + Atoms(r)
    case Quant(_, _, b) => Atoms(b)
  }

  function Names(f: Formula): set<Name> {
    Atoms(f) + Binders(f)
  }

  /** The (kind, variable) pairs of all quantifier nodes of `f`. */
  function Quantifiers(f: Formula): set<(Kind, Name)> {
    match f
    case Atom(_) => {}
    case Not(x) => Quantifiers(x)
    case Bin(_, l, r) => Quantifiers(l) + Quantifiers(r)
    case Quant(k, v, b) => {(k, v)} + Quantifiers(b)
  }

  /** Every binder is a bare letter without a numeric suffix. */
  predicate PlainBinders(f: Formula) {
    forall n :: n in Binders(f) ==> n.Plain?
  }

  /** Every name of `f` is a bare letter without a numeric suffix. */
  predicate PlainNames(f: Formula) {
    forall n :: n in Names(f) ==> n.Plain?
  }

  /** `n` has an occurrence in `f` that no enclosing quantifier on `n` binds. */
  predicate OccursFree(f: Formula, n: Name) {
    match f
    case Atom(m) => m == n
    case Not(x) => OccursFree(x, n)
    case Bin(_, l, r) => OccursFree(l, n) || OccursFree(r, n)
    case Quant(_, v, b) => v != n && OccursFree(b, n)
  }

  /** The tree with every name replaced by one fixed name: two formulas with the
      same skeleton differ in their names only. */
  function Skeleton(f: Formula): Formula {
    match f
    case Atom(_) => Atom(Plain('_'))
    case Not(x) => Not(Skeleton(x))
    case Bin(op, l, r) => Bin(op, Skeleton(l), Skeleton(r))
    case Quant(k, _, b) => Quant(k, Plain('_'), Skeleton(b))
  }

  /** The trees the printer and the parser agree on: every atom is a
      lower-case letter other than `v` (which always reads as disjunction) and
      every binder is a lower-case letter. */
  predicate Parsable(f: Formula) {
    match f
    case Atom(n) => IsVariableName(n) && n.letter != 'v'
    case Not(x) => Parsable(x)
    case Bin(_, l, r) => Parsable(l) && Parsable(r)
    case Quant(_, v, b) => IsVariableName(v) && Parsable(b)
  }

  // ---------------------------------------------------------------------------
  // Structural classes of formulas

  predicate QuantifierFree(f: Formula) {
    match f
    case Atom(_) => true
    case Not(x) => QuantifierFree(x)
    case Bin(_, l, r) => QuantifierFree(l) && QuantifierFree(r)
    case Quant(_, _, _) => false
  }

  predicate IffFree(f: Formula) {
    match f
    case Atom(_) => true
    case Not(x) => IffFree(x)
    case Bin(op, l, r) => op != Iff && IffFree(l) && IffFree(r)
    case Quant(_, _, b) => IffFree(b)
  }

  predicate ImpFree(f: Formula) {
    match f
    case Atom(_) => true
    case Not(x) => ImpFree(x)
    case Bin(op, l, r) => op != Imp && ImpFree(l) && ImpFree(r)
    case Quant(_, _, b) => ImpFree(b)
  }

  /** Only `&`, `v`, `-` and quantifiers remain. */
  predicate ArrowFree(f: Formula) {
    IffFree(f) && ImpFree(f)
  }

  /** Negation normal form: every negation sits directly above an atom. */
  predicate IsNnf(f: Formula) {
    match f
    case Atom(_) => true
    case Not(x) => x.Atom?
    case Bin(_, l, r) => IsNnf(l) && IsNnf(r)
    case Quant(_, _, b) => IsNnf(b)
  }

  /** No disjunction has a conjunction as an immediate child, anywhere. */
  predicate IsCnf(f: Formula) {
    match f
    case Atom(_) => true
    case Not(x) => IsCnf(x)
    case Bin(op, l, r) =>
      && (op == Or ==> !(l.Bin? && l.op == And) && !(r.Bin? && r.op == And))
      && IsCnf(l) && IsCnf(r)
    case Quant(_, _, b) => IsCnf(b)
  }

  /** A chain of quantifiers over a quantifier-free matrix that contains only
      literals, disjunctions and conjunctions, with no disjunction above a
      conjunction: prenex conjunctive normal form. */
  predicate IsPcnf(f: Formula) {
    match f
    case Quant(_, _, b) => IsPcnf(b)
    case _ => QuantifierFree(f) && ArrowFree(f) && IsNnf(f) && IsCnf(f)
  }

  /** No quantifier binds a name in `bound` or one bound by an enclosing quantifier. */
  predicate NoShadow(f: Formula, bound: set<Name>) {
    match f
    case Atom(_) => true
    case Not(x) => NoShadow(x, bound)
    case Bin(_, l, r) => NoShadow(l, bound) && NoShadow(r, bound)
    case Quant(_, v, b) => v !in bound && NoShadow(b, bound + {v})
  }

  // ---------------------------------------------------------------------------
  // Reference semantics: atoms are propositional letters and a quantifier
  // ranges over the two truth values of its variable.

  type Env = Name -> bool

  function Update(env: Env, n: Name, value: bool): Env {
    m => if m == n then value else env(m)
  }

  function Eval(f: Formula, env: Env): bool {
    match f
    case Atom(n) => env(n)
    case Not(x) => !Eval(x, env)
    case Bin(Iff, l, r) => Eval(l, env) == Eval(r, env)
    case Bin(Imp, l, r) => !Eval(l, env) || Eval(r, env)
    case Bin(Or, l, r) => Eval(l, env) || Eval(r, env)
    case Bin(And, l, r) => Eval(l, env) && Eval(r, env)
    case Quant(Forall, v, b) => Eval(b, Update(env, v, true)) && Eval(b, Update(env, v, false))
    case Quant(Exists, v, b) => Eval(b, Update(env, v, true)) || Eval(b, Update(env, v, false))
  }

  // ---------------------------------------------------------------------------
  // Lemmas about the definitions above

  /** Negation normal form, arrow-freedom and the other shape classes depend
      on the skeleton only. */
  lemma {:induction false} SkeletonClasses(f: Formula, g: Formula)
    requires Skeleton(f) == Skeleton(g)
    ensures IsNnf(f) <==> IsNnf(g)
    ensures ArrowFree(f) <==> ArrowFree(g)
    ensures QuantifierFree(f) <==> QuantifierFree(g)
    ensures IsCnf(f) <==> IsCnf(g)
  {
    match f
    case Atom(_) =>
    case Not(x) =>
      SkeletonClasses(x, g.operand);
    case Bin(_, l, r) =>
      SkeletonClasses(l, g.left);
      SkeletonClasses(r, g.right);
    case Quant(_, _, b) =>
      SkeletonClasses(b, g.body);
  }

  /** The value of a formula depends only on the valuation of the names that
      occur free in it. */
  lemma {:induction false} EvalAgree(f: Formula, e1: Env, e2: Env)
    requires forall n :: OccursFree(f, n) ==> e1(n) == e2(n)
    ensures Eval(f, e1) == Eval(f, e2)
  {
    match f
    case Atom(n) =>
      assert OccursFree(f, n);
    case Not(x) =>
      EvalAgree(x, e1, e2);
    case Bin(_, l, r) =>
      EvalAgree(l, e1, e2);
      EvalAgree(r, e1, e2);
    case Quant(_, v, b) =>
      EvalAgree(b, Update(e1, v, true), Update(e2, v, true));
      EvalAgree(b, Update(e1, v, false), Update(e2, v, false));
  }

  /** An atom of `f` is either free in `f` or bound by one of its quantifiers. */
  lemma {:induction false} FreeOrBound(f: Formula, n: Name)
    requires n in Atoms(f)
    ensures OccursFree(f, n) || n in Binders(f)
  {
    match f
    case Atom(_) =>
    case Not(x) =>
      FreeOrBound(x, n);
    case Bin(_, l, r) =>
      if n in Atoms(l) { FreeOrBound(l, n); } else { FreeOrBound(r, n); }
    case Quant(_, _, b) =>
      FreeOrBound(b, n);
  }
}
