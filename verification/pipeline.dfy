/**
  The driver: biconditional and implication elimination, negation pushing,
  standardisation, extraction of the quantifier prefix, conversion of the
  matrix to conjunctive normal form, and the rebuild of the prenex tree.
 */
module Pipeline {
  import opened Syntax
  import opened Normalize
  import opened QuantifierManager

  /** The tree handed to quantifier extraction: arrow-free, in negation normal
      form, with standardised binders. */
  function Standardized(f: Formula): (r: Formula)
    requires PlainBinders(f)
    ensures ArrowFree(r) && IsNnf(r)
    ensures NoShadow(r, {})
  {
    var b := RemoveImplications(RemoveBiconditionals(f));
    var c := PushNegations(b);
    var d := Standardize(c, {});
    SkeletonClasses(c, d);
    d
  }

  /** Prenex conjunctive normal form of `f`. */
  function ConvertToPcnf(f: Formula): (r: Formula)
    requires PlainBinders(f)
    ensures IsPcnf(r)
  {
    var e := Extract(Standardized(f));
    BuildPcnf(e.prefix, ConvertMatrixToCnf(e.matrix))
  }

  /** The result is the standardised tree's quantifiers, in preorder, over the
      standardised matrix in conjunctive normal form, and that matrix means
      what the extracted one means. */
  lemma PipelineShape(f: Formula, env: Env)
    requires PlainBinders(f)
    ensures var e := Extract(Standardized(f));
      && Extract(ConvertToPcnf(f)) == Prenex(e.prefix, Extract(ConvertToPcnf(f)).matrix)
      && IsCnf(Extract(ConvertToPcnf(f)).matrix)
      && Eval(Extract(ConvertToPcnf(f)).matrix, env) == Eval(e.matrix, env)
      && BindingSet(e.prefix) == Quantifiers(Standardized(f))
  {
    var e := Extract(Standardized(f));
    var m := ConvertMatrixToCnf(e.matrix);
    ExtractBuildPcnfRoundTrip(e.prefix, m);
    ConvertMatrixToCnfSound(e.matrix, env);
  }

  /** Every step before quantifier extraction keeps the meaning of a formula
      whose names carry no suffix. */
  lemma StandardizedSound(f: Formula, env: Env)
    requires PlainNames(f)
    ensures PlainBinders(f)
    ensures Eval(Standardized(f), env) == Eval(f, env)
  {
    var a := RemoveBiconditionals(f);
    var b := RemoveImplications(a);
    var c := PushNegations(b);
    RemoveBiconditionalsSound(f, env);
    RemoveImplicationsSound(a, env);
    PushNegationsSound(b, env);
    assert Names(c) == Names(f);
    StandardizeSound(c, {}, env);
  }

  // ---------------------------------------------------------------------------
  // Worked examples

  /** `((Az p) v (Ew q))` becomes `(Az (Ew (p v q)))`. */
  lemma DisjunctionOfQuantifiers()
    ensures ConvertToPcnf(Bin(Or, Quant(Forall, Plain('z'), Atom(Plain('p'))),
                                  Quant(Exists, Plain('w'), Atom(Plain('q')))))
         == Quant(Forall, Plain('z'), Quant(Exists, Plain('w'), Bin(Or, Atom(Plain('p')), Atom(Plain('q')))))
  {
    var f := Bin(Or, Quant(Forall, Plain('z'), Atom(Plain('p'))), Quant(Exists, Plain('w'), Atom(Plain('q'))));
    var m := Bin(Or, Atom(Plain('p')), Atom(Plain('q')));
    var qs := [Binding(Forall, Plain('z')), Binding(Exists, Plain('w'))];
    DisjunctionStandardized();
    ExtractSiblings(Or, qs[0], Atom(Plain('p')), qs[1], Atom(Plain('q')));
    assert ConvertMatrixToCnf(m) == m;
    BuildPcnfPair(qs[0], qs[1], m);
  }

  lemma DisjunctionStandardized()
    ensures var f := Bin(Or, Quant(Forall, Plain('z'), Atom(Plain('p'))), Quant(Exists, Plain('w'), Atom(Plain('q'))));
      Standardized(f) == f
  {
    var qz := Quant(Forall, Plain('z'), Atom(Plain('p')));
    var qw := Quant(Exists, Plain('w'), Atom(Plain('q')));
    var f := Bin(Or, qz, qw);
    assert IffFree(f) && ImpFree(f) && IsNnf(f);
    assert RemoveImplications(RemoveBiconditionals(f)) == f;
    assert PushNegations(f) == f;
    assert FreshName({}, Plain('z')) == Plain('z');
    assert FreshName({}, Plain('w')) == Plain('w');
    var nonez: set<Name> := {};
    assert nonez + {Plain('z')} == {Plain('z')};
    var nonew: set<Name> := {};
    assert nonew + {Plain('w')} == {Plain('w')};
    assert Standardize(qz, {}) == qz;
    assert Standardize(qw, {}) == qw;
  }

  /** `(Ex (- (a & b)))` becomes `(Ex ((- a) v (- b)))`. */
  lemma NegatedConjunction()
    ensures ConvertToPcnf(Quant(Exists, Plain('x'), Not(Bin(And, Atom(Plain('a')), Atom(Plain('b'))))))
         == Quant(Exists, Plain('x'), Bin(Or, Not(Atom(Plain('a'))), Not(Atom(Plain('b')))))
  {
    var m := Bin(Or, Not(Atom(Plain('a'))), Not(Atom(Plain('b'))));
    NegatedConjunctionStandardized();
    assert IsCnf(m) && QuantifierFree(m);
    SingleQuantifierPcnf(Quant(Exists, Plain('x'), Not(Bin(And, Atom(Plain('a')), Atom(Plain('b'))))),
                         Binding(Exists, Plain('x')), m);
  }

  /** A formula standardised to one quantifier over a clause set is its own
      prenex form. */
  lemma SingleQuantifierPcnf(f: Formula, q: Binding, m: Formula)
    requires PlainBinders(f)
    requires QuantifierFree(m) && IsCnf(m)
    requires Standardized(f) == Quant(q.kind, q.name, m)
    ensures ConvertToPcnf(f) == Quant(q.kind, q.name, m)
  {
    ExtractSingle(q, m);
    BuildPcnfSingle(q, m);
  }

  lemma NegatedConjunctionStandardized()
    ensures Standardized(Quant(Exists, Plain('x'), Not(Bin(And, Atom(Plain('a')), Atom(Plain('b'))))))
         == Quant(Exists, Plain('x'), Bin(Or, Not(Atom(Plain('a'))), Not(Atom(Plain('b')))))
  {
    var f := Quant(Exists, Plain('x'), Not(Bin(And, Atom(Plain('a')), Atom(Plain('b')))));
    var m := Bin(Or, Not(Atom(Plain('a'))), Not(Atom(Plain('b'))));
    var g := Quant(Exists, Plain('x'), m);
    assert IffFree(f) && ImpFree(f);
    assert RemoveImplications(RemoveBiconditionals(f)) == f;
    assert PushNegations(f) == g;
    assert FreshName({}, Plain('x')) == Plain('x');
    var nonex: set<Name> := {};
    assert nonex + {Plain('x')} == {Plain('x')};
    assert Standardize(m, {Plain('x')}) == m;
    assert Standardize(g, {}) == g;
  }
}
