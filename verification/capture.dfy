/**
  Variable capture in the prenex pipeline, and its repair.

  Standardisation hands the same set of taken names to both operands of a
  connective, and the pipeline starts it from the empty set. Two sibling
  quantifiers on one name therefore keep that name, and a quantifier whose
  name also occurs free elsewhere keeps it too. Quantifier extraction then
  hoists both binders over the whole matrix, and one captures atoms that
  belonged to the other, or to no quantifier at all.

  The repair threads the taken names from the left operand to the right
  one and seeds them with the free variables of the formula. Every binder
  then differs from every name its siblings use, and extraction, and so the
  whole pipeline, keeps the meaning of the formula.
 */
module Capture {
  import opened Syntax
  import opened Normalize
  import opened QuantifierManager
  import opened Pipeline

  // ---------------------------------------------------------------------------
  // The pipeline as written

  /** `((Ex x) & (Ex (- x)))` is standardised unchanged: both siblings keep `x`. */
  lemma SiblingsShareName()
    ensures var f := Bin(And, Quant(Exists, Plain('x'), Atom(Plain('x'))),
                              Quant(Exists, Plain('x'), Not(Atom(Plain('x')))));
      Standardized(f) == f
  {
    var x := Plain('x');
    var l := Quant(Exists, x, Atom(x));
    var r := Quant(Exists, x, Not(Atom(x)));
    var none: set<Name> := {};
    assert none + {x} == {x};
    assert FreshName(none, x) == x;
    assert Standardize(l, none) == l;
    assert Standardize(r, none) == r;
  }

  /** ...and the prenex form of that formula is `(Ex (Ex (x & (- x))))`:
      the inner binder captures the atom of the left operand. The formula is
      true under every valuation, its prenex form false. */
  lemma SiblingCapture(env: Env)
    ensures var f := Bin(And, Quant(Exists, Plain('x'), Atom(Plain('x'))),
                              Quant(Exists, Plain('x'), Not(Atom(Plain('x')))));
      && ConvertToPcnf(f) == Quant(Exists, Plain('x'), Quant(Exists, Plain('x'),
                               Bin(And, Atom(Plain('x')), Not(Atom(Plain('x'))))))
      && Eval(f, env)
      && !Eval(ConvertToPcnf(f), env)
  {
    SiblingsPcnf();
    SiblingsMeaning(env);
  }

  lemma SiblingsMeaning(env: Env)
    ensures Eval(Bin(And, Quant(Exists, Plain('x'), Atom(Plain('x'))),
                          Quant(Exists, Plain('x'), Not(Atom(Plain('x'))))), env)
    ensures !Eval(Quant(Exists, Plain('x'), Quant(Exists, Plain('x'),
                    Bin(And, Atom(Plain('x')), Not(Atom(Plain('x')))))), env)
  {
    var x := Plain('x');
    var inner := Quant(Exists, x, Bin(And, Atom(x), Not(Atom(x))));
    assert !Eval(inner, Update(env, x, true)) && !Eval(inner, Update(env, x, false));
  }

  lemma SiblingsPcnf()
    ensures var f := Bin(And, Quant(Exists, Plain('x'), Atom(Plain('x'))),
                              Quant(Exists, Plain('x'), Not(Atom(Plain('x')))));
      ConvertToPcnf(f) == Quant(Exists, Plain('x'), Quant(Exists, Plain('x'),
                            Bin(And, Atom(Plain('x')), Not(Atom(Plain('x'))))))
  {
    var x := Plain('x');
    var f := Bin(And, Quant(Exists, x, Atom(x)), Quant(Exists, x, Not(Atom(x))));
    var m := Bin(And, Atom(x), Not(Atom(x)));
    var qs := [Binding(Exists, x), Binding(Exists, x)];
    SiblingsShareName();
    ExtractSiblings(And, qs[0], Atom(x), qs[1], Not(Atom(x)));
    assert ConvertMatrixToCnf(m) == m;
    BuildPcnfPair(qs[0], qs[1], m);
  }

  /** `(p & (Ep (- p)))` is standardised unchanged, since the free `p` is not
      counted as taken ... */
  lemma FreeNameKept()
    ensures var f := Bin(And, Atom(Plain('p')), Quant(Exists, Plain('p'), Not(Atom(Plain('p')))));
      Standardized(f) == f
  {
    var p := Plain('p');
    var q := Quant(Exists, p, Not(Atom(p)));
    var none: set<Name> := {};
    assert none + {p} == {p};
    assert FreshName(none, p) == p;
    assert Standardize(q, none) == q;
  }

  /** ...and its prenex form `(Ep (p & (- p)))` binds the free `p`: when `p`
      is true the formula holds and its prenex form does not. */
  lemma FreeCapture(env: Env)
    requires env(Plain('p'))
    ensures var f := Bin(And, Atom(Plain('p')), Quant(Exists, Plain('p'), Not(Atom(Plain('p')))));
      && ConvertToPcnf(f) == Quant(Exists, Plain('p'), Bin(And, Atom(Plain('p')), Not(Atom(Plain('p')))))
      && Eval(f, env)
      && !Eval(ConvertToPcnf(f), env)
  {
    FreeNamePcnf();
    FreeNameMeaning(env);
  }

  lemma FreeNameMeaning(env: Env)
    requires env(Plain('p'))
    ensures Eval(Bin(And, Atom(Plain('p')), Quant(Exists, Plain('p'), Not(Atom(Plain('p'))))), env)
    ensures !Eval(Quant(Exists, Plain('p'), Bin(And, Atom(Plain('p')), Not(Atom(Plain('p'))))), env)
  {
    assert Eval(Not(Atom(Plain('p'))), Update(env, Plain('p'), false));
  }

  lemma FreeNamePcnf()
    ensures var f := Bin(And, Atom(Plain('p')), Quant(Exists, Plain('p'), Not(Atom(Plain('p')))));
      ConvertToPcnf(f) == Quant(Exists, Plain('p'), Bin(And, Atom(Plain('p')), Not(Atom(Plain('p')))))
  {
    var p := Plain('p');
    var f := Bin(And, Atom(p), Quant(Exists, p, Not(Atom(p))));
    var m := Bin(And, Atom(p), Not(Atom(p)));
    FreeNameKept();
    assert Extract(f) == Prenex([Binding(Exists, p)], m);
    assert ConvertMatrixToCnf(m) == m;
    BuildPcnfFront(Binding(Exists, p), [], m);
  }

  // ---------------------------------------------------------------------------
  // When extraction is sound

  /** No operand of a conjunction or disjunction binds a name that its
      sibling uses, anywhere in the tree. */
  predicate Apart(f: Formula) {
    match f
    case Atom(_) => true
    case Not(x) => Apart(x)
    case Bin(_, l, r) => Apart(l) && Apart(r) && Binders(l) !! Names(r) && Binders(r) !! Names(l)
    case Quant(_, _, b) => Apart(b)
  }

  /** The names a prefix binds. */
  function PrefixNames(qs: seq<Binding>): set<Name> {
    set i | 0 <= i < |qs| :: qs[i].name
  }

  lemma {:induction false} QuantifierBinder(f: Formula, k: Kind, n: Name)
    requires (k, n) in Quantifiers(f)
    ensures n in Binders(f)
  {
    match f
    case Atom(_) =>
    case Not(x) =>
      QuantifierBinder(x, k, n);
    case Bin(_, l, r) =>
      if (k, n) in Quantifiers(l) { QuantifierBinder(l, k, n); } else { QuantifierBinder(r, k, n); }
    case Quant(_, _, b) =>
      if (k, n) in Quantifiers(b) { QuantifierBinder(b, k, n); }
  }

  /** The prefix extracted from an arrow-free formula binds only names its
      quantifiers bind. */
  lemma PrefixFromBinders(f: Formula)
    requires ArrowFree(f)
    ensures PrefixNames(Extract(f).prefix) <= Binders(f)
  {
    var qs := Extract(f).prefix;
    forall n | n in PrefixNames(qs)
      ensures n in Binders(f)
    {
      var i :| 0 <= i < |qs| && qs[i].name == n;
      assert (qs[i].kind, qs[i].name) in BindingSet(qs);
      QuantifierBinder(f, qs[i].kind, n);
    }
  }

  lemma {:induction false} QuantifierFreeNoBinders(f: Formula)
    requires QuantifierFree(f)
    ensures Binders(f) == {}
  {
    match f
    case Atom(_) =>
    case Not(x) =>
      QuantifierFreeNoBinders(x);
    case Bin(_, l, r) =>
      QuantifierFreeNoBinders(l);
      QuantifierFreeNoBinders(r);
  }

  /** Every name of a rebuilt prenex tree is bound by its prefix or used in its matrix. */
  lemma {:induction false} BuildPcnfNames(qs: seq<Binding>, m: Formula)
    ensures Names(BuildPcnf(qs, m)) <= PrefixNames(qs) + Names(m)
    decreases |qs|
  {
    if |qs| > 0 {
      BuildPcnfFront(qs[0], qs[1..], m);
      BuildPcnfNames(qs[1..], m);
      assert qs == [qs[0]] + qs[1..];
      forall n | n in PrefixNames(qs[1..])
        ensures n in PrefixNames(qs)
      {
        var i :| 0 <= i < |qs[1..]| && qs[1..][i].name == n;
        assert qs[i + 1].name == n;
      }
      assert qs[0].name in PrefixNames(qs);
    }
  }

  function Combine(op: BinOp, a: bool, b: bool): bool
    requires op == And || op == Or
  {
    if op == And then a && b else a || b
  }

  /** A quantifier may move over a conjunction or disjunction whose other
      operand does not use its name. */
  lemma QuantOverCombine(op: BinOp, k: Kind, x: Name, g: Formula, a: Formula, c: Formula, env: Env)
    requires op == And || op == Or
    requires x !in Names(c)
    requires Eval(g, Update(env, x, true)) == Combine(op, Eval(a, Update(env, x, true)), Eval(c, Update(env, x, true)))
    requires Eval(g, Update(env, x, false)) == Combine(op, Eval(a, Update(env, x, false)), Eval(c, Update(env, x, false)))
    ensures Eval(Quant(k, x, g), env) == Combine(op, Eval(Quant(k, x, a), env), Eval(c, env))
  {
    FreeIsAtomName(c, x);
    EvalAgree(c, Update(env, x, true), env);
    EvalAgree(c, Update(env, x, false), env);
  }

  /** ...and likewise when it is the left operand that does not use it. */
  lemma QuantUnderCombine(op: BinOp, k: Kind, x: Name, g: Formula, c: Formula, a: Formula, env: Env)
    requires op == And || op == Or
    requires x !in Names(c)
    requires Eval(g, Update(env, x, true)) == Combine(op, Eval(c, Update(env, x, true)), Eval(a, Update(env, x, true)))
    requires Eval(g, Update(env, x, false)) == Combine(op, Eval(c, Update(env, x, false)), Eval(a, Update(env, x, false)))
    ensures Eval(Quant(k, x, g), env) == Combine(op, Eval(c, env), Eval(Quant(k, x, a), env))
  {
    FreeIsAtomName(c, x);
    EvalAgree(c, Update(env, x, true), env);
    EvalAgree(c, Update(env, x, false), env);
  }

  /** The names bound by a prefix without its first entry. */
  lemma PrefixNamesTail(qs: seq<Binding>)
    requires |qs| > 0
    ensures PrefixNames(qs[1..]) <= PrefixNames(qs) && qs[0].name in PrefixNames(qs)
  {
    forall n | n in PrefixNames(qs[1..]) ensures n in PrefixNames(qs) {
      var i :| 0 <= i < |qs[1..]| && qs[1..][i].name == n;
      assert qs[i + 1].name == n;
    }
  }

  /** The prefixes of both operands of a conjunction or disjunction move in
      front of it, the left operand's first, when neither operand uses a
      name the other's prefix binds. */
  lemma {:induction false} PullLeft(op: BinOp, ql: seq<Binding>, ml: Formula, qr: seq<Binding>, mr: Formula, env: Env)
    requires op == And || op == Or
    requires PrefixNames(ql) !! Names(BuildPcnf(qr, mr))
    requires PrefixNames(qr) !! Names(ml)
    ensures Eval(BuildPcnf(ql + qr, Bin(op, ml, mr)), env)
         == Combine(op, Eval(BuildPcnf(ql, ml), env), Eval(BuildPcnf(qr, mr), env))
    decreases |ql|
  {
    if |ql| == 0 {
      assert ql + qr == qr;
      PullRight(op, ml, qr, mr, env);
    } else {
      var q, rest := ql[0], ql[1..];
      assert ql == [q] + rest;
      assert ql + qr == [q] + (rest + qr);
      BuildPcnfFront(q, rest + qr, Bin(op, ml, mr));
      BuildPcnfFront(q, rest, ml);
      PrefixNamesTail(ql);
      PullLeft(op, rest, ml, qr, mr, Update(env, q.name, true));
      PullLeft(op, rest, ml, qr, mr, Update(env, q.name, false));
      QuantOverCombine(op, q.kind, q.name, BuildPcnf(rest + qr, Bin(op, ml, mr)), BuildPcnf(rest, ml), BuildPcnf(qr, mr), env);
    }
  }

  /** The right operand's prefix moves out when the left operand, a matrix,
      does not use its names. */
  lemma {:induction false} PullRight(op: BinOp, ml: Formula, qr: seq<Binding>, mr: Formula, env: Env)
    requires op == And || op == Or
    requires PrefixNames(qr) !! Names(ml)
    ensures Eval(BuildPcnf(qr, Bin(op, ml, mr)), env) == Combine(op, Eval(ml, env), Eval(BuildPcnf(qr, mr), env))
    decreases |qr|
  {
    if |qr| == 0 {
    } else {
      var q, rest := qr[0], qr[1..];
      assert qr == [q] + rest;
      BuildPcnfFront(q, rest, Bin(op, ml, mr));
      BuildPcnfFront(q, rest, mr);
      PrefixNamesTail(qr);
      PullRight(op, ml, rest, mr, Update(env, q.name, true));
      PullRight(op, ml, rest, mr, Update(env, q.name, false));
      QuantUnderCombine(op, q.kind, q.name, BuildPcnf(rest, Bin(op, ml, mr)), ml, BuildPcnf(rest, mr), env);
    }
  }

  /** A name a formula does not use cannot occur free in it. */
  lemma FreeIsAtomName(f: Formula, n: Name)
    requires n !in Names(f)
    ensures !OccursFree(f, n)
  {
    if OccursFree(f, n) {
      FreeIsAtom(f, n);
    }
  }

  /** Extraction keeps the meaning of an arrow-free formula in negation
      normal form whose sibling operands keep their names apart. */
  lemma {:induction false} ExtractSound(f: Formula, env: Env)
    requires ArrowFree(f) && IsNnf(f) && Apart(f)
    ensures Eval(BuildPcnf(Extract(f).prefix, Extract(f).matrix), env) == Eval(f, env)
  {
    match f
    case Atom(_) =>
    case Not(x) =>
    case Quant(k, v, b) =>
      var e := Extract(b);
      BuildPcnfFront(Binding(k, v), e.prefix, e.matrix);
      ExtractSound(b, Update(env, v, true));
      ExtractSound(b, Update(env, v, false));
    case Bin(op, l, r) =>
      var el, er := Extract(l), Extract(r);
      ExtractSound(l, env);
      ExtractSound(r, env);
      PrefixFromBinders(l);
      PrefixFromBinders(r);
      BuildPcnfNames(er.prefix, er.matrix);
      QuantifierFreeNoBinders(el.matrix);
      QuantifierFreeNoBinders(er.matrix);
      PullLeft(op, el.prefix, el.matrix, er.prefix, er.matrix, env);
  }

  /** No two entries of the prefix bind the same name. */
  predicate DistinctNames(qs: seq<Binding>) {
    forall i, j :: 0 <= i < j < |qs| ==> qs[i].name != qs[j].name
  }

  /** Under the same conditions the extracted prefix binds pairwise distinct
      names, once no quantifier rebinds a name bound by an ancestor. */
  lemma {:induction false} DistinctPrefix(f: Formula, bound: set<Name>)
    requires ArrowFree(f) && Apart(f) && NoShadow(f, bound)
    ensures DistinctNames(Extract(f).prefix)
  {
    match f
    case Atom(_) =>
    case Not(x) =>
      DistinctPrefix(x, bound);
      assert Extract(f).prefix == Extract(x).prefix;
    case Quant(k, v, b) =>
      DistinctPrefix(b, bound + {v});
      NoShadowAvoids(b, bound + {v});
      PrefixFromBinders(b);
      DistinctCons(Binding(k, v), Extract(b).prefix);
    case Bin(op, l, r) =>
      DistinctPrefix(l, bound);
      DistinctPrefix(r, bound);
      PrefixFromBinders(l);
      PrefixFromBinders(r);
      if op == And || op == Or {
        DistinctConcat(Extract(l).prefix, Extract(r).prefix);
      }
  }

  lemma DistinctCons(q: Binding, qs: seq<Binding>)
    requires DistinctNames(qs) && q.name !in PrefixNames(qs)
    ensures DistinctNames([q] + qs)
  {
    var s := [q] + qs;
    forall i, j | 0 <= i < j < |s|
      ensures s[i].name != s[j].name
    {
      assert s[j] == qs[j - 1];
      if i > 0 {
        assert s[i] == qs[i - 1];
      } else {
        assert s[j].name in PrefixNames(qs);
      }
    }
  }

  lemma DistinctConcat(a: seq<Binding>, b: seq<Binding>)
    requires DistinctNames(a) && DistinctNames(b) && PrefixNames(a) !! PrefixNames(b)
    ensures DistinctNames(a + b)
  {
    var s := a + b;
    forall i, j | 0 <= i < j < |s|
      ensures s[i].name != s[j].name
    {
      if j < |a| {
        assert s[i] == a[i] && s[j] == a[j];
      } else if i >= |a| {
        assert s[i] == b[i - |a|] && s[j] == b[j - |a|];
      } else {
        assert s[i].name in PrefixNames(a);
        assert s[j] == b[j - |a|];
        assert s[j].name in PrefixNames(b);
      }
    }
  }

  // ---------------------------------------------------------------------------
  // The repair: standardising apart

  lemma {:induction false} RenameFree(f: Formula, src: Name, dst: Name, n: Name)
    requires src.Plain? && n != dst && OccursFree(Rename(f, src, dst), n)
    ensures OccursFree(f, n) && n != src
  {
    match f
    case Atom(_) =>
    case Not(x) =>
      RenameFree(x, src, dst, n);
    case Bin(_, l, r) =>
      if OccursFree(Rename(l, src, dst), n) { RenameFree(l, src, dst, n); } else { RenameFree(r, src, dst, n); }
    case Quant(_, v, b) =>
      RenameFree(b, src, dst, n);
  }

  lemma {:induction false} RenameKeepsApart(f: Formula, src: Name, dst: Name)
    requires src.Plain? && dst !in Names(f) && Apart(f)
    ensures Apart(Rename(f, src, dst))
  {
    match f
    case Atom(_) =>
    case Not(x) =>
      RenameKeepsApart(x, src, dst);
    case Quant(_, _, b) =>
      RenameKeepsApart(b, src, dst);
    case Bin(_, l, r) =>
      RenameKeepsApart(l, src, dst);
      RenameKeepsApart(r, src, dst);
      var l', r' := Rename(l, src, dst), Rename(r, src, dst);
      assert Names(r') == Replace(Names(r), src, dst);
      assert Names(l') == Replace(Names(l), src, dst);
  }

  /** Like `Standardize`, but the names taken inside the left operand stay
      taken for the right one: the second component is `used` together with
      every name the result binds. */
  function StandardizeApart(f: Formula, used: set<Name>): (r: (Formula, set<Name>))
    requires PlainNames(f)
    requires forall n :: OccursFree(f, n) ==> n in used
    ensures Skeleton(r.0) == Skeleton(f)
    ensures NoShadow(r.0, used)
    ensures used <= r.1 && Binders(r.0) <= r.1
    ensures forall n :: OccursFree(r.0, n) ==> OccursFree(f, n)
    ensures forall n :: n in Names(r.0) ==> n in Names(f) || n !in used
    ensures Apart(r.0)
  {
    match f
    case Atom(_) => (f, used)
    case Not(x) =>
      assert forall n :: OccursFree(x, n) ==> OccursFree(f, n);
      var (x', u) := StandardizeApart(x, used);
      (Not(x'), u)
    case Bin(op, l, r) =>
      assert forall n :: OccursFree(l, n) ==> OccursFree(f, n);
      assert forall n :: OccursFree(r, n) ==> OccursFree(f, n);
      var (l', u1) := StandardizeApart(l, used);
      var (r', u2) := StandardizeApart(r, u1);
      ApartOperands(l', r', used, u1);
      NoShadowShrink(r', u1, used);
      (Bin(op, l', r'), u2)
    case Quant(k, v, b) =>
      var v' := FreshName(used, v);
      assert forall n :: OccursFree(b, n) ==> n == v || OccursFree(f, n);
      var (b', u) := StandardizeApart(b, used + {v'});
      if v' != v then
        assert v' !in Names(b);
        NoShadowAvoids(b', used + {v'});
        RenameKeepsNoShadow(b', v, v', used + {v'});
        RenameKeepsApart(b', v, v');
        forall n | OccursFree(Rename(b', v, v'), n) && n != v'
          ensures OccursFree(b', n) && n != v
        {
          RenameFree(b', v, v', n);
        }
        (Quant(k, v', Rename(b', v, v')), u)
      else
        (Quant(k, v', b'), u)
  }

  /** Avoiding a set of names avoids every subset of it. */
  lemma {:induction false} NoShadowShrink(f: Formula, big: set<Name>, small: set<Name>)
    requires NoShadow(f, big) && small <= big
    ensures NoShadow(f, small)
  {
    match f
    case Atom(_) =>
    case Not(x) =>
      NoShadowShrink(x, big, small);
    case Bin(_, l, r) =>
      NoShadowShrink(l, big, small);
      NoShadowShrink(r, big, small);
    case Quant(_, v, b) =>
      NoShadowShrink(b, big + {v}, small + {v});
  }

  /** The operands of a connective, standardised one after the other, keep
      their names apart: the right one binds nothing taken after the left. */
  lemma ApartOperands(l': Formula, r': Formula, used: set<Name>, u1: set<Name>)
    requires Binders(l') <= u1 && used <= u1
    requires NoShadow(l', used) && NoShadow(r', u1)
    requires forall n :: OccursFree(l', n) ==> n in used
    requires forall n :: OccursFree(r', n) ==> n in used
    ensures Binders(l') !! Names(r') && Binders(r') !! Names(l')
  {
    NoShadowAvoids(l', used);
    NoShadowAvoids(r', u1);
    forall n | n in Atoms(l')
      ensures n in u1
    {
      FreeOrBound(l', n);
    }
    forall n | n in Atoms(r') && n in Binders(l')
      ensures false
    {
      FreeOrBound(r', n);
    }
  }

  lemma {:induction false} StandardizeApartSound(f: Formula, used: set<Name>, env: Env)
    requires PlainNames(f)
    requires forall n :: OccursFree(f, n) ==> n in used
    decreases f, 0
    ensures PlainBinders(f)
    ensures Eval(StandardizeApart(f, used).0, env) == Eval(f, env)
  {
    match f
    case Atom(_) =>
    case Not(x) =>
      StandardizeApartSound(x, used, env);
    case Bin(_, l, r) =>
      var u1 := StandardizeApart(l, used).1;
      StandardizeApartSound(l, used, env);
      StandardizeApartSound(r, u1, env);
    case Quant(_, v, b) =>
      StandardizeApartSoundQuant(v, b, used, env, true);
      StandardizeApartSoundQuant(v, b, used, env, false);
  }

  lemma {:induction false} StandardizeApartSoundQuant(v: Name, b: Formula, used: set<Name>, env: Env, val: bool)
    requires v.Plain? && PlainNames(b)
    requires forall n :: OccursFree(b, n) && n != v ==> n in used
    decreases b, 1
    ensures PlainBinders(b)
    ensures var v' := FreshName(used, v);
      var b' := StandardizeApart(b, used + {v'}).0;
      Eval(if v' != v then Rename(b', v, v') else b', Update(env, v', val)) == Eval(b, Update(env, v, val))
  {
    var v' := FreshName(used, v);
    var b' := StandardizeApart(b, used + {v'}).0;
    if v' != v {
      var e1 := Update(env, v', val);
      assert v' !in Names(b');
      RenameSound(b', v, v', e1);
      StandardizeApartSound(b, used + {v'}, Update(e1, v, val));
      forall n | OccursFree(b, n)
        ensures Update(e1, v, val)(n) == Update(env, v, val)(n)
      {
        FreeIsAtom(b, n);
      }
      EvalAgree(b, Update(e1, v, val), Update(env, v, val));
    } else {
      StandardizeApartSound(b, used + {v'}, Update(env, v, val));
    }
  }

  lemma {:induction false} ParsableNames(f: Formula)
    requires Parsable(f)
    ensures forall n :: n in Names(f) ==> IsVariableName(n)
  {
    match f
    case Atom(_) =>
    case Not(x) =>
      ParsableNames(x);
    case Bin(_, l, r) =>
      ParsableNames(l);
      ParsableNames(r);
    case Quant(_, _, b) =>
      ParsableNames(b);
  }

  /** The tree the repaired driver hands to quantifier extraction:
      standardisation starts from the free variables and threads the taken
      names through siblings. */
  function StandardizedApart(f: Formula): (r: Formula)
    requires Parsable(f)
    ensures ArrowFree(r) && IsNnf(r) && Apart(r)
    ensures NoShadow(r, {})
  {
    ParsableNames(f);
    var c := PushNegations(RemoveImplications(RemoveBiconditionals(f)));
    assert Names(c) == Names(f);
    var used := FreeVariables(c, {});
    forall n | OccursFree(c, n)
      ensures n in used
    {
      FreeIsAtom(c, n);
    }
    var d := StandardizeApart(c, used).0;
    SkeletonClasses(c, d);
    NoShadowShrink(d, used, {});
    d
  }

  /** The repaired driver. */
  function ConvertToPcnfApart(f: Formula): (r: Formula)
    requires Parsable(f)
    ensures IsPcnf(r)
  {
    var e := Extract(StandardizedApart(f));
    BuildPcnf(e.prefix, ConvertMatrixToCnf(e.matrix))
  }

  lemma StandardizedApartSound(f: Formula, env: Env)
    requires Parsable(f)
    ensures Eval(StandardizedApart(f), env) == Eval(f, env)
  {
    ParsableNames(f);
    var a := RemoveBiconditionals(f);
    var b := RemoveImplications(a);
    var c := PushNegations(b);
    RemoveBiconditionalsSound(f, env);
    RemoveImplicationsSound(a, env);
    PushNegationsSound(b, env);
    assert Names(c) == Names(f);
    var used := FreeVariables(c, {});
    forall n | OccursFree(c, n)
      ensures n in used
    {
      FreeIsAtom(c, n);
    }
    StandardizeApartSound(c, used, env);
  }

  /** Swapping the matrix for an equivalent one leaves the prenex tree equivalent. */
  lemma {:induction false} BuildPcnfEquivalent(qs: seq<Binding>, m1: Formula, m2: Formula, env: Env)
    requires forall e :: Eval(m1, e) == Eval(m2, e)
    ensures Eval(BuildPcnf(qs, m1), env) == Eval(BuildPcnf(qs, m2), env)
    decreases |qs|
  {
    if |qs| > 0 {
      BuildPcnfFront(qs[0], qs[1..], m1);
      BuildPcnfFront(qs[0], qs[1..], m2);
      assert qs == [qs[0]] + qs[1..];
      BuildPcnfEquivalent(qs[1..], m1, m2, Update(env, qs[0].name, true));
      BuildPcnfEquivalent(qs[1..], m1, m2, Update(env, qs[0].name, false));
    }
  }

  /** The repaired pipeline keeps the meaning of every formula the parser can
      produce. */
  lemma ConvertToPcnfApartSound(f: Formula, env: Env)
    requires Parsable(f)
    ensures Eval(ConvertToPcnfApart(f), env) == Eval(f, env)
  {
    var d := StandardizedApart(f);
    StandardizedApartSound(f, env);
    ExtractSound(d, env);
    var e := Extract(d);
    forall e' | true
      ensures Eval(ConvertMatrixToCnf(e.matrix), e') == Eval(e.matrix, e')
    {
      ConvertMatrixToCnfSound(e.matrix, e');
    }
    BuildPcnfEquivalent(e.prefix, ConvertMatrixToCnf(e.matrix), e.matrix, env);
  }

  /** Every quantifier of the repaired pipeline's result binds its own name. */
  lemma ConvertToPcnfApartDistinct(f: Formula)
    requires Parsable(f)
    ensures DistinctNames(Extract(ConvertToPcnfApart(f)).prefix)
  {
    var d := StandardizedApart(f);
    var e := Extract(d);
    var m := ConvertMatrixToCnf(e.matrix);
    assert QuantifierFree(m);
    DistinctPrefix(d, {});
    ExtractBuildPcnfRoundTrip(e.prefix, m);
    assert Extract(ConvertToPcnfApart(f)).prefix == e.prefix;
  }

  /** The repair on the capture example: `((Ex x) & (Ex (- x)))` is
      standardised to `((Ex x) & (Ex0 (- x0)))` ... */
  lemma SiblingsStandardizedApart()
    ensures var f := Bin(And, Quant(Exists, Plain('x'), Atom(Plain('x'))),
                              Quant(Exists, Plain('x'), Not(Atom(Plain('x')))));
      StandardizedApart(f) == Bin(And, Quant(Exists, Plain('x'), Atom(Plain('x'))),
                                       Quant(Exists, Indexed('x', 0), Not(Atom(Indexed('x', 0)))))
  {
    var x, x0 := Plain('x'), Indexed('x', 0);
    var l, r := Quant(Exists, x, Atom(x)), Quant(Exists, x, Not(Atom(x)));
    var f := Bin(And, l, r);
    var none: set<Name> := {};
    assert IffFree(f) && ImpFree(f) && IsNnf(f);
    assert RemoveImplications(RemoveBiconditionals(f)) == f;
    assert PushNegations(f) == f;
    assert FreeVariables(f, {}) == none;
    SiblingsLeft();
    SiblingsRight();
  }

  lemma SiblingsLeft()
    ensures StandardizeApart(Quant(Exists, Plain('x'), Atom(Plain('x'))), {}) == (Quant(Exists, Plain('x'), Atom(Plain('x'))), {Plain('x')})
  {
    var x := Plain('x');
    var none: set<Name> := {};
    assert none + {x} == {x};
    assert FreshName(none, x) == x;
  }

  lemma SiblingsRight()
    ensures var r := Quant(Exists, Plain('x'), Not(Atom(Plain('x'))));
      && (forall n :: !OccursFree(r, n))
      && StandardizeApart(r, {Plain('x')})
         == (Quant(Exists, Indexed('x', 0), Not(Atom(Indexed('x', 0)))), {Plain('x'), Indexed('x', 0)})
  {
    var x, x0 := Plain('x'), Indexed('x', 0);
    assert FreshName({x}, x) == x0 by {
      assert FreshIndex({x}, 'x', 0) == x0;
    }
    assert {x} + {x0} == {x, x0};
    assert StandardizeApart(Not(Atom(x)), {x, x0}) == (Not(Atom(x)), {x, x0});
    forall n
      ensures !OccursFree(Quant(Exists, x, Not(Atom(x))), n)
    {
      assert OccursFree(Not(Atom(x)), n) == (x == n);
    }
  }

  /** ...so that extraction yields the prefix `Ex`, `Ex0` over `(x & (- x0))`,
      and no binder captures the other operand's atom. */
  lemma SiblingsKeptApart()
    ensures var f := Bin(And, Quant(Exists, Plain('x'), Atom(Plain('x'))),
                              Quant(Exists, Plain('x'), Not(Atom(Plain('x')))));
      Extract(StandardizedApart(f))
      == Prenex([Binding(Exists, Plain('x')), Binding(Exists, Indexed('x', 0))],
                Bin(And, Atom(Plain('x')), Not(Atom(Indexed('x', 0)))))
  {
    SiblingsStandardizedApart();
    ExtractSiblings(And, Binding(Exists, Plain('x')), Atom(Plain('x')),
                    Binding(Exists, Indexed('x', 0)), Not(Atom(Indexed('x', 0))));
  }
}
