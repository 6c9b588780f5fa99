/**
  The quantifier manager: free variables, fresh names, renaming,
  standardisation of bound variables, and the split of a formula into a
  quantifier prefix and a matrix together with its inverse.
 */
module QuantifierManager {
  import opened Syntax

  // ---------------------------------------------------------------------------
  // Free variables

  /** The single-letter names that occur free in `f`, ignoring those in `bound`. */
  function FreeVariables(f: Formula, bound: set<Name>): (r: set<Name>)
    ensures forall n :: n in r ==> IsVariableName(n) && n !in bound && OccursFree(f, n)
    ensures forall n :: IsVariableName(n) && n !in bound && OccursFree(f, n) ==> n in r
  {
    match f
    case Quant(_, v, b) => FreeVariables(b, bound + {v})
    case Atom(n) => if n in bound then {} else if IsVariableName(n) then {n} else {}
    case Not(x) => FreeVariables(x, bound)
    case Bin(_, l, r) => FreeVariables(l, bound) + FreeVariables(r, bound)
  }

  // ---------------------------------------------------------------------------
  // Fresh names

  /** The suffixed names with letter `c` and index at least `k` in `used`. */
  function IndicesFrom(used: set<Name>, c: char, k: nat): set<Name> {
    set n | n in used && n.Indexed? && n.letter == c && n.index >= k
  }

  /** The least suffixed name `c<i>` with `i >= k` that is not in `used`. */
  function FreshIndex(used: set<Name>, c: char, k: nat): (r: Name)
    decreases |IndicesFrom(used, c, k)|
    ensures r.Indexed? && r.letter == c && r.index >= k && r !in used
    ensures forall i :: k <= i < r.index ==> Indexed(c, i) in used
  {
    if Indexed(c, k) !in used then
      Indexed(c, k)
    else
      FewerIndices(used, c, k);
      FreshIndex(used, c, k + 1)
  }

  lemma {:induction false} SubsetSmaller(a: set<Name>, b: set<Name>, x: Name)
    requires a <= b && x in b && x !in a
    ensures |a| < |b|
    decreases |a|
  {
    if a != {} {
      var y :| y in a;
      SubsetSmaller(a - {y}, b - {y}, x);
    }
  }

  /** Once `c<k>` is taken, the taken suffixes from `k + 1` on are fewer. */
  lemma FewerIndices(used: set<Name>, c: char, k: nat)
    requires Indexed(c, k) in used
    ensures |IndicesFrom(used, c, k + 1)| < |IndicesFrom(used, c, k)|
  {
    SubsetSmaller(IndicesFrom(used, c, k + 1), IndicesFrom(used, c, k), Indexed(c, k));
  }

  /** The name a binder `v` gets when the names in `used` are taken: `v`
      itself when it is free to use, otherwise the first of `v0`, `v1`, ...
      that is not taken. */
  function FreshName(used: set<Name>, v: Name): (r: Name)
    requires v.Plain?
    ensures r !in used && r.letter == v.letter
    ensures v !in used ==> r == v
    ensures v in used ==> r.Indexed? && forall i :: 0 <= i < r.index ==> Indexed(v.letter, i) in used
  {
    if v !in used then v else FreshIndex(used, v.letter, 0)
  }

  /** The first free suffixed name is unique: any `c<j>` not in `used` whose
      smaller suffixes from `k` on are all taken is the one `FreshIndex` picks. */
  lemma {:induction false} FreshIndexLeast(used: set<Name>, c: char, k: nat, j: nat)
    requires k <= j && Indexed(c, j) !in used
    requires forall i :: k <= i < j ==> Indexed(c, i) in used
    ensures FreshIndex(used, c, k) == Indexed(c, j)
    decreases j - k
  {
    if k < j {
      FewerIndices(used, c, k);
      FreshIndexLeast(used, c, k + 1, j);
    }
  }

  /** The loop of the standardiser: try `v`, then `v0`, `v1`, ... until a
      name not in `used` turns up. It picks the name `FreshName` describes. */
  method ChooseFresh(used: set<Name>, v: Name) returns (name: Name)
    requires v.Plain?
    ensures name == FreshName(used, v)
  {
    name := v;
    var count: nat := 0;
    while name in used
      invariant count == 0 ==> name == v
      invariant count > 0 ==> v in used && name == Indexed(v.letter, count - 1)
      invariant forall i :: 0 <= i < count - 1 ==> Indexed(v.letter, i) in used
      decreases if count == 0 then 1 else 0, |IndicesFrom(used, v.letter, if count == 0 then 0 else count - 1)|
    {
      if count > 0 {
        FewerIndices(used, v.letter, count - 1);
      }
      name := Indexed(v.letter, count);
      count := count + 1;
    }
    if count > 0 {
      FreshIndexLeast(used, v.letter, 0, count - 1);
    }
  }

  // ---------------------------------------------------------------------------
  // Renaming

  /** `s` with `src` replaced by `dst`, when it contains `src`. */
  function Replace(s: set<Name>, src: Name, dst: Name): set<Name> {
    if src in s then s - {src} + {dst} else s
  }

  /** Replaces every binder `src` by `dst`, and every atom `src` when `src` is
      a bare letter. Inner quantifiers on `src` are renamed too: no scope is
      consulted. */
  function Rename(f: Formula, src: Name, dst: Name): (r: Formula)
    ensures Skeleton(r) == Skeleton(f)
    ensures Binders(r) == Replace(Binders(f), src, dst)
    ensures src.Plain? ==> Atoms(r) == Replace(Atoms(f), src, dst)
    ensures !src.Plain? ==> Atoms(r) == Atoms(f)
    ensures src !in Names(f) ==> r == f
  {
    match f
    case Quant(k, v, b) => Quant(k, if v == src then dst else v, Rename(b, src, dst))
    case Atom(n) => if n == src && src.Plain? then Atom(dst) else f
    case Not(x) => Not(Rename(x, src, dst))
    case Bin(op, l, r) => Bin(op, Rename(l, src, dst), Rename(r, src, dst))
  }

  lemma {:induction false} FreeIsAtom(f: Formula, n: Name)
    requires OccursFree(f, n)
    ensures n in Atoms(f)
  {
    match f
    case Atom(_) =>
    case Not(x) =>
      FreeIsAtom(x, n);
    case Bin(_, l, r) =>
      if OccursFree(l, n) { FreeIsAtom(l, n); } else { FreeIsAtom(r, n); }
    case Quant(_, _, b) =>
      FreeIsAtom(b, n);
  }

  /** Renaming a bare name to one the formula does not use is a change of
      variable: the renamed formula under `env` means what the original means
      when `src` takes the value of `dst`. */
  lemma {:induction false} RenameSound(f: Formula, src: Name, dst: Name, env: Env)
    requires src.Plain? && dst !in Names(f)
    decreases f, 0
    ensures Eval(Rename(f, src, dst), env) == Eval(f, Update(env, src, env(dst)))
  {
    match f
    case Atom(_) =>
    case Not(x) =>
      RenameSound(x, src, dst, env);
    case Bin(_, l, r) =>
      RenameSound(l, src, dst, env);
      RenameSound(r, src, dst, env);
    case Quant(_, v, b) =>
      RenameSoundQuant(v, b, src, dst, env, true);
      RenameSoundQuant(v, b, src, dst, env, false);
  }

  lemma {:induction false} RenameSoundQuant(v: Name, b: Formula, src: Name, dst: Name, env: Env, val: bool)
    requires src.Plain? && dst !in Names(b) && dst != v
    decreases b, 1
    ensures var v' := if v == src then dst else v;
      Eval(Rename(b, src, dst), Update(env, v', val)) == Eval(b, Update(Update(env, src, env(dst)), v, val))
  {
    var v' := if v == src then dst else v;
    var e1 := Update(env, v', val);
    RenameSound(b, src, dst, e1);
    var e2 := Update(e1, src, e1(dst));
    var e3 := Update(Update(env, src, env(dst)), v, val);
    forall n | OccursFree(b, n)
      ensures e2(n) == e3(n)
    {
      FreeIsAtom(b, n);
    }
    EvalAgree(b, e2, e3);
  }

  /** Renaming a name that no quantifier binds leaves the scoping of binders unchanged. */
  lemma {:induction false} RenameKeepsNoShadow(f: Formula, src: Name, dst: Name, bound: set<Name>)
    requires src !in Binders(f)
    ensures NoShadow(Rename(f, src, dst), bound) == NoShadow(f, bound)
  {
    match f
    case Atom(_) =>
    case Not(x) =>
      RenameKeepsNoShadow(x, src, dst, bound);
    case Bin(_, l, r) =>
      RenameKeepsNoShadow(l, src, dst, bound);
      RenameKeepsNoShadow(r, src, dst, bound);
    case Quant(_, v, b) =>
      RenameKeepsNoShadow(b, src, dst, bound + {v});
  }

  lemma {:induction false} NoShadowAvoids(f: Formula, bound: set<Name>)
    requires NoShadow(f, bound)
    ensures Binders(f) !! bound
  {
    match f
    case Atom(_) =>
    case Not(x) =>
      NoShadowAvoids(x, bound);
    case Bin(_, l, r) =>
      NoShadowAvoids(l, bound);
      NoShadowAvoids(r, bound);
    case Quant(_, v, b) =>
      NoShadowAvoids(b, bound + {v});
  }

  // ---------------------------------------------------------------------------
  // Standardisation

  /** Walks the tree top-down with the names bound by enclosing quantifiers
      in `used`. A binder not in `used` is kept; one in `used` becomes its
      first fresh suffixed name, and its body is renamed to match. Both
      children of a connective see the same `used`. */
  function Standardize(f: Formula, used: set<Name>): (r: Formula)
    requires PlainBinders(f)
    ensures Skeleton(r) == Skeleton(f)
    ensures NoShadow(r, used)
    ensures forall n :: n in Names(r) ==> n in Names(f) || n !in used
  {
    match f
    case Atom(_) => f
    case Not(x) => Not(Standardize(x, used))
    case Bin(op, l, r) => Bin(op, Standardize(l, used), Standardize(r, used))
    case Quant(k, v, b) =>
      var v' := FreshName(used, v);
      var b' := Standardize(b, used + {v'});
      if v' != v then
        NoShadowAvoids(b', used + {v'});
        RenameKeepsNoShadow(b', v, v', used + {v'});
        Quant(k, v', Rename(b', v, v'))
      else
        Quant(k, v', b')
  }

  /** A binder keeps its name when no enclosing quantifier took it, and
      otherwise takes the least free suffixed name; in that case no atom or
      binder of the result keeps the old name. */
  lemma StandardizeBinder(k: Kind, v: Name, b: Formula, used: set<Name>)
    requires PlainBinders(Quant(k, v, b))
    ensures var r := Standardize(Quant(k, v, b), used);
      && r.Quant? && r.kind == k && r.binder !in used
      && (v !in used ==> r.binder == v)
      && (v in used ==>
            && r.binder.Indexed? && r.binder.letter == v.letter
            && (forall i :: 0 <= i < r.binder.index ==> Indexed(v.letter, i) in used)
            && v !in Names(r))
  {
    var v' := FreshName(used, v);
    if v in used {
      var b' := Standardize(b, used + {v'});
      NoShadowAvoids(b', used + {v'});
    }
  }

  /** Standardisation keeps the meaning of a formula whose names carry no
      suffix: every fresh name is new to the body it renames. */
  lemma {:induction false} StandardizeSound(f: Formula, used: set<Name>, env: Env)
    requires PlainNames(f)
    decreases f, 0
    ensures PlainBinders(f)
    ensures Eval(Standardize(f, used), env) == Eval(f, env)
  {
    match f
    case Atom(_) =>
    case Not(x) =>
      StandardizeSound(x, used, env);
    case Bin(_, l, r) =>
      StandardizeSound(l, used, env);
      StandardizeSound(r, used, env);
    case Quant(_, v, b) =>
      StandardizeSoundQuant(v, b, used, env, true);
      StandardizeSoundQuant(v, b, used, env, false);
  }

  lemma {:induction false} StandardizeSoundQuant(v: Name, b: Formula, used: set<Name>, env: Env, val: bool)
    requires v.Plain? && PlainNames(b)
    decreases b, 1
    ensures PlainBinders(b)
    ensures var v' := FreshName(used, v);
      var b' := Standardize(b, used + {v'});
      Eval(if v' != v then Rename(b', v, v') else b', Update(env, v', val)) == Eval(b, Update(env, v, val))
  {
    var v' := FreshName(used, v);
    var b' := Standardize(b, used + {v'});
    if v' != v {
      var e1 := Update(env, v', val);
      assert v' !in Names(b');
      RenameSound(b', v, v', e1);
      StandardizeSound(b, used + {v'}, Update(e1, v, val));
      forall n | OccursFree(b, n)
        ensures Update(e1, v, val)(n) == Update(env, v, val)(n)
      {
        FreeIsAtom(b, n);
      }
      EvalAgree(b, Update(e1, v, val), Update(env, v, val));
    } else {
      StandardizeSound(b, used + {v'}, Update(env, v, val));
    }
  }

  // ---------------------------------------------------------------------------
  // Prenex form: a prefix of quantifiers over a matrix

  datatype Binding = Binding(kind: Kind, name: Name)

  datatype Prenex = Prenex(prefix: seq<Binding>, matrix: Formula)

  /** The (kind, name) pairs a prefix lists. */
  function BindingSet(qs: seq<Binding>): set<(Kind, Name)> {
    set i | 0 <= i < |qs| :: (qs[i].kind, qs[i].name)
  }

  /** The quantifiers of a formula as a list, in preorder: a quantifier before
      those in its body, the left operand's before the right operand's. */
  function Bindings(f: Formula): seq<Binding> {
    match f
    case Atom(_) => []
    case Not(x) => Bindings(x)
    case Bin(_, l, r) => Bindings(l) + Bindings(r)
    case Quant(k, v, b) => [Binding(k, v)] + Bindings(b)
  }

  /** Lifts the quantifiers out of negations, conjunctions and disjunctions,
      in preorder with the left operand's before the right operand's. Atoms
      and arrows are left as they are, quantifiers below an arrow included. */
  function Extract(f: Formula): (r: Prenex)
    ensures ArrowFree(f) ==> QuantifierFree(r.matrix) && ArrowFree(r.matrix)
    ensures ArrowFree(f) ==> r.prefix == Bindings(f)
    ensures ArrowFree(f) ==> BindingSet(r.prefix) == Quantifiers(f)
    ensures IsNnf(f) ==> IsNnf(r.matrix)
    ensures Atoms(r.matrix) == Atoms(f)
    ensures QuantifierFree(f) ==> r == Prenex([], f)
  {
    match f
    case Quant(k, v, b) =>
      var e := Extract(b);
      assert BindingSet([Binding(k, v)] + e.prefix) == {(k, v)} + BindingSet(e.prefix) by {
        BindingSetConcat([Binding(k, v)], e.prefix);
        assert [Binding(k, v)][0] == Binding(k, v);
      }
      Prenex([Binding(k, v)] + e.prefix, e.matrix)
    case Bin(op, l, r) =>
      if op == And || op == Or then
        var el, er := Extract(l), Extract(r);
        BindingSetConcat(el.prefix, er.prefix);
        Prenex(el.prefix + er.prefix, Bin(op, el.matrix, er.matrix))
      else
        Prenex([], f)
    case Not(x) =>
      var e := Extract(x);
      Prenex(e.prefix, Not(e.matrix))
    case Atom(_) => Prenex([], f)
  }

  lemma BindingSetConcat(a: seq<Binding>, b: seq<Binding>)
    ensures BindingSet(a + b) == BindingSet(a) + BindingSet(b)
  {
    var s := a + b;
    forall p | p in BindingSet(s)
      ensures p in BindingSet(a) + BindingSet(b)
    {
      var i :| 0 <= i < |s| && p == (s[i].kind, s[i].name);
      if i < |a| {
        assert p == (a[i].kind, a[i].name);
      } else {
        assert p == (b[i - |a|].kind, b[i - |a|].name);
      }
    }
    forall p | p in BindingSet(a) + BindingSet(b)
      ensures p in BindingSet(s)
    {
      if p in BindingSet(a) {
        var i :| 0 <= i < |a| && p == (a[i].kind, a[i].name);
        assert s[i] == a[i];
      } else {
        var i :| 0 <= i < |b| && p == (b[i].kind, b[i].name);
        assert s[|a| + i] == b[i];
      }
    }
  }

  /** Wraps the matrix in the prefix, taking the prefix from its last entry
      to its first, so that the first entry ends up outermost. */
  function BuildPcnf(qs: seq<Binding>, m: Formula): (r: Formula)
    ensures |qs| > 0 ==> r.Quant? && r.kind == qs[0].kind && r.binder == qs[0].name
    ensures IsPcnf(r) <==> IsPcnf(m)
    ensures Quantifiers(r) == BindingSet(qs) + Quantifiers(m)
  {
    if |qs| == 0 then
      m
    else
      var last := qs[|qs| - 1];
      var r := BuildPcnf(qs[..|qs| - 1], Quant(last.kind, last.name, m));
      assert BindingSet(qs) == BindingSet(qs[..|qs| - 1]) + {(last.kind, last.name)} by {
        assert qs == qs[..|qs| - 1] + [last];
        BindingSetConcat(qs[..|qs| - 1], [last]);
      }
      r
  }

  /** Peeling the first entry of the prefix. */
  lemma {:induction false} BuildPcnfFront(q: Binding, qs: seq<Binding>, m: Formula)
    ensures BuildPcnf([q] + qs, m) == Quant(q.kind, q.name, BuildPcnf(qs, m))
    decreases |qs|
  {
    if |qs| > 0 {
      var last := qs[|qs| - 1];
      var g := Quant(last.kind, last.name, m);
      var whole := [q] + qs;
      assert whole[|whole| - 1] == last;
      assert whole[..|whole| - 1] == [q] + qs[..|qs| - 1];
      assert BuildPcnf(whole, m) == BuildPcnf([q] + qs[..|qs| - 1], g);
      assert BuildPcnf(qs, m) == BuildPcnf(qs[..|qs| - 1], g);
      BuildPcnfFront(q, qs[..|qs| - 1], g);
    }
  }

  /** Two quantified operands of a conjunction or disjunction contribute
      their binders left to right. */
  lemma ExtractSiblings(op: BinOp, l: Binding, ml: Formula, r: Binding, mr: Formula)
    requires op == And || op == Or
    requires QuantifierFree(ml) && QuantifierFree(mr)
    ensures Extract(Bin(op, Quant(l.kind, l.name, ml), Quant(r.kind, r.name, mr)))
         == Prenex([l, r], Bin(op, ml, mr))
  {
    assert Extract(Quant(l.kind, l.name, ml)) == Prenex([l], ml);
    assert Extract(Quant(r.kind, r.name, mr)) == Prenex([r], mr);
  }

  /** A quantifier over a quantifier-free body is its own prenex form. */
  lemma ExtractSingle(q: Binding, m: Formula)
    requires QuantifierFree(m)
    ensures Extract(Quant(q.kind, q.name, m)) == Prenex([q], m)
  {
  }

  /** A prefix of one binding becomes one quantifier. */
  lemma BuildPcnfSingle(q: Binding, m: Formula)
    ensures BuildPcnf([q], m) == Quant(q.kind, q.name, m)
  {
    BuildPcnfFront(q, [], m);
    assert [q] + [] == [q];
  }

  /** A prefix of two bindings becomes two nested quantifiers. */
  lemma BuildPcnfPair(a: Binding, b: Binding, m: Formula)
    ensures BuildPcnf([a, b], m) == Quant(a.kind, a.name, Quant(b.kind, b.name, m))
  {
    BuildPcnfFront(a, [b], m);
    BuildPcnfFront(b, [], m);
    assert [a] + [b] == [a, b];
    assert [b] + [] == [b];
  }

  /** Extraction undoes the rebuild, whatever the matrix: the prefix comes
      back in order, followed by whatever the matrix itself yields. */
  lemma {:induction false} ExtractBuildPcnf(qs: seq<Binding>, m: Formula)
    ensures Extract(BuildPcnf(qs, m)) == Prenex(qs + Extract(m).prefix, Extract(m).matrix)
    decreases |qs|
  {
    if |qs| > 0 {
      var last := qs[|qs| - 1];
      var g := Quant(last.kind, last.name, m);
      var e := Extract(m);
      assert Extract(g) == Prenex([last] + e.prefix, e.matrix);
      ExtractBuildPcnf(qs[..|qs| - 1], g);
      assert qs[..|qs| - 1] + ([last] + e.prefix) == qs + e.prefix by {
        assert qs == qs[..|qs| - 1] + [last];
      }
    }
  }

  /** Rebuilding then extracting, over a quantifier-free matrix, gives back
      the prefix and the matrix unchanged. */
  lemma ExtractBuildPcnfRoundTrip(qs: seq<Binding>, m: Formula)
    requires QuantifierFree(m)
    ensures Extract(BuildPcnf(qs, m)) == Prenex(qs, m)
  {
    ExtractBuildPcnf(qs, m);
    assert qs + [] == qs;
  }

  /** Extracting then rebuilding gives back any formula already in prenex
      form over an arrow-free, quantifier-free matrix. */
  lemma {:induction false} BuildPcnfExtract(f: Formula)
    requires IsPcnf(f)
    ensures BuildPcnf(Extract(f).prefix, Extract(f).matrix) == f
  {
    match f
    case Quant(k, v, b) =>
      BuildPcnfExtract(b);
      BuildPcnfFront(Binding(k, v), Extract(b).prefix, Extract(b).matrix);
    case _ =>
  }
}
