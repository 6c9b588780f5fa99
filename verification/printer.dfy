/**
  The printer: renders a formula in the fully parenthesised concrete syntax,
  `(- F)`, `(F op F)` and `(Qx F)`, with atoms and names written bare.
 */
module Printer {
  import opened Syntax
  import opened Text

  function KindLetter(k: Kind): char {
    match k
    case Forall => 'A'
    case Exists => 'E'
  }

  /** The token of each connective. */
  function OpText(op: BinOp): (t: string)
    ensures 1 <= |t| <= 3
  {
    match op
    case Iff => "<->"
    case Imp => "->"
    case Or => "v"
    case And => "&"
  }

  function DigitChar(d: nat): (c: char)
    requires d < 10
    ensures '0' <= c <= '9'
  {
    ('0' as int + d) as char
  }

  /** The decimal numeral of `n`, without leading zeros. */
  function Digits(n: nat): (r: string)
    ensures |r| > 0
    ensures forall k :: 0 <= k < |r| ==> '0' <= r[k] <= '9'
    ensures |r| > 1 ==> r[0] != '0'
  {
    if n < 10 then [DigitChar(n)] else Digits(n / 10) + [DigitChar(n % 10)]
  }

  /** The number a decimal numeral denotes. */
  function NumeralValue(s: string): nat
    requires forall k :: 0 <= k < |s| ==> '0' <= s[k] <= '9'
  {
    if |s| == 0 then 0 else 10 * NumeralValue(s[..|s| - 1]) + (s[|s| - 1] as int - '0' as int)
  }

  lemma {:induction false} DigitsValue(n: nat)
    ensures NumeralValue(Digits(n)) == n
  {
    if n >= 10 {
      var r := Digits(n);
      assert r[..|r| - 1] == Digits(n / 10);
      DigitsValue(n / 10);
    }
  }

  function NameText(n: Name): (r: string)
    ensures |r| > 0 && r[0] == n.letter
    ensures n.Plain? <==> |r| == 1
  {
    match n
    case Plain(c) => [c]
    case Indexed(c, i) => [c] + Digits(i)
  }

  function Wrap(s: string): string {
    "(" + s + ")"
  }

  /** The fully parenthesised text of `f`. */
  function Render(f: Formula): (r: string)
    ensures |r| > 0
    ensures f.Atom? ==> r == NameText(f.name)
    ensures !f.Atom? ==> r[0] == '(' && r[|r| - 1] == ')'
  {
    match f
    case Atom(n) => NameText(n)
    case Not(x) => Wrap("- " + Render(x))
    case Bin(op, l, r) => Wrap(Render(l) + " " + OpText(op) + " " + Render(r))
    case Quant(k, v, b) => Wrap([KindLetter(k)] + NameText(v) + " " + Render(b))
  }

  predicate NoNewline(s: string) {
    '\n' !in s
  }

  /** What the parser relies on about a rendered formula: it is balanced, a
      compound formula is wrapped in one outermost pair, no line feed occurs,
      and it starts with `(` or with an atom letter. */
  lemma RenderFacts(f: Formula)
    requires Parsable(f)
    ensures var r := Render(f);
      && Closed(r)
      && (!f.Atom? ==> Nested(r))
      && (f.Atom? ==> |r| == 1)
      && Trimmed(r)
      && (r[0] == '(' || (IsLower(r[0]) && r[0] != 'v'))
      && NoNewline(r)
  {
    RenderBalanced(f);
    RenderNoNewline(f);
  }

  lemma {:induction false} RenderBalanced(f: Formula)
    requires Parsable(f)
    ensures Closed(Render(f))
    ensures !f.Atom? ==> Nested(Render(f))
  {
    match f
    case Atom(n) =>
      NoParensClosed(Render(f));
    case Not(x) =>
      RenderBalanced(x);
      NoParensClosed("- ");
      ClosedConcat("- ", Render(x));
      WrapNested("- " + Render(x));
    case Bin(op, a, b) =>
      RenderBalanced(a);
      RenderBalanced(b);
      var ra, rb := Render(a), Render(b);
      var mid := " " + OpText(op) + " ";
      NoParensClosed(mid);
      ClosedConcat(ra, mid);
      ClosedConcat(ra + mid, rb);
      assert ra + " " + OpText(op) + " " + rb == ra + mid + rb;
      WrapNested(ra + mid + rb);
    case Quant(kind, v, body) =>
      RenderBalanced(body);
      var head := [KindLetter(kind)] + NameText(v) + " ";
      NoParensClosed(head);
      ClosedConcat(head, Render(body));
      WrapNested(head + Render(body));
  }

  lemma {:induction false} RenderNoNewline(f: Formula)
    requires Parsable(f)
    ensures NoNewline(Render(f))
  {
    match f
    case Atom(n) =>
      AtomNoNewline(n);
    case Not(x) =>
      RenderNoNewline(x);
      NotNoNewline(x);
    case Bin(op, a, b) =>
      RenderNoNewline(a);
      RenderNoNewline(b);
      BinNoNewline(op, a, b);
    case Quant(kind, v, body) =>
      RenderNoNewline(body);
      QuantNoNewline(kind, v, body);
  }

  lemma AtomNoNewline(n: Name)
    requires IsVariableName(n)
    ensures NoNewline(Render(Atom(n)))
  {
  }

  lemma NotNoNewline(x: Formula)
    requires NoNewline(Render(x))
    ensures NoNewline(Render(Not(x)))
  {
  }

  lemma BinNoNewline(op: BinOp, a: Formula, b: Formula)
    requires NoNewline(Render(a)) && NoNewline(Render(b))
    ensures NoNewline(Render(Bin(op, a, b)))
  {
  }

  lemma QuantNoNewline(k: Kind, v: Name, b: Formula)
    requires IsVariableName(v) && NoNewline(Render(b))
    ensures NoNewline(Render(Quant(k, v, b)))
  {
  }
}
