/**
  The recursive-descent parser. After trimming whitespace it tries, in order:
  removing one pair of parentheses that encloses the whole text, a quantifier
  prefix `Qx body`, a split at a binary operator that is not inside
  parentheses, a negation `- F`, and a single lower-case letter. Anything
  else is rejected together with the text that could not be read.
 */
module Parser {
  import opened Syntax
  import opened Text
  import opened Printer

  datatype Option<T> = None | Some(value: T)

  /** A parse tree, or the (trimmed) piece of text that matched no rule. */
  datatype Result<T> = Success(value: T) | Failure(text: string)

  // ---------------------------------------------------------------------------
  // An enclosing pair of parentheses

  /** The scan of a text from left to right, starting `level` parentheses deep,
      never drops below depth zero and ends at depth zero. */
  predicate BalancedFrom(t: string, level: int) {
    && (forall k :: 0 <= k <= |t| ==> level + Depth(t[..k]) >= 0)
    && level + Depth(t) == 0
  }

  lemma ScanStep(t: string, level: int)
    requires |t| > 0 && level >= 0
    ensures BalancedFrom(t, level) <==>
      level + Delta(t[0]) >= 0 && BalancedFrom(t[1..], level + Delta(t[0]))
  {
    forall k | 1 <= k <= |t|
      ensures Depth(t[..k]) == Delta(t[0]) + Depth(t[1..][..k - 1])
    {
      assert t[..k][1..] == t[1..][..k - 1];
    }
    if BalancedFrom(t, level) {
      assert level + Depth(t[..1]) >= 0;
      forall k | 0 <= k <= |t[1..]|
        ensures level + Delta(t[0]) + Depth(t[1..][..k]) >= 0
      {
        assert level + Depth(t[..k + 1]) >= 0;
      }
    }
    if level + Delta(t[0]) >= 0 && BalancedFrom(t[1..], level + Delta(t[0])) {
      forall k | 0 <= k <= |t|
        ensures level + Depth(t[..k]) >= 0
      {
        if k > 0 {
          assert level + Delta(t[0]) + Depth(t[1..][..k - 1]) >= 0;
        } else {
          assert t[..k] == [];
        }
      }
    }
  }

  /** The scan of `e[i..hi]`, the text between an opening and a closing
      parenthesis: it fails as soon as a closing parenthesis has no partner,
      and succeeds when every parenthesis is matched. */
  function WrapScan(e: string, i: nat, hi: nat, level: nat): bool
    requires i <= hi <= |e|
    decreases hi - i
  {
    if i == hi then
      level == 0
    else if e[i] == '(' then WrapScan(e, i + 1, hi, level + 1)
    else if e[i] == ')' then level > 0 && WrapScan(e, i + 1, hi, level - 1)
    else WrapScan(e, i + 1, hi, level)
  }

  lemma {:induction false} WrapScanSpec(e: string, i: nat, hi: nat, level: nat)
    requires i <= hi <= |e|
    decreases hi - i
    ensures WrapScan(e, i, hi, level) <==> BalancedFrom(e[i..hi], level)
  {
    var t := e[i..hi];
    if i < hi {
      ScanStep(t, level);
      assert t[0] == e[i];
      assert t[1..] == e[i + 1..hi];
      var level' := level + Delta(e[i]);
      if level' >= 0 {
        WrapScanSpec(e, i + 1, hi, level');
      }
    } else {
      assert t == [];
      assert t[..0] == [];
    }
  }

  /** The whole text is one parenthesised group. */
  predicate IsWrapped(e: string) {
    |e| >= 2 && e[0] == '(' && e[|e| - 1] == ')' && WrapScan(e, 1, |e| - 1, 0)
  }

  // ---------------------------------------------------------------------------
  // A quantifier prefix

  datatype QuantHead = QuantHead(kind: Kind, letter: char, body: string)

  /** The pattern `[AE][a-z]\s+(.+)` on a trimmed text: a quantifier letter, a
      lower-case variable, at least one whitespace character, and a non-empty
      body without line feeds. The whitespace run is taken greedily, so the body
      starts at the first non-space character. */
  function QuantMatch(e: string): (r: Option<QuantHead>)
    ensures r.Some? ==> 0 < |r.value.body| < |e| && IsLower(r.value.letter)
  {
    if |e| >= 3 && (e[0] == 'A' || e[0] == 'E') && IsLower(e[1]) && IsSpace(e[2]) then
      var body := Slice(e, SkipSpaces(e, 2, |e|), |e|);
      if |body| > 0 && '\n' !in body then
        Some(QuantHead(if e[0] == 'A' then Forall else Exists, e[1], body))
      else
        None
    else
      None
  }

  /** One way to read `e` as the pattern: `e[2..j]` is the whitespace run and
      `e[j..]` the body. */
  predicate QuantSplit(e: string, j: int) {
    && 3 <= j < |e|
    && (e[0] == 'A' || e[0] == 'E') && IsLower(e[1])
    && AllSpace(e[2..j])
    && '\n' !in e[j..]
  }

  /** On a trimmed text the pattern matches exactly when some split reads it,
      and then the body is what follows the whole whitespace run. */
  lemma QuantMatchSpec(e: string)
    requires Trimmed(e)
    ensures QuantMatch(e).Some? <==> exists j :: QuantSplit(e, j)
    ensures QuantMatch(e).Some? ==>
      var h := QuantMatch(e).value;
      && QuantSplit(e, |e| - |h.body|)
      && !IsSpace(h.body[0])
      && h.body == e[|e| - |h.body|..]
      && h.letter == e[1]
      && h.kind == (if e[0] == 'A' then Forall else Exists)
  {
    if |e| >= 3 && (e[0] == 'A' || e[0] == 'E') && IsLower(e[1]) && IsSpace(e[2]) {
      var k := SkipSpaces(e, 2, |e|);
      SkipSpacesSpec(e, 2, |e|);
      SliceIsSlice(e, k, |e|);
      assert AllSpace(e[2..k]) by {
        forall m | 0 <= m < |e[2..k]| ensures IsSpace(e[2..k][m]) {
          assert e[2..k][m] == e[2 + m];
        }
      }
      if QuantMatch(e).Some? {
        assert QuantSplit(e, k);
      }
    }
  }

  // ---------------------------------------------------------------------------
  // A binary operator outside all parentheses

  /** The order in which the operator classes are tried: loosest binding first. */
  const OperatorClasses: seq<BinOp> := [Iff, Imp, Or, And]

  /** `tok` starts at index `i` of `e`. */
  predicate TokenAt(e: string, tok: string, i: int) {
    0 <= i && i + |tok| <= |e| && forall m :: 0 <= m < |tok| ==> e[i + m] == tok[m]
  }

  /** Position `i` starts `tok` and is outside every pair of parentheses, as
      the right-to-left scan measures it (closing parentheses open a level). */
  predicate SplitPoint(e: string, tok: string, i: int) {
    0 <= i < |e| && SuffixDepth(e, i) == 0 && TokenAt(e, tok, i)
  }

  /** The right-to-left scan for `tok`, at index `i` with `level` unmatched
      closing parentheses to its right. */
  function FindSplit(e: string, tok: string, i: int, level: int): (r: Option<nat>)
    requires -1 <= i < |e|
    decreases i + 1
    ensures r.Some? ==> r.value <= i && r.value + |tok| <= |e|
  {
    if i < 0 then
      None
    else
      var level' := if e[i] == ')' then level + 1 else if e[i] == '(' then level - 1 else level;
      if level' == 0 && TokenAt(e, tok, i) then Some(i)
      else FindSplit(e, tok, i - 1, level')
  }

  /** Started at the right end, the scan finds the rightmost split point at
      or before `i`, and nothing when there is none. */
  lemma {:induction false} FindSplitSpec(e: string, tok: string, i: int, level: int)
    requires -1 <= i < |e|
    requires level == -SuffixDepth(e, i + 1)
    decreases i + 1
    ensures var r := FindSplit(e, tok, i, level);
      && (r.Some? ==> SplitPoint(e, tok, r.value) && forall k :: r.value < k <= i ==> !SplitPoint(e, tok, k))
      && (r.None? ==> forall k :: 0 <= k <= i ==> !SplitPoint(e, tok, k))
  {
    if i >= 0 {
      var level' := if e[i] == ')' then level + 1 else if e[i] == '(' then level - 1 else level;
      if !(level' == 0 && TokenAt(e, tok, i)) {
        FindSplitSpec(e, tok, i - 1, level');
      }
    }
  }

  datatype Split = Split(op: BinOp, pos: nat)

  /** The first class, in the order given, with a split point, and its rightmost split point. */
  function FindOperator(e: string, classes: seq<BinOp>): (r: Option<Split>)
    ensures r.Some? ==> r.value.pos + |OpText(r.value.op)| <= |e|
  {
    if |classes| == 0 then
      None
    else
      match FindSplit(e, OpText(classes[0]), |e| - 1, 0)
      case Some(i) => Some(Split(classes[0], i))
      case None => FindOperator(e, classes[1..])
  }

  /** None of the classes before the `j`-th has a split point. */
  predicate NoneBefore(e: string, classes: seq<BinOp>, j: int) {
    forall i, k :: 0 <= i < j && i < |classes| && 0 <= k < |e| ==> !SplitPoint(e, OpText(classes[i]), k)
  }

  lemma {:induction false} FindOperatorSpec(e: string, classes: seq<BinOp>)
    ensures var r := FindOperator(e, classes);
      && (r.Some? ==> exists j :: 0 <= j < |classes| && classes[j] == r.value.op && NoneBefore(e, classes, j))
      && (r.Some? ==> SplitPoint(e, OpText(r.value.op), r.value.pos))
      && (r.Some? ==> forall k :: r.value.pos < k ==> !SplitPoint(e, OpText(r.value.op), k))
      && (r.None? ==> forall j, k :: 0 <= j < |classes| ==> !SplitPoint(e, OpText(classes[j]), k))
  {
    if |classes| > 0 {
      FindSplitSpec(e, OpText(classes[0]), |e| - 1, 0);
      var r := FindOperator(e, classes);
      if FindSplit(e, OpText(classes[0]), |e| - 1, 0).None? {
        FindOperatorSpec(e, classes[1..]);
        assert forall j :: 1 <= j < |classes| ==> classes[j] == classes[1..][j - 1];
        if r.Some? {
          var j :| 0 <= j < |classes[1..]| && classes[1..][j] == r.value.op && NoneBefore(e, classes[1..], j);
          assert classes[j + 1] == r.value.op && NoneBefore(e, classes, j + 1);
        }
      } else {
        assert classes[0] == r.value.op;
      }
    }
  }

  lemma LoneVIsDisjunction()
    ensures FindOperator("v", OperatorClasses) == Some(Split(Or, 0))
  {
    assert SplitPoint("v", OpText(Or), 0);
    assert OperatorClasses[2] == Or;
  }

  // ---------------------------------------------------------------------------
  // The parser

  /** Parses a formula; whitespace around any sub-formula is ignored. */
  function Parse(s: string): (r: Result<Formula>)
    decreases |s|, 3
    ensures r.Success? ==> Parsable(r.value)
  {
    ParseTrimmed(Strip(s))
  }

  /** Outer parentheses first, then a leading quantifier. */
  function ParseTrimmed(e: string): (r: Result<Formula>)
    requires Trimmed(e)
    decreases |e|, 2
    ensures r.Success? ==> Parsable(r.value)
  {
    if IsWrapped(e) then
      Parse(Slice(e, 1, |e| - 1))
    else
      match QuantMatch(e)
      case Some(h) =>
        (match Parse(h.body)
         case Success(b) => Success(Quant(h.kind, Plain(h.letter), b))
         case Failure(t) => Failure(t))
      case None => ParseConnective(e)
  }

  /** Then a binary connective, split at the operator `FindOperator` picks. */
  function ParseConnective(e: string): (r: Result<Formula>)
    requires Trimmed(e)
    decreases |e|, 1
    ensures r.Success? ==> Parsable(r.value)
  {
    match FindOperator(e, OperatorClasses)
    case Some(sp) => ParseSplit(sp.op, Slice(e, 0, sp.pos), Slice(e, sp.pos + |OpText(sp.op)|, |e|))
    case None => ParseUnary(e)
  }

  /** Parses the two operands on either side of an operator. */
  function ParseSplit(op: BinOp, left: string, right: string): (r: Result<Formula>)
    decreases |left| + |right|, 4
    ensures r.Success? ==> Parsable(r.value)
  {
    Join(op, Parse(left), Parse(right))
  }

  /** The two operands of a connective, the left one's error first. */
  function Join(op: BinOp, left: Result<Formula>, right: Result<Formula>): (r: Result<Formula>)
    ensures r.Success? <==> left.Success? && right.Success?
    ensures r.Success? ==> r.value == Bin(op, left.value, right.value)
    ensures left.Failure? ==> r == left
  {
    match left
    case Failure(t) => Failure(t)
    case Success(l) =>
      match right
      case Failure(t) => Failure(t)
      case Success(x) => Success(Bin(op, l, x))
  }

  /** Last a negation or a single letter; anything else is an error. */
  function ParseUnary(e: string): (r: Result<Formula>)
    requires Trimmed(e) && FindOperator(e, OperatorClasses).None?
    decreases |e|, 0
    ensures r.Success? ==> Parsable(r.value)
  {
    if |e| >= 2 && e[0] == '-' && e[1] == ' ' then
      match Parse(Slice(e, 2, |e|))
      case Success(x) => Success(Not(x))
      case Failure(t) => Failure(t)
    else if |e| == 1 && IsLower(e[0]) then
      LoneVIsDisjunction();
      assert e != "v";
      Success(Atom(Plain(e[0])))
    else
      Failure(e)
  }
}
