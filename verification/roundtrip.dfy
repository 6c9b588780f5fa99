/**
  Printing and parsing agree: reading back the text of a tree rebuilds the
  same tree, whenever the tree uses only names the parser can read.
 */
module RoundTrip {
  import opened Syntax
  import opened Text
  import opened Printer
  import opened Parser

  // ---------------------------------------------------------------------------
  // One rule of the parser at a time

  lemma ParseWrappedStep(inner: string)
    requires Closed(inner) && Trimmed(inner)
    ensures Parse(Wrap(inner)) == ParseTrimmed(inner)
  {
    var w := Wrap(inner);
    assert Trimmed(w);
    StripTrimmed(w);
    SliceIsSlice(w, 1, |w| - 1);
    assert w[1..|w| - 1] == inner;
    assert BalancedFrom(inner, 0);
    WrapScanSpec(w, 1, |w| - 1, 0);
    assert IsWrapped(w);
    assert Parse(w) == ParseTrimmed(w) == Parse(inner);
    StripTrimmed(inner);
  }

  lemma ParseQuantStep(e: string, h: QuantHead, b: Formula)
    requires Trimmed(e) && !IsWrapped(e) && QuantMatch(e) == Some(h)
    requires Parse(h.body) == Success(b)
    ensures ParseTrimmed(e) == Success(Quant(h.kind, Plain(h.letter), b))
  {
  }

  lemma ParseBinStep(e: string, op: BinOp, p: nat, l: Formula, r: Formula)
    requires Trimmed(e) && !IsWrapped(e) && QuantMatch(e).None?
    requires FindOperator(e, OperatorClasses) == Some(Split(op, p))
    requires p + |OpText(op)| <= |e|
    requires Parse(Slice(e, 0, p)) == Success(l)
    requires Parse(Slice(e, p + |OpText(op)|, |e|)) == Success(r)
    ensures ParseTrimmed(e) == Success(Bin(op, l, r))
  {
    ParseConnectiveOutcome(e, op, p);
    StripTrimmed(e);
  }

  /** At a connective the whole text parses exactly when both operands do.
      The left operand is read first, so its error is the one reported, and
      the right operand's error is reported only when the left one parses. */
  lemma ParseConnectiveOutcome(e: string, op: BinOp, p: nat)
    requires Trimmed(e) && !IsWrapped(e) && QuantMatch(e).None?
    requires FindOperator(e, OperatorClasses) == Some(Split(op, p))
    ensures p + |OpText(op)| <= |e|
    ensures var a, b := Parse(Slice(e, 0, p)), Parse(Slice(e, p + |OpText(op)|, |e|));
      && (Parse(e).Success? <==> a.Success? && b.Success?)
      && (Parse(e).Success? ==> Parse(e).value == Bin(op, a.value, b.value))
      && (a.Failure? ==> Parse(e) == a)
      && (a.Success? && b.Failure? ==> Parse(e) == b)
  {
    ParseIsSplit(e, op, p);
    SplitOutcome(op, Slice(e, 0, p), Slice(e, p + |OpText(op)|, |e|));
  }

  lemma ParseIsSplit(e: string, op: BinOp, p: nat)
    requires Trimmed(e) && !IsWrapped(e) && QuantMatch(e).None?
    requires FindOperator(e, OperatorClasses) == Some(Split(op, p))
    ensures p + |OpText(op)| <= |e|
    ensures Parse(e) == ParseSplit(op, Slice(e, 0, p), Slice(e, p + |OpText(op)|, |e|))
  {
    StripTrimmed(e);
    UnwrappedIsConnective(e);
    ConnectiveIsSplit(e);
  }

  lemma ConnectiveIsSplit(e: string)
    requires Trimmed(e)
    ensures var r := FindOperator(e, OperatorClasses);
      r.Some? ==> ParseConnective(e) == ParseSplit(r.value.op, Slice(e, 0, r.value.pos), Slice(e, r.value.pos + |OpText(r.value.op)|, |e|))
  {
  }

  lemma SplitOutcome(op: BinOp, a: string, b: string)
    ensures var r := ParseSplit(op, a, b);
      && (r.Success? <==> Parse(a).Success? && Parse(b).Success?)
      && (r.Success? ==> r.value == Bin(op, Parse(a).value, Parse(b).value))
      && (Parse(a).Failure? ==> r == Parse(a))
      && (Parse(a).Success? && Parse(b).Failure? ==> r == Parse(b))
  {
  }

  lemma UnwrappedIsConnective(e: string)
    requires Trimmed(e) && !IsWrapped(e) && QuantMatch(e).None?
    ensures ParseTrimmed(e) == ParseConnective(e)
  {
  }

  lemma ParseNotStep(e: string, x: Formula)
    requires Trimmed(e) && !IsWrapped(e) && QuantMatch(e).None?
    requires FindOperator(e, OperatorClasses).None?
    requires |e| >= 2 && e[0] == '-' && e[1] == ' '
    requires Parse(Slice(e, 2, |e|)) == Success(x)
    ensures ParseTrimmed(e) == Success(Not(x))
  {
    assert ParseTrimmed(e) == ParseConnective(e) == ParseUnary(e);
  }

  lemma ParseAtomStep(e: string)
    requires Trimmed(e) && !IsWrapped(e) && QuantMatch(e).None?
    requires FindOperator(e, OperatorClasses).None?
    requires |e| == 1 && IsLower(e[0])
    ensures ParseTrimmed(e) == Success(Atom(Plain(e[0])))
  {
    assert ParseTrimmed(e) == ParseConnective(e) == ParseUnary(e);
  }

  // ---------------------------------------------------------------------------
  // Facts about rendered text

  /** What the parser needs to know about the text of a parsable formula. */
  predicate Piece(s: string) {
    && |s| >= 1
    && Closed(s)
    && (|s| > 1 ==> Nested(s))
    && (s[0] == '(' || (IsLower(s[0]) && s[0] != 'v'))
    && Trimmed(s)
    && NoNewline(s)
  }

  lemma RenderPiece(f: Formula)
    requires Parsable(f)
    ensures Piece(Render(f))
  {
    RenderFacts(f);
  }

  predicate IsToken(tok: string) {
    |tok| > 0 && tok[0] in {'<', '-', 'v', '&'}
  }

  /** Inside a piece followed by a balanced remainder, no token starts outside
      all parentheses. */
  lemma NoSplitInPiece(p: string, s: string, q: string, tok: string, k: int)
    requires Piece(s) && Depth(q) == 0 && IsToken(tok)
    requires |p| <= k < |p| + |s|
    ensures !SplitPoint(p + s + q, tok, k)
  {
    var e := p + s + q;
    var j := k - |p|;
    assert e[k..] == s[j..] + q;
    SuffixDepthIsDepth(e, k);
    DepthConcat(s[j..], q);
    if j > 0 {
      NestedSuffix(s, j);
    } else {
      assert e[k] == s[0];
    }
  }

  // ---------------------------------------------------------------------------
  // The round trip

  lemma {:induction false} ParseRender(f: Formula)
    requires Parsable(f)
    ensures Parse(Render(f)) == Success(f)
  {
    match f
    case Atom(n) =>
      AtomRoundTrip(n);
    case Not(x) =>
      ParseRender(x);
      RenderPiece(x);
      NotRoundTrip(Render(x), x);
    case Bin(op, a, b) =>
      ParseRender(a);
      ParseRender(b);
      RenderPiece(a);
      RenderPiece(b);
      BinRoundTrip(op, Render(a), Render(b), a, b);
    case Quant(k, v, b) =>
      ParseRender(b);
      RenderPiece(b);
      QuantRoundTrip(k, v.letter, Render(b), b);
      assert v == Plain(v.letter);
  }

  lemma AtomRoundTrip(n: Name)
    requires Parsable(Atom(n))
    ensures Parse(Render(Atom(n))) == Success(Atom(n))
  {
    var e := Render(Atom(n));
    assert e == [n.letter];
    StripTrimmed(e);
    assert !IsWrapped(e);
    assert QuantMatch(e).None?;
    NoOperatorInLetter(e);
    ParseAtomStep(e);
  }

  lemma NoOperatorInLetter(e: string)
    requires |e| == 1 && IsLower(e[0]) && e[0] != 'v'
    ensures FindOperator(e, OperatorClasses).None?
  {
    FindOperatorSpec(e, OperatorClasses);
  }

  lemma NotRoundTrip(rx: string, x: Formula)
    requires Piece(rx) && Parse(rx) == Success(x)
    ensures Parse(Wrap("- " + rx)) == Success(Not(x))
  {
    var inner := "- " + rx;
    NoParensClosed("- ");
    ClosedConcat("- ", rx);
    ParseWrappedStep(inner);
    NegationShape(rx);
    NoOperatorInNegation(rx);
    SliceIsSlice(inner, 2, |inner|);
    assert inner[2..] == rx;
    assert Slice(inner, 2, |inner|) == rx;
    ParseNotStep(inner, x);
  }

  lemma NegationShape(rx: string)
    requires Piece(rx)
    ensures Trimmed("- " + rx)
    ensures !IsWrapped("- " + rx)
    ensures QuantMatch("- " + rx).None?
  {
  }

  lemma NoOperatorInNegation(rx: string)
    requires Piece(rx)
    ensures FindOperator("- " + rx, OperatorClasses).None?
  {
    var inner := "- " + rx;
    FindOperatorSpec(inner, OperatorClasses);
    var found := FindOperator(inner, OperatorClasses);
    if found.Some? {
      var k := found.value.pos;
      var tok := OpText(found.value.op);
      assert IsToken(tok);
      if k >= 2 {
        assert inner == "- " + rx + "";
        NoSplitInPiece("- ", rx, "", tok, k);
      }
    }
  }

  lemma QuantRoundTrip(kind: Kind, c: char, rb: string, b: Formula)
    requires IsLower(c) && Piece(rb) && Parse(rb) == Success(b)
    ensures Parse(Wrap([KindLetter(kind)] + [c] + " " + rb)) == Success(Quant(kind, Plain(c), b))
  {
    var head := [KindLetter(kind)] + [c] + " ";
    var inner := head + rb;
    NoParensClosed(head);
    ClosedConcat(head, rb);
    ParseWrappedStep(inner);
    QuantShape(kind, c, rb);
    ParseQuantStep(inner, QuantHead(kind, c, rb), b);
  }

  lemma QuantShape(kind: Kind, c: char, rb: string)
    requires IsLower(c) && Piece(rb)
    ensures Trimmed([KindLetter(kind)] + [c] + " " + rb)
    ensures !IsWrapped([KindLetter(kind)] + [c] + " " + rb)
    ensures QuantMatch([KindLetter(kind)] + [c] + " " + rb) == Some(QuantHead(kind, c, rb))
  {
    var inner := [KindLetter(kind)] + [c] + " " + rb;
    assert inner[3] == rb[0];
    assert SkipSpaces(inner, 2, |inner|) == 3;
    SliceIsSlice(inner, 3, |inner|);
    assert inner[3..] == rb;
    assert Slice(inner, 3, |inner|) == rb;
  }

  lemma BinRoundTrip(op: BinOp, ra: string, rb: string, a: Formula, b: Formula)
    requires Piece(ra) && Piece(rb)
    requires Parse(ra) == Success(a) && Parse(rb) == Success(b)
    ensures Parse(Wrap(ra + " " + OpText(op) + " " + rb)) == Success(Bin(op, a, b))
  {
    var e := ra + (" " + OpText(op) + " ") + rb;
    Reassociate(ra, OpText(op), rb);
    assert Wrap(ra + " " + OpText(op) + " " + rb) == Wrap(e);
    BinJoin(op, ra, rb, a, b);
  }

  lemma BinJoin(op: BinOp, ra: string, rb: string, a: Formula, b: Formula)
    requires Piece(ra) && Piece(rb)
    requires Parse(ra) == Success(a) && Parse(rb) == Success(b)
    ensures Parse(Wrap(ra + (" " + OpText(op) + " ") + rb)) == Success(Bin(op, a, b))
  {
    BinReady(op, ra, rb, a, b);
    BinAssemble(ra + (" " + OpText(op) + " ") + rb, op, |ra| + 1, a, b);
  }

  /** Everything the parser checks on the text between the outer parentheses. */
  predicate ReadyAt(e: string, op: BinOp, p: nat, a: Formula, b: Formula) {
    && Closed(e) && Trimmed(e) && !IsWrapped(e) && QuantMatch(e).None?
    && FindOperator(e, OperatorClasses) == Some(Split(op, p))
    && p + |OpText(op)| <= |e|
    && Parse(Slice(e, 0, p)) == Success(a)
    && Parse(Slice(e, p + |OpText(op)|, |e|)) == Success(b)
  }

  lemma BinReady(op: BinOp, ra: string, rb: string, a: Formula, b: Formula)
    requires Piece(ra) && Piece(rb)
    requires Parse(ra) == Success(a) && Parse(rb) == Success(b)
    ensures ReadyAt(ra + (" " + OpText(op) + " ") + rb, op, |ra| + 1, a, b)
  {
    BinShape(op, ra, rb);
    OperatorFound(op, ra, rb);
    BinOperands(op, ra, rb);
  }

  lemma BinAssemble(e: string, op: BinOp, p: nat, a: Formula, b: Formula)
    requires ReadyAt(e, op, p, a, b)
    ensures Parse(Wrap(e)) == Success(Bin(op, a, b))
  {
    ParseBinStep(e, op, p, a, b);
    ParseWrappedStep(e);
  }

  lemma Reassociate(ra: string, t: string, rb: string)
    ensures ra + " " + t + " " + rb == ra + (" " + t + " ") + rb
  {
  }

  lemma BinShape(op: BinOp, ra: string, rb: string)
    requires Piece(ra) && Piece(rb)
    ensures var inner := ra + (" " + OpText(op) + " ") + rb;
      Closed(inner) && Trimmed(inner) && !IsWrapped(inner) && QuantMatch(inner).None?
  {
    var mid := " " + OpText(op) + " ";
    var inner := ra + mid + rb;
    NoParensClosed(mid);
    ClosedConcat(ra, mid);
    ClosedConcat(ra + mid, rb);
    InnerNotWrapped(ra, mid, rb);
    assert inner[0] == ra[0];
    assert inner[|inner| - 1] == rb[|rb| - 1];
    NoQuantifierHead(inner);
  }

  lemma NoQuantifierHead(e: string)
    requires Trimmed(e) && |e| > 0 && (e[0] == '(' || IsLower(e[0]))
    ensures QuantMatch(e).None?
  {
  }

  /** A space beside a trimmed text does not change how it parses. */
  lemma ParsePaddedRight(s: string, x: string)
    requires |s| > 0 && Trimmed(s) && x == s + " "
    ensures Parse(x) == Parse(s)
  {
    StripPadded(s);
    StripTrimmed(s);
  }

  lemma ParsePaddedLeft(s: string, x: string)
    requires |s| > 0 && Trimmed(s) && x == " " + s
    ensures Parse(x) == Parse(s)
  {
    StripPadded(s);
    StripTrimmed(s);
  }

  /** Cutting at the token leaves the two operands, each with one space
      beside it, which parse as the operands do. */
  lemma BinOperands(op: BinOp, ra: string, rb: string)
    requires Piece(ra) && Piece(rb)
    ensures var inner := ra + (" " + OpText(op) + " ") + rb;
      && Parse(Slice(inner, 0, |ra| + 1)) == Parse(ra)
      && Parse(Slice(inner, |ra| + 1 + |OpText(op)|, |inner|)) == Parse(rb)
  {
    var inner := ra + (" " + OpText(op) + " ") + rb;
    var left, right := Slice(inner, 0, |ra| + 1), Slice(inner, |ra| + 1 + |OpText(op)|, |inner|);
    OperandSlices(op, ra, rb);
    SliceIsSlice(inner, 0, |ra| + 1);
    SliceIsSlice(inner, |ra| + 1 + |OpText(op)|, |inner|);
    ParsePaddedRight(ra, left);
    ParsePaddedLeft(rb, right);
  }

  lemma OperandSlices(op: BinOp, ra: string, rb: string)
    ensures var inner := ra + (" " + OpText(op) + " ") + rb;
      && inner[..|ra| + 1] == ra + " "
      && inner[|ra| + 1 + |OpText(op)|..] == " " + rb
  {
  }

  /** A binary formula's text is not itself one parenthesised group: the left
      operand's closing parenthesis closes the opening one. */
  lemma InnerNotWrapped(ra: string, mid: string, rb: string)
    requires Piece(ra) && |mid| > 0 && |rb| > 0
    ensures !IsWrapped(ra + mid + rb)
  {
    var inner := ra + mid + rb;
    assert inner[0] == ra[0];
    if |ra| > 1 {
      var t := inner[1..|inner| - 1];
      assert Depth(ra[..1]) >= 1;
      assert ra[..1][1..] == [];
      assert Depth(ra[..1]) == Delta(ra[0]) + Depth(ra[..1][1..]);
      assert ra[0] == '(';
      assert inner[1..|ra|] == ra[1..];
      assert t[..|ra| - 1] == inner[1..|ra|];
      DepthSplit(ra, 1);
      assert Depth(t[..|ra| - 1]) == -1;
      assert !BalancedFrom(t, 0);
      WrapScanSpec(inner, 1, |inner| - 1, 0);
    } else {
      assert ra[1..] == [];
      assert Depth(ra) == Delta(ra[0]);
    }
  }

  /** Every split point of `ra mid rb` lies in the operator token. */
  lemma SplitInToken(ra: string, t: string, rb: string, tok: string, k: int)
    requires Piece(ra) && Piece(rb) && NoParens(t) && |t| > 0 && IsToken(tok)
    requires SplitPoint(ra + (" " + t + " ") + rb, tok, k)
    ensures |ra| + 1 <= k < |ra| + 1 + |t|
  {
    var mid := " " + t + " ";
    var inner := ra + mid + rb;
    NoParensClosed(mid);
    DepthConcat(mid, rb);
    if k < |ra| {
      assert inner == "" + ra + (mid + rb);
      NoSplitInPiece("", ra, mid + rb, tok, k);
    } else if k >= |ra| + |mid| {
      assert inner == (ra + mid) + rb + "";
      NoSplitInPiece(ra + mid, rb, "", tok, k);
    } else {
      assert inner[k + 0] == tok[0];
      assert k != |ra| && k != |ra| + |mid| - 1;
    }
  }

  lemma NoSplitThenNone(e: string, c: BinOp)
    requires forall k :: !SplitPoint(e, OpText(c), k)
    ensures FindSplit(e, OpText(c), |e| - 1, 0) == None
  {
    assert e[|e|..] == [];
    FindSplitSpec(e, OpText(c), |e| - 1, 0);
  }

  lemma RightmostThenFound(e: string, c: BinOp, p: nat)
    requires SplitPoint(e, OpText(c), p)
    requires forall k :: p < k ==> !SplitPoint(e, OpText(c), k)
    ensures FindSplit(e, OpText(c), |e| - 1, 0) == Some(p)
  {
    assert e[|e|..] == [];
    FindSplitSpec(e, OpText(c), |e| - 1, 0);
  }

  lemma OperatorFound(op: BinOp, ra: string, rb: string)
    requires Piece(ra) && Piece(rb)
    ensures FindOperator(ra + (" " + OpText(op) + " ") + rb, OperatorClasses) == Some(Split(op, |ra| + 1))
  {
    var inner := ra + (" " + OpText(op) + " ") + rb;
    var p := |ra| + 1;
    TokenIsSplit(op, ra, rb);
    forall c: BinOp, k | SplitPoint(inner, OpText(c), k)
      ensures c == op || (op == Iff && c == Imp)
      ensures c == op ==> k == p
    {
      OnlySplitIsToken(op, ra, rb, c, k);
    }
    FoundAtOnlySplit(inner, op, p);
  }

  /** When the only split points are the one at `p` (and, for `<->`, the `->`
      inside it), the parser picks `op` at `p`. */
  lemma FoundAtOnlySplit(e: string, op: BinOp, p: nat)
    requires SplitPoint(e, OpText(op), p)
    requires forall c: BinOp, k :: SplitPoint(e, OpText(c), k) ==> c == op || (op == Iff && c == Imp)
    requires forall k :: SplitPoint(e, OpText(op), k) ==> k == p
    ensures FindOperator(e, OperatorClasses) == Some(Split(op, p))
  {
    var cs := OperatorClasses;
    assert cs[1..] == [Imp, Or, And] && cs[2..] == [Or, And] && cs[3..] == [And];
    match op
    case Iff =>
      FindOperatorHit(e, cs, p);
    case Imp =>
      FindOperatorMiss(e, cs);
      FindOperatorHit(e, cs[1..], p);
    case Or =>
      FindOperatorMiss(e, cs);
      FindOperatorMiss(e, cs[1..]);
      FindOperatorHit(e, cs[2..], p);
    case And =>
      FindOperatorMiss(e, cs);
      FindOperatorMiss(e, cs[1..]);
      FindOperatorMiss(e, cs[2..]);
      FindOperatorHit(e, cs[3..], p);
  }

  lemma FindOperatorMiss(e: string, classes: seq<BinOp>)
    requires |classes| > 0 && forall k :: !SplitPoint(e, OpText(classes[0]), k)
    ensures FindOperator(e, classes) == FindOperator(e, classes[1..])
  {
    NoSplitThenNone(e, classes[0]);
  }

  lemma FindOperatorHit(e: string, classes: seq<BinOp>, p: nat)
    requires |classes| > 0 && SplitPoint(e, OpText(classes[0]), p)
    requires forall k :: p < k ==> !SplitPoint(e, OpText(classes[0]), k)
    ensures FindOperator(e, classes) == Some(Split(classes[0], p))
  {
    RightmostThenFound(e, classes[0], p);
  }

  /** The operator token between the two operands is a split point. */
  lemma TokenIsSplit(op: BinOp, ra: string, rb: string)
    requires Piece(rb)
    ensures SplitPoint(ra + (" " + OpText(op) + " ") + rb, OpText(op), |ra| + 1)
  {
    var t := OpText(op);
    var inner := ra + (" " + t + " ") + rb;
    var p := |ra| + 1;
    TokenBetween(ra, t, rb);
    assert inner[p..] == (t + " ") + rb;
    SuffixDepthIsDepth(inner, p);
    DepthConcat(t + " ", rb);
    DepthNoParens(t + " ");
  }

  lemma TokenBetween(ra: string, t: string, rb: string)
    ensures TokenAt(ra + (" " + t + " ") + rb, t, |ra| + 1)
  {
    var inner := ra + (" " + t + " ") + rb;
    forall m | 0 <= m < |t|
      ensures inner[|ra| + 1 + m] == t[m]
    {
      assert inner[|ra| + 1 + m] == (" " + t + " ")[1 + m];
    }
  }

  /** A split point for any class lies on the operator token: at its start
      when it is the same token, and only the `->` inside `<->` otherwise. */
  lemma OnlySplitIsToken(op: BinOp, ra: string, rb: string, c: BinOp, k: int)
    requires Piece(ra) && Piece(rb)
    requires SplitPoint(ra + (" " + OpText(op) + " ") + rb, OpText(c), k)
    ensures c == op || (op == Iff && c == Imp)
    ensures c == op ==> k == |ra| + 1
  {
    var t := OpText(op);
    var inner := ra + (" " + t + " ") + rb;
    var p := |ra| + 1;
    assert IsToken(OpText(c));
    SplitInToken(ra, t, rb, OpText(c), k);
    var j := k - p;
    assert inner[p..p + |t|] == t;
    assert inner[k + 0] == OpText(c)[0];
    assert inner[k] == t[j];
    if |OpText(c)| > 1 {
      assert inner[k + 1] == OpText(c)[1];
    }
  }

  // ---------------------------------------------------------------------------
  // Worked examples of operator choice

  /** A token whose first character does not occur in the text is never a split point. */
  lemma NoTokenWithout(e: string, tok: string)
    requires |tok| > 0 && tok[0] !in e
    ensures forall k :: !SplitPoint(e, tok, k)
  {
    forall k | 0 <= k < |e|
      ensures !TokenAt(e, tok, k)
    {
      assert e[k] in e;
    }
  }

  /** A token whose first character does not occur after position `p` has
      no split point after `p`. */
  lemma NoTokenAfter(e: string, tok: string, p: nat)
    requires |tok| > 0 && forall k :: p < k < |e| ==> e[k] != tok[0]
    ensures forall k :: p < k ==> !SplitPoint(e, tok, k)
  {
  }

  /** Outside of parentheses every position is at depth zero. */
  lemma FlatDepth(e: string, i: nat)
    requires i <= |e| && '(' !in e && ')' !in e
    ensures SuffixDepth(e, i) == 0
  {
    SuffixDepthIsDepth(e, i);
    DepthNoParens(e[i..]);
  }

  /** A single letter parses to its atom. */
  lemma ParseLetter(c: char)
    requires IsLower(c) && c != 'v'
    ensures Parse([c]) == Success(Atom(Plain(c)))
  {
    AtomRoundTrip(Plain(c));
  }

  /** A single letter after or before one space parses to its atom. */
  lemma ParsePaddedLetter(c: char)
    requires IsLower(c) && c != 'v'
    ensures Parse([' ', c]) == Success(Atom(Plain(c)))
    ensures Parse([c, ' ']) == Success(Atom(Plain(c)))
  {
    ParseLetter(c);
    ParsePaddedLeft([c], [' ', c]);
    ParsePaddedRight([c], [c, ' ']);
  }

  /** The connective between two letters is the one the scan picks. */
  lemma TwoLettersOperator(op: BinOp, t: char, c: char, d: char)
    requires (op == Or || op == And) && OpText(op) == [t]
    requires IsLower(c) && c != 'v' && IsLower(d) && d != 'v'
    ensures FindOperator([c, ' ', t, ' ', d], OperatorClasses) == Some(Split(op, 2))
  {
    var e := [c, ' ', t, ' ', d];
    var cs := OperatorClasses;
    assert '(' !in e && ')' !in e;
    NoTokenWithout(e, OpText(Iff));
    FindOperatorMiss(e, cs);
    NoTokenWithout(e, OpText(Imp));
    FindOperatorMiss(e, cs[1..]);
    assert cs[1..][1..] == [Or, And] && cs[1..][1..][1..] == [And];
    if op == And {
      NoTokenWithout(e, OpText(Or));
      FindOperatorMiss(e, cs[1..][1..]);
    }
    var rest := if op == Or then cs[1..][1..] else cs[1..][1..][1..];
    FlatDepth(e, 2);
    NoTokenAfter(e, OpText(op), 2);
    FindOperatorHit(e, rest, 2);
  }

  /** Two letters joined by `v` or `&` parse to that connective over their atoms. */
  lemma ParseTwoLetters(op: BinOp, t: char, c: char, d: char)
    requires (op == Or || op == And) && OpText(op) == [t]
    requires IsLower(c) && c != 'v' && IsLower(d) && d != 'v'
    ensures Parse([c, ' ', t, ' ', d]) == Success(Bin(op, Atom(Plain(c)), Atom(Plain(d))))
  {
    var e := [c, ' ', t, ' ', d];
    StripTrimmed(e);
    NoQuantifierHead(e);
    TwoLettersOperator(op, t, c, d);
    SliceIsSlice(e, 0, 2);
    SliceIsSlice(e, 3, 5);
    assert Slice(e, 0, 2) == [c, ' '];
    assert Slice(e, 3, 5) == [' ', d];
    ParsePaddedLetter(c);
    ParsePaddedLetter(d);
    ParseBinStep(e, op, 2, Atom(Plain(c)), Atom(Plain(d)));
  }

  /** In `c v d v f` the scan picks the second `v`. */
  lemma DisjunctionChainOperator(c: char, d: char, f: char)
    requires IsLower(c) && c != 'v' && IsLower(d) && d != 'v' && IsLower(f) && f != 'v'
    ensures FindOperator([c, ' ', 'v', ' ', d, ' ', 'v', ' ', f], OperatorClasses) == Some(Split(Or, 6))
  {
    var e := [c, ' ', 'v', ' ', d, ' ', 'v', ' ', f];
    var cs := OperatorClasses;
    assert '(' !in e && ')' !in e;
    NoTokenWithout(e, OpText(Iff));
    FindOperatorMiss(e, cs);
    NoTokenWithout(e, OpText(Imp));
    FindOperatorMiss(e, cs[1..]);
    assert cs[1..][1..] == [Or, And];
    FlatDepth(e, 6);
    NoTokenAfter(e, OpText(Or), 6);
    FindOperatorHit(e, cs[1..][1..], 6);
  }

  /** `c v d v f` groups to the left. */
  lemma ParseDisjunctionChain(c: char, d: char, f: char)
    requires IsLower(c) && c != 'v' && IsLower(d) && d != 'v' && IsLower(f) && f != 'v'
    ensures Parse([c, ' ', 'v', ' ', d, ' ', 'v', ' ', f])
         == Success(Bin(Or, Bin(Or, Atom(Plain(c)), Atom(Plain(d))), Atom(Plain(f))))
  {
    var e := [c, ' ', 'v', ' ', d, ' ', 'v', ' ', f];
    var left := [c, ' ', 'v', ' ', d];
    StripTrimmed(e);
    NoQuantifierHead(e);
    DisjunctionChainOperator(c, d, f);
    SliceIsSlice(e, 0, 6);
    SliceIsSlice(e, 7, 9);
    assert Slice(e, 0, 6) == left + [' '];
    assert Slice(e, 7, 9) == [' ', f];
    ParseTwoLetters(Or, 'v', c, d);
    ParsePaddedRight(left, left + [' ']);
    ParsePaddedLetter(f);
    ParseBinStep(e, Or, 6, Bin(Or, Atom(Plain(c)), Atom(Plain(d))), Atom(Plain(f)));
  }

  /** In `c & d -> f` the scan picks `->`, the looser connective. */
  lemma ImplicationOperator(c: char, d: char, f: char)
    requires IsLower(c) && c != 'v' && IsLower(d) && d != 'v' && IsLower(f) && f != 'v'
    ensures FindOperator([c, ' ', '&', ' ', d, ' ', '-', '>', ' ', f], OperatorClasses) == Some(Split(Imp, 6))
  {
    var e := [c, ' ', '&', ' ', d, ' ', '-', '>', ' ', f];
    var cs := OperatorClasses;
    assert '(' !in e && ')' !in e;
    NoTokenWithout(e, OpText(Iff));
    FindOperatorMiss(e, cs);
    FlatDepth(e, 6);
    NoTokenAfter(e, OpText(Imp), 6);
    FindOperatorHit(e, cs[1..], 6);
  }

  lemma ImplicationOperands(c: char, d: char, f: char)
    ensures var e := [c, ' ', '&', ' ', d, ' ', '-', '>', ' ', f];
      Slice(e, 0, 6) == [c, ' ', '&', ' ', d] + [' '] && Slice(e, 8, 10) == [' ', f]
  {
    var e := [c, ' ', '&', ' ', d, ' ', '-', '>', ' ', f];
    SliceIsSlice(e, 0, 6);
    SliceIsSlice(e, 8, 10);
  }

  /** `c & d -> f` is an implication whose premise is the conjunction. */
  lemma ParseImplicationOverConjunction(c: char, d: char, f: char)
    requires IsLower(c) && c != 'v' && IsLower(d) && d != 'v' && IsLower(f) && f != 'v'
    ensures Parse([c, ' ', '&', ' ', d, ' ', '-', '>', ' ', f])
         == Success(Bin(Imp, Bin(And, Atom(Plain(c)), Atom(Plain(d))), Atom(Plain(f))))
  {
    var e := [c, ' ', '&', ' ', d, ' ', '-', '>', ' ', f];
    var left := [c, ' ', '&', ' ', d];
    StripTrimmed(e);
    NoQuantifierHead(e);
    ImplicationOperator(c, d, f);
    ImplicationOperands(c, d, f);
    ParseTwoLetters(And, '&', c, d);
    ParsePaddedRight(left, left + [' ']);
    ParsePaddedLetter(f);
    ParseBinStep(e, Imp, 6, Bin(And, Atom(Plain(c)), Atom(Plain(d))), Atom(Plain(f)));
  }

  /** The rightmost `v` splits first, so a chain of disjunctions groups to the left. */
  lemma DisjunctionsGroupLeft()
    ensures Parse("p v q v r")
         == Success(Bin(Or, Bin(Or, Atom(Plain('p')), Atom(Plain('q'))), Atom(Plain('r'))))
  {
    ParseDisjunctionChain('p', 'q', 'r');
  }

  /** `->` is tried before `&`, so it splits a text holding both. */
  lemma ImplicationSplitsFirst()
    ensures Parse("p & q -> r")
         == Success(Bin(Imp, Bin(And, Atom(Plain('p')), Atom(Plain('q'))), Atom(Plain('r'))))
  {
    ParseImplicationOverConjunction('p', 'q', 'r');
  }

  // ---------------------------------------------------------------------------
  // Worked examples of rejected texts

  /** The empty text is an error, reported with the empty text. */
  lemma EmptyRejected()
    ensures Parse("") == Failure("")
  {
    StripTrimmed("");
  }

  /** The letter `v` is always read as the disjunction, with two empty
      operands, so it is never an atom. */
  lemma LoneVRejected()
    ensures Parse("v") == Failure("")
  {
    var e := "v";
    var cs := OperatorClasses;
    StripTrimmed(e);
    NoQuantifierHead(e);
    NoTokenWithout(e, OpText(Iff));
    FindOperatorMiss(e, cs);
    NoTokenWithout(e, OpText(Imp));
    FindOperatorMiss(e, cs[1..]);
    assert cs[1..][1..] == [Or, And];
    FlatDepth(e, 0);
    FindOperatorHit(e, cs[1..][1..], 0);
    SliceIsSlice(e, 0, 0);
    EmptyRejected();
  }

  /** A quantifier with no body is an error once its parentheses are gone. */
  lemma BareQuantifierRejected()
    ensures Parse("(Ax)") == Failure("Ax")
  {
    var e := "Ax";
    var cs := OperatorClasses;
    NoParensClosed(e);
    assert Wrap(e) == "(Ax)";
    ParseWrappedStep(e);
    assert !IsWrapped(e) && QuantMatch(e).None?;
    FindOperatorSpec(e, cs);
    forall j, k | 0 <= j < |cs|
      ensures !SplitPoint(e, OpText(cs[j]), k)
    {
      NoTokenWithout(e, OpText(cs[j]));
    }
  }
}
