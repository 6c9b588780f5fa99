# Prenex conjunctive normal form of first-order formulas

This project models, in Dafny, the normaliser in `solucion.py`. The normaliser
reads a fully parenthesised first-order formula such as `(Ax ((- p) -> q))`.
Atoms and variables are single lower-case letters. Quantifiers are written
`Ax` and `Ey`. The connectives are `-`, `&`, `v`, `->` and `<->`. The
normaliser turns the formula into prenex conjunctive normal form:

1. biconditionals are eliminated, then implications;
2. negations are pushed to the atoms, swapping `&`/`v` and `A`/`E`;
3. bound variables are standardised, renaming a binder to `x0`, `x1`, …
   when its name is taken;
4. the quantifiers are pulled out into a prefix, in preorder;
5. the remaining matrix gets `v` distributed over `&`, repeated for at most
   100 passes;
6. the prefix is wrapped back around the matrix.

The model is split into modules that follow the program:

- `Syntax`: the formula tree, its structural classes (arrow-free, negation
  normal form, CNF, prenex CNF, no shadowing) and a reference semantics.
  The reference semantics reads quantifiers over truth values, which is enough
  to state that a rewrite keeps the meaning of a formula.
- `Text`: whitespace stripping, sub-ranges of a string and parenthesis depth.
- `Printer`: `ast_to_string`.
- `Parser`: `build_ast_from_expression`. Errors are a `Failure` that carries the
  offending text.
- `RoundTrip`: printing then parsing gives the tree back. It also holds worked
  examples of the parser's operator choice and of rejected texts.
- `Normalize`: the three propositional passes and the CNF loop.
- `QuantifierManager`: free variables, fresh names, renaming, standardisation,
  quantifier extraction and the rebuild of the prefix.
- `Pipeline`: `convert_to_pcnf`.
- `Capture`: two inputs on which the pipeline as written changes the meaning
  of a formula, and a repaired standardisation under which the whole pipeline
  provably keeps the meaning.

## Model

| member | source | states |
|---|---|---|
| Text.StripShape | solucion.py:23 | stripping removes only leading and trailing whitespace: the result is an infix of the input with whitespace on both sides, and a text without outer whitespace is left unchanged |
| Text.StripPadded | solucion.py:23 | one space added before or after a trimmed, non-empty text is removed again |
| Parser.WrapScanSpec | solucion.py:26-37 | the scan of the text between an outer `(` and `)` accepts exactly when no prefix closes more parentheses than it opens and the whole text ends balanced |
| Parser.QuantMatchSpec | solucion.py:40-45 | on a stripped text, the quantifier pattern matches exactly when there is a split point: `A` or `E`, a lower-case letter, whitespace, then a non-empty body without a newline. The body is the whole text after the maximal whitespace run, and the kind and letter are read from the first two characters |
| Parser.FindSplitSpec | solucion.py:50-58 | the right-to-left scan for one token returns the rightmost position where the token starts outside all parentheses, and returns nothing when there is no such position |
| Parser.FindOperatorSpec | solucion.py:48-63 | the chosen operator belongs to the first class, in the order `<->`, `->`, `v`, `&`, that has a split point; no earlier class has one; its position is that class's rightmost split point; nothing is chosen only when no class has a split point |
| Parser.LoneVIsDisjunction | solucion.py:48-63 | on the text `v` the operator scan picks the disjunction at position 0, so `v` can never reach the atom case |
| Parser.Parse | solucion.py:17-73 | every tree the parser returns has single lower-case letters as binders, and single lower-case letters other than `v` as atoms |
| RoundTrip.ParseConnectiveOutcome | solucion.py:48-63 | at the operator the scan picks, the text parses exactly when both operands parse, into that operator's node over the two operand trees; the left operand is read first, so its error is the one reported, and the right operand's error only when the left one parses |
| RoundTrip.ParseWrappedStep | solucion.py:26-37 | a balanced, trimmed text in one pair of parentheses parses as the text inside |
| RoundTrip.ParseRender | solucion.py:17-89 | printing a tree whose binders are single lower-case letters and whose atoms are single lower-case letters other than `v`, then parsing the result, gives the tree back |
| RoundTrip.ParseTwoLetters | solucion.py:48-71 | two letters joined by `v` or `&` parse to that connective over the two atoms |
| RoundTrip.ParseDisjunctionChain | solucion.py:50-63 | `c v d v f` parses as `((c v d) v f)`, because the scan runs right to left |
| RoundTrip.ParseImplicationOverConjunction | solucion.py:48-63 | `c & d -> f` parses as `((c & d) -> f)`, because `->` is tried before `&` |
| RoundTrip.DisjunctionsGroupLeft | solucion.py:48-71 | `p v q v r` parses as `((p v q) v r)` |
| RoundTrip.ImplicationSplitsFirst | solucion.py:48-71 | `p & q -> r` parses as `((p & q) -> r)` |
| RoundTrip.EmptyRejected | solucion.py:66-73 | the empty text is rejected and reported as the empty text |
| RoundTrip.LoneVRejected | solucion.py:48-73 | the text `v` is rejected: it splits as a disjunction whose left operand is empty |
| RoundTrip.BareQuantifierRejected | solucion.py:26-73 | `(Ax)` is rejected, reporting `Ax`: it loses its parentheses, and then the quantifier pattern needs whitespace and a body |
| Printer.Render | solucion.py:75-89 | an atom prints as its name; every other node prints as a parenthesised group |
| Printer.RenderFacts | solucion.py:75-89 | the printed text of a parsable tree is balanced, has no whitespace at its ends and no line feed, starts with `(` or an atom letter, and a compound node prints as one outermost parenthesised group |
| Printer.NameText | solucion.py:230 | a plain name prints as its letter; a fresh name prints as its letter followed by its suffix, so the text is longer than one character |
| Printer.DigitsValue | solucion.py:230 | the decimal suffix of a fresh name reads back as its index, so distinct suffixes give distinct names |
| Normalize.RemoveBiconditionals | solucion.py:93-108 | the result has no `<->`; quantifiers, binders, atoms and quantifier-freeness are kept; a formula without `<->` is returned unchanged |
| Normalize.RemoveBiconditionalsSound | solucion.py:103-107 | replacing `P <-> Q` with `(P -> Q) & (Q -> P)` keeps the meaning of the formula under every valuation |
| Normalize.RemoveImplications | solucion.py:110-124 | the result has no `->`, and no `<->` if the input had none; quantifiers, binders and atoms are kept; a formula without `->` is unchanged |
| Normalize.RemoveImplicationsSound | solucion.py:120-123 | replacing `P -> Q` with `(- P) v Q` keeps the meaning |
| Normalize.EliminationsArrowFree | solucion.py:285-286 | after the two eliminations, no arrow is left |
| Normalize.PushNegations | solucion.py:126-154 | an arrow-free input comes out in negation normal form; binders and atoms are kept; a formula already in negation normal form is unchanged |
| Normalize.PushNegationsSound | solucion.py:126-154 | double negation, De Morgan and the quantifier dualities keep the meaning |
| Normalize.NegatedQuantifier | solucion.py:144-149 | `- (Ax P)` becomes `(Ex P')` and `- (Ex P)` becomes `(Ax P')`, on the same variable, where `P'` is in negation normal form and means `- P` |
| Normalize.PushNegationsIdempotent | solucion.py:126-154 | on arrow-free formulas, a second negation-pushing pass changes nothing |
| Normalize.Distribute | solucion.py:156-178 | one bottom-up pass yields CNF; it keeps the atoms, the quantifiers and the size measure, and keeps negation normal form and arrow-freeness |
| Normalize.DistributeOr | solucion.py:166-177 | distributing `v` over two operands in CNF gives CNF with the atoms and quantifiers of both, and its size measure is the product of theirs |
| Normalize.DistributeSound | solucion.py:156-178 | a distribution pass keeps the meaning |
| Normalize.DistributeOrSound | solucion.py:166-177 | the distributed disjunction means the disjunction of its operands |
| Normalize.DistributeFixesCnf | solucion.py:156-178 | a pass leaves a CNF formula unchanged, so the loop's equality test ends it |
| Normalize.ConvergeAfterOnePass | solucion.py:192-197 | with a cap of two or more passes, the loop returns exactly the result of the first pass: the second pass finds nothing to change |
| Normalize.ConvertMatrixToCnf | solucion.py:180-198 | the result is in CNF; a CNF input is returned unchanged; quantifier-freeness, negation normal form and arrow-freeness are kept |
| Normalize.ConvertMatrixToCnfSound | solucion.py:180-198 | the 100-pass loop gives the one-pass result and keeps the meaning |
| QuantifierManager.FreeVariables | solucion.py:202-217 | the result is exactly the single-letter names that occur free and are not in `bound`, in both directions |
| QuantifierManager.FreshIndex | solucion.py:228-233 | returns the least `c<i>`, with `i` at least `k`, that is not taken |
| QuantifierManager.FreshName | solucion.py:225-233 | a binder keeps its name when the name is not taken; otherwise it gets the least suffixed name `x0`, `x1`, … that is not taken |
| QuantifierManager.FreshIndexLeast | solucion.py:228-233 | the fresh suffix is unique: any free `c<j>` whose smaller suffixes are all taken is the one chosen |
| QuantifierManager.ChooseFresh | solucion.py:226-233 | the counting loop stops at the name `FreshName` describes |
| QuantifierManager.Rename | solucion.py:243-261 | renaming keeps the tree's shape; it replaces `old` by `new` in the set of binders, and in the set of atoms only when `old` is a single letter; it changes nothing when `old` does not occur |
| QuantifierManager.RenameSound | solucion.py:243-261 | when `new` does not occur, the renamed formula means the original with `old` read as `new` |
| QuantifierManager.RenameKeepsNoShadow | solucion.py:236-237 | renaming a name that binds nothing keeps whether the formula is free of shadowing |
| QuantifierManager.Standardize | solucion.py:219-241 | the shape is kept and no binder shadows an enclosing binder or a taken name; any new name was not taken |
| QuantifierManager.StandardizeBinder | solucion.py:224-238 | each binder keeps its kind, and is either kept, when its name is not taken, or renamed to the least fresh suffixed name, with the old name gone from its scope |
| QuantifierManager.StandardizeSound | solucion.py:219-241 | on formulas whose names are single letters, standardisation keeps the meaning |
| QuantifierManager.Extract | solucion.py:263-276 | for arrow-free input the matrix has no quantifiers and the prefix is the formula's quantifiers listed in preorder, a quantifier before those in its body and the left operand's before the right operand's, each occurrence once; atoms and negation normal form are kept; a quantifier-free formula gives an empty prefix |
| QuantifierManager.BuildPcnf | solucion.py:278-282 | the first binding of the prefix ends up outermost; the result is in prenex CNF exactly when the matrix is; its quantifiers are the prefix's plus the matrix's |
| QuantifierManager.BuildPcnfFront | solucion.py:280-281 | building from a prefix starts with its first binding as the outermost quantifier |
| QuantifierManager.ExtractSiblings | solucion.py:269-272 | two quantified operands of `&` or `v` contribute their binders left to right |
| QuantifierManager.ExtractBuildPcnf | solucion.py:263-282 | extraction undoes the rebuild: the prefix comes back in order, followed by what the matrix itself yields |
| QuantifierManager.ExtractBuildPcnfRoundTrip | solucion.py:263-282 | over a quantifier-free matrix, extracting a rebuilt tree gives back the prefix and the matrix |
| QuantifierManager.BuildPcnfExtract | solucion.py:263-282 | rebuilding the extracted parts of a prenex CNF tree gives the tree back |
| Pipeline.Standardized | solucion.py:285-288 | the tree handed to extraction is arrow-free, in negation normal form, and has no shadowed binder |
| Pipeline.ConvertToPcnf | solucion.py:284-293 | the output is in prenex CNF |
| Pipeline.PipelineShape | solucion.py:284-293 | the output's prefix is the standardised tree's quantifiers, in preorder, over a CNF matrix with the same meaning as the extracted matrix |
| Pipeline.StandardizedSound | solucion.py:285-288 | every step before extraction keeps the meaning |
| Pipeline.DisjunctionOfQuantifiers | solucion.py:284-293 | `((Az p) v (Ew q))` becomes `(Az (Ew (p v q)))` |
| Pipeline.NegatedConjunction | solucion.py:284-293 | `(Ex (- (a & b)))` becomes `(Ex ((- a) v (- b)))` |
| Capture.SiblingsShareName | solucion.py:239-240 | both operands are standardised against the same taken names, so sibling binders on `x` both keep `x` |
| Capture.SiblingCapture | solucion.py:284-293 | `((Ex x) & (Ex (- x)))` becomes `(Ex (Ex (x & (- x))))`: the input is true under every valuation and the output is false |
| Capture.FreeNameKept | solucion.py:219-241 | a binder on a name that also occurs free keeps that name |
| Capture.FreeCapture | solucion.py:284-293 | `(p & (Ep (- p)))` becomes `(Ep (p & (- p)))`, which binds the free `p`: with `p` true, the input holds and the output does not |
| Capture.ExtractSound | solucion.py:263-282 | extraction followed by the rebuild keeps the meaning when no operand binds a name its sibling uses |
| Capture.DistinctPrefix | solucion.py:263-276 | under the same condition, and without shadowing, the extracted prefix binds pairwise distinct names |
| Capture.StandardizeApart | solucion.py:219-241 | repaired standardisation, with the taken names threaded from the left operand to the right and seeded with the free names: the shape is kept, there is no shadowing, no name becomes free that was not free, and no operand binds a name its sibling uses |
| Capture.StandardizeApartSound | solucion.py:219-241 | the repaired standardisation keeps the meaning |
| Capture.ConvertToPcnfApart | solucion.py:284-293 | the repaired pipeline's output is in prenex CNF |
| Capture.ConvertToPcnfApartSound | solucion.py:284-293 | the repaired pipeline keeps the meaning of every formula the parser can produce |
| Capture.ConvertToPcnfApartDistinct | solucion.py:284-293 | the repaired pipeline's prefix binds pairwise distinct names |
| Capture.SiblingsKeptApart | solucion.py:219-241 | with the repair, `((Ex x) & (Ex (- x)))` gets the prefix `Ex`, `Ex0` over `(x & (- x0))` |

## Left out

- Input and output are left out. The demo block, `__repr__`, `copy` and the
  printing of results are not modelled.
- Mutation and aliasing are left out. The source rewrites nodes in place and
  shares subtrees; for example, the two implications made from one
  biconditional share both operands, so a later pass can meet a subtree that
  it already rewrote. Distribution shares one operand between the two new
  disjunctions it builds (solucion.py:170-171 and 175-176); that operand is
  already in conjunctive normal form, so a pass that revisits it changes
  nothing. The model treats trees as values and applies each pass to the
  value of each subtree.
- Normalize.PushNegations reads every atom as an atom. The source tells
  node kinds apart by their `value` string alone, so a leaf named `v` under
  a negation is taken for a disjunction without operands, and `- v` becomes
  `(- & -)` (solucion.py:140-143). The parser never builds such a leaf: its
  atoms match `[a-z]`, and a lone `v` is split as a disjunction
  (Parser.LoneVIsDisjunction).
- Pipeline.ConvertToPcnf and Pipeline.Standardized inherit this. On a tree
  built by hand with an atom named `v`, or named by another operator
  character such as `&`, `-`, `A` or `E`, the source's passes read the leaf
  as an operator with missing children. The model's results hold for the
  atom reading. Every tree the parser returns is free of such atoms.
- The missing-child branches (`node is None`, `getattr` defaults) are left
  out. The datatype gives every node exactly the children its kind needs.
- The `Node('a')` fallback for a missing matrix in `convert_to_pcnf` is left
  out. Extraction always returns a matrix, so that branch cannot run.
- A quantifier without a variable (the `'v'` default in
  `standardize_variables`) is left out. The parser never builds one.
- Pipeline.ConvertToPcnf requires binders to be single letters. Trees from
  the parser always have such binders. Suffixed input binders would need
  names as free strings.
- Text.StripShape uses ASCII whitespace only: tab to carriage return, and
  space. Python's `strip` and `\s` also accept the separators 0x1C to 0x1F
  and Unicode spaces.
- QuantifierManager.Rename omits the `bound` parameter. The source computes
  it but never reads it, so renaming also reaches names a nested quantifier
  rebinds.
- The 100-pass cap is kept in `ConvertMatrixToCnf`. It is never reached:
  the loop stops after at most two passes, and its result is one pass of
  distribution. In the source the first pass rewrites `previous` in place,
  so the loop often stops after that pass; the result is the same.
- The meaning of formulas reads quantifiers over truth values, not over a
  first-order domain. Soundness is therefore stated for that reading.
- Parser.Parse returns `Failure(text)` where the source raises
  `ValueError("Invalid expression: …")` (solucion.py:73). The failure carries
  the offending text but not the message prefix.
- Normalize.ConvertMatrixToCnf returns the last tree when the pass cap is
  reached, as the loop at solucion.py:194-198 does; no error is raised.
- QuantifierManager.FreeVariables accepts only `a` to `z` as single-letter
  names. The test `v.islower()` at solucion.py:213 also accepts non-ASCII
  lower-case letters such as `é`. The parser's patterns use `[a-z]`, so such
  names reach the function only in trees built by hand.

## Findings

| source | as written | input that shows it | evidently intended | confidence | as-written member | corrected member |
|---|---|---|---|---|---|---|
| solucion.py:239-240 | both operands of a connective are standardised against the same taken names, so sibling quantifiers may bind the same name, and extraction then hoists both over the whole matrix | `((Ex x) & (Ex (- x)))` becomes `(Ex (Ex (x & (- x))))`, which is false while the input is true | the names taken in the left operand are also taken in the right one, so every binder of the prefix is distinct and capture cannot occur | high, proved on the model; not executed | Capture.SiblingCapture | Capture.ConvertToPcnfApartSound |
| solucion.py:288 | standardisation starts from no taken names, and `collect_free_variables` is never called, so a binder may keep a name that also occurs free | `(p & (Ep (- p)))` becomes `(Ep (p & (- p)))`, which binds the free `p` | the free names are taken from the start, so the binder is renamed to `p0` | high, proved on the model; not executed | Capture.FreeCapture | Capture.ConvertToPcnfApartSound |
