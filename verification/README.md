# InferenceEngine core in Dafny

This project models the algorithmic core of InferenceEngine, a small propositional-logic
toolkit:

- **Expressions** (`expr.dfy`, `infix.dfy`). An expression is a node with a string operator
  tag and an ordered list of operands. The model covers:
  - the `~`, `&` and `a | op | b` builders;
  - `is_symbol` and `get_symbols`;
  - the `dissociate`/`associate` flattening pair;
  - `__repr__`;
  - the text rewriting done before `eval`: `handle_infix_ops` and the string loop of
    `kb2expr`.
- **Conversion to conjunctive normal form** (`cnf.dfy`, `cnf_examples.dfy`):
  `eliminate_implications`, `move_not_inwards`, `distribute_and_over_or` and `to_cnf`.
- **Model checking**. There are two evaluators and two truth-table entailment procedures:
  - the two-valued `pl_true` and `tt_entails` with its model count
    (`inference_algorithms.dfy`);
  - the three-valued `pl_true`, where an unassigned symbol is `None`, and its `tt_entails`
    (`entail_engine.dfy`).
- **Chaining over a definite-clause knowledge base**: forward chaining `pl_fc_entails`
  (`fc.dfy`, with the as-written procedure's relation to entailment in `fc_written.dfy`)
  and backward chaining `pl_bc_entails` (`bc.dfy`). The knowledge base and its two lookups
  are in `kb.dfy`.
- **Utilities** (`utils.dfy`): `first` and `extend`.

Each operation is checked against a partner:
- `semantics.dfy` gives an independent reference meaning `Holds(e, m)` of an expression in
  a model. It also defines entailment as "true in every model of the knowledge base".
- The CNF stages are proved to keep the truth value in every model.
- The evaluators are proved to agree with `Holds`.
- `tt_entails` is proved to decide entailment.
- Forward chaining is proved sound and complete for definite clauses, with a trace that is
  a derivation.

Modelling decisions:

- **Values and equality.** `Expr` is an immutable datatype. `__eq__` is structural, so
  Dafny's equality is the source's. Models are `map<Expr, bool>`, and `extend` returns a new
  map.
- **Errors.** Python exceptions and failed `assert`s become a `Result` error:
  - `AssertionFailed`;
  - `IllegalOperator` for the `ValueError` of `pl_true`;
  - `UnpackMismatch` for `p, q = args` on a node that does not have two operands;
  - `IndexOutOfRange`.
- **Dialects.** `WellFormed(e, arrow, minOperands)` describes the formulas an operation
  accepts.
  - The evaluators accept the implication tag `"==>"`. The CNF conversion recognises
    `"=>"` (cnf.py:23).
  - The reference semantics reads both tags as implication.
  - `ToCnfWith(arrow, s)` takes the implication tag as a parameter. `ToCnf` is the source's
    choice, `"=>"`.
- **The test suites as evidence.** Several test cases cannot pass as written. The worked
  examples of this model state what those cases evidently mean.
  - Some tests build their implications from strings with a bare `=>`, such as
    `'a => b'`. This happens at test_cnf.py:10, 28-29 and 48, and at
    test_inference_algorithms.py:12, 15 and 27. `handle_infix_ops` rewrites only `||`,
    `<=>` and `==>`, so the bare `=>` stays in the text, and that text is not valid
    Python.
  - The CNF examples are stated on the trees those strings evidently mean, with `"=>"` as
    the tag.
  - The `pl_true` and `tt_entails` examples read the same text with the evaluators'
    `"==>"`. A tree tagged `"=>"` would be rejected by `pl_true`
    (`InferenceAlgorithms.PlTrueRejectsCnfArrow`).
  - test_inference_algorithms.py:32-35 assert `tt_entails(...) is True` or `is False`.
    But `tt_entails` returns a pair of the verdict and the model count
    (inference_algorithms.py:10-15), and a pair is never `True` or `False`. The examples
    state the verdict component, and the count when the verdict is true.
- **Operand removal in `distribute_and_over_or`.** cnf.py:68 removes the first `&` operand
  by object identity (`is not conj`). The model removes it by position. These differ only
  when the same object appears twice in one operand list.
  - In that case Python drops every copy. For `x || x` built from a single object
    `x = a & b`, nothing is left, and `associate('||', [])` fails its assertion.
  - The model removes one copy and returns a CNF.
  - `to_cnf` never reaches this case. The `&` nodes it hands to this step are built
    afresh, by `move_not_inwards` (cnf.py:48) or by `associate`, so no two of them are one
    object.
- **Termination of `distribute_and_over_or`.** It terminates on the pair (number of nodes
  outside `||` chains, size).
- **The knowledge base.** Its class is not part of this model. A knowledge base is a
  sequence of clauses. Each clause is a bare symbol (a fact) or `premise ==> conclusion`.
  - `clauses_with_premise(p)` and `clauses_by_conclusion(p)` are taken to be
    order-preserving filters over that sequence. This is an assumption.
  - `conjuncts`, imported from cnf.py but not defined there, is taken to be
    `dissociate('&', [s])`.
- **Symbol order in `tt_entails`.** `tt_entails` enumerates `list(get_symbols(kb & query))`.
  Python fixes no order for this list, so the model takes any enumeration without repeats.
  `TtEntailsOrderIndependent` proves that the answer does not depend on the order.
- **Forward chaining, corrected.** `ForwardChaining.PlFcEntails` keeps one counter per
  position in the clause list. It starts each counter at the number of distinct premise
  symbols. `ForwardChaining.FcAsWritten` keeps the source's counters, which are keyed by
  clause value and count repeated conjuncts. The difference is under "## Findings".
  The two agree where the source's counters are right. On a knowledge base that lists no
  rule twice, the as-written trace is a derivation, so a yes means the query is entailed
  (`ForwardChainingAsWritten.FcAsWrittenSound`). If, in addition, no rule repeats a premise
  symbol, the as-written answer is exactly entailment
  (`ForwardChainingAsWritten.FcAsWrittenCorrect`). The proof carries the invariant that
  each counter equals the number of premise conjuncts less the number of premise symbols
  already inferred.
- **Backward chaining, as written.** `BackwardChaining.PlBcEntails` is the source loop:
  - the goal stack is popped from its end;
  - the loop answers yes as soon as the popped goal is a fact;
  - it answers no as soon as the popped goal is concluded by no rule, whatever else is
    still on the stack;
  - a goal already expanded is skipped;
  - when the stack empties, the function falls off its end and returns `None`, modelled as
    `NoAnswer`.

  The proved contract covers the trace: it starts with the query, every later entry is a
  premise of a rule concluding an earlier one, and the final entry justifies the answer.
  Three lemmas show that the answer is neither sound nor complete:
  - `BcAnswersYesUnentailed`: a yes on a knowledge base that does not entail the query;
  - `BcAnswersNoEntailed`: a no on one that does;
  - `BcNoAnswerOnCycle`: no answer on a cyclic rule.

  This is what the code does. A recursive proof search would behave differently.
- **Unreachable lines.** In `pl_bc_entails`, lines 108-109 cannot run, because line 104
  has already returned when no rule concludes `p`. The condition `c.op == '==>'` at line 111
  always holds, because only rules conclude anything.

## Model

| member | source | states |
|---|---|---|
| Utils.First | utils.py:6-8 | The first element of a non-empty sequence, and the default on an empty one. |
| Utils.Extend | utils.py:11-13 | The new map binds the key to the value, overriding an older binding. Every other key keeps its value. The key set grows by exactly that key. The argument map is a value and is left as it was. |
| Exprs.Equal | expr.py:24-25 | The recursive comparison of tags and operand lists is true exactly when the two expressions are identical. |
| Exprs.EqualAll | expr.py:24-25 | Pointwise comparison of operand tuples is true exactly when the sequences are equal. |
| Exprs.BuildersShape | expr.py:12-22 | `~a` is the one-operand `~` node, and `a & b` equals `b.__rand__(a)`, the `&` node with `a` on the left. |
| Exprs.InfixBuilderShape | expr.py:45-51 | `a \| op` is a pending value holding `op` and `a`, and completing it with `b` gives the node `op(a, b)`. |
| Exprs.SymbolIffLeadingLetter | expr.py:134-136 | A tag is a symbol exactly when it is non-empty and its first character is a letter. |
| Exprs.ConnectivesAreNotSymbols | expr.py:134-136 | None of the connective tags, and not the empty tag, is a symbol. |
| Exprs.Symbols | expr.py:139-144 | Every element of `get_symbols(x)` is a symbol node, and a symbol's set is just itself. |
| Exprs.BuilderSymbols | expr.py:139-144 | The symbols of `~a`, `a & b` and `a op b` are those of the operands, united. |
| Exprs.Dissociate | expr.py:116-131 | No collected term carries the operator, and the collected terms are no larger in total than the input. |
| Exprs.DissociateAppend | expr.py:121-131 | Collecting from a concatenation concatenates the collections, so left-to-right order is kept. |
| Exprs.DissociateFlat | expr.py:123-128 | A list with no node of the operator is returned as it is. |
| Exprs.DissociateIdempotent | expr.py:116-131 | Dissociating the output again changes nothing. |
| Exprs.DissociateSymbols | expr.py:116-131 | Dissociating keeps exactly the symbols of the input. |
| Exprs.Associate | expr.py:94-113 | It fails (the `assert False`) exactly when nothing is collected. It gives an `op` node whose operands are the collected terms exactly when two or more are collected. Otherwise it gives the single collected term. |
| Exprs.AssociateSymbols | expr.py:94-113 | Associating keeps exactly the symbols of the operands. |
| Exprs.AssociateSplicesConjunctions | test_cnf.py:22 | `associate('&', [a & b, b \|\| c, b & c])` is `a & b & (b \|\| c) & b & c`. |
| Exprs.AssociateFlattensNestedDisjunctions | test_cnf.py:23 | `associate('\|\|', [a \|\| (b \|\| (c \|\| (a & b)))])` is `a \|\| b \|\| c \|\| (a & b)`. |
| Exprs.DissociateLeftChain | expr.py:121-131 | The operands of a left-nested chain `((x op y) op z) op w` with no `op` leaves are `x, y, z, w` in order. |
| Exprs.DissociatePairExample | test_cnf.py:12 | `dissociate('&', (a & b).args)` is `[a, b]`. |
| Exprs.DissociateNestedConjunctionExample | test_cnf.py:13 | The operands of `(a & b) & (c \|\| b) & d`, dissociated on `&`, are `a, b, c \|\| b, d`. |
| Exprs.DissociateNestedDisjunctionExample | test_cnf.py:14 | The operands of `(a <=> b) \|\| (c => a) \|\| c \|\| d`, dissociated on `\|\|`, are `a <=> b, c => a, c, d`. |
| Exprs.ReprSymbol | expr.py:36-37 | A symbol renders as its name. |
| Exprs.ReprNot | expr.py:38-39 | A one-operand node renders as its tag followed by the operand. |
| Exprs.ReprBinary | expr.py:40-42 | A two-operand connective renders as the parenthesised operands joined by the tag in spaces. |
| Exprs.ReprExample | expr.py:82-83 | `magical & mythical` renders as `(magical & mythical)`. |
| Semantics.Lookup | inference_algorithms.py:39-40 | An unassigned symbol reads as false. |
| Semantics.DissociateHolds | expr.py:116-131 | Flattening a `&` or `\|\|` chain keeps its meaning in every model. |
| Semantics.AssociateHolds | expr.py:94-113 | `associate(op, args)` means the conjunction or disjunction of `args` in every model. |
| Semantics.EntailsOverSymbols | entail_engine.py:10 | Checking all assignments to `get_symbols(kb & query)` is the same as checking every model. |
| Semantics.EntailsExtendingSplit | inference_algorithms.py:28-31 | Entailment over the remaining symbols holds exactly when it holds with the next symbol set to true and with it set to false. |
| Infix.Replace | expr.py:69 | `str.replace` leaves text without the pattern unchanged, and text that starts with the pattern starts with the replacement afterwards. |
| Infix.ReplaceAtFirstOccurrence | expr.py:69 | When no occurrence of the pattern starts inside `u`, `u + pat + v` becomes `u + rep` followed by the replacement of `v`. |
| Infix.FirstOccurrence | expr.py:69 | Text in which the pattern occurs has a first occurrence, before which none starts. |
| Infix.ReplaceSplitsAtFirst | expr.py:69 | Text in which the pattern occurs is copied up to the first occurrence, that occurrence becomes the replacement, and the rest is replaced in turn. With the pattern-free case, this fixes `str.replace` on every input. |
| Infix.HandleInfixOpsKeepsPlainText | expr.py:67-70 | Text containing none of `\|\|`, `<=>`, `==>` is passed on unchanged. |
| Infix.HandleInfixOpsImplication | expr.py:67-70 | `u==>v` becomes `u\| '==>' \|v` when neither side contains `\|`, `<` or `=`. |
| Infix.HandleInfixOpsAllThree | expr.py:67-70 | In `a \|\| b <=> c ==> d`, each token becomes its quoted infix-builder form and the operand texts are kept. The `=` inside the quoted `'<=>'` does not start a `==>` match. |
| Infix.OrPass | expr.py:68-69 | The `\|\|` pass on that sentence. |
| Infix.IffPass | expr.py:68-69 | The `<=>` pass on its output. |
| Infix.ImplicationPass | expr.py:68-69 | The `==>` pass on that output. |
| Infix.IffSkippedByImplicationScan | expr.py:69 | Scanning for `==>` copies a `<=>` through unchanged. |
| Infix.ReplaceLone | expr.py:69 | A lone token between texts that lack its first character becomes the replacement, and nothing else changes. |
| Infix.ArrowRewriteAsWrittenManglesIff | expr.py:88 | The rewrite as written turns `<=>` into `<==>`, and no `<=>` is left. |
| Infix.ArrowRewriteAsWrittenManglesImplication | expr.py:88 | The rewrite as written turns an existing `==>` into `===>`. |
| Infix.NormalizeArrows | expr.py:88 | The corrected rewrite never shortens text, keeps the first character, and never leaves a bare `=>` at the start. |
| Infix.NormalizeArrowsKeepsArrowFree | expr.py:88 | Text without `=>` is left as it is. |
| Infix.NormalizeArrowsLeavesNoBareArrow | expr.py:88 | After the corrected rewrite every `=>` is the tail of `==>` or `<=>`. |
| Infix.NormalizeArrowsIdempotent | expr.py:88 | Rewriting twice is rewriting once. |
| Infix.NormalizeArrowsKeepsIff | expr.py:88 | `a <=> b` survives the corrected rewrite. |
| Infix.NormalizeArrowsKeepsImplication | expr.py:88 | `p ==> q` survives the corrected rewrite. |
| Infix.NormalizeArrowsWidensArrow | expr.py:88 | `p => q` becomes `p ==> q`. |
| Infix.KbToText | expr.py:85-89 | The text is the sentences, each with every `=>` replaced by `==>` as line 88 writes it, parenthesised and joined by `&`. It is empty exactly when the knowledge base is, which is when `expr` fails its assertion. |
| Infix.KbTextSingle | expr.py:85-89 | A single sentence gives that sentence, rewritten, in parentheses. |
| Infix.KbTextAsWrittenManglesIff | expr.py:88 | `kb2expr(['a <=> b'])` hands `(a <==> b)` to `expr`. |
| Infix.KbTextAsWrittenManglesImplication | expr.py:88 | `kb2expr(['p ==> q'])` hands `(p ===> q)` to `expr`. |
| Infix.KbTextNormalizedIff | expr.py:88 | With the corrected rewrite, `a <=> b` reaches `expr` intact as `(a <=> b)`. |
| Infix.KbTextNormalizedImplication | expr.py:88 | With the corrected rewrite, `p ==> q` reaches `expr` intact as `(p ==> q)`. |
| Infix.KbTextNormalizedArrow | expr.py:88 | With the corrected rewrite, the bare arrow of `p => q` reaches `expr` as `(p ==> q)`. |
| Infix.KbTextArrowFree | expr.py:88 | On sentences without `=>` the as-written and the corrected rewrites both leave the text as it is. |
| Cnf.Rewrite | cnf.py:21-29 | The assertion fails exactly when the tag is none of the implication tag, `<=>`, `&`, `\|\|`, `~`. |
| Cnf.EliminateCorrect | cnf.py:15-29 | On a formula of the dialect it succeeds, leaves only `~`, `&`, `\|\|` over symbols, and keeps the truth value in every model. |
| Cnf.RewriteCorrect | cnf.py:21-29 | Rebuilding one node from its rewritten operands succeeds and keeps the node's truth value. |
| Cnf.RewriteArrowCorrect | cnf.py:23-26 | `a => b` becomes `~a \|\| b` and `a <=> b` becomes `(~a \|\| b) & (~b \|\| a)`, with the same truth value. |
| Cnf.RewriteJunctionCorrect | cnf.py:27-29 | A `&` or `\|\|` node is rebuilt from its rewritten operands with the same truth value. |
| Cnf.EliminateAllCorrect | cnf.py:20 | Mapping the rewrite over the operands succeeds and keeps each operand's truth value. |
| Cnf.MoveNotInwardsCorrect | cnf.py:32-48 | On `~`/`&`/`\|\|` formulas it succeeds, puts `~` only directly on symbols, and keeps the truth value. |
| Cnf.DeMorganCorrect | cnf.py:40-43 | Negating the operands of a `&` (or `\|\|`) and associating them with the other junction gives the negation of the node. |
| Cnf.RebuildCorrect | cnf.py:47-48 | A junction rebuilt from negation-normal operands of the same truth value is negation-normal with the same truth value. |
| Cnf.NegateAllCorrect | cnf.py:35-43 | `NOT` over every operand succeeds, and each result is negation-normal and has the opposite truth value. |
| Cnf.MoveAllCorrect | cnf.py:48 | Mapping the rewrite over the operands succeeds and keeps each operand's truth value. |
| Cnf.DissociateNnf | cnf.py:41-43 | Flattening negation-normal operands gives negation-normal terms, and at least one of them. |
| Cnf.AssociateNnf | cnf.py:41-43 | Associating negation-normal operands succeeds and is negation-normal. |
| Cnf.FirstConjunct | cnf.py:63 | The index found is that of the first `&` operand; none is found exactly when there is no `&` operand. |
| Cnf.SplitDisjunction | cnf.py:63-69 | The flattened disjunction is true exactly when the chosen conjunction or the disjunction of the other operands is. |
| Cnf.FlatDisjunctionIsClause | cnf.py:65-66 | A flattened disjunction with no `&` operand is returned as a clause. |
| Cnf.JoinDistributed | cnf.py:71 | Associating the distributed pieces is a CNF that is true exactly when the conjunction or the rest is. |
| Cnf.AssociateCnf | cnf.py:71-73 | Associating CNF pieces with `&` succeeds and is a CNF. |
| Cnf.DistributeCorrect | cnf.py:51-75 | On a negation-normal formula it succeeds, gives a conjunction of clauses, and keeps the truth value. |
| Cnf.DistributeOrCorrect | cnf.py:54-71 | The same for a `\|\|` node. |
| Cnf.DistributeSplitCorrect | cnf.py:63-71 | The same when the flattened disjunction has a `&` operand to distribute. |
| Cnf.DistributeAndCorrect | cnf.py:72-73 | The same for a `&` node. |
| Cnf.DistributeOneCorrect | cnf.py:71 | `distribute(c \|\| rest)` is a CNF true exactly when `c` or `rest` is. |
| Cnf.DistributeEachCorrect | cnf.py:71 | The same for each conjunct `c` in turn. |
| Cnf.DistributeAllCorrect | cnf.py:73 | Distributing each operand of a `&` keeps each one's truth value and gives CNFs. |
| Cnf.DistributeKeepsOtherNodes | cnf.py:74-75 | A node tagged neither `&` nor `\|\|` comes back unchanged, whatever lies below it. |
| Cnf.ToCnfCorrect | cnf.py:7-12 | With either implication tag, a formula of that dialect converts, the result is in CNF, and it has the formula's truth value in every model. |
| Cnf.ToCnfRejectsEvaluatorArrow | cnf.py:23-28 | `to_cnf` of a `==>` node fails on the assertion at line 28. |
| CnfExamples.EliminateIffExample | test_cnf.py:31 | `a <=> b` becomes `(~a \|\| b) & (~b \|\| a)`. |
| CnfExamples.EliminateImpliesExample | test_cnf.py:32 | `a => b` becomes `~a \|\| b`. |
| CnfExamples.EliminateArrow | cnf.py:23-24 | An implication whose sides the first stage leaves alone becomes `~x \|\| y`. |
| CnfExamples.EliminateNestedExample | test_cnf.py:33 | `((~a & b) \|\| c) => d` becomes `~((~a & b) \|\| c) \|\| d`: only the outer arrow is rewritten. |
| CnfExamples.NegatedAtom | cnf.py:44 | A negated symbol is left as it is. |
| CnfExamples.DoubleNegationExample | test_cnf.py:41 | `~~a` becomes `a`. |
| CnfExamples.DeMorganExamples | test_cnf.py:42-43 | `~(a & b)` becomes `~a \|\| ~b` and `~(a \|\| b)` becomes `~a & ~b`. |
| CnfExamples.DistributeExample | test_cnf.py:50 | `(a & b) \|\| c` becomes `(a \|\| c) & (b \|\| c)` for any `a`, `b`, `c` tagged neither `&` nor `\|\|`. |
| CnfExamples.DistributeNestedExample | test_cnf.py:51 | `((a => (b & c)) & d) \|\| (b <=> d)` becomes `((a => (b & c)) \|\| (b <=> d)) & (d \|\| (b <=> d))`. |
| CnfExamples.ToCnfNegatedDisjunctionExample | test_cnf.py:58 | `~(b \|\| c)` converts to `~b & ~c`. |
| CnfExamples.ToCnfDistributionExample | test_cnf.py:59 | `a \|\| (b & c)` converts to `(b \|\| a) & (c \|\| a)`. |
| InferenceAlgorithms.PlTrue | inference_algorithms.py:34-61 | Evaluation fails only on a formula outside the evaluator's dialect. |
| InferenceAlgorithms.AnyTrue | inference_algorithms.py:43-47 | The `\|\|` loop fails only if some operand is outside the dialect. |
| InferenceAlgorithms.AllTrue | inference_algorithms.py:48-52 | The `&` loop fails only if some operand is outside the dialect. |
| InferenceAlgorithms.PlTrueHolds | inference_algorithms.py:34-59 | On the dialect, `pl_true` never fails and gives the reference truth value, with unassigned symbols false. |
| InferenceAlgorithms.AnyTrueHolds | inference_algorithms.py:43-47 | The `\|\|` loop gives "some operand is true". |
| InferenceAlgorithms.AllTrueHolds | inference_algorithms.py:48-52 | The `&` loop gives "every operand is true". |
| InferenceAlgorithms.PlTrueImplicationIsDisjunction | inference_algorithms.py:56-57 | `p ==> q` evaluates exactly as `~p \|\| q`, errors included. |
| InferenceAlgorithms.PlTrueRejectsCnfArrow | inference_algorithms.py:54-61 | A `=>` node raises the illegal-operator error. |
| InferenceAlgorithms.PlTrueRejectsUnknownOperator | inference_algorithms.py:54-61 | Any other non-symbol tag raises the illegal-operator error when the node has two operands, and fails to unpack otherwise. Neither operand is evaluated. |
| InferenceAlgorithms.PlTrueExamples | test_inference_algorithms.py:18-20 | The three cases of the test suite evaluate to true, false and true, on the `==>` trees that lines 12 and 15 evidently mean. |
| InferenceAlgorithms.WellFormedWeaken | cnf.py:7-12 | A formula of the conversion's dialect belongs to the evaluator's dialect. |
| InferenceAlgorithms.CnfWellFormed | cnf.py:7-12 | A CNF uses only symbols, `~`, `&` and `\|\|`. |
| InferenceAlgorithms.ClauseWellFormed | cnf.py:7-12 | A clause uses only symbols, `~` and `\|\|`. |
| InferenceAlgorithms.PlTrueOfCnf | cnf.py:7-12 | With the evaluator's implication tag, converting to CNF does not change what `pl_true` answers in any model. |
| InferenceAlgorithms.TtCheckAll | inference_algorithms.py:18-31 | The count never decreases and grows by at most the number of assignments to the remaining symbols. |
| InferenceAlgorithms.TtEntails | inference_algorithms.py:10-15 | The count is at most the number of assignments to the symbols. |
| InferenceAlgorithms.TtCheckAllCorrect | inference_algorithms.py:18-31 | It never fails. It answers true exactly when every extension of the model that makes `kb` true makes `query` true. When it answers true, the count has grown by the number of extensions that make `kb` true. |
| InferenceAlgorithms.TtEntailsCorrect | inference_algorithms.py:10-31 | `tt_entails` is true exactly when `kb` entails `query`. When it is true, the count is the number of models of `kb` over the symbols. |
| InferenceAlgorithms.TtEntailsOrderIndependent | inference_algorithms.py:13 | The answer does not depend on the order of the symbol list. |
| InferenceAlgorithms.TtEntailsRangeExample | test_inference_algorithms.py:32 | On `A & (B \|\| C) & D & E & ~(F \|\| G)` and `A & D & E & ~F & ~G`, `tt_entails` answers true, with the count of models of the knowledge base, over any enumeration of the symbols. |
| InferenceAlgorithms.RangeEntails | test_inference_algorithms.py:32 | The entailment behind that case, in every model. |
| InferenceAlgorithms.TtEntailsDisjunctionExample | inference_algorithms.py:10-31 | `P \|\| Q` does not entail `Q`, so the answer is false. |
| InferenceAlgorithms.TtEntailsMythExamples | test_inference_algorithms.py:33-35 | On the unicorn knowledge base, read with `==>`, `tt_entails` answers false for `My`. It answers true for `Ma` and `H`, with the count of models of the knowledge base. This holds over any enumeration of the symbols. |
| InferenceAlgorithms.MythEntailments | test_inference_algorithms.py:27-30 | The unicorn knowledge base entails `H` and `Ma` but not `My`. |
| InferenceAlgorithms.MythWellFormed | test_inference_algorithms.py:27-30 | The unicorn knowledge base and its queries are formulas the evaluator accepts. |
| EntailEngine.Lookup3 | entail_engine.py:38-39 | An unassigned symbol is undefined, and an assigned one has its value. |
| EntailEngine.Negate | entail_engine.py:40-42 | Undefined stays undefined, and a defined value is flipped. |
| EntailEngine.Or3Table | entail_engine.py:43-51 | `\|\|` is true iff some operand is true, and false iff every operand is false. |
| EntailEngine.And3Table | entail_engine.py:52-60 | `&` is false iff some operand is false, and true iff every operand is true. |
| EntailEngine.Eval3 | entail_engine.py:35-77 | Evaluation fails only on a formula outside the dialect. |
| EntailEngine.Or3 | entail_engine.py:43-51 | The `\|\|` loop fails only if some operand is outside the dialect. |
| EntailEngine.And3 | entail_engine.py:52-60 | The `&` loop fails only if some operand is outside the dialect. |
| EntailEngine.PlTrue3AsWritten | entail_engine.py:32-33 | A Python boolean argument is returned unchanged. |
| EntailEngine.PlTrue3 | entail_engine.py:32-33 | The same for the corrected evaluator. |
| EntailEngine.ImplicationIsDisjunction | entail_engine.py:64-65 | `p ==> q` evaluates exactly as `~p \|\| q`. |
| EntailEngine.Eval3Total | entail_engine.py:30-77 | Under a model assigning every symbol of a formula of the dialect, the value is defined and is the reference truth value. |
| EntailEngine.Eval3Monotone | entail_engine.py:30-77 | For the corrected evaluator, a value decided under a partial model stays decided when more symbols are assigned. |
| EntailEngine.Or3Monotone | entail_engine.py:43-51 | The same for the corrected `\|\|` loop. |
| EntailEngine.And3Monotone | entail_engine.py:52-60 | The same for the corrected `&` loop. |
| EntailEngine.PlTrue3Sound | entail_engine.py:30-77 | What the corrected evaluator decides under a partial model is the truth value in every total model extending it. |
| EntailEngine.PlTrue3AsWrittenIffNotMonotone | entail_engine.py:67-75 | As written, `a <=> b` with `a` false and `b` unassigned is false, yet it becomes true once `b` is set false. The corrected evaluator answers undefined. |
| EntailEngine.PlTrue3AsWrittenIffLeftUndefined | entail_engine.py:67-70 | As written, `a <=> b` with `a` unassigned is undefined. |
| EntailEngine.Eval3RejectsUnknownOperator | entail_engine.py:62-77 | On well-formed operands, an unknown binary tag gives `None` when the left operand is undefined, and the illegal-operator error otherwise. |
| EntailEngine.TtCheckAll3 | entail_engine.py:14-27 | Leaves are evaluated with `pl_true` as written. A false answer comes with a model where `kb` is true and `query` is false. |
| EntailEngine.TtCheckAll3PartialIff | entail_engine.py:16-20 | On a partial model, `kb = ~a` and `query = a <=> b` with `a` false and `b` unassigned give false, not the assertion, because the as-written `<=>` reads as false there. |
| EntailEngine.TtEntails3 | entail_engine.py:8-11 | The same for `tt_entails`. Its leaf models assign every symbol of `kb & query`, where the as-written and the corrected evaluators agree. |
| EntailEngine.TtCheckAll3Correct | entail_engine.py:14-27 | Leaf models assign every symbol, so the assertion at line 19 never trips. The answer is true exactly when every extension making `kb` true makes `query` true. |
| EntailEngine.TtEntails3Correct | entail_engine.py:8-27 | `tt_entails` never fails and is true exactly when `kb` entails `query`. |
| EntailEngine.PlTrue3Examples | test_entail_engine.py:17-19 | The three cases of the test suite evaluate to true, false and true. |
| EntailEngine.TtEntails3RainExample | main.py:5 | The rain knowledge base does not entail `I_get_wet`. |
| EntailEngine.RainNotEntailed | main.py:5 | With an umbrella, the knowledge base holds and `I_get_wet` does not. |
| KnowledgeBase.Rule | inference_algorithms.py:71 | A rule node is a `==>` node whose premise and conclusion are the ones given. |
| KnowledgeBase.Conjuncts | inference_algorithms.py:71 | No conjunct is a `&` node, and a non-conjunction is its own single conjunct. |
| KnowledgeBase.ConjunctsOfPair | inference_algorithms.py:71 | The conjuncts of `x & y` are `[x, y]` when neither side is a conjunction. |
| KnowledgeBase.ConjunctsOfTriple | inference_algorithms.py:71 | The conjuncts of `(x & y) & z` are `[x, y, z]` when no leaf is a conjunction. |
| KnowledgeBase.Facts | inference_algorithms.py:73 | The facts are exactly the symbol clauses of the knowledge base. |
| KnowledgeBase.ClausesWithPremise | inference_algorithms.py:85 | The result is exactly the rules having `p` among their premise conjuncts. |
| KnowledgeBase.ClausesByConclusion | inference_algorithms.py:104 | The result is exactly the rules concluding `p`. |
| KnowledgeBase.ConjunctsHold | inference_algorithms.py:71 | A premise holds exactly when all its conjuncts hold. |
| KnowledgeBase.RuleHolds | inference_algorithms.py:71 | A rule holds exactly when a conjunct of its premise fails or its conclusion holds. |
| ForwardChaining.SupportedEntailed | inference_algorithms.py:82-88 | A symbol supported by entailed symbols is entailed. |
| ForwardChaining.DerivationSound | inference_algorithms.py:82-88 | Every symbol of a derivation is entailed. |
| ForwardChaining.ClosedCountermodel | inference_algorithms.py:76-90 | A symbol set that contains the facts, is closed under the rules and misses the query is a model in which the query is false. |
| ForwardChaining.InitialCounts | inference_algorithms.py:71 | Each rule's counter is its number of distinct premise symbols, and it is positive. |
| ForwardChaining.InitialState | inference_algorithms.py:72-73 | The initial agenda holds every fact, and no rule is ready to fire. |
| ForwardChaining.Fire | inference_algorithms.py:85-88 | After the inner loop, every counter counts the premises not yet inferred. The agenda is still supported. Every rule whose premises are now all inferred has its conclusion inferred or queued. |
| ForwardChaining.FireAt | inference_algorithms.py:85-88 | One clause of the inner loop keeps that progress. |
| ForwardChaining.CountsStepHit | inference_algorithms.py:86 | A rule with `p` among its premises loses one from its counter. |
| ForwardChaining.AppendConclusion | inference_algorithms.py:87-88 | A conclusion is queued only when all its premises are known. |
| ForwardChaining.QueuedStep | inference_algorithms.py:87-88 | A rule whose last missing premise was `p` gets its conclusion queued. |
| ForwardChaining.Step | inference_algorithms.py:76-88 | One pass either ends on the query with a derivation ending in it, or keeps the invariant and shrinks the measure. |
| ForwardChaining.ExtendTrace | inference_algorithms.py:82-84 | A new symbol extends the trace as a derivation without repetitions. |
| ForwardChaining.SkipKnown | inference_algorithms.py:82 | Dropping an already inferred symbol loses nothing. |
| ForwardChaining.Exhausted | inference_algorithms.py:90 | With the agenda empty and the query never met, the query is not entailed and is not in the trace. |
| ForwardChaining.Found | inference_algorithms.py:78-81 | The last symbol of a derivation is entailed. |
| ForwardChaining.PlFcEntails | inference_algorithms.py:64-90 | The answer is true exactly when the knowledge base entails the query. The trace is a derivation without repetitions, and it ends with the query on a yes and omits it on a no. |
| ForwardChaining.CountsAsWritten | inference_algorithms.py:71 | Each rule's counter is its number of premise conjuncts, repeats included. |
| ForwardChaining.DecrementAsWritten | inference_algorithms.py:85-88 | Every symbol queued is the conclusion of a visited rule, and at most one is queued per visit. |
| ForwardChaining.FcLoopAsWritten | inference_algorithms.py:76-90 | A yes ends the trace with the query, and a no leaves the query out of it. The trace never repeats a symbol, because `inferred` is written once per symbol and the query is appended only on the pop that returns. |
| ForwardChaining.FcAsWritten | inference_algorithms.py:64-90 | The same for the whole procedure as written. Its relation to entailment is stated by `ForwardChainingAsWritten.FcAsWrittenSound` and `FcAsWrittenCorrect`. |
| ForwardChaining.FcAsWrittenDuplicateClause | inference_algorithms.py:71 | As written, `[a & c ==> b, a & c ==> b, a]` answers yes with trace `[a, b]`, although `b` is not entailed. |
| ForwardChaining.FcAsWrittenRepeatedPremise | inference_algorithms.py:71 | As written, `[a & a ==> b, a]` answers no, although `b` is entailed. |
| ForwardChainingAsWritten.ClausesWithPremiseDistinct | inference_algorithms.py:85 | `clauses_with_premise` lists no rule twice when the knowledge base does not. |
| ForwardChainingAsWritten.DecrementFirst | inference_algorithms.py:85-88 | The first visit of the inner loop lowers that rule's counter by one and queues its conclusion exactly when the counter was one. |
| ForwardChainingAsWritten.DecrementCounts | inference_algorithms.py:85-86 | Over distinct rules, the inner loop lowers each visited counter by one and keeps every other counter. |
| ForwardChainingAsWritten.DecrementQueuedOnlyAtOne | inference_algorithms.py:86-88 | Over distinct rules, every queued symbol is the conclusion of a visited rule whose counter was one. |
| ForwardChainingAsWritten.DecrementQueuesAtOne | inference_algorithms.py:86-88 | Over distinct rules, the conclusion of every visited rule whose counter was one is queued. |
| ForwardChainingAsWritten.InferredCount | inference_algorithms.py:82-86 | Inferring a new symbol adds one to the inferred premise symbols of the rules that name it, and changes nothing for the others. |
| ForwardChainingAsWritten.AllPremisesMet | inference_algorithms.py:87 | A counter at zero under the invariant means every premise symbol of the rule is inferred. |
| ForwardChainingAsWritten.InferTurnCounts | inference_algorithms.py:82-86 | With no rule listed twice, after the inner loop each counter is the number of premise conjuncts less the premise symbols inferred, `p` now included. |
| ForwardChainingAsWritten.QueuedRule | inference_algorithms.py:85-88 | A queued symbol is the conclusion of a listed rule that names `p` and whose counter was one. |
| ForwardChainingAsWritten.InferTurnSupported | inference_algorithms.py:85-88 | With no rule listed twice, every symbol the inner loop queues has all the premise symbols of its rule inferred. |
| ForwardChainingAsWritten.InferTurnQueues | inference_algorithms.py:85-88 | If, in addition, no premise repeats a symbol, every rule whose last missing premise symbol was `p` has its conclusion queued. |
| ForwardChainingAsWritten.PendingAfterTurn | inference_algorithms.py:82-88 | After the inner loop nothing is lost: every fact, and the conclusion of every rule whose premises are all inferred, is inferred or on the agenda. |
| ForwardChainingAsWritten.AgendaAfterTurn | inference_algorithms.py:82-88 | After the inner loop the counters track the new inferred set, and every agenda entry is supported by it. |
| ForwardChainingAsWritten.ReadyAfterTurn | inference_algorithms.py:82-88 | A turn on a new symbol other than the query hands the loop arguments it accepts, with one symbol fewer left to infer. |
| ForwardChainingAsWritten.DerivesStateAfterTurn | inference_algorithms.py:82-88 | A turn on a new symbol keeps the soundness invariant: the counters track, the trace is a derivation, the agenda is supported. |
| ForwardChainingAsWritten.ClosesStateAfterTurn | inference_algorithms.py:82-88 | A turn on a new symbol keeps the completeness invariant. |
| ForwardChainingAsWritten.FcLoopAsWrittenDerives | inference_algorithms.py:76-90 | With no rule listed twice, every trace the as-written loop returns is a derivation. |
| ForwardChainingAsWritten.FcLoopAsWrittenCloses | inference_algorithms.py:76-90 | If, in addition, no premise repeats a symbol, a no from the as-written loop means the query is not entailed. |
| ForwardChainingAsWritten.InitialTrack | inference_algorithms.py:71 | The initial counters track the empty inferred set. |
| ForwardChainingAsWritten.FcAsWrittenSound | inference_algorithms.py:64-90 | With no rule listed twice, the as-written trace is a derivation, and a yes means the query is entailed. |
| ForwardChainingAsWritten.FcAsWrittenCorrect | inference_algorithms.py:64-90 | On a definite-clause knowledge base with no rule listed twice and no premise repeating a symbol, the as-written answer is yes exactly when the query is entailed. |
| ForwardChainingAsWritten.ScenarioPremises | test_file_parser.py:7 | The premise conjuncts of the seven rules of the parser test's knowledge base. |
| ForwardChainingAsWritten.ScenarioDefinite | test_file_parser.py:7 | Every clause of that knowledge base is definite. |
| ForwardChainingAsWritten.ScenarioNoRepeatedRule | test_file_parser.py:7 | No rule of it is listed twice. |
| ForwardChainingAsWritten.ScenarioDistinctPremises | test_file_parser.py:7 | No premise of it repeats a symbol. |
| ForwardChainingAsWritten.ScenarioEntailsChain | test_file_parser.py:7 | `p2`, `p3` and `p1` are entailed by it. |
| ForwardChainingAsWritten.ScenarioEntailsD | test_file_parser.py:7-8 | The query `d` is entailed by it. |
| ForwardChainingAsWritten.FcAsWrittenScenario | test_file_parser.py:7-8 | On that knowledge base and query `d`, `pl_fc_entails` as written answers yes, with a trace that is a derivation ending in `d`. |
| BackwardChaining.PremisesOf | inference_algorithms.py:110-113 | Every pushed goal is a premise conjunct of one of the rules expanded. |
| BackwardChaining.Pop | inference_algorithms.py:100-101 | Popping the top goal onto the trace keeps the trace grounded in the query. |
| BackwardChaining.Expand | inference_algorithms.py:106-113 | Pushing the premises of the rules concluding the goal keeps every pending goal fed by the trace. |
| BackwardChaining.BcLoop | inference_algorithms.py:99-113 | The loop ends with a non-empty grounded trace. A yes ends on a fact, and a no ends on a goal that is neither a fact nor concluded by any rule. |
| BackwardChaining.PlBcEntails | inference_algorithms.py:93-113 | The trace starts with the query and is grounded. A query that is a fact gives `(True, [query])`. A query that is neither a fact nor concluded gives `(False, [query])`. |
| BackwardChaining.BcStops | inference_algorithms.py:102-105 | A popped fact, or a popped goal no rule concludes, ends the loop. |
| BackwardChaining.BcExpands | inference_algorithms.py:106-113 | A new goal with rules is replaced by the premises of those rules. |
| BackwardChaining.BcSkips | inference_algorithms.py:106 | An already expanded goal is dropped. |
| BackwardChaining.BcAnswersYesUnentailed | inference_algorithms.py:102-103 | On `[c & a ==> q, a]` the answer is yes with trace `[q, c, a, a]`, although `q` is not entailed. |
| BackwardChaining.BcAnswersNoEntailed | inference_algorithms.py:104-105 | On `[d ==> q, c ==> q, d]` the answer is no with trace `[q, d, c, c]`, although `q` is entailed. |
| BackwardChaining.BcNoAnswerOnCycle | inference_algorithms.py:99-113 | On `[q ==> q]` the loop empties its stack and returns nothing, and `q` is not entailed. |

## Left out

- `expr()` and `DefaultKeyDict` (expr.py:61-76): parsing is Python's `eval` of the rewritten text. Only the text rewriting before `eval` is modelled.
- `Expr.__hash__` and `Expr.__lt__` (expr.py:27-31): Python hashing and ordering by rendered text. Dafny's structural equality, sets and maps replace them.
- `PartialExpr.__repr__` (expr.py:53-54): a debugging aid.
- iengine.py and main.py: command-line handling and printing. main.py's sample knowledge base appears only as the rain example.
- fc.py and bc.py: earlier drafts of the chaining procedures, superseded by inference_algorithms.py:64-113.
- DPLL and its heuristics: no implementation is part of this model.
- The knowledge-base class is not part of this model. Its lookups are the filters described above.
- Exprs.Symbols: states that every element is a symbol node and that a symbol's set is itself. It does not state that every symbol leaf is included; that follows from its recursive definition.
- Exprs.IsSymbol: `str.isalpha` accepts every Unicode letter. The model accepts ASCII letters only.
- Exprs.Repr: `str.isidentifier` is likewise restricted to ASCII. So a symbol whose name has a non-ASCII letter renders as `()` in the model, where the source prints its name.
- InferenceAlgorithms.TtEntails: the symbol list is any enumeration of `get_symbols(kb & query)` without repeats. Python's set iteration order is not modelled, and the answer does not depend on it.
- InferenceAlgorithms.TtCheckAll: the count is threaded as a value rather than through the shared one-element list. The sequence of updates is the same.
- ForwardChaining.PlFcEntails: requires a definite-clause knowledge base and a symbol query, which is what forward chaining is stated for. The as-written `ForwardChaining.FcAsWritten` takes any knowledge base of facts and rules.
- ForwardChaining.PlFcEntails: the `defaultdict` counters and `inferred` are modelled as a per-position sequence and a set.
- BackwardChaining.PlBcEntails: proves what the trace and the final goal justify. It does not state entailment, because the code does not decide entailment; the three example lemmas show this.

## Findings

| source | as written | input that shows it | evidently intended | confidence | as-written member | corrected member |
|---|---|---|---|---|---|---|
| expr.py:88 | `sentence.replace('=>', '==>')` also rewrites the `=>` inside `<=>` and inside `==>` | `kb2expr(['a <=> b'])` builds `(a <==> b)`, and `kb2expr(['p ==> q'])` builds `(p ===> q)` | only a bare `=>` becomes `==>`; `<=>` and `==>` are kept | high, not executed | Infix.KbToText, Infix.KbTextAsWrittenManglesIff, Infix.KbTextAsWrittenManglesImplication | Infix.NormalizeArrows, Infix.NormalizeArrowsLeavesNoBareArrow, Infix.KbTextNormalizedIff, Infix.KbTextNormalizedImplication, Infix.KbTextNormalizedArrow |
| inference_algorithms.py:71 | counters are keyed by clause value, so a rule listed twice shares one counter that both copies decrement | `[a & c ==> b, a & c ==> b, a]` with query `b` answers yes, but `b` is false in the model where only `a` is true | one counter per clause occurrence; yes only for entailed queries | high, not executed | ForwardChaining.FcAsWrittenDuplicateClause | ForwardChaining.PlFcEntails |
| inference_algorithms.py:71 | a counter starts at `len(conjuncts(premise))`, counting a repeated premise symbol twice, while each symbol is inferred once | `[a & a ==> b, a]` with query `b` answers no, though `b` is entailed | a counter starts at the number of distinct premise symbols | high, not executed | ForwardChaining.FcAsWrittenRepeatedPremise | ForwardChaining.PlFcEntails |
| entail_engine.py:74-75 | with the left side defined and the right side `None`, `pt == qt` gives `False` | `a <=> b` with `a` false and `b` unassigned is `False`, yet `True` once `b` is set false | `None` whenever either side is `None`, as every other connective propagates it | medium, not executed | EntailEngine.PlTrue3AsWrittenIffNotMonotone | EntailEngine.PlTrue3Sound, EntailEngine.Eval3Monotone |
| cnf.py:23 | implication is recognised only under the tag `=>`, while the builders, `kb2expr` and both evaluators use `==>` | `to_cnf(a ==> b)` fails the assertion at cnf.py:28 | `to_cnf` accepts the implication tag the rest of the toolkit produces | medium, not executed | Cnf.ToCnfRejectsEvaluatorArrow | Cnf.ToCnfCorrect, InferenceAlgorithms.PlTrueOfCnf |
