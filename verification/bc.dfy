/** Backward chaining as `pl_bc_entails` does it: a stack of goals, each goal's rules
    expanded at most once. The loop pops the newest goal, succeeds on a fact, gives up on
    a goal no rule concludes, and otherwise pushes every premise conjunct of every rule
    that concludes it. */
module BackwardChaining {
  import opened Exprs
  import opened Semantics
  import opened KnowledgeBase
  import Utils

  /** `pl_bc_entails` returns `True`, returns `False`, or runs off the end of its loop and
      so returns `None`. */
  datatype Outcome = Proved | Refuted | NoAnswer

  /** The premise conjuncts of each of `cs` in turn: what one expansion pushes. */
  function PremisesOf(cs: seq<Expr>): (r: seq<Expr>)
    requires forall k | 0 <= k < |cs| :: IsRule(cs[k])
    ensures forall x | x in r :: exists k | 0 <= k < |cs| :: x in Conjuncts(Premise(cs[k]))
  {
    if cs == [] then []
    else
      assert forall k | 0 <= k < |cs| - 1 :: cs[1..][k] == cs[k + 1];
      Conjuncts(Premise(cs[0])) + PremisesOf(cs[1..])
  }

  /** `x` is a premise conjunct of a rule of `kb` that concludes `goal`. */
  predicate Feeds(kb: seq<Expr>, goal: Expr, x: Expr)
  {
    exists c | c in kb && IsRule(c) && Conclusion(c) == goal :: x in Conjuncts(Premise(c))
  }

  /** Some goal of `trace` has a rule with premise conjunct `x`. */
  predicate FedBy(kb: seq<Expr>, trace: seq<Expr>, x: Expr)
  {
    exists k | 0 <= k < |trace| :: Feeds(kb, trace[k], x)
  }

  /** The trace starts with the query, and every later entry is a premise conjunct of a
      rule concluding an earlier entry. */
  predicate Grounded(kb: seq<Expr>, query: Expr, trace: seq<Expr>)
  {
    (|trace| > 0 ==> trace[0] == query) &&
    forall j | 1 <= j < |trace| :: FedBy(kb, trace[..j], trace[j])
  }

  /** Every goal backward chaining can push: the query and the premise conjuncts. */
  function Goals(kb: seq<Expr>, query: Expr): set<Expr>
  {
    {query} + set c, x | c in kb && IsRule(c) && x in Conjuncts(Premise(c)) :: x
  }

  /** What one expansion of `p` pushes, each entry fed by `p`. */
  lemma PushedFed(kb: seq<Expr>, query: Expr, p: Expr)
    ensures forall x | x in PremisesOf(ClausesByConclusion(kb, p)) ::
      Feeds(kb, p, x) && x in Goals(kb, query)
  {
    var cs := ClausesByConclusion(kb, p);
    forall x | x in PremisesOf(cs) ensures Feeds(kb, p, x) && x in Goals(kb, query)
    {
      var k :| 0 <= k < |cs| && x in Conjuncts(Premise(cs[k]));
      assert cs[k] in kb;
    }
  }

  lemma FedByExtend(kb: seq<Expr>, trace: seq<Expr>, more: seq<Expr>, x: Expr)
    requires FedBy(kb, trace, x)
    ensures FedBy(kb, trace + more, x)
  {
    var k :| 0 <= k < |trace| && Feeds(kb, trace[k], x);
    assert (trace + more)[k] == trace[k];
  }

  /** Appending entries fed by the trace keeps it grounded. */
  lemma GroundedAppend(kb: seq<Expr>, query: Expr, trace: seq<Expr>, more: seq<Expr>)
    requires Grounded(kb, query, trace) && |trace| > 0
    requires forall x | x in more :: FedBy(kb, trace, x)
    ensures Grounded(kb, query, trace + more)
  {
    var t := trace + more;
    forall j | 1 <= j < |t| ensures FedBy(kb, t[..j], t[j])
    {
      if j < |trace| {
        assert t[..j] == trace[..j];
      } else {
        assert t[j] in more;
        assert t[..j] == trace + t[|trace|..j];
        FedByExtend(kb, trace, t[|trace|..j], t[j]);
      }
    }
  }

  /** What holds at the top of each pass of the loop. */
  predicate Ready(kb: seq<Expr>, query: Expr, agenda: seq<Expr>, inferred: set<Expr>, trace: seq<Expr>)
  {
    (forall x | x in agenda :: x in Goals(kb, query) && (trace == [] || FedBy(kb, trace, x))) &&
    inferred <= Goals(kb, query) && Grounded(kb, query, trace) &&
    (trace == [] ==> agenda == [query])
  }

  /** Popping the top goal onto the trace keeps the trace grounded and the rest of the
      stack fed by it. */
  lemma Pop(kb: seq<Expr>, query: Expr, agenda: seq<Expr>, inferred: set<Expr>, trace: seq<Expr>)
    requires Ready(kb, query, agenda, inferred, trace) && agenda != []
    ensures var p := agenda[|agenda| - 1];
      p in Goals(kb, query) && Ready(kb, query, agenda[..|agenda| - 1], inferred, trace + [p])
  {
    var p := agenda[|agenda| - 1];
    var rest := agenda[..|agenda| - 1];
    assert agenda == rest + [p];
    var trace1 := trace + [p];
    if trace == [] {
      assert trace1 == [query];
    } else {
      GroundedAppend(kb, query, trace, [p]);
    }
    forall x | x in rest ensures FedBy(kb, trace1, x)
    {
      FedByExtend(kb, trace, [p], x);
    }
  }

  /** Pushing the premises of the rules concluding the newest trace entry onto both the
      stack and the trace keeps the loop ready. */
  lemma Expand(kb: seq<Expr>, query: Expr, rest: seq<Expr>, inferred: set<Expr>, trace: seq<Expr>)
    requires Ready(kb, query, rest, inferred, trace) && trace != []
    requires Utils.Last(trace) in Goals(kb, query)
    ensures var pushed := PremisesOf(ClausesByConclusion(kb, Utils.Last(trace)));
      Ready(kb, query, rest + pushed, inferred + {Utils.Last(trace)}, trace + pushed)
  {
    var p := Utils.Last(trace);
    var pushed := PremisesOf(ClausesByConclusion(kb, p));
    PushedFed(kb, query, p);
    forall x | x in pushed ensures FedBy(kb, trace, x)
    {
      assert trace[|trace| - 1] == p;
    }
    GroundedAppend(kb, query, trace, pushed);
    forall x | x in rest + pushed ensures FedBy(kb, trace + pushed, x)
    {
      FedByExtend(kb, trace, pushed, x);
    }
  }

  /** A yes ends on a fact of the knowledge base; a no ends on a goal that is neither a
      fact nor concluded by any rule. */
  predicate Settled(kb: seq<Expr>, outcome: Outcome, trace: seq<Expr>)
    requires |trace| > 0
  {
    var last := Utils.Last(trace);
    (outcome == Proved ==> last in kb && IsFact(last)) &&
    (outcome == Refuted ==> !(last in kb && IsFact(last)) && ClausesByConclusion(kb, last) == [])
  }

  /** The `while agenda` loop, one pass per call. `agenda` is the goal stack (its end is
      the top), `inferred` the goals already expanded, `trace` the entries so far. */
  function BcLoop(kb: seq<Expr>, query: Expr, agenda: seq<Expr>, inferred: set<Expr>,
                  trace: seq<Expr>): (r: (Outcome, seq<Expr>))
    requires Ready(kb, query, agenda, inferred, trace)
    ensures |r.1| > 0 && Grounded(kb, query, r.1) && Settled(kb, r.0, r.1)
    decreases |Goals(kb, query) - inferred|, |agenda|
  {
    if agenda == [] then (NoAnswer, trace)
    else
      var p := agenda[|agenda| - 1];
      var rest := agenda[..|agenda| - 1];
      var trace1 := trace + [p];
      Pop(kb, query, agenda, inferred, trace);
      assert Utils.Last(trace1) == p;
      if p in Facts(kb) then (Proved, trace1)
      else
        var cs := ClausesByConclusion(kb, p);
        if cs == [] then (Refuted, trace1)
        else if p in inferred then BcLoop(kb, query, rest, inferred, trace1)
        else
          // Lines 108-109 push `p` back when no rule concludes it; `cs` is not empty
          // here, so they never run.
          Expand(kb, query, rest, inferred, trace1);
          Utils.CardRemove(Goals(kb, query), inferred, p);
          BcLoop(kb, query, rest + PremisesOf(cs), inferred + {p}, trace1 + PremisesOf(cs))
  }

  /** `pl_bc_entails(kb, query)`. The trace starts with the query and every later entry
      is a premise of a rule concluding an earlier one; a yes ends on a fact of the
      knowledge base and a no on a goal that is neither a fact nor concluded by any rule.
      A query that is a fact is proved at once, and a query that is neither a fact nor
      concluded by any rule is refuted at once. */
  function PlBcEntails(kb: seq<Expr>, query: Expr): (r: (Outcome, seq<Expr>))
    ensures |r.1| > 0 && r.1[0] == query && Grounded(kb, query, r.1)
    ensures r.0 == Proved ==> Utils.Last(r.1) in kb && IsFact(Utils.Last(r.1))
    ensures r.0 == Refuted ==>
      !(Utils.Last(r.1) in kb && IsFact(Utils.Last(r.1))) &&
      ClausesByConclusion(kb, Utils.Last(r.1)) == []
    ensures query in kb && IsFact(query) ==> r == (Proved, [query])
    ensures !(query in kb && IsFact(query)) && ClausesByConclusion(kb, query) == [] ==>
      r == (Refuted, [query])
  {
    assert [query][..0] == [] && [] + [query] == [query];
    BcLoop(kb, query, [query], {}, [])
  }

  /** A pass whose top goal is a fact, or is concluded by no rule, ends the loop. */
  lemma BcStops(kb: seq<Expr>, query: Expr, agenda: seq<Expr>, inferred: set<Expr>, trace: seq<Expr>)
    requires Ready(kb, query, agenda, inferred, trace) && agenda != []
    requires Utils.Last(agenda) in Facts(kb) || ClausesByConclusion(kb, Utils.Last(agenda)) == []
    ensures BcLoop(kb, query, agenda, inferred, trace)
      == (if Utils.Last(agenda) in Facts(kb) then Proved else Refuted, trace + [Utils.Last(agenda)])
  {
  }

  /** A pass whose top goal is new and concluded by some rule pushes the premises of those
      rules. */
  lemma BcExpands(kb: seq<Expr>, query: Expr, agenda: seq<Expr>, inferred: set<Expr>, trace: seq<Expr>)
    requires Ready(kb, query, agenda, inferred, trace) && agenda != []
    requires Utils.Last(agenda) !in Facts(kb) && Utils.Last(agenda) !in inferred
    requires ClausesByConclusion(kb, Utils.Last(agenda)) != []
    requires var pushed := PremisesOf(ClausesByConclusion(kb, Utils.Last(agenda)));
      Ready(kb, query, agenda[..|agenda| - 1] + pushed, inferred + {Utils.Last(agenda)},
            trace + [Utils.Last(agenda)] + pushed)
    ensures var pushed := PremisesOf(ClausesByConclusion(kb, Utils.Last(agenda)));
      BcLoop(kb, query, agenda, inferred, trace)
        == BcLoop(kb, query, agenda[..|agenda| - 1] + pushed, inferred + {Utils.Last(agenda)},
                  trace + [Utils.Last(agenda)] + pushed)
  {
  }

  /** A pass whose top goal is already expanded drops it. */
  lemma BcSkips(kb: seq<Expr>, query: Expr, agenda: seq<Expr>, inferred: set<Expr>, trace: seq<Expr>)
    requires Ready(kb, query, agenda, inferred, trace) && agenda != []
    requires Utils.Last(agenda) !in Facts(kb) && Utils.Last(agenda) in inferred
    requires ClausesByConclusion(kb, Utils.Last(agenda)) != []
    requires Ready(kb, query, agenda[..|agenda| - 1], inferred, trace + [Utils.Last(agenda)])
    ensures BcLoop(kb, query, agenda, inferred, trace)
      == BcLoop(kb, query, agenda[..|agenda| - 1], inferred, trace + [Utils.Last(agenda)])
  {
  }

  // ---------------------------------------------------------------------------
  // What the stack discipline does to the answer

  /** The sequence shapes of a run that expands the query into two goals and then stops on
      the second. */
  lemma TwoGoalShapes<T>(q: T, x: T, y: T)
    ensures [q][..0] == [] && [] + [q] == [q] && Utils.Last([q]) == q
    ensures [] + [x, y] == [x, y] && [q] + [x, y] == [q, x, y]
    ensures Utils.Last([x, y]) == y && [q, x, y] + [y] == [q, x, y, y]
  {
  }

  /** The lookups on `[c & a ==> q, a]`. */
  lemma YesUnentailedLookups(a: Expr, c: Expr, q: Expr)
    requires IsAtom(a) && IsAtom(c) && IsAtom(q) && a != c && a != q && c != q
    ensures var rule := Rule(And(c, a), q); var kb := [rule, a];
      Facts(kb) == [a] && ClausesByConclusion(kb, q) == [rule] && PremisesOf([rule]) == [c, a]
  {
    var rule := Rule(And(c, a), q);
    ConnectivesAreNotSymbols();
    RuleThenFact(rule, a, q);
    ConjunctsOfPair(c, a);
    assert [rule][1..] == [];
  }

  /** Only the newest premise is ever checked: on `[c & a ==> q, a]` the goal `a` is a fact,
      so the answer is yes, although `q` is false when only `a` is true. */
  lemma BcAnswersYesUnentailed(a: Expr, c: Expr, q: Expr)
    requires IsAtom(a) && IsAtom(c) && IsAtom(q) && a != c && a != q && c != q
    ensures var kb := [Rule(And(c, a), q), a];
      PlBcEntails(kb, q) == (Proved, [q, c, a, a]) && !KbEntails(kb, q)
  {
    YesUnentailedRun(a, c, q);
    YesUnentailedModel(a, c, q);
  }

  /** The run on `[c & a ==> q, a]`: expand `q`, then stop on the fact `a`. */
  lemma YesUnentailedRun(a: Expr, c: Expr, q: Expr)
    requires IsAtom(a) && IsAtom(c) && IsAtom(q) && a != c && a != q && c != q
    ensures PlBcEntails([Rule(And(c, a), q), a], q) == (Proved, [q, c, a, a])
  {
    var kb := [Rule(And(c, a), q), a];
    YesUnentailedLookups(a, c, q);
    assert Ready(kb, q, [q], {}, []);
    Pop(kb, q, [q], {}, []);
    TwoGoalShapes(q, c, a);
    Expand(kb, q, [], {}, [q]);
    assert {} + {q} == {q};
    BcExpands(kb, q, [q], {}, []);
    BcStops(kb, q, [c, a], {q}, [q, c, a]);
  }

  lemma YesUnentailedModel(a: Expr, c: Expr, q: Expr)
    requires IsAtom(a) && IsAtom(c) && IsAtom(q) && a != c && a != q && c != q
    ensures !KbEntails([Rule(And(c, a), q), a], q)
  {
    var m: Model := map[a := true];
    ConnectivesAreNotSymbols();
    assert !Holds(c, m) && !AllHold([c, a], m);
    assert Holds(Rule(And(c, a), q), m);
    assert KbHolds([Rule(And(c, a), q), a], m) && !Holds(q, m);
  }

  /** The lookups on `[d ==> q, c ==> q, d]`. */
  lemma NoEntailedLookups(c: Expr, d: Expr, q: Expr)
    requires IsAtom(c) && IsAtom(d) && IsAtom(q) && c != d && c != q && d != q
    ensures var kb := [Rule(d, q), Rule(c, q), d];
      Facts(kb) == [d] && ClausesByConclusion(kb, q) == [Rule(d, q), Rule(c, q)] &&
      ClausesByConclusion(kb, c) == [] && PremisesOf([Rule(d, q), Rule(c, q)]) == [d, c]
  {
    NoEntailedScans(c, d, q);
    PremisesOfTwo(d, c, q);
  }

  /** The facts of `[d ==> q, c ==> q, d]` and its rules by conclusion. */
  lemma NoEntailedScans(c: Expr, d: Expr, q: Expr)
    requires IsAtom(c) && IsAtom(d) && IsAtom(q) && c != d && c != q && d != q
    ensures var kb := [Rule(d, q), Rule(c, q), d];
      Facts(kb) == [d] && ClausesByConclusion(kb, q) == [Rule(d, q), Rule(c, q)] &&
      ClausesByConclusion(kb, c) == []
  {
    var r1 := Rule(d, q);
    var r2 := Rule(c, q);
    var kb := [r1, r2, d];
    RuleThenFact(r2, d, q);
    RuleThenFact(r2, d, c);
    assert kb == [r1] + [r2, d];
    RuleFirst(r1, [r2, d], q);
    RuleFirst(r1, [r2, d], c);
    assert [r1] + [r2] == [r1, r2] && ClausesByConclusion([r2, d], c) == [];
  }

  /** The premises pushed for two rules with single-symbol premises. */
  lemma PremisesOfTwo(x: Expr, y: Expr, goal: Expr)
    requires IsAtom(x) && IsAtom(y)
    ensures PremisesOf([Rule(x, goal), Rule(y, goal)]) == [x, y]
  {
    ConnectivesAreNotSymbols();
    assert [Rule(x, goal), Rule(y, goal)][1..] == [Rule(y, goal)] && [Rule(y, goal)][1..] == [];
    assert PremisesOf([Rule(y, goal)]) == [y];
  }

  /** The lookups on a list that starts with a rule. */
  lemma RuleFirst(rule: Expr, rest: seq<Expr>, goal: Expr)
    requires IsRule(rule)
    ensures Facts([rule] + rest) == Facts(rest)
    ensures ClausesByConclusion([rule] + rest, goal) ==
      (if Conclusion(rule) == goal then [rule] else []) + ClausesByConclusion(rest, goal)
  {
    ConnectivesAreNotSymbols();
    assert ([rule] + rest)[1..] == rest;
  }

  /** The lookups on a rule followed by a fact. */
  lemma RuleThenFact(rule: Expr, fact: Expr, goal: Expr)
    requires IsRule(rule) && IsAtom(fact)
    ensures Facts([rule, fact]) == [fact]
    ensures ClausesByConclusion([rule, fact], goal) == if Conclusion(rule) == goal then [rule] else []
  {
    ConnectivesAreNotSymbols();
    assert [rule, fact][1..] == [fact] && [fact][1..] == [];
    assert Facts([fact]) == [fact];
    assert ClausesByConclusion([fact], goal) == [];
  }

  /** A goal no rule concludes ends the search with no, whatever else is still on the
      stack: on `[d ==> q, c ==> q, d]` the goal `c` is tried first and the answer is no,
      although `q` is entailed. */
  lemma BcAnswersNoEntailed(c: Expr, d: Expr, q: Expr)
    requires IsAtom(c) && IsAtom(d) && IsAtom(q) && c != d && c != q && d != q
    ensures var kb := [Rule(d, q), Rule(c, q), d];
      PlBcEntails(kb, q) == (Refuted, [q, d, c, c]) && KbEntails(kb, q)
  {
    NoEntailedRun(c, d, q);
    NoEntailedHolds(c, d, q);
  }

  /** The run on `[d ==> q, c ==> q, d]`: expand `q`, then stop on `c`, which no rule
      concludes. */
  lemma NoEntailedRun(c: Expr, d: Expr, q: Expr)
    requires IsAtom(c) && IsAtom(d) && IsAtom(q) && c != d && c != q && d != q
    ensures PlBcEntails([Rule(d, q), Rule(c, q), d], q) == (Refuted, [q, d, c, c])
  {
    var kb := [Rule(d, q), Rule(c, q), d];
    NoEntailedLookups(c, d, q);
    assert Ready(kb, q, [q], {}, []);
    Pop(kb, q, [q], {}, []);
    TwoGoalShapes(q, d, c);
    Expand(kb, q, [], {}, [q]);
    assert {} + {q} == {q};
    BcExpands(kb, q, [q], {}, []);
    assert c !in Facts(kb);
    BcStops(kb, q, [d, c], {q}, [q, d, c]);
  }

  lemma NoEntailedHolds(c: Expr, d: Expr, q: Expr)
    requires IsAtom(c) && IsAtom(d) && IsAtom(q)
    ensures KbEntails([Rule(d, q), Rule(c, q), d], q)
  {
    var kb := [Rule(d, q), Rule(c, q), d];
    ConnectivesAreNotSymbols();
    forall m: Model | KbHolds(kb, m) ensures Holds(q, m)
    {
      assert Holds(kb[0], m) && Holds(kb[2], m);
    }
  }

  /** The lookups on `[q ==> q]`. */
  lemma CycleLookups(q: Expr)
    requires IsAtom(q)
    ensures Facts([Rule(q, q)]) == [] && ClausesByConclusion([Rule(q, q)], q) == [Rule(q, q)]
    ensures PremisesOf([Rule(q, q)]) == [q]
  {
    ConnectivesAreNotSymbols();
    assert [Rule(q, q)][1..] == [];
  }

  /** The second pass on `[q ==> q]`: `q` is already expanded, so it is skipped and the
      stack is empty. */
  lemma CycleSecondPass(q: Expr)
    requires IsAtom(q) && Ready([Rule(q, q)], q, [q], {q}, [q, q])
    ensures BcLoop([Rule(q, q)], q, [q], {q}, [q, q]) == (NoAnswer, [q, q, q])
  {
    CycleLookups(q);
    Pop([Rule(q, q)], q, [q], {q}, [q, q]);
    assert [q][..0] == [] && [q, q] + [q] == [q, q, q];
    assert BcLoop([Rule(q, q)], q, [], {q}, [q, q, q]) == (NoAnswer, [q, q, q]);
  }

  /** A goal that is its own only premise is expanded once and then skipped, the stack
      empties, and the loop falls through: on `[q ==> q]` there is no answer. */
  lemma BcNoAnswerOnCycle(q: Expr)
    requires IsAtom(q)
    ensures var kb := [Rule(q, q)];
      PlBcEntails(kb, q) == (NoAnswer, [q, q, q]) && !KbEntails(kb, q)
  {
    var kb := [Rule(q, q)];
    CycleLookups(q);
    Pop(kb, q, [q], {}, []);
    assert [q][..0] == [] && [] + [q] == [q] && Utils.Last([q]) == q;
    Expand(kb, q, [], {}, [q]);
    assert {} + {q} == {q} && [] + [q] == [q] && [q] + [q] == [q, q];
    CycleSecondPass(q);
    assert BcLoop(kb, q, [q], {}, []) == (NoAnswer, [q, q, q]);
    CycleNotEntailed(q);
  }

  lemma CycleNotEntailed(q: Expr)
    requires IsAtom(q)
    ensures !KbEntails([Rule(q, q)], q)
  {
    var m: Model := map[];
    ConnectivesAreNotSymbols();
    assert Holds(Rule(q, q), m) && !Holds(q, m);
    assert KbHolds([Rule(q, q)], m);
  }
}
