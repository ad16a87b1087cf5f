/** What `pl_fc_entails` as written gets right. Its counters are keyed by clause value and
    start at the number of premise conjuncts. On a knowledge base that lists no rule twice,
    every symbol it infers is entailed. If, in addition, no rule repeats a premise symbol,
    its answer is exactly entailment. */
module ForwardChainingAsWritten {
  import opened Exprs
  import opened Semantics
  import opened KnowledgeBase
  import opened ForwardChaining
  import Utils

  /** No rule occurs twice in the clause list. */
  predicate NoRepeatedRule(kb: seq<Expr>)
  {
    forall i, j | 0 <= i < j < |kb| && IsRule(kb[i]) :: kb[i] != kb[j]
  }

  /** No rule writes one premise symbol twice. */
  predicate DistinctPremises(kb: seq<Expr>)
  {
    forall c | c in kb && IsRule(c) :: Utils.NoDuplicates(Conjuncts(Premise(c)))
  }

  /** Every rule's counter is its number of premise conjuncts less the number of its
      premise symbols already inferred. */
  predicate CountsTrack(kb: seq<Expr>, count: map<Expr, int>, inferred: set<Expr>)
  {
    forall c | c in kb && IsRule(c) ::
      c in count && count[c] == |Conjuncts(Premise(c))| - |PremiseSet(c) * inferred|
  }

  // ---------------------------------------------------------------------------
  // Counting

  /** A list has at least as many entries as distinct elements, and exactly as many when
      none repeats. */
  lemma {:induction false} ElementsCard<T>(xs: seq<T>)
    ensures |Utils.Elements(xs)| <= |xs|
    ensures Utils.NoDuplicates(xs) ==> |Utils.Elements(xs)| == |xs|
  {
    if xs != [] {
      var tail := xs[1..];
      assert forall k | 0 <= k < |tail| :: tail[k] == xs[k + 1];
      ElementsCard(tail);
      assert Utils.Elements(xs) == Utils.Elements(tail) + {xs[0]};
      if Utils.NoDuplicates(xs) {
        assert Utils.NoDuplicates(tail);
        assert xs[0] !in tail;
      }
    }
  }

  /** Prepending a new element keeps a list free of repetitions. */
  lemma ConsFresh<T>(x: T, xs: seq<T>)
    requires Utils.NoDuplicates(xs) && x !in xs
    ensures Utils.NoDuplicates([x] + xs)
  {
    var ys := [x] + xs;
    assert forall k | 1 <= k < |ys| :: ys[k] == xs[k - 1];
  }

  /** A rule with as many premise symbols inferred as it has premise conjuncts has all of
      them inferred. */
  lemma AllPremisesMet(c: Expr, known: set<Expr>)
    requires IsRule(c) && |PremiseSet(c) * known| >= |Conjuncts(Premise(c))|
    ensures PremiseSet(c) <= known
  {
    ElementsCard(Conjuncts(Premise(c)));
    var s := PremiseSet(c);
    if !(s <= known) {
      var y :| y in s && y !in known;
      assert s * known <= s - {y};
      assert |s - {y}| == |s| - 1;
      SubsetCard(s * known, s - {y});
      assert false;
    }
  }

  lemma {:induction false} SubsetCard<T>(a: set<T>, b: set<T>)
    requires a <= b
    ensures |a| <= |b|
  {
    if a != {} {
      var x :| x in a;
      SubsetCard(a - {x}, b - {x});
    }
  }

  /** Inferring a new symbol raises the number of inferred premise symbols of the rules
      that name it by one, and leaves the others alone. */
  lemma InferredCount(c: Expr, inferred: set<Expr>, p: Expr)
    requires IsRule(c) && p !in inferred
    ensures p in PremiseSet(c) ==> |PremiseSet(c) * (inferred + {p})| == |PremiseSet(c) * inferred| + 1
    ensures p !in PremiseSet(c) ==> PremiseSet(c) * (inferred + {p}) == PremiseSet(c) * inferred
  {
    if p in PremiseSet(c) {
      assert PremiseSet(c) * (inferred + {p}) == (PremiseSet(c) * inferred) + {p};
    }
  }

  // ---------------------------------------------------------------------------
  // The inner loop

  /** `clauses_with_premise` lists no rule twice when the knowledge base does not. */
  lemma {:induction false} ClausesWithPremiseDistinct(kb: seq<Expr>, p: Expr)
    requires NoRepeatedRule(kb)
    ensures Utils.NoDuplicates(ClausesWithPremise(kb, p))
  {
    if kb != [] {
      var tail := kb[1..];
      assert forall k | 0 <= k < |tail| :: tail[k] == kb[k + 1];
      assert NoRepeatedRule(tail);
      ClausesWithPremiseDistinct(tail, p);
      if IsRule(kb[0]) && p in Conjuncts(Premise(kb[0])) {
        assert kb[0] !in tail;
        ConsFresh(kb[0], ClausesWithPremise(tail, p));
      }
    }
  }

  /** The first visit of the inner loop, and the facts about the rest of the list that the
      induction below needs. */
  lemma DecrementFirst(cs: seq<Expr>, count: map<Expr, int>)
    requires forall k | 0 <= k < |cs| :: IsRule(cs[k]) && cs[k] in count
    requires Utils.NoDuplicates(cs) && cs != []
    ensures var count', tail := count[cs[0] := count[cs[0]] - 1], cs[1..];
      var rest := DecrementAsWritten(tail, count');
      DecrementAsWritten(cs, count)
        == (rest.0, if count[cs[0]] == 1 then [Conclusion(cs[0])] + rest.1 else rest.1) &&
      (forall k | 0 <= k < |tail| :: IsRule(tail[k]) && tail[k] in count' &&
         tail[k] == cs[k + 1] && count'[tail[k]] == count[tail[k]]) &&
      Utils.NoDuplicates(tail) && cs[0] !in tail
  {
    var tail := cs[1..];
    assert forall k | 0 <= k < |tail| :: tail[k] == cs[k + 1];
  }

  /** The inner loop over distinct rules drops each visited counter by one and keeps every
      other counter. */
  lemma {:induction false} DecrementCounts(cs: seq<Expr>, count: map<Expr, int>)
    requires forall k | 0 <= k < |cs| :: IsRule(cs[k]) && cs[k] in count
    requires Utils.NoDuplicates(cs)
    ensures var r := DecrementAsWritten(cs, count);
      forall c | c in count :: c in r.0 && r.0[c] == (if c in cs then count[c] - 1 else count[c])
  {
    if cs != [] {
      DecrementFirst(cs, count);
      DecrementCounts(cs[1..], count[cs[0] := count[cs[0]] - 1]);
    }
  }

  /** The inner loop over distinct rules queues only conclusions of rules whose counter
      was one. */
  lemma {:induction false} DecrementQueuedOnlyAtOne(cs: seq<Expr>, count: map<Expr, int>)
    requires forall k | 0 <= k < |cs| :: IsRule(cs[k]) && cs[k] in count
    requires Utils.NoDuplicates(cs)
    ensures var r := DecrementAsWritten(cs, count);
      forall x | x in r.1 :: exists k | 0 <= k < |cs| :: count[cs[k]] == 1 && Conclusion(cs[k]) == x
  {
    if cs != [] {
      var count', tail := count[cs[0] := count[cs[0]] - 1], cs[1..];
      DecrementFirst(cs, count);
      DecrementQueuedOnlyAtOne(tail, count');
      var rest := DecrementAsWritten(tail, count');
      forall x | x in DecrementAsWritten(cs, count).1
        ensures exists k | 0 <= k < |cs| :: count[cs[k]] == 1 && Conclusion(cs[k]) == x
      {
        if x !in rest.1 {
          assert count[cs[0]] == 1 && Conclusion(cs[0]) == x;
        } else {
          var k :| 0 <= k < |tail| && count'[tail[k]] == 1 && Conclusion(tail[k]) == x;
          assert count[cs[k + 1]] == 1;
        }
      }
    }
  }

  /** The inner loop over distinct rules queues the conclusion of every rule whose counter
      was one. */
  lemma {:induction false} DecrementQueuesAtOne(cs: seq<Expr>, count: map<Expr, int>)
    requires forall k | 0 <= k < |cs| :: IsRule(cs[k]) && cs[k] in count
    requires Utils.NoDuplicates(cs)
    ensures var r := DecrementAsWritten(cs, count);
      forall k | 0 <= k < |cs| && count[cs[k]] == 1 :: Conclusion(cs[k]) in r.1
  {
    if cs != [] {
      var count', tail := count[cs[0] := count[cs[0]] - 1], cs[1..];
      DecrementFirst(cs, count);
      DecrementQueuesAtOne(tail, count');
      forall k | 0 <= k < |cs| && count[cs[k]] == 1 ensures Conclusion(cs[k]) in DecrementAsWritten(cs, count).1
      {
        if k > 0 {
          assert tail[k - 1] == cs[k] && count'[tail[k - 1]] == 1;
        }
      }
    }
  }

  /** One new symbol `p` through the inner loop: the counters then track `inferred + {p}`. */
  lemma InferTurnCounts(kb: seq<Expr>, p: Expr, inferred: set<Expr>, count: map<Expr, int>)
    requires NoRepeatedRule(kb) && p !in inferred && CountsTrack(kb, count, inferred)
    ensures CountsTrack(kb, DecrementAsWritten(ClausesWithPremise(kb, p), count).0, inferred + {p})
  {
    var cs := ClausesWithPremise(kb, p);
    ClausesWithPremiseDistinct(kb, p);
    DecrementCounts(cs, count);
    var step := DecrementAsWritten(cs, count);
    forall c | c in kb && IsRule(c)
      ensures c in step.0 && step.0[c] == |Conjuncts(Premise(c))| - |PremiseSet(c) * (inferred + {p})|
    {
      InferredCount(c, inferred, p);
    }
  }

  /** One new symbol `p` through the inner loop: every symbol queued is supported by
      `inferred + {p}`. */
  lemma InferTurnSupported(kb: seq<Expr>, p: Expr, inferred: set<Expr>, count: map<Expr, int>)
    requires NoRepeatedRule(kb) && p !in inferred && CountsTrack(kb, count, inferred)
    ensures forall x | x in DecrementAsWritten(ClausesWithPremise(kb, p), count).1 ::
      Supported(kb, inferred + {p}, x)
  {
    forall x | x in DecrementAsWritten(ClausesWithPremise(kb, p), count).1
      ensures Supported(kb, inferred + {p}, x)
    {
      var c := QueuedRule(kb, p, inferred, count, x);
      InferredCount(c, inferred, p);
      AllPremisesMet(c, inferred + {p});
      RuleSupports(kb, c, inferred + {p});
    }
  }

  /** A symbol the inner loop queues for `p` is the conclusion of a listed rule that names
      `p` and whose counter was one. */
  lemma QueuedRule(kb: seq<Expr>, p: Expr, inferred: set<Expr>, count: map<Expr, int>, x: Expr)
    returns (c: Expr)
    requires NoRepeatedRule(kb) && CountsTrack(kb, count, inferred)
    requires x in DecrementAsWritten(ClausesWithPremise(kb, p), count).1
    ensures c in kb && IsRule(c) && p in PremiseSet(c) && c in count && count[c] == 1
    ensures Conclusion(c) == x
  {
    var cs := ClausesWithPremise(kb, p);
    ClausesWithPremiseDistinct(kb, p);
    DecrementQueuedOnlyAtOne(cs, count);
    var k :| 0 <= k < |cs| && count[cs[k]] == 1 && Conclusion(cs[k]) == x;
    c := cs[k];
    assert c in cs;
  }

  /** A listed rule whose premise symbols are all known supports its conclusion. */
  lemma RuleSupports(kb: seq<Expr>, c: Expr, known: set<Expr>)
    requires c in kb && IsRule(c) && PremiseSet(c) <= known
    ensures Supported(kb, known, Conclusion(c))
  {
    var i :| 0 <= i < |kb| && kb[i] == c;
  }

  /** With distinct premises, a rule whose last missing premise symbol is `p` had its
      counter at one, so its conclusion is queued. */
  lemma InferTurnQueues(kb: seq<Expr>, p: Expr, inferred: set<Expr>, count: map<Expr, int>, i: int)
    requires NoRepeatedRule(kb) && DistinctPremises(kb)
    requires p !in inferred && CountsTrack(kb, count, inferred)
    requires 0 <= i < |kb| && IsRule(kb[i]) && p in PremiseSet(kb[i])
    requires PremiseSet(kb[i]) <= inferred + {p}
    ensures Conclusion(kb[i]) in DecrementAsWritten(ClausesWithPremise(kb, p), count).1
  {
    var c := kb[i];
    var cs := ClausesWithPremise(kb, p);
    ClausesWithPremiseDistinct(kb, p);
    DecrementQueuesAtOne(cs, count);
    ElementsCard(Conjuncts(Premise(c)));
    assert PremiseSet(c) * inferred == PremiseSet(c) - {p};
    assert c in cs;
    var k :| 0 <= k < |cs| && cs[k] == c;
  }

  /** After the inner loop nothing is lost: the facts and the conclusions of the rules now
      ready are known or on the agenda. */
  lemma PendingAfterTurn(kb: seq<Expr>, p: Expr, inferred: set<Expr>, count: map<Expr, int>,
                         rest: seq<Expr>)
    requires NoRepeatedRule(kb) && DistinctPremises(kb)
    requires p !in inferred && CountsTrack(kb, count, inferred)
    requires Pending(kb, inferred, [p] + rest)
    ensures Pending(kb, inferred + {p}, rest + DecrementAsWritten(ClausesWithPremise(kb, p), count).1)
  {
    var fired := DecrementAsWritten(ClausesWithPremise(kb, p), count).1;
    var known := inferred + {p};
    forall i | 0 <= i < |kb| && IsFact(kb[i]) ensures kb[i] in known || kb[i] in rest + fired
    {
      assert kb[i] in inferred || kb[i] in [p] + rest;
    }
    forall i | 0 <= i < |kb| && IsRule(kb[i]) && PremiseSet(kb[i]) <= known
      ensures Conclusion(kb[i]) in known || Conclusion(kb[i]) in rest + fired
    {
      if PremiseSet(kb[i]) <= inferred {
        assert Conclusion(kb[i]) in inferred || Conclusion(kb[i]) in [p] + rest;
      } else {
        InferTurnQueues(kb, p, inferred, count, i);
      }
    }
  }

  /** After the inner loop the counters track `inferred + {p}`, and the rest of the agenda
      and the symbols queued are all supported by `inferred + {p}`. */
  lemma AgendaAfterTurn(kb: seq<Expr>, p: Expr, inferred: set<Expr>, count: map<Expr, int>,
                        rest: seq<Expr>)
    requires NoRepeatedRule(kb) && p !in inferred && CountsTrack(kb, count, inferred)
    requires forall x | x in rest :: Supported(kb, inferred, x)
    ensures CountsTrack(kb, DecrementAsWritten(ClausesWithPremise(kb, p), count).0, inferred + {p})
    ensures forall x | x in rest + DecrementAsWritten(ClausesWithPremise(kb, p), count).1 ::
      Supported(kb, inferred + {p}, x)
  {
    InferTurnCounts(kb, p, inferred, count);
    InferTurnSupported(kb, p, inferred, count);
    forall x | x in rest ensures Supported(kb, inferred + {p}, x)
    {
      SupportedMonotone(kb, inferred, inferred + {p}, x);
    }
  }

  // ---------------------------------------------------------------------------
  // The outer loop

  /** What the as-written loop needs of its arguments: the agenda and the inferred symbols
      are heads, and the trace lists the inferred symbols once each, without the query. */
  predicate LoopReady(kb: seq<Expr>, query: Expr, agenda: seq<Expr>, inferred: set<Expr>,
                      trace: seq<Expr>)
  {
    (forall x | x in agenda :: x in Heads(kb)) &&
    inferred <= Heads(kb) && query !in trace &&
    Utils.NoDuplicates(trace) && Utils.Elements(trace) == inferred
  }

  /** The soundness invariant: the counters track `inferred`, the trace is a derivation
      and every agenda entry is supported by `inferred`. */
  predicate DerivesState(kb: seq<Expr>, agenda: seq<Expr>, inferred: set<Expr>,
                         count: map<Expr, int>, trace: seq<Expr>)
  {
    NoRepeatedRule(kb) && CountsTrack(kb, count, inferred) &&
    Derivation(kb, trace) && forall x | x in agenda :: Supported(kb, inferred, x)
  }

  /** The completeness invariant: the counters track `inferred` and nothing is lost. */
  predicate ClosesState(kb: seq<Expr>, query: Expr, agenda: seq<Expr>, inferred: set<Expr>,
                        count: map<Expr, int>)
  {
    DefiniteKb(kb) && IsAtom(query) &&
    NoRepeatedRule(kb) && DistinctPremises(kb) && CountsTrack(kb, count, inferred) &&
    Pending(kb, inferred, agenda)
  }

  /** The inner loop's result for a new symbol `p`. */
  function Turn(kb: seq<Expr>, p: Expr, count: map<Expr, int>): (map<Expr, int>, seq<Expr>)
  {
    DecrementAsWritten(ClausesWithPremise(kb, p), count)
  }

  /** A turn on a new symbol other than the query hands the loop arguments it accepts, on a
      smaller set of symbols left to infer. */
  lemma ReadyAfterTurn(kb: seq<Expr>, query: Expr, agenda: seq<Expr>, inferred: set<Expr>,
                       count: map<Expr, int>, trace: seq<Expr>)
    requires LoopReady(kb, query, agenda, inferred, trace)
    requires agenda != [] && agenda[0] != query && agenda[0] !in inferred
    ensures var p, step := agenda[0], Turn(kb, agenda[0], count);
      LoopReady(kb, query, agenda[1..] + step.1, inferred + {p}, trace + [p]) &&
      |Heads(kb) - (inferred + {p})| < |Heads(kb) - inferred| &&
      FcLoopAsWritten(kb, query, agenda, inferred, count, trace)
        == FcLoopAsWritten(kb, query, agenda[1..] + step.1, inferred + {p}, step.0, trace + [p])
  {
    var p := agenda[0];
    Utils.CardRemove(Heads(kb), inferred, p);
    FiredAreHeads(kb, p, count);
    InferFront(kb, query, agenda, inferred, count, trace);
    AppendFresh(trace, p);
  }

  /** A turn on a new symbol keeps the soundness invariant. */
  lemma DerivesStateAfterTurn(kb: seq<Expr>, agenda: seq<Expr>, inferred: set<Expr>,
                              count: map<Expr, int>, trace: seq<Expr>)
    requires DerivesState(kb, agenda, inferred, count, trace) && Utils.Elements(trace) == inferred
    requires agenda != [] && agenda[0] !in inferred
    ensures var p, step := agenda[0], Turn(kb, agenda[0], count);
      DerivesState(kb, agenda[1..] + step.1, inferred + {p}, step.0, trace + [p])
  {
    var p := agenda[0];
    AppendSupported(kb, trace, p);
    AgendaAfterTurn(kb, p, inferred, count, agenda[1..]);
  }

  /** A turn on a new symbol keeps the completeness invariant. */
  lemma ClosesStateAfterTurn(kb: seq<Expr>, query: Expr, agenda: seq<Expr>, inferred: set<Expr>,
                             count: map<Expr, int>)
    requires ClosesState(kb, query, agenda, inferred, count)
    requires agenda != [] && agenda[0] !in inferred
    ensures var p, step := agenda[0], Turn(kb, agenda[0], count);
      ClosesState(kb, query, agenda[1..] + step.1, inferred + {p}, step.0)
  {
    var p := agenda[0];
    assert agenda == [p] + agenda[1..];
    InferTurnCounts(kb, p, inferred, count);
    PendingAfterTurn(kb, p, inferred, count, agenda[1..]);
  }

  /** Every trace the as-written loop builds is a derivation, when the knowledge base lists
      no rule twice and every agenda entry is supported. */
  lemma {:induction false} FcLoopAsWrittenDerives(kb: seq<Expr>, query: Expr, agenda: seq<Expr>,
                                                  inferred: set<Expr>, count: map<Expr, int>,
                                                  trace: seq<Expr>)
    requires LoopReady(kb, query, agenda, inferred, trace)
    requires DerivesState(kb, agenda, inferred, count, trace)
    ensures Derivation(kb, FcLoopAsWritten(kb, query, agenda, inferred, count, trace).1)
    decreases |Heads(kb) - inferred|, |agenda|
  {
    if agenda != [] {
      var p := agenda[0];
      if p == query {
        QueryAtFront(kb, query, agenda, inferred, count, trace);
        AppendSupported(kb, trace, p);
      } else if p in inferred {
        FcLoopAsWrittenDerives(kb, query, agenda[1..], inferred, count, trace);
      } else {
        var step := Turn(kb, p, count);
        ReadyAfterTurn(kb, query, agenda, inferred, count, trace);
        DerivesStateAfterTurn(kb, agenda, inferred, count, trace);
        FcLoopAsWrittenDerives(kb, query, agenda[1..] + step.1, inferred + {p}, step.0, trace + [p]);
      }
    }
  }

  /** When no rule repeats and no premise repeats a symbol, a no from the as-written loop
      means the query is not entailed: the loop only stops once the inferred symbols
      contain the facts and are closed under the rules. */
  lemma {:induction false} FcLoopAsWrittenCloses(kb: seq<Expr>, query: Expr, agenda: seq<Expr>,
                                                 inferred: set<Expr>, count: map<Expr, int>,
                                                 trace: seq<Expr>)
    requires LoopReady(kb, query, agenda, inferred, trace)
    requires ClosesState(kb, query, agenda, inferred, count)
    ensures !FcLoopAsWritten(kb, query, agenda, inferred, count, trace).0 ==> !KbEntails(kb, query)
    decreases |Heads(kb) - inferred|, |agenda|
  {
    if agenda == [] {
      ClosedCountermodel(kb, inferred, query);
    } else {
      var p := agenda[0];
      if p == query {
        QueryAtFront(kb, query, agenda, inferred, count, trace);
      } else if p in inferred {
        assert agenda == [p] + agenda[1..];
        PendingPop(kb, inferred, p, agenda[1..]);
        FcLoopAsWrittenCloses(kb, query, agenda[1..], inferred, count, trace);
      } else {
        var step := Turn(kb, p, count);
        ReadyAfterTurn(kb, query, agenda, inferred, count, trace);
        ClosesStateAfterTurn(kb, query, agenda, inferred, count);
        FcLoopAsWrittenCloses(kb, query, agenda[1..] + step.1, inferred + {p}, step.0, trace + [p]);
      }
    }
  }

  /** The counters as written start out tracking the empty set of inferred symbols. */
  lemma InitialTrack(kb: seq<Expr>)
    ensures CountsTrack(kb, CountsAsWritten(kb), {})
  {
    forall c | c in kb && IsRule(c) ensures PremiseSet(c) * {} == {}
    {
    }
  }

  /** `pl_fc_entails` as written, on a knowledge base that lists no rule twice, returns a
      derivation: every symbol in its trace follows from the ones before it, so a yes
      means the query is entailed. */
  lemma FcAsWrittenSound(kb: seq<Expr>, query: Expr)
    requires NoRepeatedRule(kb)
    ensures Derivation(kb, FcAsWritten(kb, query).1)
    ensures FcAsWritten(kb, query).0 ==> KbEntails(kb, query)
  {
    FcAsWrittenStart(kb, query);
    InitialTrack(kb);
    TraceOfOne(query, []);
    assert forall x | x in Facts(kb) :: x in Heads(kb) && Supported(kb, {}, x);
    FcLoopAsWrittenDerives(kb, query, Facts(kb), {}, CountsAsWritten(kb), []);
    if FcAsWritten(kb, query).0 {
      Found(kb, query, FcAsWritten(kb, query).1);
    }
  }

  /** `pl_fc_entails` as written answers yes exactly when the query is entailed, on a
      definite-clause knowledge base that lists no rule twice and in which no rule repeats
      a premise symbol. */
  lemma FcAsWrittenCorrect(kb: seq<Expr>, query: Expr)
    requires DefiniteKb(kb) && IsAtom(query)
    requires NoRepeatedRule(kb) && DistinctPremises(kb)
    ensures FcAsWritten(kb, query).0 <==> KbEntails(kb, query)
  {
    FcAsWrittenSound(kb, query);
    FcAsWrittenStart(kb, query);
    InitialTrack(kb);
    InitialState(kb);
    TraceOfOne(query, []);
    assert forall x | x in Facts(kb) :: x in Heads(kb);
    FcLoopAsWrittenCloses(kb, query, Facts(kb), {}, CountsAsWritten(kb), []);
  }

  // ---------------------------------------------------------------------------
  // The knowledge base and query of the parser tests

  /** Bare symbols, none of them written twice. */
  predicate DistinctAtoms(xs: seq<Expr>)
  {
    (forall i | 0 <= i < |xs| :: IsAtom(xs[i])) && Utils.NoDuplicates(xs)
  }

  /** `p2 ==> p3; p3 ==> p1; c ==> e; b & e ==> f; f & g ==> h; p2 & p1 & p3 ==> d;
      p1 & p3 ==> c; a; b; p2`, with `&` grouping to the left as the parser builds it. */
  function ScenarioKb(p1: Expr, p2: Expr, p3: Expr, a: Expr, b: Expr, c: Expr, d: Expr,
                      e: Expr, f: Expr, g: Expr, h: Expr): seq<Expr>
  {
    [Rule(p2, p3), Rule(p3, p1), Rule(c, e), Rule(And(b, e), f), Rule(And(f, g), h),
     Rule(And(And(p2, p1), p3), d), Rule(And(p1, p3), c), a, b, p2]
  }

  /** The facts about the eleven symbols that the lemmas below use. */
  lemma ScenarioAtoms(p1: Expr, p2: Expr, p3: Expr, a: Expr, b: Expr, c: Expr, d: Expr,
                      e: Expr, f: Expr, g: Expr, h: Expr)
    requires DistinctAtoms([p1, p2, p3, a, b, c, d, e, f, g, h])
    ensures IsAtom(p1) && IsAtom(p2) && IsAtom(p3) && IsAtom(a) && IsAtom(b) && IsAtom(c)
    ensures IsAtom(d) && IsAtom(e) && IsAtom(f) && IsAtom(g) && IsAtom(h)
    ensures p2 != p1 && p2 != p3 && p1 != p3 && b != e && f != g
  {
    var atoms := [p1, p2, p3, a, b, c, d, e, f, g, h];
    assert atoms[0] == p1 && atoms[1] == p2 && atoms[2] == p3 && atoms[3] == a;
    assert atoms[4] == b && atoms[5] == c && atoms[6] == d && atoms[7] == e;
    assert atoms[8] == f && atoms[9] == g && atoms[10] == h;
  }

  /** The seven conclusions differ. */
  lemma ScenarioHeads(p1: Expr, p2: Expr, p3: Expr, a: Expr, b: Expr, c: Expr, d: Expr,
                      e: Expr, f: Expr, g: Expr, h: Expr)
    requires DistinctAtoms([p1, p2, p3, a, b, c, d, e, f, g, h])
    ensures Utils.NoDuplicates([p3, p1, e, f, h, d, c])
  {
    var atoms := [p1, p2, p3, a, b, c, d, e, f, g, h];
    var heads := [p3, p1, e, f, h, d, c];
    var at := [2, 0, 7, 8, 10, 6, 5];
    assert forall k | 0 <= k < 7 :: 0 <= at[k] < 11 && heads[k] == atoms[at[k]];
    assert forall k, l | 0 <= k < l < 7 :: at[k] != at[l];
  }

  /** A bare symbol is neither a conjunction nor a rule. */
  lemma AtomNotConjunction(x: Expr)
    requires IsAtom(x)
    ensures x.op != "&" && !IsRule(x)
  {
    ConnectivesAreNotSymbols();
  }

  /** The premise conjuncts of the seven rules. */
  lemma ScenarioPremises(p1: Expr, p2: Expr, p3: Expr, a: Expr, b: Expr, c: Expr, d: Expr,
                         e: Expr, f: Expr, g: Expr, h: Expr)
    requires DistinctAtoms([p1, p2, p3, a, b, c, d, e, f, g, h])
    ensures Conjuncts(p2) == [p2] && Conjuncts(p3) == [p3] && Conjuncts(c) == [c]
    ensures Conjuncts(And(b, e)) == [b, e] && Conjuncts(And(f, g)) == [f, g]
    ensures Conjuncts(And(And(p2, p1), p3)) == [p2, p1, p3] && Conjuncts(And(p1, p3)) == [p1, p3]
  {
    ScenarioAtoms(p1, p2, p3, a, b, c, d, e, f, g, h);
    AtomNotConjunction(p1);
    AtomNotConjunction(p2);
    AtomNotConjunction(p3);
    AtomNotConjunction(b);
    AtomNotConjunction(c);
    AtomNotConjunction(e);
    AtomNotConjunction(f);
    AtomNotConjunction(g);
    ConjunctsOfPair(b, e);
    ConjunctsOfPair(f, g);
    ConjunctsOfTriple(p2, p1, p3);
    ConjunctsOfPair(p1, p3);
  }

  /** The shape of the list: seven rules with the given conclusions, then three bare
      symbols. */
  lemma ScenarioShape(p1: Expr, p2: Expr, p3: Expr, a: Expr, b: Expr, c: Expr, d: Expr,
                      e: Expr, f: Expr, g: Expr, h: Expr)
    requires DistinctAtoms([p1, p2, p3, a, b, c, d, e, f, g, h])
    ensures var kb, heads := ScenarioKb(p1, p2, p3, a, b, c, d, e, f, g, h), [p3, p1, e, f, h, d, c];
      |kb| == 10 &&
      (forall i | 0 <= i < 7 :: IsRule(kb[i]) && Conclusion(kb[i]) == heads[i]) &&
      (forall i | 7 <= i < 10 :: !IsRule(kb[i]))
  {
    ScenarioAtoms(p1, p2, p3, a, b, c, d, e, f, g, h);
    ConnectivesAreNotSymbols();
  }

  /** A rule concluding a bare symbol from a non-empty list of bare symbols is definite;
      so is a bare symbol. */
  lemma DefiniteRule(premise: Expr, conclusion: Expr, symbols: seq<Expr>)
    requires IsAtom(conclusion) && Conjuncts(premise) == symbols && |symbols| >= 1
    requires forall k | 0 <= k < |symbols| :: IsAtom(symbols[k])
    ensures DefiniteClause(Rule(premise, conclusion))
  {
  }

  /** Every clause of the list is definite. */
  lemma ScenarioDefinite(p1: Expr, p2: Expr, p3: Expr, a: Expr, b: Expr, c: Expr, d: Expr,
                         e: Expr, f: Expr, g: Expr, h: Expr)
    requires DistinctAtoms([p1, p2, p3, a, b, c, d, e, f, g, h])
    ensures DefiniteKb(ScenarioKb(p1, p2, p3, a, b, c, d, e, f, g, h))
  {
    ScenarioAtoms(p1, p2, p3, a, b, c, d, e, f, g, h);
    ScenarioPremises(p1, p2, p3, a, b, c, d, e, f, g, h);
    DefiniteRule(p2, p3, [p2]);
    DefiniteRule(p3, p1, [p3]);
    DefiniteRule(c, e, [c]);
    DefiniteRule(And(b, e), f, [b, e]);
    DefiniteRule(And(f, g), h, [f, g]);
    DefiniteRule(And(And(p2, p1), p3), d, [p2, p1, p3]);
    DefiniteRule(And(p1, p3), c, [p1, p3]);
  }

  /** A symbol alone, and two or three different symbols, make lists without
      repetitions. */
  lemma DistinctList(x: Expr, y: Expr, z: Expr)
    ensures Utils.NoDuplicates([x])
    ensures x != y ==> Utils.NoDuplicates([x, y])
    ensures x != y && x != z && y != z ==> Utils.NoDuplicates([x, y, z])
  {
  }

  /** Rules with pairwise different conclusions, followed by non-rules, are never listed
      twice. */
  lemma NoRepeatedRuleByHeads(kb: seq<Expr>, heads: seq<Expr>)
    requires |heads| <= |kb| && Utils.NoDuplicates(heads)
    requires forall i | 0 <= i < |heads| :: IsRule(kb[i]) && Conclusion(kb[i]) == heads[i]
    requires forall i | |heads| <= i < |kb| :: !IsRule(kb[i])
    ensures NoRepeatedRule(kb)
  {
  }

  /** No rule is listed twice: the seven conclusions differ. */
  lemma ScenarioNoRepeatedRule(p1: Expr, p2: Expr, p3: Expr, a: Expr, b: Expr, c: Expr, d: Expr,
                               e: Expr, f: Expr, g: Expr, h: Expr)
    requires DistinctAtoms([p1, p2, p3, a, b, c, d, e, f, g, h])
    ensures NoRepeatedRule(ScenarioKb(p1, p2, p3, a, b, c, d, e, f, g, h))
  {
    ScenarioHeads(p1, p2, p3, a, b, c, d, e, f, g, h);
    ScenarioShape(p1, p2, p3, a, b, c, d, e, f, g, h);
    NoRepeatedRuleByHeads(ScenarioKb(p1, p2, p3, a, b, c, d, e, f, g, h), [p3, p1, e, f, h, d, c]);
  }

  /** No premise names a symbol twice. */
  lemma ScenarioDistinctPremises(p1: Expr, p2: Expr, p3: Expr, a: Expr, b: Expr, c: Expr, d: Expr,
                                 e: Expr, f: Expr, g: Expr, h: Expr)
    requires DistinctAtoms([p1, p2, p3, a, b, c, d, e, f, g, h])
    ensures DistinctPremises(ScenarioKb(p1, p2, p3, a, b, c, d, e, f, g, h))
  {
    var kb := ScenarioKb(p1, p2, p3, a, b, c, d, e, f, g, h);
    ScenarioAtoms(p1, p2, p3, a, b, c, d, e, f, g, h);
    ScenarioPremises(p1, p2, p3, a, b, c, d, e, f, g, h);
    ScenarioShape(p1, p2, p3, a, b, c, d, e, f, g, h);
    forall i | 0 <= i < 7 ensures Utils.NoDuplicates(Conjuncts(Premise(kb[i])))
    {
      if i == 0 {
        DistinctList(p2, p2, p2);
      } else if i == 1 {
        DistinctList(p3, p3, p3);
      } else if i == 2 {
        DistinctList(c, c, c);
      } else if i == 3 {
        DistinctList(b, e, e);
      } else if i == 4 {
        DistinctList(f, g, g);
      } else if i == 5 {
        DistinctList(p2, p1, p3);
      } else {
        DistinctList(p1, p3, p3);
      }
    }
    DistinctPremisesByIndex(kb, 7);
  }

  /** Rules whose premises repeat no symbol, followed by non-rules. */
  lemma DistinctPremisesByIndex(kb: seq<Expr>, n: int)
    requires 0 <= n <= |kb|
    requires forall i | 0 <= i < n :: IsRule(kb[i]) && Utils.NoDuplicates(Conjuncts(Premise(kb[i])))
    requires forall i | n <= i < |kb| :: !IsRule(kb[i])
    ensures DistinctPremises(kb)
  {
  }

  /** The conclusion of a listed rule whose premise symbols are all entailed is entailed. */
  lemma EntailedByRule(kb: seq<Expr>, r: Expr, known: set<Expr>)
    requires r in kb && IsRule(r) && PremiseSet(r) <= known
    requires forall y | y in known :: KbEntails(kb, y)
    ensures KbEntails(kb, Conclusion(r))
  {
    RuleSupports(kb, r, known);
    SupportedEntailed(kb, known, Conclusion(r));
  }

  /** `p2` is a fact, `p3` follows from it and `p1` from `p3`. */
  lemma ScenarioEntailsChain(p1: Expr, p2: Expr, p3: Expr, a: Expr, b: Expr, c: Expr, d: Expr,
                             e: Expr, f: Expr, g: Expr, h: Expr)
    requires DistinctAtoms([p1, p2, p3, a, b, c, d, e, f, g, h])
    ensures var kb := ScenarioKb(p1, p2, p3, a, b, c, d, e, f, g, h);
      KbEntails(kb, p2) && KbEntails(kb, p3) && KbEntails(kb, p1)
  {
    var kb := ScenarioKb(p1, p2, p3, a, b, c, d, e, f, g, h);
    ScenarioAtoms(p1, p2, p3, a, b, c, d, e, f, g, h);
    ScenarioPremises(p1, p2, p3, a, b, c, d, e, f, g, h);
    assert p2 in kb && IsFact(p2);
    SupportedEntailed(kb, {}, p2);
    assert Rule(p2, p3) in kb && PremiseSet(Rule(p2, p3)) == Utils.Elements([p2]);
    EntailedByRule(kb, Rule(p2, p3), {p2});
    assert Rule(p3, p1) in kb && PremiseSet(Rule(p3, p1)) == Utils.Elements([p3]);
    EntailedByRule(kb, Rule(p3, p1), {p3});
  }

  /** `d` follows from `p2`, `p1` and `p3`. */
  lemma ScenarioEntailsD(p1: Expr, p2: Expr, p3: Expr, a: Expr, b: Expr, c: Expr, d: Expr,
                         e: Expr, f: Expr, g: Expr, h: Expr)
    requires DistinctAtoms([p1, p2, p3, a, b, c, d, e, f, g, h])
    ensures KbEntails(ScenarioKb(p1, p2, p3, a, b, c, d, e, f, g, h), d)
  {
    var kb := ScenarioKb(p1, p2, p3, a, b, c, d, e, f, g, h);
    ScenarioEntailsChain(p1, p2, p3, a, b, c, d, e, f, g, h);
    ScenarioPremises(p1, p2, p3, a, b, c, d, e, f, g, h);
    var r := Rule(And(And(p2, p1), p3), d);
    assert r in kb && PremiseSet(r) == Utils.Elements([p2, p1, p3]);
    EntailedByRule(kb, r, {p2, p1, p3});
  }

  /** On the knowledge base of the parser tests, `pl_fc_entails` as written answers yes
      for `d`, with a trace that is a derivation ending in `d`. */
  lemma FcAsWrittenScenario(p1: Expr, p2: Expr, p3: Expr, a: Expr, b: Expr, c: Expr, d: Expr,
                            e: Expr, f: Expr, g: Expr, h: Expr)
    requires DistinctAtoms([p1, p2, p3, a, b, c, d, e, f, g, h])
    ensures var r := FcAsWritten(ScenarioKb(p1, p2, p3, a, b, c, d, e, f, g, h), d);
      r.0 && |r.1| > 0 && r.1[|r.1| - 1] == d &&
      Derivation(ScenarioKb(p1, p2, p3, a, b, c, d, e, f, g, h), r.1)
  {
    var kb := ScenarioKb(p1, p2, p3, a, b, c, d, e, f, g, h);
    var atoms := [p1, p2, p3, a, b, c, d, e, f, g, h];
    assert IsAtom(atoms[6]) && atoms[6] == d;
    ScenarioDefinite(p1, p2, p3, a, b, c, d, e, f, g, h);
    ScenarioNoRepeatedRule(p1, p2, p3, a, b, c, d, e, f, g, h);
    ScenarioDistinctPremises(p1, p2, p3, a, b, c, d, e, f, g, h);
    ScenarioEntailsD(p1, p2, p3, a, b, c, d, e, f, g, h);
    FcAsWrittenCorrect(kb, d);
    FcAsWrittenSound(kb, d);
  }
}
