/** Forward chaining over a definite-clause knowledge base (`pl_fc_entails`): an agenda of
    known symbols, and per rule a count of premise symbols not yet inferred. */
module ForwardChaining {
  import opened Exprs
  import opened Semantics
  import opened KnowledgeBase
  import Utils

  /** Every symbol forward chaining can put on its agenda: the facts and the conclusions. */
  function Heads(kb: seq<Expr>): set<Expr>
  {
    (set c | c in kb && IsFact(c)) + (set c | c in kb && IsRule(c) :: Conclusion(c))
  }

  /** `x` is a fact of `kb`, or the conclusion of a rule whose premise symbols are all in
      `known`. */
  predicate Supported(kb: seq<Expr>, known: set<Expr>, x: Expr)
  {
    (x in kb && IsFact(x)) ||
    exists i | 0 <= i < |kb| :: IsRule(kb[i]) && Conclusion(kb[i]) == x && PremiseSet(kb[i]) <= known
  }

  /** Every element of `trace` is supported by the elements before it. */
  predicate Derivation(kb: seq<Expr>, trace: seq<Expr>)
  {
    forall j | 0 <= j < |trace| :: Supported(kb, Utils.Elements(trace[..j]), trace[j])
  }

  lemma SupportedMonotone(kb: seq<Expr>, known: set<Expr>, more: set<Expr>, x: Expr)
    requires known <= more && Supported(kb, known, x)
    ensures Supported(kb, more, x)
  {
    if !(x in kb && IsFact(x)) {
      var i :| 0 <= i < |kb| && IsRule(kb[i]) && Conclusion(kb[i]) == x && PremiseSet(kb[i]) <= known;
      assert PremiseSet(kb[i]) <= more;
    }
  }

  /** A symbol supported by the whole trace may be appended to it. */
  lemma AppendSupported(kb: seq<Expr>, trace: seq<Expr>, p: Expr)
    requires Derivation(kb, trace) && Supported(kb, Utils.Elements(trace), p)
    ensures Derivation(kb, trace + [p])
  {
    var t := trace + [p];
    forall j | 0 <= j < |t| ensures Supported(kb, Utils.Elements(t[..j]), t[j])
    {
      if j < |trace| {
        assert t[..j] == trace[..j];
      } else {
        assert t[..j] == trace;
      }
    }
  }

  /** A symbol supported by entailed symbols is entailed. */
  lemma SupportedEntailed(kb: seq<Expr>, known: set<Expr>, x: Expr)
    requires Supported(kb, known, x)
    requires forall y | y in known :: KbEntails(kb, y)
    ensures KbEntails(kb, x)
  {
    forall m: Model | KbHolds(kb, m) ensures Holds(x, m)
    {
      if x in kb && IsFact(x) {
        var i :| 0 <= i < |kb| && kb[i] == x;
      } else {
        var i :| 0 <= i < |kb| && IsRule(kb[i]) && Conclusion(kb[i]) == x && PremiseSet(kb[i]) <= known;
        var cs := Conjuncts(Premise(kb[i]));
        forall k | 0 <= k < |cs| ensures Holds(cs[k], m)
        {
          assert cs[k] in known;
          assert KbEntails(kb, cs[k]);
        }
        AllHoldIff(cs, m);
        RuleHolds(kb[i], m);
      }
    }
  }

  /** Every symbol of a derivation is entailed by the knowledge base. */
  lemma {:induction false} DerivationSound(kb: seq<Expr>, trace: seq<Expr>, j: int)
    requires Derivation(kb, trace) && 0 <= j < |trace|
    ensures KbEntails(kb, trace[j])
    decreases j
  {
    var known := Utils.Elements(trace[..j]);
    forall y | y in known ensures KbEntails(kb, y)
    {
      var k :| 0 <= k < j && trace[..j][k] == y;
      DerivationSound(kb, trace, k);
    }
    SupportedEntailed(kb, known, trace[j]);
  }

  /** A set of symbols that holds every fact and is closed under the rules, but misses
      `query`, is a model of the knowledge base in which `query` is false. */
  lemma ClosedCountermodel(kb: seq<Expr>, closed: set<Expr>, query: Expr)
    requires DefiniteKb(kb) && IsAtom(query) && query !in closed
    requires forall i | 0 <= i < |kb| && IsFact(kb[i]) :: kb[i] in closed
    requires forall i | 0 <= i < |kb| && IsRule(kb[i]) && PremiseSet(kb[i]) <= closed ::
      Conclusion(kb[i]) in closed
    ensures !KbEntails(kb, query)
  {
    var m: Model := map x | x in closed :: true;
    forall i | 0 <= i < |kb| ensures Holds(kb[i], m)
    {
      var c := kb[i];
      if !IsAtom(c) {
        var cs := Conjuncts(Premise(c));
        RuleHolds(c, m);
        AllHoldIff(cs, m);
        if !(PremiseSet(c) <= closed) {
          var y :| y in PremiseSet(c) && y !in closed;
          var k :| 0 <= k < |cs| && cs[k] == y;
          assert !Holds(cs[k], m);
        }
      }
    }
    assert KbHolds(kb, m) && !Holds(query, m);
  }

  /** Each rule's counter is the number of its premise symbols not yet in `known`. */
  predicate CountsAgree(kb: seq<Expr>, count: seq<int>, known: set<Expr>)
  {
    |count| == |kb| &&
    forall i | 0 <= i < |kb| && IsRule(kb[i]) :: count[i] == |PremiseSet(kb[i]) - known|
  }

  /** Every agenda entry can be put there again from `known`. */
  predicate AgendaSupported(kb: seq<Expr>, agenda: seq<Expr>, known: set<Expr>)
  {
    forall k | 0 <= k < |agenda| :: agenda[k] in Heads(kb) && Supported(kb, known, agenda[k])
  }

  /** Nothing is lost: every fact, and the conclusion of every rule whose premises are
      known, is known or waiting on the agenda. */
  predicate Pending(kb: seq<Expr>, known: set<Expr>, agenda: seq<Expr>)
  {
    (forall i | 0 <= i < |kb| && IsFact(kb[i]) :: kb[i] in known || kb[i] in agenda) &&
    (forall i | 0 <= i < |kb| && IsRule(kb[i]) && PremiseSet(kb[i]) <= known ::
       Conclusion(kb[i]) in known || Conclusion(kb[i]) in agenda)
  }

  /** Popping an already known symbol off the agenda loses nothing. */
  lemma PendingPop(kb: seq<Expr>, known: set<Expr>, p: Expr, rest: seq<Expr>)
    requires p in known && Pending(kb, known, [p] + rest)
    ensures Pending(kb, known, rest)
  {
  }

  lemma AgendaPop(kb: seq<Expr>, known: set<Expr>, p: Expr, rest: seq<Expr>)
    requires AgendaSupported(kb, [p] + rest, known)
    ensures AgendaSupported(kb, rest, known) && p in Heads(kb) && Supported(kb, known, p)
  {
    assert ([p] + rest)[0] == p;
    assert forall k | 0 <= k < |rest| :: rest[k] == ([p] + rest)[k + 1];
  }

  /** Appending a symbol not yet in the trace keeps it free of repetitions. */
  lemma AppendFresh(trace: seq<Expr>, p: Expr)
    requires Utils.NoDuplicates(trace) && p !in Utils.Elements(trace)
    ensures Utils.NoDuplicates(trace + [p])
    ensures Utils.Elements(trace + [p]) == Utils.Elements(trace) + {p}
  {
  }

  /** The counters as `pl_fc_entails` sets them up: the number of distinct premise symbols. */
  function InitialCounts(kb: seq<Expr>): (r: seq<int>)
    requires DefiniteKb(kb)
    ensures CountsAgree(kb, r, {})
    ensures forall i | 0 <= i < |kb| && IsRule(kb[i]) :: r[i] > 0
  {
    forall i | 0 <= i < |kb| && IsRule(kb[i]) ensures PremiseSet(kb[i]) != {}
    {
      assert Conjuncts(Premise(kb[i]))[0] in PremiseSet(kb[i]);
    }
    var r := seq(|kb|, i requires 0 <= i < |kb| => if IsRule(kb[i]) then |PremiseSet(kb[i])| else 0);
    assert forall i | 0 <= i < |kb| && IsRule(kb[i]) :: PremiseSet(kb[i]) - {} == PremiseSet(kb[i]);
    r
  }

  /** Before the first step: every fact is on the agenda and no rule can fire. */
  lemma InitialState(kb: seq<Expr>)
    requires DefiniteKb(kb)
    ensures AgendaSupported(kb, Facts(kb), {}) && Pending(kb, {}, Facts(kb))
  {
    forall i | 0 <= i < |kb| && IsRule(kb[i]) ensures !(PremiseSet(kb[i]) <= {})
    {
      assert Conjuncts(Premise(kb[i]))[0] in PremiseSet(kb[i]);
    }
  }

  /** The inner loop of `pl_fc_entails` after `p` is inferred: every rule with `p` among
      its premise symbols loses one from its counter, and the conclusion of each rule whose
      counter reaches zero joins the end of the agenda. */
  method Fire(kb: seq<Expr>, p: Expr, inferred: set<Expr>, count: seq<int>, agenda: seq<Expr>)
    returns (count': seq<int>, agenda': seq<Expr>)
    requires p !in inferred && CountsAgree(kb, count, inferred)
    requires AgendaSupported(kb, agenda, inferred + {p})
    requires Pending(kb, inferred, [p] + agenda)
    ensures CountsAgree(kb, count', inferred + {p})
    ensures AgendaSupported(kb, agenda', inferred + {p})
    ensures Pending(kb, inferred + {p}, agenda')
  {
    count' := count;
    agenda' := agenda;
    var i := 0;
    while i < |kb|
      invariant FireProgress(kb, inferred, p, i, count', agenda, agenda')
    {
      count', agenda' := FireAt(kb, p, inferred, i, count', agenda, agenda');
      i := i + 1;
    }
  }

  /** The inner loop after its first `i` clauses: those clauses count against
      `inferred + {p}`, the others still against `inferred`; the agenda has only grown, and
      every rule among the first `i` whose premises are known has its conclusion known or
      waiting. */
  predicate FireProgress(kb: seq<Expr>, inferred: set<Expr>, p: Expr, i: int, count: seq<int>,
                         agenda0: seq<Expr>, agenda: seq<Expr>)
  {
    && 0 <= i <= |kb|
    && CountsSplit(kb, inferred, p, i, count)
    && AgendaSupported(kb, agenda, inferred + {p})
    && (forall x | x in agenda0 :: x in agenda)
    && Queued(kb, inferred + {p}, i, agenda)
  }

  /** The counters of the first `i` clauses are taken against `inferred + {p}`, the rest
      against `inferred`. */
  predicate CountsSplit(kb: seq<Expr>, inferred: set<Expr>, p: Expr, i: int, count: seq<int>)
  {
    && |count| == |kb|
    && (forall j | 0 <= j < i && j < |kb| && IsRule(kb[j]) ::
          count[j] == |PremiseSet(kb[j]) - (inferred + {p})|)
    && (forall j | i <= j < |kb| && 0 <= j && IsRule(kb[j]) :: count[j] == |PremiseSet(kb[j]) - inferred|)
  }

  /** Every rule among the first `i` whose premises are in `known` has its conclusion in
      `known` or on the agenda. */
  predicate Queued(kb: seq<Expr>, known: set<Expr>, i: int, agenda: seq<Expr>)
  {
    forall j | 0 <= j < i && j < |kb| && IsRule(kb[j]) && PremiseSet(kb[j]) <= known ::
      Conclusion(kb[j]) in known || Conclusion(kb[j]) in agenda
  }

  /** One turn of the inner loop, at clause `i`. */
  method FireAt(kb: seq<Expr>, p: Expr, inferred: set<Expr>, i: int, count: seq<int>,
                agenda0: seq<Expr>, agenda: seq<Expr>)
    returns (count': seq<int>, agenda': seq<Expr>)
    requires 0 <= i < |kb| && p !in inferred
    requires FireProgress(kb, inferred, p, i, count, agenda0, agenda)
    requires Pending(kb, inferred, [p] + agenda0)
    ensures FireProgress(kb, inferred, p, i + 1, count', agenda0, agenda')
  {
    count' := count;
    agenda' := agenda;
    if IsRule(kb[i]) && p in PremiseSet(kb[i]) {
      CountsStepHit(kb, inferred, p, i, count);
      count' := count[i := count[i] - 1];
      assert count'[i] == |PremiseSet(kb[i]) - (inferred + {p})|;
      if count'[i] == 0 {
        AppendConclusion(kb, agenda, inferred + {p}, i);
        agenda' := agenda + [Conclusion(kb[i])];
      }
    } else {
      CountsStepMiss(kb, inferred, p, i, count);
    }
    QueuedStep(kb, inferred, p, i, agenda0, agenda, agenda');
  }

  /** Clause `i` is a rule with `p` among its premise symbols: its counter loses one. */
  lemma CountsStepHit(kb: seq<Expr>, inferred: set<Expr>, p: Expr, i: int, count: seq<int>)
    requires 0 <= i < |kb| && p !in inferred && CountsSplit(kb, inferred, p, i, count)
    requires IsRule(kb[i]) && p in PremiseSet(kb[i])
    ensures CountsSplit(kb, inferred, p, i + 1, count[i := count[i] - 1])
  {
    var count' := count[i := count[i] - 1];
    Utils.CardRemove(PremiseSet(kb[i]), inferred, p);
    CountsKept(kb, inferred, p, i, count, count');
  }

  /** Clause `i` is not a rule with `p` among its premise symbols: its counter stays. */
  lemma CountsStepMiss(kb: seq<Expr>, inferred: set<Expr>, p: Expr, i: int, count: seq<int>)
    requires 0 <= i < |kb| && p !in inferred && CountsSplit(kb, inferred, p, i, count)
    requires !(IsRule(kb[i]) && p in PremiseSet(kb[i]))
    ensures CountsSplit(kb, inferred, p, i + 1, count)
  {
    if IsRule(kb[i]) {
      Utils.CardRemove(PremiseSet(kb[i]), inferred, p);
    }
    CountsKept(kb, inferred, p, i, count, count);
  }

  /** The counters other than clause `i`'s are untouched by its turn. */
  lemma CountsKept(kb: seq<Expr>, inferred: set<Expr>, p: Expr, i: int, count: seq<int>, count': seq<int>)
    requires 0 <= i < |kb| && CountsSplit(kb, inferred, p, i, count)
    requires |count'| == |kb| && forall j | 0 <= j < |kb| && j != i :: count'[j] == count[j]
    requires IsRule(kb[i]) ==> count'[i] == |PremiseSet(kb[i]) - (inferred + {p})|
    ensures CountsSplit(kb, inferred, p, i + 1, count')
  {
  }

  /** Appending the conclusion of a rule whose premises are known keeps the agenda
      supported. */
  lemma AppendConclusion(kb: seq<Expr>, agenda: seq<Expr>, known: set<Expr>, i: int)
    requires 0 <= i < |kb| && IsRule(kb[i])
    requires AgendaSupported(kb, agenda, known)
    requires |PremiseSet(kb[i]) - known| == 0
    ensures PremiseSet(kb[i]) <= known
    ensures AgendaSupported(kb, agenda + [Conclusion(kb[i])], known)
  {
    var missing := PremiseSet(kb[i]) - known;
    assert missing == {};
    forall x | x in PremiseSet(kb[i]) ensures x in known {
      assert x !in missing;
    }
    assert Conclusion(kb[i]) in Heads(kb);
    assert Supported(kb, known, Conclusion(kb[i]));
    var a' := agenda + [Conclusion(kb[i])];
    assert forall k | 0 <= k < |agenda| :: a'[k] == agenda[k];
  }

  /** Clause `i` keeps the queue complete: a rule whose last missing premise was `p` has
      just put its conclusion on the agenda, and a rule whose premises were known before
      had its conclusion known or waiting already. */
  lemma QueuedStep(kb: seq<Expr>, inferred: set<Expr>, p: Expr, i: int, agenda0: seq<Expr>,
                   agenda: seq<Expr>, agenda': seq<Expr>)
    requires 0 <= i < |kb|
    requires Queued(kb, inferred + {p}, i, agenda) && (forall x | x in agenda :: x in agenda')
    requires Pending(kb, inferred, [p] + agenda0) && (forall x | x in agenda0 :: x in agenda)
    requires IsRule(kb[i]) && PremiseSet(kb[i]) <= inferred + {p} && p in PremiseSet(kb[i]) ==>
      Conclusion(kb[i]) in agenda'
    ensures Queued(kb, inferred + {p}, i + 1, agenda')
  {
    var known := inferred + {p};
    forall j | 0 <= j < i + 1 && j < |kb| && IsRule(kb[j]) && PremiseSet(kb[j]) <= known
      ensures Conclusion(kb[j]) in known || Conclusion(kb[j]) in agenda'
    {
      if j < i {
        assert Conclusion(kb[j]) in known || Conclusion(kb[j]) in agenda;
      } else if p !in PremiseSet(kb[j]) {
        assert PremiseSet(kb[j]) <= inferred;
        assert Conclusion(kb[j]) in inferred || Conclusion(kb[j]) in [p] + agenda0;
      }
    }
  }

  /** What holds between two steps of `pl_fc_entails` that have not met the query. */
  predicate Invariant(kb: seq<Expr>, query: Expr, inferred: set<Expr>, count: seq<int>,
                      agenda: seq<Expr>, trace: seq<Expr>)
  {
    Utils.Elements(trace) == inferred && Utils.NoDuplicates(trace) &&
    query !in inferred && inferred <= Heads(kb) &&
    Derivation(kb, trace) && CountsAgree(kb, count, inferred) &&
    AgendaSupported(kb, agenda, inferred) && Pending(kb, inferred, agenda)
  }

  /** One pass of the `while agenda` loop: pop the front of the agenda; stop if it is the
      query, skip it if it is already inferred, otherwise infer it and fire its rules. */
  method Step(kb: seq<Expr>, query: Expr, inferred: set<Expr>, count: seq<int>,
              agenda: seq<Expr>, trace: seq<Expr>)
    returns (found: bool, inferred': set<Expr>, count': seq<int>, agenda': seq<Expr>, trace': seq<Expr>)
    requires agenda != [] && Invariant(kb, query, inferred, count, agenda, trace)
    ensures found ==> Derivation(kb, trace') && Utils.NoDuplicates(trace')
    ensures found ==> |trace'| > 0 && trace'[|trace'| - 1] == query
    ensures !found ==> Invariant(kb, query, inferred', count', agenda', trace')
    ensures !found && inferred' == inferred ==> |agenda'| < |agenda|
    ensures !found && inferred' != inferred ==> |Heads(kb) - inferred'| < |Heads(kb) - inferred|
  {
    var p := agenda[0];
    found, inferred', count', agenda', trace' := false, inferred, count, agenda[1..], trace;
    if p == query {
      ExtendTrace(kb, trace, inferred, agenda);
      found, trace' := true, trace + [p];
    } else if p !in inferred {
      ReadyToFire(kb, inferred, agenda);
      count', agenda' := Fire(kb, p, inferred, count, agenda[1..]);
      ExtendTrace(kb, trace, inferred, agenda);
      inferred', trace' := inferred + {p}, trace + [p];
    } else {
      SkipKnown(kb, inferred, agenda);
    }
  }

  /** A new symbol from the front of the agenda extends the trace: it stays a derivation
      without repetitions that lists what is inferred, and fewer heads are left to infer. */
  lemma ExtendTrace(kb: seq<Expr>, trace: seq<Expr>, inferred: set<Expr>, agenda: seq<Expr>)
    requires Derivation(kb, trace) && Utils.NoDuplicates(trace)
    requires Utils.Elements(trace) == inferred && inferred <= Heads(kb)
    requires agenda != [] && agenda[0] !in inferred && AgendaSupported(kb, agenda, inferred)
    ensures Derivation(kb, trace + [agenda[0]]) && Utils.NoDuplicates(trace + [agenda[0]])
    ensures Utils.Elements(trace + [agenda[0]]) == inferred + {agenda[0]}
    ensures inferred + {agenda[0]} <= Heads(kb)
    ensures |Heads(kb) - (inferred + {agenda[0]})| < |Heads(kb) - inferred|
    ensures (trace + [agenda[0]])[|trace|] == agenda[0]
  {
    var p := agenda[0];
    assert agenda == [p] + agenda[1..];
    AgendaPop(kb, inferred, p, agenda[1..]);
    Utils.CardRemove(Heads(kb), inferred, p);
    AppendSupported(kb, trace, p);
    AppendFresh(trace, p);
  }

  /** The front of the agenda is already inferred: dropping it loses nothing. */
  lemma SkipKnown(kb: seq<Expr>, inferred: set<Expr>, agenda: seq<Expr>)
    requires agenda != [] && agenda[0] in inferred
    requires AgendaSupported(kb, agenda, inferred) && Pending(kb, inferred, agenda)
    ensures AgendaSupported(kb, agenda[1..], inferred) && Pending(kb, inferred, agenda[1..])
  {
    assert agenda == [agenda[0]] + agenda[1..];
    AgendaPop(kb, inferred, agenda[0], agenda[1..]);
    PendingPop(kb, inferred, agenda[0], agenda[1..]);
  }

  /** The front of the agenda is new: the rest of the agenda stays supported once it is
      inferred, as the inner loop requires. */
  lemma ReadyToFire(kb: seq<Expr>, inferred: set<Expr>, agenda: seq<Expr>)
    requires agenda != [] && AgendaSupported(kb, agenda, inferred) && Pending(kb, inferred, agenda)
    ensures AgendaSupported(kb, agenda[1..], inferred + {agenda[0]})
    ensures Pending(kb, inferred, [agenda[0]] + agenda[1..])
  {
    var p, rest := agenda[0], agenda[1..];
    assert agenda == [p] + rest;
    AgendaPop(kb, inferred, p, rest);
    forall k | 0 <= k < |rest| ensures Supported(kb, inferred + {p}, rest[k])
    {
      SupportedMonotone(kb, inferred, inferred + {p}, rest[k]);
    }
  }

  /** With the agenda empty and the query never met, the query is not entailed. */
  lemma Exhausted(kb: seq<Expr>, query: Expr, inferred: set<Expr>, count: seq<int>, trace: seq<Expr>)
    requires DefiniteKb(kb) && IsAtom(query)
    requires Invariant(kb, query, inferred, count, [], trace)
    ensures !KbEntails(kb, query) && query !in trace
  {
    ClosedCountermodel(kb, inferred, query);
  }

  /** The last symbol of a derivation is entailed. */
  lemma Found(kb: seq<Expr>, query: Expr, trace: seq<Expr>)
    requires Derivation(kb, trace) && |trace| > 0 && trace[|trace| - 1] == query
    ensures KbEntails(kb, query)
  {
    DerivationSound(kb, trace, |trace| - 1);
  }

  /** `pl_fc_entails`, with each rule's counter kept per position in the clause list and
      set to the number of distinct premise symbols. The answer is exactly entailment; the
      trace lists each inferred symbol once, each supported by the ones before it, and
      ends with the query when the answer is yes. */
  method PlFcEntails(kb: seq<Expr>, query: Expr) returns (entailed: bool, trace: seq<Expr>)
    requires DefiniteKb(kb) && IsAtom(query)
    ensures entailed <==> KbEntails(kb, query)
    ensures Derivation(kb, trace) && Utils.NoDuplicates(trace)
    ensures entailed ==> |trace| > 0 && trace[|trace| - 1] == query
    ensures !entailed ==> query !in trace
  {
    var count := InitialCounts(kb);
    var inferred: set<Expr> := {};
    var agenda := Facts(kb);
    trace := [];
    InitialState(kb);
    while agenda != []
      invariant Invariant(kb, query, inferred, count, agenda, trace)
      decreases |Heads(kb) - inferred|, |agenda|
    {
      var found;
      found, inferred, count, agenda, trace := Step(kb, query, inferred, count, agenda, trace);
      if found {
        Found(kb, query, trace);
        return true, trace;
      }
    }
    Exhausted(kb, query, inferred, count, trace);
    return false, trace;
  }

  // ---------------------------------------------------------------------------
  // `pl_fc_entails` as written: counters keyed by clause value, set to the number of
  // premise conjuncts including repetitions

  /** `{c: len(conjuncts(c.args[0])) for c in kb.clauses if c.op == '==>'}`: equal clauses
      share one entry. */
  function CountsAsWritten(kb: seq<Expr>): (r: map<Expr, int>)
    ensures forall c | c in kb && IsRule(c) :: c in r && r[c] == |Conjuncts(Premise(c))|
  {
    map c | c in kb && IsRule(c) :: |Conjuncts(Premise(c))|
  }

  /** The `for clause in kb.clauses_with_premise(p)` loop as written: each entry of `cs`
      takes one from its clause's counter, and a counter that reaches exactly zero adds
      the clause's conclusion to the agenda. Every clause it meets is a key of the table. */
  function DecrementAsWritten(cs: seq<Expr>, count: map<Expr, int>): (r: (map<Expr, int>, seq<Expr>))
    requires forall k | 0 <= k < |cs| :: IsRule(cs[k])
    ensures forall x | x in r.1 :: exists k | 0 <= k < |cs| :: Conclusion(cs[k]) == x
    ensures |r.1| <= |cs|
  {
    if cs == [] then (count, [])
    else
      var n := (if cs[0] in count then count[cs[0]] else 0) - 1;
      var rest := DecrementAsWritten(cs[1..], count[cs[0] := n]);
      assert forall k | 0 <= k < |cs| - 1 :: cs[1..][k] == cs[k + 1];
      (rest.0, if n == 0 then [Conclusion(cs[0])] + rest.1 else rest.1)
  }

  /** The symbols the as-written inner loop adds are conclusions of the knowledge base. */
  lemma FiredAreHeads(kb: seq<Expr>, p: Expr, count: map<Expr, int>)
    ensures forall x | x in DecrementAsWritten(ClausesWithPremise(kb, p), count).1 :: x in Heads(kb)
  {
    var cs := ClausesWithPremise(kb, p);
    forall x | x in DecrementAsWritten(cs, count).1 ensures x in Heads(kb)
    {
      var k :| 0 <= k < |cs| && Conclusion(cs[k]) == x;
      assert cs[k] in kb;
    }
  }

  /** The `while agenda` loop as written. */
  function FcLoopAsWritten(kb: seq<Expr>, query: Expr, agenda: seq<Expr>, inferred: set<Expr>,
                           count: map<Expr, int>, trace: seq<Expr>): (r: (bool, seq<Expr>))
    requires forall x | x in agenda :: x in Heads(kb)
    requires inferred <= Heads(kb) && query !in trace
    requires Utils.NoDuplicates(trace) && Utils.Elements(trace) == inferred
    ensures r.0 ==> exists pre :: r.1 == pre + [query]
    ensures !r.0 ==> query !in r.1
    ensures Utils.NoDuplicates(r.1)
    decreases |Heads(kb) - inferred|, |agenda|
  {
    if agenda == [] then (false, trace)
    else
      var p := agenda[0];
      if p == query then
        AppendFresh(trace, query);
        (true, trace + [query])
      else if p in inferred then FcLoopAsWritten(kb, query, agenda[1..], inferred, count, trace)
      else
        var step := DecrementAsWritten(ClausesWithPremise(kb, p), count);
        Utils.CardRemove(Heads(kb), inferred, p);
        FiredAreHeads(kb, p, count);
        AppendFresh(trace, p);
        FcLoopAsWritten(kb, query, agenda[1..] + step.1, inferred + {p}, step.0, trace + [p])
  }

  /** `pl_fc_entails(kb, q)` as written. When it answers yes, the trace ends with the
      query; when it answers no, the query is not in the trace. */
  function FcAsWritten(kb: seq<Expr>, query: Expr): (r: (bool, seq<Expr>))
    ensures r.0 ==> |r.1| > 0 && r.1[|r.1| - 1] == query
    ensures !r.0 ==> query !in r.1
    ensures Utils.NoDuplicates(r.1)
  {
    assert forall x | x in Facts(kb) :: x in Heads(kb);
    FcLoopAsWritten(kb, query, Facts(kb), {}, CountsAsWritten(kb), [])
  }

  /** The lookups on `[a & c ==> b, a & c ==> b, a]`. */
  lemma DuplicateClauseLookups(a: Expr, b: Expr, c: Expr)
    requires IsAtom(a) && IsAtom(b) && IsAtom(c) && a != b && b != c && a != c
    ensures var rule := Rule(And(a, c), b); var kb := [rule, rule, a];
      Facts(kb) == [a] && ClausesWithPremise(kb, a) == [rule, rule] &&
      CountsAsWritten(kb)[rule] == 2 && a in Heads(kb) && b in Heads(kb)
  {
    DuplicateClauseScans(a, b, c);
    DuplicateClauseTable(a, b, c);
  }

  /** The facts of `[a & c ==> b, a & c ==> b, a]`, and the clauses with premise `a`. */
  lemma DuplicateClauseScans(a: Expr, b: Expr, c: Expr)
    requires IsAtom(a) && IsAtom(b) && IsAtom(c) && a != b && b != c && a != c
    ensures var rule := Rule(And(a, c), b); var kb := [rule, rule, a];
      Facts(kb) == [a] && ClausesWithPremise(kb, a) == [rule, rule]
  {
    var rule := Rule(And(a, c), b);
    ConnectivesAreNotSymbols();
    ConjunctsOfPair(a, c);
    FactsAfterTwoRules(rule, a);
    ClausesAfterTwoCopies(rule, a, a);
  }

  /** Two rules and then a fact: the fact is the only one. */
  lemma FactsAfterTwoRules(rule: Expr, x: Expr)
    requires IsRule(rule) && !IsFact(rule) && IsFact(x)
    ensures Facts([rule, rule, x]) == [x]
  {
    assert [rule, rule, x][1..] == [rule, x] && [rule, x][1..] == [x] && [x][1..] == [];
    assert Facts([x]) == [x];
    assert Facts([rule, x]) == [x];
  }

  /** Two copies of a rule with premise symbol `p`, then a non-rule: both copies are
      listed. */
  lemma ClausesAfterTwoCopies(rule: Expr, x: Expr, p: Expr)
    requires IsRule(rule) && p in Conjuncts(Premise(rule)) && !IsRule(x)
    ensures ClausesWithPremise([rule, rule, x], p) == [rule, rule]
  {
    assert [rule, rule, x][1..] == [rule, x] && [rule, x][1..] == [x] && [x][1..] == [];
    assert ClausesWithPremise([x], p) == [];
    assert ClausesWithPremise([rule, x], p) == [rule];
  }

  /** The counter of `a & c ==> b` and the heads of `[a & c ==> b, a & c ==> b, a]`. */
  lemma DuplicateClauseTable(a: Expr, b: Expr, c: Expr)
    requires IsAtom(a) && IsAtom(b) && IsAtom(c) && a != b && b != c && a != c
    ensures var rule := Rule(And(a, c), b); var kb := [rule, rule, a];
      CountsAsWritten(kb)[rule] == 2 && a in Heads(kb) && b in Heads(kb)
  {
    var rule := Rule(And(a, c), b);
    var kb := [rule, rule, a];
    ConnectivesAreNotSymbols();
    ConjunctsOfPair(a, c);
    assert rule in kb && a in kb;
  }

  /** A rule listed twice shares one counter that both copies decrement, so one of two
      premise symbols is enough to fire it: `[a & c ==> b, a & c ==> b, a]` yields `b`
      although `b` is false when only `a` is true. */
  lemma FcAsWrittenDuplicateClause(a: Expr, b: Expr, c: Expr)
    requires IsAtom(a) && IsAtom(b) && IsAtom(c) && a != b && b != c && a != c
    ensures var kb := [Rule(And(a, c), b), Rule(And(a, c), b), a];
      FcAsWritten(kb, b) == (true, [a, b]) && !KbEntails(kb, b)
  {
    DuplicateClauseRun(a, b, c);
    DuplicateClauseNotEntailed(a, b, c);
  }

  /** The run of the as-written algorithm on `[a & c ==> b, a & c ==> b, a]`. */
  lemma DuplicateClauseRun(a: Expr, b: Expr, c: Expr)
    requires IsAtom(a) && IsAtom(b) && IsAtom(c) && a != b && b != c && a != c
    ensures FcAsWritten([Rule(And(a, c), b), Rule(And(a, c), b), a], b) == (true, [a, b])
  {
    var rule := Rule(And(a, c), b);
    var kb := [rule, rule, a];
    DuplicateClauseLookups(a, b, c);
    FcAsWrittenStart(kb, b);
    DuplicateClauseFirstTurn(a, b, c);
    QueryAfterOne(kb, a, b, DecrementAsWritten([rule, rule], CountsAsWritten(kb)).0);
  }

  /** A second turn that finds the query at the front of the agenda, after one symbol
      `a` has been inferred, answers yes with the trace `[a, query]`. */
  lemma QueryAfterOne(kb: seq<Expr>, a: Expr, query: Expr, count: map<Expr, int>)
    requires a in Heads(kb) && query in Heads(kb) && a != query
    ensures Utils.NoDuplicates([a]) && Utils.Elements([a]) == {a}
    ensures FcLoopAsWritten(kb, query, [query], {a}, count, [a]) == (true, [a, query])
  {
    TraceOfOne(a, [query]);
    QueryAtFront(kb, query, [query], {a}, count, [a]);
    assert [a] + [query] == [a, query];
  }

  /** The loop starts from the facts, nothing inferred, the initial counters and an empty
      trace. */
  lemma FcAsWrittenStart(kb: seq<Expr>, query: Expr)
    ensures FcAsWritten(kb, query) == FcLoopAsWritten(kb, query, Facts(kb), {}, CountsAsWritten(kb), [])
  {
  }

  /** The first turn of that run: `a` is inferred, and the twice-decremented rule puts
      `b` on the agenda. */
  lemma DuplicateClauseFirstTurn(a: Expr, b: Expr, c: Expr)
    requires IsAtom(a) && IsAtom(b) && IsAtom(c) && a != b && b != c && a != c
    ensures var rule := Rule(And(a, c), b);
      var kb := [rule, rule, a];
      var count := CountsAsWritten(kb);
      FcLoopAsWritten(kb, b, [a], {}, count, [])
        == FcLoopAsWritten(kb, b, [b], {a}, DecrementAsWritten([rule, rule], count).0, [a])
  {
    var rule := Rule(And(a, c), b);
    var kb := [rule, rule, a];
    DuplicateClauseLookups(a, b, c);
    var count := CountsAsWritten(kb);
    TwiceDecremented(rule, count);
    var step := DecrementAsWritten([rule, rule], count);
    FiredAreHeads(kb, a, count);
    TraceOfOne(a, step.1);
    InferFront(kb, b, [a], {}, count, []);
    assert DecrementAsWritten(ClausesWithPremise(kb, a), count) == step;
  }

  /** The trace before and after the first symbol is inferred. */
  lemma TraceOfOne(a: Expr, fired: seq<Expr>)
    ensures Utils.NoDuplicates<Expr>([]) && Utils.Elements<Expr>([]) == {}
    ensures Utils.NoDuplicates([a]) && Utils.Elements([a]) == {a}
    ensures [a][0] == a && [a][1..] + fired == fired
    ensures {} + {a} == {a} && [] + [a] == [a]
  {
    assert [a][0] == a;
  }

  /** A rule met twice with its counter at two fires on the second meeting. */
  lemma TwiceDecremented(rule: Expr, count: map<Expr, int>)
    requires IsRule(rule) && rule in count && count[rule] == 2
    ensures DecrementAsWritten([rule, rule], count).1 == [Conclusion(rule)]
  {
    assert [rule, rule][1..] == [rule] && [rule][1..] == [];
    var once := DecrementAsWritten([rule], count[rule := 1]);
    assert once.1 == [Conclusion(rule)];
  }

  /** One turn of the as-written loop on a new symbol other than the query. */
  lemma InferFront(kb: seq<Expr>, query: Expr, agenda: seq<Expr>, inferred: set<Expr>,
                   count: map<Expr, int>, trace: seq<Expr>)
    requires forall x | x in agenda :: x in Heads(kb)
    requires inferred <= Heads(kb) && query !in trace
    requires Utils.NoDuplicates(trace) && Utils.Elements(trace) == inferred
    requires agenda != [] && agenda[0] != query && agenda[0] !in inferred
    requires forall x | x in DecrementAsWritten(ClausesWithPremise(kb, agenda[0]), count).1 :: x in Heads(kb)
    ensures var p := agenda[0];
      var step := DecrementAsWritten(ClausesWithPremise(kb, p), count);
      FcLoopAsWritten(kb, query, agenda, inferred, count, trace)
        == FcLoopAsWritten(kb, query, agenda[1..] + step.1, inferred + {p}, step.0, trace + [p])
  {
  }

  /** The as-written loop stops with yes as soon as the query is at the front. */
  lemma QueryAtFront(kb: seq<Expr>, query: Expr, agenda: seq<Expr>, inferred: set<Expr>,
                     count: map<Expr, int>, trace: seq<Expr>)
    requires forall x | x in agenda :: x in Heads(kb)
    requires inferred <= Heads(kb) && query !in trace
    requires Utils.NoDuplicates(trace) && Utils.Elements(trace) == inferred
    requires agenda != [] && agenda[0] == query
    ensures FcLoopAsWritten(kb, query, agenda, inferred, count, trace) == (true, trace + [query])
  {
  }

  /** With only `a` true, `[a & c ==> b, a & c ==> b, a]` holds and `b` does not. */
  lemma DuplicateClauseNotEntailed(a: Expr, b: Expr, c: Expr)
    requires IsAtom(a) && IsAtom(b) && IsAtom(c) && a != b && b != c && a != c
    ensures !KbEntails([Rule(And(a, c), b), Rule(And(a, c), b), a], b)
  {
    var rule := Rule(And(a, c), b);
    var m: Model := map[a := true];
    ConnectivesAreNotSymbols();
    assert !Holds(c, m);
    assert [a, c][1..] == [c];
    assert !AllHold([c], m);
    assert !Holds(And(a, c), m);
    assert Holds(rule, m);
    assert KbHolds([rule, rule, a], m) && !Holds(b, m);
  }

  /** The lookups on `[a & a ==> b, a]`. */
  lemma RepeatedPremiseLookups(a: Expr, b: Expr)
    requires IsAtom(a) && IsAtom(b) && a != b
    ensures var rule := Rule(And(a, a), b); var kb := [rule, a];
      Facts(kb) == [a] && ClausesWithPremise(kb, a) == [rule] &&
      CountsAsWritten(kb)[rule] == 2 && a in Heads(kb)
  {
    var rule := Rule(And(a, a), b);
    var kb := [rule, a];
    ConnectivesAreNotSymbols();
    ConjunctsOfPair(a, a);
    assert kb[1..] == [a] && [a][1..] == [];
    assert Facts([a]) == [a];
    assert ClausesWithPremise([a], a) == [];
  }

  /** `[a & a ==> b, a]` entails `b`. */
  lemma RepeatedPremiseEntailed(a: Expr, b: Expr)
    requires IsAtom(a) && IsAtom(b)
    ensures KbEntails([Rule(And(a, a), b), a], b)
  {
    var rule := Rule(And(a, a), b);
    var kb := [rule, a];
    ConnectivesAreNotSymbols();
    ConjunctsOfPair(a, a);
    forall m: Model | KbHolds(kb, m) ensures Holds(b, m)
    {
      assert Holds(kb[0], m) && Holds(kb[1], m);
      RuleHolds(rule, m);
      AllHoldIff([a, a], m);
    }
  }

  /** A premise symbol written twice is counted twice but met once, so the rule never
      fires: `[a & a ==> b, a]` does not yield `b` although it entails `b`. */
  lemma FcAsWrittenRepeatedPremise(a: Expr, b: Expr)
    requires IsAtom(a) && IsAtom(b) && a != b
    ensures var kb := [Rule(And(a, a), b), a];
      FcAsWritten(kb, b) == (false, [a]) && KbEntails(kb, b)
  {
    var rule := Rule(And(a, a), b);
    var kb := [rule, a];
    RepeatedPremiseLookups(a, b);
    var count := CountsAsWritten(kb);
    assert [rule][1..] == [];
    var step := DecrementAsWritten([rule], count);
    assert step.1 == [];
    assert [a][1..] + step.1 == [];
    assert {} + {a} == {a} && [] + [a] == [a] && [a][0] == a;
    assert FcLoopAsWritten(kb, b, [], {a}, step.0, [a]) == (false, [a]);
    assert FcLoopAsWritten(kb, b, [a], {}, count, []) == (false, [a]);
    RepeatedPremiseEntailed(a, b);
  }
}
