/** The knowledge base the chaining algorithms read: an ordered list of clauses, each a
    bare symbol (a fact) or `premise ==> conclusion` (a rule). The knowledge-base class
    itself is not part of this model; its two lookups are the filters below. */
module KnowledgeBase {
  import opened Exprs
  import opened Semantics
  import Utils

  /** A symbol node without operands. */
  predicate IsAtom(e: Expr)
  {
    IsSymbol(e.op) && e.args == []
  }

  /** `is_symbol(s.op)`: how the chaining algorithms pick out the facts. */
  predicate IsFact(c: Expr)
  {
    IsSymbol(c.op)
  }

  /** `c.op == '==>'`, with the two operands the algorithms read. */
  predicate IsRule(c: Expr)
  {
    c.op == "==>" && |c.args| == 2
  }

  /** The rule `premise ==> conclusion`, as `premise |'==>'| conclusion` builds it. */
  function Rule(premise: Expr, conclusion: Expr): (r: Expr)
    ensures IsRule(r) && Premise(r) == premise && Conclusion(r) == conclusion
  {
    Expr("==>", [premise, conclusion])
  }

  function Premise(c: Expr): Expr
    requires IsRule(c)
  {
    c.args[0]
  }

  function Conclusion(c: Expr): Expr
    requires IsRule(c)
  {
    c.args[1]
  }

  /** `conjuncts(s)`, which is `dissociate('&', [s])`: the operands of a conjunction,
      flattened, or `[s]` for anything else. */
  function Conjuncts(s: Expr): (r: seq<Expr>)
    ensures forall i | 0 <= i < |r| :: r[i].op != "&"
    ensures s.op != "&" ==> r == [s]
  {
    assert [s][1..] == [];
    assert Dissociate("&", [s][1..]) == [];
    Dissociate("&", [s])
  }

  /** The conjuncts of `x & y` when neither side is itself a conjunction. */
  lemma ConjunctsOfPair(x: Expr, y: Expr)
    requires x.op != "&" && y.op != "&"
    ensures Conjuncts(And(x, y)) == [x, y]
  {
    DissociateFlat("&", [x, y]);
    assert [And(x, y)][1..] == [];
    assert Dissociate("&", [And(x, y)][1..]) == [];
    assert [x, y] + [] == [x, y];
  }

  /** The conjuncts of `(x & y) & z` when no leaf is itself a conjunction. */
  lemma ConjunctsOfTriple(x: Expr, y: Expr, z: Expr)
    requires x.op != "&" && y.op != "&" && z.op != "&"
    ensures Conjuncts(And(And(x, y), z)) == [x, y, z]
  {
    var two := And(x, y);
    DissociateOne("&", And(two, z));
    DissociateSplice("&", two, z);
    DissociateOne("&", two);
    DissociateFlat("&", [x, y]);
    DissociateOne("&", z);
    assert [x, y] + [z] == [x, y, z];
  }

  /** The premise symbols of a rule, without repetitions. */
  function PremiseSet(c: Expr): set<Expr>
    requires IsRule(c)
  {
    Utils.Elements(Conjuncts(Premise(c)))
  }

  /** A definite clause: a bare symbol, or a rule whose conclusion is a bare symbol and
      whose flattened premise is a non-empty list of bare symbols. */
  predicate DefiniteClause(c: Expr)
  {
    IsAtom(c) ||
    (IsRule(c) && IsAtom(Conclusion(c)) && |Conjuncts(Premise(c))| >= 1 &&
     forall i | 0 <= i < |Conjuncts(Premise(c))| :: IsAtom(Conjuncts(Premise(c))[i]))
  }

  predicate DefiniteKb(kb: seq<Expr>)
  {
    forall i | 0 <= i < |kb| :: DefiniteClause(kb[i])
  }

  // ---------------------------------------------------------------------------
  // The lookups, as order-preserving filters over the clause list

  /** `[s for s in kb.clauses if is_symbol(s.op)]`. */
  function Facts(kb: seq<Expr>): (r: seq<Expr>)
    ensures forall x :: x in r <==> x in kb && IsFact(x)
    ensures |r| <= |kb|
  {
    if kb == [] then []
    else (if IsFact(kb[0]) then [kb[0]] else []) + Facts(kb[1..])
  }

  /** `kb.clauses_with_premise(p)`: the rules, one entry per clause of the list, whose
      flattened premise mentions `p`. */
  function ClausesWithPremise(kb: seq<Expr>, p: Expr): (r: seq<Expr>)
    ensures forall c :: c in r <==> c in kb && IsRule(c) && p in Conjuncts(Premise(c))
    ensures |r| <= |kb|
  {
    if kb == [] then []
    else
      (if IsRule(kb[0]) && p in Conjuncts(Premise(kb[0])) then [kb[0]] else [])
        + ClausesWithPremise(kb[1..], p)
  }

  /** `kb.clauses_by_conclusion(p)`: the rules, one entry per clause of the list, that
      conclude `p`. */
  function ClausesByConclusion(kb: seq<Expr>, p: Expr): (r: seq<Expr>)
    ensures forall c :: c in r <==> c in kb && IsRule(c) && Conclusion(c) == p
    ensures |r| <= |kb|
  {
    if kb == [] then []
    else
      (if IsRule(kb[0]) && Conclusion(kb[0]) == p then [kb[0]] else [])
        + ClausesByConclusion(kb[1..], p)
  }

  // ---------------------------------------------------------------------------
  // Meaning

  /** Every clause holds in `m`. */
  ghost predicate KbHolds(kb: seq<Expr>, m: Model)
  {
    forall i | 0 <= i < |kb| :: Holds(kb[i], m)
  }

  /** `x` holds in every model of the knowledge base. */
  ghost predicate KbEntails(kb: seq<Expr>, x: Expr)
  {
    forall m: Model :: KbHolds(kb, m) ==> Holds(x, m)
  }

  /** A premise holds exactly when all of its conjuncts do. */
  lemma ConjunctsHold(s: Expr, m: Model)
    ensures Holds(s, m) == AllHold(Conjuncts(s), m)
  {
    DissociateHolds("&", [s], m);
    assert [s][1..] == [];
    assert AllHold([s], m) == (Holds(s, m) && AllHold([], m));
  }

  /** A rule holds when its premise fails or its conclusion holds. */
  lemma RuleHolds(c: Expr, m: Model)
    requires IsRule(c)
    ensures Holds(c, m) == (!AllHold(Conjuncts(Premise(c)), m) || Holds(Conclusion(c), m))
  {
    ConnectivesAreNotSymbols();
    ConjunctsHold(Premise(c), m);
  }
}
