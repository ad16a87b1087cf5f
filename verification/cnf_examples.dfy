// The worked examples of the CNF test suite, checked against the model. They are stated
// for arbitrary atoms, so the test's symbols `a`, `b`, `c` are instances.
module CnfExamples {
  import opened Wrappers
  import opened Exprs
  import opened Cnf

  /** A symbol node. */
  predicate Atom(x: Expr)
  {
    IsSymbol(x.op) && x.args == []
  }

  function Or(a: Expr, b: Expr): Expr
  {
    Infix(a, "||", b)
  }

  /** `a <=> b` becomes `(~a || b) & (~b || a)`. */
  lemma EliminateIffExample(a: Expr, b: Expr)
    requires Atom(a) && Atom(b)
    ensures EliminateImplications(Infix(a, "<=>", b)) == Ok(And(Or(Not(a), b), Or(Not(b), a)))
  {
    ConnectivesAreNotSymbols();
    assert [a, b][1..] == [b] && [b][1..] == [];
    assert EliminateWith("=>", b) == Ok(b) && EliminateWith("=>", a) == Ok(a);
    assert EliminateAllWith("=>", [b][1..]) == Ok([]) && [b] + [] == [b];
    assert EliminateAllWith("=>", [a, b][1..]) == Ok([b]) && [a] + [b] == [a, b];
    assert EliminateAllWith("=>", [b]) == Ok([b]);
    assert EliminateAllWith("=>", [a, b]) == Ok([a, b]);
  }

  /** `a => b` becomes `~a || b`. */
  lemma EliminateImpliesExample(a: Expr, b: Expr)
    requires Atom(a) && Atom(b)
    ensures EliminateImplications(Infix(a, "=>", b)) == Ok(Or(Not(a), b))
  {
    ConnectivesAreNotSymbols();
    assert [a, b][1..] == [b] && [b][1..] == [];
    assert EliminateWith("=>", b) == Ok(b) && EliminateWith("=>", a) == Ok(a);
    assert EliminateAllWith("=>", [b][1..]) == Ok([]) && [b] + [] == [b];
    assert EliminateAllWith("=>", [a, b][1..]) == Ok([b]) && [a] + [b] == [a, b];
    assert EliminateAllWith("=>", [b]) == Ok([b]);
    assert EliminateAllWith("=>", [a, b]) == Ok([a, b]);
  }

  /** Negating an atom leaves `~a` in place. */
  lemma NegatedAtom(a: Expr)
    requires Atom(a)
    ensures MoveNotInwards(Not(a)) == Ok(Not(a))
  {
    ConnectivesAreNotSymbols();
  }

  /** Two literals are already flat. */
  lemma AssociatePair(op: string, x: Expr, y: Expr)
    requires op == "&" || op == "||"
    requires x.op != op && y.op != op
    ensures Associate(op, [x, y]) == Ok(Expr(op, [x, y]))
  {
    DissociateFlat(op, [x, y]);
  }

  /** `~~a` becomes `a`. */
  lemma DoubleNegationExample(a: Expr)
    requires Atom(a)
    ensures MoveNotInwards(Not(Not(a))) == Ok(a)
  {
    ConnectivesAreNotSymbols();
  }

  /** `~(a & b)` becomes `~a || ~b`; `~(a || b)` becomes `~a & ~b`. */
  lemma DeMorganExamples(a: Expr, b: Expr)
    requires Atom(a) && Atom(b)
    ensures MoveNotInwards(Not(And(a, b))) == Ok(Or(Not(a), Not(b)))
    ensures MoveNotInwards(Not(Or(a, b))) == Ok(And(Not(a), Not(b)))
  {
    ConnectivesAreNotSymbols();
    NegatedAtom(a);
    NegatedAtom(b);
    assert [a, b][1..] == [b] && [b][1..] == [];
    assert NegateAll([b][1..]) == Ok([]) && [Not(b)] + [] == [Not(b)];
    assert NegateAll([a, b][1..]) == Ok([Not(b)]) && [Not(a)] + [Not(b)] == [Not(a), Not(b)];
    assert NegateAll([b]) == Ok([Not(b)]);
    assert NegateAll([a, b]) == Ok([Not(a), Not(b)]);
    AssociatePair("||", Not(a), Not(b));
    AssociatePair("&", Not(a), Not(b));
  }

  /** Neither a conjunction nor a disjunction: the third stage treats it as an atom. */
  predicate Plain(x: Expr)
  {
    x.op != "&" && x.op != "||"
  }

  /** `(a & b) || c` becomes `(a || c) & (b || c)`, for any operands the third stage
      treats as atoms. */
  lemma DistributeExample(a: Expr, b: Expr, c: Expr)
    requires Plain(a) && Plain(b) && Plain(c)
    ensures Distribute(Or(And(a, b), c)) == Ok(And(Or(a, c), Or(b, c)))
  {
    ConnectivesAreNotSymbols();
    AssociatePair("||", And(a, b), c);
    assert FirstConjunct([And(a, b), c]) == Some(0);
    var others := [And(a, b), c][..0] + [And(a, b), c][1..];
    assert others == [c];
    assert Associate("||", [c]) == Ok(c);
    AssociatePair("||", a, c);
    AssociatePair("||", b, c);
    assert FirstConjunct([a, c]) == None;
    assert FirstConjunct([b, c]) == None;
    assert Distribute(Or(a, c)) == Ok(Or(a, c));
    assert Distribute(Or(b, c)) == Ok(Or(b, c));
    assert [a, b][1..] == [b] && [b][1..] == [];
    assert DistributeEach([b][1..], c) == Ok([]) && [Or(b, c)] + [] == [Or(b, c)];
    assert DistributeEach([a, b][1..], c) == Ok([Or(b, c)]) && [Or(a, c)] + [Or(b, c)] == [Or(a, c), Or(b, c)];
    assert DistributeEach([b], c) == Ok([Or(b, c)]);
    assert DistributeEach([a, b], c) == Ok([Or(a, c), Or(b, c)]);
    AssociatePair("&", Or(a, c), Or(b, c));
  }

  /** The second `distribute_and_over_or` case of the test suite: an implication and a
      biconditional are atoms to the third stage, so
      `((a => (b & c)) & d) || (b <=> d)` becomes
      `((a => (b & c)) || (b <=> d)) & (d || (b <=> d))`. */
  lemma DistributeNestedExample(a: Expr, b: Expr, c: Expr, d: Expr)
    requires Atom(a) && Atom(b) && Atom(c) && Atom(d)
    ensures
      var x, y := Infix(a, "=>", And(b, c)), Infix(b, "<=>", d);
      Distribute(Or(And(x, d), y)) == Ok(And(Or(x, y), Or(d, y)))
  {
    ConnectivesAreNotSymbols();
    DistributeExample(Infix(a, "=>", And(b, c)), d, Infix(b, "<=>", d));
  }

  /** An implication whose two sides the first stage leaves alone becomes `~x || y`. */
  lemma EliminateArrow(x: Expr, y: Expr)
    requires EliminateWith("=>", x) == Ok(x) && EliminateWith("=>", y) == Ok(y)
    ensures EliminateWith("=>", Infix(x, "=>", y)) == Ok(Or(Not(x), y))
  {
    ConnectivesAreNotSymbols();
    assert [x, y][1..] == [y] && [y][1..] == [];
    assert EliminateAllWith("=>", [y][1..]) == Ok([]) && [y] + [] == [y];
    assert EliminateAllWith("=>", [x, y][1..]) == Ok([y]) && [x] + [y] == [x, y];
  }

  /** A negated symbol is left alone by the first stage. */
  lemma EliminateNegatedAtom(a: Expr)
    requires Atom(a)
    ensures EliminateWith("=>", Not(a)) == Ok(Not(a))
  {
    ConnectivesAreNotSymbols();
    assert [a][1..] == [];
    assert EliminateAllWith("=>", [a][1..]) == Ok([]) && [a] + [] == [a];
    assert EliminateAllWith("=>", Not(a).args) == Ok([a]);
  }

  /** The third `eliminate_implications` case of the test suite: only the outermost
      arrow is rewritten, so `((~a & b) || c) => d` becomes `~((~a & b) || c) || d`. */
  lemma EliminateNestedExample(a: Expr, b: Expr, c: Expr, d: Expr)
    requires Atom(a) && Atom(b) && Atom(c) && Atom(d)
    ensures
      var l := Or(And(Not(a), b), c);
      EliminateImplications(Infix(l, "=>", d)) == Ok(Or(Not(l), d))
  {
    ConnectivesAreNotSymbols();
    EliminateNegatedAtom(a);
    EliminatePair("&", Not(a), b);
    EliminatePair("||", And(Not(a), b), c);
    EliminateArrow(Or(And(Not(a), b), c), d);
  }

  /** A binary "&" or "||" node whose operands are left alone by the first stage is left
      alone too. */
  lemma EliminatePair(op: string, x: Expr, y: Expr)
    requires op == "&" || op == "||"
    requires EliminateWith("=>", x) == Ok(x) && EliminateWith("=>", y) == Ok(y)
    ensures EliminateWith("=>", Expr(op, [x, y])) == Ok(Expr(op, [x, y]))
  {
    ConnectivesAreNotSymbols();
    assert [x, y][1..] == [y] && [y][1..] == [];
    assert EliminateAllWith("=>", [y][1..]) == Ok([]) && [y] + [] == [y];
    assert EliminateAllWith("=>", [x, y][1..]) == Ok([y]) && [x] + [y] == [x, y];
  }

  /** The same for the second stage. */
  lemma MovePair(op: string, x: Expr, y: Expr)
    requires op == "&" || op == "||"
    requires MoveNotInwards(x) == Ok(x) && MoveNotInwards(y) == Ok(y)
    ensures MoveNotInwards(Expr(op, [x, y])) == Ok(Expr(op, [x, y]))
  {
    ConnectivesAreNotSymbols();
    assert [x, y][1..] == [y] && [y][1..] == [];
    assert MoveAll([y][1..]) == Ok([]) && [y] + [] == [y];
    assert MoveAll([x, y][1..]) == Ok([y]) && [x] + [y] == [x, y];
  }

  /** A disjunction of two literals is a clause, which the third stage keeps. */
  lemma DistributeClause(x: Expr, y: Expr)
    requires x.op != "&" && x.op != "||" && y.op != "&" && y.op != "||"
    ensures Distribute(Or(x, y)) == Ok(Or(x, y))
  {
    AssociatePair("||", x, y);
    assert FirstConjunct([x, y]) == None;
  }

  /** `to_cnf(~(b || c))` is `~b & ~c`. */
  lemma ToCnfNegatedDisjunctionExample(b: Expr, c: Expr)
    requires Atom(b) && Atom(c)
    ensures ToCnf(Not(Or(b, c))) == Ok(And(Not(b), Not(c)))
  {
    ConnectivesAreNotSymbols();
    EliminatePair("||", b, c);
    assert EliminateAllWith("=>", [Or(b, c)][1..]) == Ok([]) && [Or(b, c)] + [] == [Or(b, c)];
    assert EliminateWith("=>", Not(Or(b, c))) == Ok(Not(Or(b, c)));
    DeMorganExamples(b, c);
    NegatedAtom(b);
    NegatedAtom(c);
    assert Distribute(Not(b)) == Ok(Not(b)) && Distribute(Not(c)) == Ok(Not(c));
    assert [Not(b), Not(c)][1..] == [Not(c)] && [Not(c)][1..] == [];
    assert DistributeAll([Not(c)][1..]) == Ok([]) && [Not(c)] + [] == [Not(c)];
    assert DistributeAll([Not(b), Not(c)][1..]) == Ok([Not(c)]) && [Not(b)] + [Not(c)] == [Not(b), Not(c)];
    AssociatePair("&", Not(b), Not(c));
    assert Distribute(And(Not(b), Not(c))) == Ok(And(Not(b), Not(c)));
  }

  /** `to_cnf(a || (b & c))` is `(b || a) & (c || a)`. */
  lemma ToCnfDistributionExample(a: Expr, b: Expr, c: Expr)
    requires Atom(a) && Atom(b) && Atom(c)
    ensures ToCnf(Or(a, And(b, c))) == Ok(And(Or(b, a), Or(c, a)))
  {
    ConnectivesAreNotSymbols();
    EliminatePair("&", b, c);
    EliminatePair("||", a, And(b, c));
    assert MoveNotInwards(b) == Ok(b) && MoveNotInwards(c) == Ok(c) && MoveNotInwards(a) == Ok(a);
    MovePair("&", b, c);
    MovePair("||", a, And(b, c));
    DistributionStep(a, b, c);
  }

  /** The distribution step of that conversion: `a` is distributed over both conjuncts. */
  lemma DistributionStep(a: Expr, b: Expr, c: Expr)
    requires Atom(a) && Atom(b) && Atom(c)
    ensures Distribute(Or(a, And(b, c))) == Ok(And(Or(b, a), Or(c, a)))
  {
    ConnectivesAreNotSymbols();
    AssociatePair("||", a, And(b, c));
    assert FirstConjunct([a, And(b, c)]) == Some(1);
    assert [a, And(b, c)][..1] + [a, And(b, c)][2..] == [a];
    DissociateFlat("||", [a]);
    assert Associate("||", [a]) == Ok(a);
    DistributeClause(b, a);
    DistributeClause(c, a);
    assert [b, c][1..] == [c] && [c][1..] == [];
    assert DistributeEach([c][1..], a) == Ok([]) && [Or(c, a)] + [] == [Or(c, a)];
    assert DistributeEach([b, c][1..], a) == Ok([Or(c, a)]) && [Or(b, a)] + [Or(c, a)] == [Or(b, a), Or(c, a)];
    AssociatePair("&", Or(b, a), Or(c, a));
  }
}
