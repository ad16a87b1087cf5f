// The meaning of a formula under a truth assignment. Every rewrite and evaluator of the
// toolkit is stated against this one definition.
module Semantics {
  import opened Exprs

  /** A truth assignment: symbol nodes to truth values (`model` in the evaluators). */
  type Model = map<Expr, bool>

  /** Two-valued lookup, `model.get(exp, False)`: a symbol the model does not assign is false. */
  function Lookup(m: Model, e: Expr): (r: bool)
    ensures r <==> e in m && m[e]
  {
    if e in m then m[e] else false
  }

  // ---------------------------------------------------------------------------
  // Reference truth value

  /** The textbook truth value of `e` under `m`. Both implication spellings, "=>" and
      "==>", read as implication; a node with a wrong number of operands or an unknown tag
      is false. */
  function Holds(e: Expr, m: Model): bool
  {
    if IsSymbol(e.op) then Lookup(m, e)
    else if e.op == "~" then |e.args| == 1 && !Holds(e.args[0], m)
    else if e.op == "&" then AllHold(e.args, m)
    else if e.op == "||" then AnyHolds(e.args, m)
    else if e.op == "=>" || e.op == "==>" then
      |e.args| == 2 && (!Holds(e.args[0], m) || Holds(e.args[1], m))
    else if e.op == "<=>" then
      |e.args| == 2 && (Holds(e.args[0], m) == Holds(e.args[1], m))
    else false
  }

  /** Every operand holds (an empty conjunction is true). */
  function AllHold(es: seq<Expr>, m: Model): bool
  {
    es == [] || (Holds(es[0], m) && AllHold(es[1..], m))
  }

  /** Some operand holds (an empty disjunction is false). */
  function AnyHolds(es: seq<Expr>, m: Model): bool
  {
    es != [] && (Holds(es[0], m) || AnyHolds(es[1..], m))
  }

  lemma {:induction false} AllHoldIff(es: seq<Expr>, m: Model)
    ensures AllHold(es, m) <==> forall i | 0 <= i < |es| :: Holds(es[i], m)
  {
    if es != [] {
      AllHoldIff(es[1..], m);
      assert forall i | 1 <= i < |es| :: es[i] == es[1..][i - 1];
    }
  }

  lemma {:induction false} AnyHoldsIff(es: seq<Expr>, m: Model)
    ensures AnyHolds(es, m) <==> exists i | 0 <= i < |es| :: Holds(es[i], m)
  {
    if es != [] {
      AnyHoldsIff(es[1..], m);
      assert forall i | 1 <= i < |es| :: es[i] == es[1..][i - 1];
    }
  }

  /** Conjunction of a concatenation. */
  lemma {:induction false} AllHoldAppend(a: seq<Expr>, b: seq<Expr>, m: Model)
    ensures AllHold(a + b, m) == (AllHold(a, m) && AllHold(b, m))
  {
    if a != [] {
      assert (a + b)[0] == a[0] && (a + b)[1..] == a[1..] + b;
      AllHoldAppend(a[1..], b, m);
    } else {
      assert a + b == b;
    }
  }

  /** Disjunction of a concatenation. */
  lemma {:induction false} AnyHoldsAppend(a: seq<Expr>, b: seq<Expr>, m: Model)
    ensures AnyHolds(a + b, m) == (AnyHolds(a, m) || AnyHolds(b, m))
  {
    if a != [] {
      assert (a + b)[0] == a[0] && (a + b)[1..] == a[1..] + b;
      AnyHoldsAppend(a[1..], b, m);
    } else {
      assert a + b == b;
    }
  }

  /** A two-operand conjunction or disjunction. */
  lemma PairHolds(x: Expr, y: Expr, m: Model)
    ensures AllHold([x, y], m) == (Holds(x, m) && Holds(y, m))
    ensures AnyHolds([x, y], m) == (Holds(x, m) || Holds(y, m))
  {
    assert [x, y][1..] == [y] && [y][1..] == [];
    assert AllHold([y], m) == Holds(y, m);
    assert AnyHolds([y], m) == Holds(y, m);
  }

  /** The builders mean what their connectives say. */
  lemma BuiltHolds(x: Expr, y: Expr, m: Model)
    ensures Holds(Not(x), m) == !Holds(x, m)
    ensures Holds(And(x, y), m) == (Holds(x, m) && Holds(y, m))
    ensures Holds(Infix(x, "||", y), m) == (Holds(x, m) || Holds(y, m))
    ensures Holds(Infix(x, "==>", y), m) == (!Holds(x, m) || Holds(y, m))
    ensures Holds(Infix(x, "=>", y), m) == (!Holds(x, m) || Holds(y, m))
    ensures Holds(Infix(x, "<=>", y), m) == (Holds(x, m) == Holds(y, m))
  {
    ConnectivesAreNotSymbols();
    PairHolds(x, y, m);
  }

  /** The value of a connective over its operand list. */
  function Combine(op: string, es: seq<Expr>, m: Model): bool
    requires op == "&" || op == "||"
  {
    if op == "&" then AllHold(es, m) else AnyHolds(es, m)
  }

  /** Flattening nested operands of the same connective keeps the truth value. */
  lemma {:induction false} DissociateHolds(op: string, args: seq<Expr>, m: Model)
    requires op == "&" || op == "||"
    ensures Combine(op, Dissociate(op, args), m) == Combine(op, args, m)
    decreases SizeAll(args)
  {
    if args != [] {
      var head := if args[0].op == op then Dissociate(op, args[0].args) else [args[0]];
      var tail := Dissociate(op, args[1..]);
      assert Dissociate(op, args) == head + tail;
      assert SizeAll(args) == Size(args[0]) + SizeAll(args[1..]);
      assert Size(args[0]) == 1 + SizeAll(args[0].args);
      DissociateHolds(op, args[1..], m);
      assert args == [args[0]] + args[1..];
      if op == "&" {
        AllHoldAppend(head, tail, m);
        AllHoldAppend([args[0]], args[1..], m);
      } else {
        AnyHoldsAppend(head, tail, m);
        AnyHoldsAppend([args[0]], args[1..], m);
      }
      if args[0].op == op {
        DissociateHolds(op, args[0].args, m);
        ConnectivesAreNotSymbols();
      }
    }
  }

  /** `associate(op, args)`, when it succeeds, means the connective applied to `args`. */
  lemma AssociateHolds(op: string, args: seq<Expr>, m: Model)
    requires op == "&" || op == "||"
    requires Associate(op, args).Ok?
    ensures Holds(Associate(op, args).value, m) == Combine(op, args, m)
  {
    DissociateHolds(op, args, m);
    ConnectivesAreNotSymbols();
    var flat := Dissociate(op, args);
    if |flat| == 1 {
      assert flat == [flat[0]];
      if op == "&" {
        AllHoldIff(flat, m);
      } else {
        AnyHoldsIff(flat, m);
      }
    }
  }

  // ---------------------------------------------------------------------------
  // Coincidence: only the symbols of a formula matter

  /** Two models that agree on the symbols of `e` give `e` the same value. */
  lemma {:induction false} HoldsCoincide(e: Expr, m1: Model, m2: Model)
    requires forall x | x in Symbols(e) :: Lookup(m1, x) == Lookup(m2, x)
    ensures Holds(e, m1) == Holds(e, m2)
    decreases e
  {
    if !IsSymbol(e.op) {
      forall i | 0 <= i < |e.args| ensures Holds(e.args[i], m1) == Holds(e.args[i], m2) {
        SymbolsAllMember(e.args, i);
        HoldsCoincide(e.args[i], m1, m2);
      }
      AllHoldIff(e.args, m1);
      AllHoldIff(e.args, m2);
      AnyHoldsIff(e.args, m1);
      AnyHoldsIff(e.args, m2);
    }
  }

  /** The model that keeps `m`'s values on `s` and assigns nothing else. */
  function Restrict(m: Model, s: set<Expr>): (r: Model)
    ensures r.Keys == s
    ensures forall x | x in s :: Lookup(r, x) == Lookup(m, x)
  {
    map x | x in s :: Lookup(m, x)
  }

  // ---------------------------------------------------------------------------
  // Well-formed formulas

  /** The formulas of one dialect: symbols; "~" with one operand; "&" and "||" with at
      least `minOperands` operands; `arrow` and "<=>" with two. The evaluators read the
      dialect ("==>", 0); the CNF conversion reads ("=>", 1). */
  predicate WellFormed(e: Expr, arrow: string, minOperands: nat)
  {
    if IsSymbol(e.op) then true
    else if e.op == "~" then |e.args| == 1 && WellFormed(e.args[0], arrow, minOperands)
    else if e.op == "&" || e.op == "||" then
      |e.args| >= minOperands && forall i | 0 <= i < |e.args| :: WellFormed(e.args[i], arrow, minOperands)
    else if e.op == arrow || e.op == "<=>" then
      |e.args| == 2 && WellFormed(e.args[0], arrow, minOperands) && WellFormed(e.args[1], arrow, minOperands)
    else false
  }

  /** The builders keep formulas well formed. */
  lemma BuiltWellFormed(x: Expr, y: Expr, arrow: string, minOperands: nat)
    requires WellFormed(x, arrow, minOperands) && WellFormed(y, arrow, minOperands)
    requires minOperands <= 2 && !IsSymbol(arrow) && arrow != "~" && arrow != "&" && arrow != "||"
    ensures WellFormed(Not(x), arrow, minOperands)
    ensures WellFormed(And(x, y), arrow, minOperands)
    ensures WellFormed(Infix(x, "||", y), arrow, minOperands)
    ensures WellFormed(Infix(x, arrow, y), arrow, minOperands)
    ensures WellFormed(Infix(x, "<=>", y), arrow, minOperands)
  {
    ConnectivesAreNotSymbols();
  }

  /** `kb` entails `q`: every model of `kb` is a model of `q`. */
  ghost predicate Entails(kb: Expr, q: Expr)
  {
    forall m: Model :: Holds(kb, m) ==> Holds(q, m)
  }

  /** `kb` entails `q` among the models that assign exactly the symbols `s`. */
  ghost predicate EntailsOver(kb: Expr, q: Expr, s: set<Expr>)
  {
    forall m: Model | m.Keys == s :: Holds(kb, m) ==> Holds(q, m)
  }

  /** Checking the models over the symbols of `kb & q` is checking all models. */
  lemma EntailsOverSymbols(kb: Expr, q: Expr)
    ensures EntailsOver(kb, q, Symbols(And(kb, q))) <==> Entails(kb, q)
  {
    var s := Symbols(And(kb, q));
    ConnectivesAreNotSymbols();
    BuilderSymbols(kb, q, "||");
    if EntailsOver(kb, q, s) {
      forall m: Model | Holds(kb, m) ensures Holds(q, m) {
        var r := Restrict(m, s);
        HoldsCoincide(kb, m, r);
        HoldsCoincide(q, m, r);
      }
    }
  }

  // ---------------------------------------------------------------------------
  // Enumerating assignments

  /** `m2` assigns exactly the symbols `m1` assigns and those of `s`, and agrees with `m1`
      wherever `m1` assigns. */
  predicate ExtendsOver(m1: Model, m2: Model, s: set<Expr>)
  {
    m2.Keys == m1.Keys + s && forall k | k in m1 :: m2[k] == m1[k]
  }

  /** Every extension of `m` over `s` that makes `kb` true makes `q` true. */
  ghost predicate EntailsExtending(kb: Expr, q: Expr, m: Model, s: set<Expr>)
  {
    forall m2: Model | ExtendsOver(m, m2, s) :: Holds(kb, m2) ==> Holds(q, m2)
  }

  /** With nothing left to assign, the only extension is `m` itself. */
  lemma EntailsExtendingNothing(kb: Expr, q: Expr, m: Model)
    ensures EntailsExtending(kb, q, m, {}) <==> (Holds(kb, m) ==> Holds(q, m))
  {
    assert ExtendsOver(m, m, {});
    forall m2: Model | ExtendsOver(m, m2, {}) ensures m2 == m {
    }
  }

  /** Assigning one more symbol `p` splits the extensions into those making `p` true and
      those making it false. */
  lemma EntailsExtendingSplit(kb: Expr, q: Expr, m: Model, p: Expr, s: set<Expr>)
    requires p !in m
    ensures EntailsExtending(kb, q, m, {p} + s) <==>
      EntailsExtending(kb, q, m[p := true], s) && EntailsExtending(kb, q, m[p := false], s)
  {
    if EntailsExtending(kb, q, m, {p} + s) {
      forall m2: Model | ExtendsOver(m[p := true], m2, s) ensures Holds(kb, m2) ==> Holds(q, m2) {
        assert ExtendsOver(m, m2, {p} + s);
      }
      forall m2: Model | ExtendsOver(m[p := false], m2, s) ensures Holds(kb, m2) ==> Holds(q, m2) {
        assert ExtendsOver(m, m2, {p} + s);
      }
    }
    if EntailsExtending(kb, q, m[p := true], s) && EntailsExtending(kb, q, m[p := false], s) {
      forall m2: Model | ExtendsOver(m, m2, {p} + s) ensures Holds(kb, m2) ==> Holds(q, m2) {
        assert ExtendsOver(m[p := m2[p]], m2, s);
      }
    }
  }

  /** The extensions of the empty model over `s` are the models over exactly `s`. */
  lemma EntailsExtendingEmpty(kb: Expr, q: Expr, s: set<Expr>)
    ensures EntailsExtending(kb, q, map[], s) <==> EntailsOver(kb, q, s)
  {
    forall m2: Model ensures ExtendsOver(map[], m2, s) <==> m2.Keys == s {
    }
  }
}
