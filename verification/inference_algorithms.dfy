/** The two-valued evaluator and truth-table entailment of inference_algorithms.py: a
    symbol the model does not assign reads as false, and `tt_entails` also reports how many
    of the enumerated models satisfy both the knowledge base and the query. */
module InferenceAlgorithms {
  import opened Wrappers
  import opened Exprs
  import opened Semantics
  import Cnf
  import Utils

  // ---------------------------------------------------------------------------
  // pl_true

  /** `pl_true(exp, model)`. "||" and "&" stop at the first operand that decides them;
      "==>" is `~p || q`, so `q` is only looked at when `p` holds; "<=>" evaluates `p`,
      then `q`. Any other tag needs exactly two operands (`p, q = args`) and is then an
      illegal operator. */
  function PlTrue(e: Expr, m: Model): (r: Result<bool>)
    ensures r.Err? ==> !WellFormed(e, "==>", 0)
    decreases Size(e), 1
  {
    if IsSymbol(e.op) then Ok(Lookup(m, e))
    else if e.op == "~" then
      if |e.args| == 0 then Err(IndexOutOfRange)
      else
        SizeAllMember(e.args, 0);
        var v :- PlTrue(e.args[0], m);
        Ok(!v)
    else if e.op == "||" then AnyTrue(e.args, m)
    else if e.op == "&" then AllTrue(e.args, m)
    else if |e.args| != 2 then Err(UnpackMismatch)
    else
      SizeAllMember(e.args, 0);
      SizeAllMember(e.args, 1);
      var p, q := e.args[0], e.args[1];
      if e.op == "==>" then
        var pv :- PlTrue(p, m);
        if !pv then Ok(true) else PlTrue(q, m)
      else if e.op == "<=>" then
        var pv :- PlTrue(p, m);
        var qv :- PlTrue(q, m);
        Ok(pv == qv)
      else Err(IllegalOperator)
  }

  /** The loop of the "||" case: true at the first operand that is true. */
  function AnyTrue(es: seq<Expr>, m: Model): (r: Result<bool>)
    ensures r.Err? ==> exists i | 0 <= i < |es| :: !WellFormed(es[i], "==>", 0)
    decreases SizeAll(es), 2
  {
    if es == [] then Ok(false)
    else
      SizeAllMember(es, 0);
      var v :- PlTrue(es[0], m);
      if v then Ok(true)
      else
        var r := AnyTrue(es[1..], m);
        assert r.Err? ==> exists i | 1 <= i < |es| :: !WellFormed(es[i], "==>", 0) by {
          if r.Err? {
            var i :| 0 <= i < |es[1..]| && !WellFormed(es[1..][i], "==>", 0);
            assert es[1..][i] == es[i + 1];
          }
        }
        r
  }

  /** The loop of the "&" case: false at the first operand that is false. */
  function AllTrue(es: seq<Expr>, m: Model): (r: Result<bool>)
    ensures r.Err? ==> exists i | 0 <= i < |es| :: !WellFormed(es[i], "==>", 0)
    decreases SizeAll(es), 2
  {
    if es == [] then Ok(true)
    else
      SizeAllMember(es, 0);
      var v :- PlTrue(es[0], m);
      if !v then Ok(false)
      else
        var r := AllTrue(es[1..], m);
        assert r.Err? ==> exists i | 1 <= i < |es| :: !WellFormed(es[i], "==>", 0) by {
          if r.Err? {
            var i :| 0 <= i < |es[1..]| && !WellFormed(es[1..][i], "==>", 0);
            assert es[1..][i] == es[i + 1];
          }
        }
        r
  }

  /** On the formulas of the evaluators' dialect, `pl_true` never fails and computes the
      textbook truth value, reading an unassigned symbol as false. */
  lemma {:induction false} PlTrueHolds(e: Expr, m: Model)
    requires WellFormed(e, "==>", 0)
    ensures PlTrue(e, m) == Ok(Holds(e, m))
    decreases Size(e), 1
  {
    if !IsSymbol(e.op) {
      if e.op == "||" {
        AnyTrueHolds(e.args, m);
      } else if e.op == "&" {
        AllTrueHolds(e.args, m);
      } else {
        SizeAllMember(e.args, 0);
        PlTrueHolds(e.args[0], m);
        if e.op != "~" {
          SizeAllMember(e.args, 1);
          PlTrueHolds(e.args[1], m);
        }
      }
    }
  }

  lemma {:induction false} AnyTrueHolds(es: seq<Expr>, m: Model)
    requires forall i | 0 <= i < |es| :: WellFormed(es[i], "==>", 0)
    ensures AnyTrue(es, m) == Ok(AnyHolds(es, m))
    decreases SizeAll(es), 2
  {
    if es != [] {
      SizeAllMember(es, 0);
      PlTrueHolds(es[0], m);
      assert forall i | 0 <= i < |es[1..]| :: es[1..][i] == es[i + 1];
      AnyTrueHolds(es[1..], m);
    }
  }

  lemma {:induction false} AllTrueHolds(es: seq<Expr>, m: Model)
    requires forall i | 0 <= i < |es| :: WellFormed(es[i], "==>", 0)
    ensures AllTrue(es, m) == Ok(AllHold(es, m))
    decreases SizeAll(es), 2
  {
    if es != [] {
      SizeAllMember(es, 0);
      PlTrueHolds(es[0], m);
      assert forall i | 0 <= i < |es[1..]| :: es[1..][i] == es[i + 1];
      AllTrueHolds(es[1..], m);
    }
  }

  /** "==>" is evaluated exactly as the disjunction `~p || q` it is rewritten to, errors
      included. */
  lemma PlTrueImplicationIsDisjunction(p: Expr, q: Expr, m: Model)
    ensures PlTrue(Expr("==>", [p, q]), m) == PlTrue(Infix(Not(p), "||", q), m)
  {
    ConnectivesAreNotSymbols();
    assert [Not(p), q][1..] == [q] && [q][1..] == [];
    assert AnyTrue([q][1..], m) == Ok(false);
    var d := Infix(Not(p), "||", q);
    assert PlTrue(d, m) == AnyTrue([Not(p), q], m);
    match PlTrue(p, m)
    case Err(_) =>
    case Ok(pv) =>
      assert PlTrue(Not(p), m) == Ok(!pv);
      if pv {
        match PlTrue(q, m)
        case Err(_) =>
        case Ok(qv) =>
          assert AnyTrue([q], m) == Ok(qv);
      }
  }

  /** The CNF conversion's implication "=>" is not an operator of this evaluator. */
  lemma PlTrueRejectsCnfArrow(p: Expr, q: Expr, m: Model)
    ensures PlTrue(Infix(p, "=>", q), m) == Err(IllegalOperator)
  {
    ConnectivesAreNotSymbols();
  }

  /** Any other tag that is not a symbol is an error: an illegal operator when the node
      has two operands, an unpacking failure otherwise. Neither operand is evaluated. */
  lemma PlTrueRejectsUnknownOperator(op: string, args: seq<Expr>, m: Model)
    requires !IsSymbol(op) && op !in {"~", "||", "&", "==>", "<=>"}
    ensures PlTrue(Expr(op, args), m) == Err(if |args| == 2 then IllegalOperator else UnpackMismatch)
  {
  }

  /** The `pl_true` cases of the test suite, for any three distinct symbols. */
  lemma PlTrueExamples(a: Expr, b: Expr, c: Expr)
    requires IsSymbol(a.op) && IsSymbol(b.op) && IsSymbol(c.op)
    requires a != b && b != c && a != c
    ensures PlTrue(Infix(a, "||", b), map[a := false, b := true]) == Ok(true)
    ensures PlTrue(Infix(And(a, b), "==>", c), map[a := true, c := false, b := true]) == Ok(false)
    ensures
      var m := map[a := false, b := false, c := false];
      PlTrue(Infix(Infix(And(a, b), "==>", c), "<=>",
                   Infix(Infix(a, "==>", c), "||", Infix(b, "==>", c))), m) == Ok(true)
  {
    ConnectivesAreNotSymbols();
    var e1 := Infix(a, "||", b);
    var e2 := Infix(And(a, b), "==>", c);
    var ac, bc := Infix(a, "==>", c), Infix(b, "==>", c);
    var e3 := Infix(e2, "<=>", Infix(ac, "||", bc));
    assert WellFormed(a, "==>", 0) && WellFormed(b, "==>", 0) && WellFormed(c, "==>", 0);
    assert WellFormed(And(a, b), "==>", 0) && WellFormed(ac, "==>", 0) && WellFormed(bc, "==>", 0);
    assert WellFormed(Infix(ac, "||", bc), "==>", 0);
    assert WellFormed(e1, "==>", 0) && WellFormed(e2, "==>", 0) && WellFormed(e3, "==>", 0);
    var m1, m2, m3 := map[a := false, b := true], map[a := true, c := false, b := true], map[a := false, b := false, c := false];
    PlTrueHolds(e1, m1);
    PlTrueHolds(e2, m2);
    PlTrueHolds(e3, m3);
    assert [b][1..] == [] && [a, b][1..] == [b];
    assert [bc][1..] == [] && [ac, bc][1..] == [bc];
    assert Holds(a, m1) == false && Holds(b, m1) == true;
    assert AnyHolds([b], m1);
    assert Holds(And(a, b), m2) by {
      assert Holds(a, m2) && Holds(b, m2);
      assert AllHold([b], m2);
    }
    assert !Holds(c, m2);
    assert !Holds(And(a, b), m3) by {
      assert !Holds(a, m3);
    }
    assert Holds(ac, m3) by {
      assert !Holds(a, m3);
    }
    assert Holds(Infix(ac, "||", bc), m3);
  }

  // ---------------------------------------------------------------------------
  // The CNF round trip

  /** A formula of the conversion's dialect is one of the evaluators' dialect. */
  lemma {:induction false} WellFormedWeaken(e: Expr, arrow: string)
    requires WellFormed(e, arrow, 1)
    ensures WellFormed(e, arrow, 0)
    decreases e
  {
    if !IsSymbol(e.op) {
      forall i | 0 <= i < |e.args| ensures WellFormed(e.args[i], arrow, 0) {
        WellFormedWeaken(e.args[i], arrow);
      }
    }
  }

  /** Clauses contain only symbols, "~", "&" and "||". */
  lemma CnfWellFormed(e: Expr)
    requires Cnf.IsCnf(e)
    ensures WellFormed(e, "==>", 0)
  {
    ConnectivesAreNotSymbols();
    if e.op == "&" {
      forall i | 0 <= i < |e.args| ensures WellFormed(e.args[i], "==>", 0) {
        ClauseWellFormed(e.args[i]);
      }
    } else {
      ClauseWellFormed(e);
    }
  }

  lemma ClauseWellFormed(e: Expr)
    requires Cnf.IsClause(e)
    ensures WellFormed(e, "==>", 0)
  {
    ConnectivesAreNotSymbols();
    if e.op == "||" {
      forall i | 0 <= i < |e.args| ensures WellFormed(e.args[i], "==>", 0) {
        assert Cnf.IsLiteral(e.args[i]);
      }
    }
  }

  /** With the implication tag the evaluator uses, converting to CNF does not change what
      `pl_true` says in any model. */
  lemma PlTrueOfCnf(f: Expr, m: Model)
    requires WellFormed(f, "==>", 1)
    ensures Cnf.ToCnfWith("==>", f).Ok?
    ensures PlTrue(Cnf.ToCnfWith("==>", f).value, m) == PlTrue(f, m)
  {
    Cnf.ToCnfCorrect("==>", f, m);
    var c := Cnf.ToCnfWith("==>", f).value;
    CnfWellFormed(c);
    PlTrueHolds(c, m);
    WellFormedWeaken(f, "==>");
    PlTrueHolds(f, m);
  }

  // ---------------------------------------------------------------------------
  // tt_entails

  /** The result of `tt_entails` (`entailed`) with the final `model_count` (`models`). */
  datatype Verdict = Verdict(entailed: bool, models: nat)

  /** `tt_check_all(kb, query, symbols, model, model_count)`. The count is threaded
      through the calls as `model_count[0]` is: it grows by one at each fully assigned
      model where both `kb` and `query` hold, and the second branch runs only when the
      first one returned true. */
  function TtCheckAll(kb: Expr, q: Expr, syms: seq<Expr>, m: Model, count: nat): (r: Result<Verdict>)
    ensures r.Ok? ==> count <= r.value.models <= count + Pow2(|syms|)
    decreases |syms|
  {
    if syms == [] then
      var kv :- PlTrue(kb, m);
      if kv then
        var qv :- PlTrue(q, m);
        Ok(Verdict(qv, if qv then count + 1 else count))
      else Ok(Verdict(true, count))
    else
      var p, rest := syms[0], syms[1..];
      var left :- TtCheckAll(kb, q, rest, Utils.Extend(m, p, true), count);
      if !left.entailed then Ok(left)
      else TtCheckAll(kb, q, rest, Utils.Extend(m, p, false), left.models)
  }

  /** The number of assignments to `n` symbols. */
  function Pow2(n: nat): nat
  {
    if n == 0 then 1 else 2 * Pow2(n - 1)
  }

  /** `tt_entails(kb, query)`. `syms` is `list(get_symbols(kb & query))`: Python fixes no
      order for it, so any enumeration of those symbols without repeats is allowed. */
  function TtEntails(kb: Expr, q: Expr, syms: seq<Expr>): (r: Result<Verdict>)
    requires Utils.NoDuplicates(syms) && Utils.Elements(syms) == Symbols(And(kb, q))
    ensures r.Ok? ==> r.value.models <= Pow2(|syms|)
  {
    TtCheckAll(kb, q, syms, map[], 0)
  }

  /** The number of assignments to `syms`, extending `m`, that make `kb` true. */
  function CountModels(kb: Expr, syms: seq<Expr>, m: Model): nat
    decreases |syms|
  {
    if syms == [] then (if Holds(kb, m) then 1 else 0)
    else CountModels(kb, syms[1..], m[syms[0] := true]) + CountModels(kb, syms[1..], m[syms[0] := false])
  }

  /** `tt_check_all` decides whether every extension of `m` over the remaining symbols
      that satisfies `kb` satisfies `query`; when it does, the count has grown by the
      number of those extensions that satisfy `kb`. */
  lemma {:induction false} TtCheckAllCorrect(kb: Expr, q: Expr, syms: seq<Expr>, m: Model, count: nat)
    requires WellFormed(kb, "==>", 0) && WellFormed(q, "==>", 0)
    requires Utils.NoDuplicates(syms)
    requires forall i | 0 <= i < |syms| :: syms[i] !in m
    ensures TtCheckAll(kb, q, syms, m, count).Ok?
    ensures TtCheckAll(kb, q, syms, m, count).value.entailed
      <==> EntailsExtending(kb, q, m, Utils.Elements(syms))
    ensures TtCheckAll(kb, q, syms, m, count).value.entailed
      ==> TtCheckAll(kb, q, syms, m, count).value.models == count + CountModels(kb, syms, m)
    decreases |syms|
  {
    if syms == [] {
      PlTrueHolds(kb, m);
      PlTrueHolds(q, m);
      assert Utils.Elements(syms) == {};
      EntailsExtendingNothing(kb, q, m);
    } else {
      var p, rest := syms[0], syms[1..];
      assert Utils.Elements(syms) == {p} + Utils.Elements(rest);
      assert Utils.NoDuplicates(rest);
      assert forall i | 0 <= i < |rest| :: rest[i] != p && rest[i] == syms[i + 1];
      TtCheckAllCorrect(kb, q, rest, m[p := true], count);
      var left := TtCheckAll(kb, q, rest, m[p := true], count).value;
      TtCheckAllCorrect(kb, q, rest, m[p := false], left.models);
      EntailsExtendingSplit(kb, q, m, p, Utils.Elements(rest));
    }
  }

  /** `tt_entails` is true exactly when `kb` entails `query`, whatever order the symbols
      come in; when it is true, the count is the number of models of `kb` over the
      symbols. */
  lemma TtEntailsCorrect(kb: Expr, q: Expr, syms: seq<Expr>)
    requires WellFormed(kb, "==>", 0) && WellFormed(q, "==>", 0)
    requires Utils.NoDuplicates(syms) && Utils.Elements(syms) == Symbols(And(kb, q))
    ensures TtEntails(kb, q, syms).Ok?
    ensures TtEntails(kb, q, syms).value.entailed <==> Entails(kb, q)
    ensures TtEntails(kb, q, syms).value.entailed
      ==> TtEntails(kb, q, syms).value.models == CountModels(kb, syms, map[])
  {
    TtCheckAllCorrect(kb, q, syms, map[], 0);
    EntailsExtendingEmpty(kb, q, Utils.Elements(syms));
    EntailsOverSymbols(kb, q);
  }

  /** The verdict does not depend on the order in which the symbols are enumerated. */
  lemma TtEntailsOrderIndependent(kb: Expr, q: Expr, s1: seq<Expr>, s2: seq<Expr>)
    requires WellFormed(kb, "==>", 0) && WellFormed(q, "==>", 0)
    requires Utils.NoDuplicates(s1) && Utils.Elements(s1) == Symbols(And(kb, q))
    requires Utils.NoDuplicates(s2) && Utils.Elements(s2) == Symbols(And(kb, q))
    ensures TtEntails(kb, q, s1).Ok? && TtEntails(kb, q, s2).Ok?
    ensures TtEntails(kb, q, s1).value.entailed == TtEntails(kb, q, s2).value.entailed
  {
    TtEntailsCorrect(kb, q, s1);
    TtEntailsCorrect(kb, q, s2);
  }

  // ---------------------------------------------------------------------------
  // The entailment cases of the test suite

  /** `A & (B || C) & D & E & ~(F || G)`, grouped to the left as Python's `&` groups. */
  function RangeKb(a: Expr, b: Expr, c: Expr, d: Expr, e: Expr, f: Expr, g: Expr): Expr
  {
    And(And(And(And(a, Infix(b, "||", c)), d), e), Not(Infix(f, "||", g)))
  }

  /** `A & D & E & ~F & ~G`. */
  function RangeQuery(a: Expr, d: Expr, e: Expr, f: Expr, g: Expr): Expr
  {
    And(And(And(And(a, d), e), Not(f)), Not(g))
  }

  /** `A & (B || C) & D & E & ~(F || G)` entails `A & D & E & ~F & ~G`. */
  lemma TtEntailsRangeExample(a: Expr, b: Expr, c: Expr, d: Expr, e: Expr, f: Expr, g: Expr, syms: seq<Expr>)
    requires IsSymbol(a.op) && IsSymbol(b.op) && IsSymbol(c.op) && IsSymbol(d.op)
    requires IsSymbol(e.op) && IsSymbol(f.op) && IsSymbol(g.op)
    requires Utils.NoDuplicates(syms)
    requires Utils.Elements(syms) == Symbols(And(RangeKb(a, b, c, d, e, f, g), RangeQuery(a, d, e, f, g)))
    ensures TtEntails(RangeKb(a, b, c, d, e, f, g), RangeQuery(a, d, e, f, g), syms) == Ok(
      Verdict(true, CountModels(RangeKb(a, b, c, d, e, f, g), syms, map[])))
  {
    RangeWellFormed(a, b, c, d, e, f, g);
    RangeEntails(a, b, c, d, e, f, g);
    TtEntailsCorrect(RangeKb(a, b, c, d, e, f, g), RangeQuery(a, d, e, f, g), syms);
  }

  lemma RangeWellFormed(a: Expr, b: Expr, c: Expr, d: Expr, e: Expr, f: Expr, g: Expr)
    requires IsSymbol(a.op) && IsSymbol(b.op) && IsSymbol(c.op) && IsSymbol(d.op)
    requires IsSymbol(e.op) && IsSymbol(f.op) && IsSymbol(g.op)
    ensures WellFormed(RangeKb(a, b, c, d, e, f, g), "==>", 0)
    ensures WellFormed(RangeQuery(a, d, e, f, g), "==>", 0)
  {
    ConnectivesAreNotSymbols();
    assert WellFormed(a, "==>", 0) && WellFormed(b, "==>", 0) && WellFormed(c, "==>", 0);
    assert WellFormed(d, "==>", 0) && WellFormed(e, "==>", 0) && WellFormed(f, "==>", 0);
    assert WellFormed(g, "==>", 0);
    BuiltWellFormed(b, c, "==>", 0);
    BuiltWellFormed(f, g, "==>", 0);
    BuiltWellFormed(Infix(f, "||", g), g, "==>", 0);
    BuiltWellFormed(a, Infix(b, "||", c), "==>", 0);
    BuiltWellFormed(And(a, Infix(b, "||", c)), d, "==>", 0);
    BuiltWellFormed(And(And(a, Infix(b, "||", c)), d), e, "==>", 0);
    BuiltWellFormed(And(And(And(a, Infix(b, "||", c)), d), e), Not(Infix(f, "||", g)), "==>", 0);
    BuiltWellFormed(a, d, "==>", 0);
    BuiltWellFormed(And(a, d), e, "==>", 0);
    BuiltWellFormed(f, f, "==>", 0);
    BuiltWellFormed(g, g, "==>", 0);
    BuiltWellFormed(And(And(a, d), e), Not(f), "==>", 0);
    BuiltWellFormed(And(And(And(a, d), e), Not(f)), Not(g), "==>", 0);
  }

  lemma RangeEntails(a: Expr, b: Expr, c: Expr, d: Expr, e: Expr, f: Expr, g: Expr)
    ensures Entails(RangeKb(a, b, c, d, e, f, g), RangeQuery(a, d, e, f, g))
  {
    forall m: Model | Holds(RangeKb(a, b, c, d, e, f, g), m) ensures Holds(RangeQuery(a, d, e, f, g), m) {
      BuiltHolds(And(And(And(a, Infix(b, "||", c)), d), e), Not(Infix(f, "||", g)), m);
      BuiltHolds(And(And(a, Infix(b, "||", c)), d), e, m);
      BuiltHolds(And(a, Infix(b, "||", c)), d, m);
      BuiltHolds(a, Infix(b, "||", c), m);
      BuiltHolds(f, g, m);
      BuiltHolds(Infix(f, "||", g), g, m);
      BuiltHolds(f, f, m);
      BuiltHolds(g, g, m);
      BuiltHolds(And(And(And(a, d), e), Not(f)), Not(g), m);
      BuiltHolds(And(And(a, d), e), Not(f), m);
      BuiltHolds(And(a, d), e, m);
      BuiltHolds(a, d, m);
    }
  }

  /** `P || Q` does not entail `Q`: the model making `P` true and `Q` false is a
      counterexample. */
  lemma TtEntailsDisjunctionExample(p: Expr, q: Expr, syms: seq<Expr>)
    requires IsSymbol(p.op) && IsSymbol(q.op) && p != q
    requires Utils.NoDuplicates(syms) && Utils.Elements(syms) == Symbols(And(Infix(p, "||", q), q))
    ensures TtEntails(Infix(p, "||", q), q, syms).Ok?
    ensures !TtEntails(Infix(p, "||", q), q, syms).value.entailed
  {
    ConnectivesAreNotSymbols();
    var kb := Infix(p, "||", q);
    assert WellFormed(kb, "==>", 0) && WellFormed(q, "==>", 0);
    var m := map[p := true, q := false];
    BuiltHolds(p, q, m);
    assert Holds(kb, m) && !Holds(q, m);
    TtEntailsCorrect(kb, q, syms);
  }

  /** `(My ==> I) & (~My ==> ~I & Mam) & ((I || Mam) ==> H) & (H ==> Ma)`. */
  function MythKb(my: Expr, i: Expr, mam: Expr, h: Expr, ma: Expr): Expr
  {
    And(And(And(Infix(my, "==>", i), Infix(Not(my), "==>", And(Not(i), mam))),
            Infix(Infix(i, "||", mam), "==>", h)),
        Infix(h, "==>", ma))
  }

  /** The unicorn cases of the test suite: over any enumeration of the symbols,
      `tt_entails` answers false for `My` and true for `Ma` and `H`, counting the models
      of the knowledge base on a true answer. */
  lemma TtEntailsMythExamples(my: Expr, i: Expr, mam: Expr, h: Expr, ma: Expr,
                              s1: seq<Expr>, s2: seq<Expr>, s3: seq<Expr>)
    requires IsSymbol(my.op) && IsSymbol(i.op) && IsSymbol(mam.op) && IsSymbol(h.op) && IsSymbol(ma.op)
    requires my != i && my != mam && my != h && my != ma
    requires i != mam && i != h && i != ma && mam != h && mam != ma && h != ma
    requires Utils.NoDuplicates(s1) && Utils.Elements(s1) == Symbols(And(MythKb(my, i, mam, h, ma), my))
    requires Utils.NoDuplicates(s2) && Utils.Elements(s2) == Symbols(And(MythKb(my, i, mam, h, ma), ma))
    requires Utils.NoDuplicates(s3) && Utils.Elements(s3) == Symbols(And(MythKb(my, i, mam, h, ma), h))
    ensures TtEntails(MythKb(my, i, mam, h, ma), my, s1).Ok?
    ensures !TtEntails(MythKb(my, i, mam, h, ma), my, s1).value.entailed
    ensures TtEntails(MythKb(my, i, mam, h, ma), ma, s2)
      == Ok(Verdict(true, CountModels(MythKb(my, i, mam, h, ma), s2, map[])))
    ensures TtEntails(MythKb(my, i, mam, h, ma), h, s3)
      == Ok(Verdict(true, CountModels(MythKb(my, i, mam, h, ma), s3, map[])))
  {
    var kb := MythKb(my, i, mam, h, ma);
    MythWellFormed(my, i, mam, h, ma);
    MythEntailments(my, i, mam, h, ma);
    TtEntailsCorrect(kb, my, s1);
    TtEntailsCorrect(kb, ma, s2);
    TtEntailsCorrect(kb, h, s3);
  }

  /** The unicorn knowledge base entails `H` and `Ma` but not `My`. */
  lemma MythEntailments(my: Expr, i: Expr, mam: Expr, h: Expr, ma: Expr)
    requires IsSymbol(my.op) && IsSymbol(i.op) && IsSymbol(mam.op) && IsSymbol(h.op) && IsSymbol(ma.op)
    requires my != i && my != mam && my != h && my != ma
    requires i != mam && i != h && i != ma && mam != h && mam != ma && h != ma
    ensures Entails(MythKb(my, i, mam, h, ma), h)
    ensures Entails(MythKb(my, i, mam, h, ma), ma)
    ensures !Entails(MythKb(my, i, mam, h, ma), my)
  {
    ConnectivesAreNotSymbols();
    var kb := MythKb(my, i, mam, h, ma);
    forall m: Model ensures Holds(kb, m) ==> Holds(h, m) && Holds(ma, m) {
      MythHolds(my, i, mam, h, ma, m);
    }
    var w := map[my := false, i := false, mam := true, h := true, ma := true];
    MythHolds(my, i, mam, h, ma, w);
  }

  /** The unicorn knowledge base and its queries are formulas of the evaluator. */
  lemma MythWellFormed(my: Expr, i: Expr, mam: Expr, h: Expr, ma: Expr)
    requires IsSymbol(my.op) && IsSymbol(i.op) && IsSymbol(mam.op) && IsSymbol(h.op) && IsSymbol(ma.op)
    ensures WellFormed(MythKb(my, i, mam, h, ma), "==>", 0)
    ensures WellFormed(my, "==>", 0) && WellFormed(ma, "==>", 0) && WellFormed(h, "==>", 0)
  {
    ConnectivesAreNotSymbols();
    assert WellFormed(my, "==>", 0) && WellFormed(i, "==>", 0) && WellFormed(mam, "==>", 0);
    assert WellFormed(h, "==>", 0) && WellFormed(ma, "==>", 0);
    BuiltWellFormed(my, i, "==>", 0);
    BuiltWellFormed(i, mam, "==>", 0);
    BuiltWellFormed(Not(i), mam, "==>", 0);
    BuiltWellFormed(Not(my), And(Not(i), mam), "==>", 0);
    BuiltWellFormed(Infix(i, "||", mam), h, "==>", 0);
    BuiltWellFormed(h, ma, "==>", 0);
    BuiltWellFormed(Infix(my, "==>", i), Infix(Not(my), "==>", And(Not(i), mam)), "==>", 0);
    BuiltWellFormed(And(Infix(my, "==>", i), Infix(Not(my), "==>", And(Not(i), mam))),
                    Infix(Infix(i, "||", mam), "==>", h), "==>", 0);
    BuiltWellFormed(And(And(Infix(my, "==>", i), Infix(Not(my), "==>", And(Not(i), mam))),
                        Infix(Infix(i, "||", mam), "==>", h)), Infix(h, "==>", ma), "==>", 0);
  }

  lemma MythHolds(my: Expr, i: Expr, mam: Expr, h: Expr, ma: Expr, m: Model)
    ensures Holds(MythKb(my, i, mam, h, ma), m) == (
      && (!Holds(my, m) || Holds(i, m))
      && (Holds(my, m) || (!Holds(i, m) && Holds(mam, m)))
      && (!(Holds(i, m) || Holds(mam, m)) || Holds(h, m))
      && (!Holds(h, m) || Holds(ma, m)))
  {
    BuiltHolds(my, i, m);
    BuiltHolds(Not(i), mam, m);
    BuiltHolds(Not(my), And(Not(i), mam), m);
    BuiltHolds(my, my, m);
    BuiltHolds(i, mam, m);
    BuiltHolds(Infix(i, "||", mam), h, m);
    BuiltHolds(h, ma, m);
    BuiltHolds(Infix(my, "==>", i), Infix(Not(my), "==>", And(Not(i), mam)), m);
    BuiltHolds(And(Infix(my, "==>", i), Infix(Not(my), "==>", And(Not(i), mam))), Infix(Infix(i, "||", mam), "==>", h), m);
    BuiltHolds(And(And(Infix(my, "==>", i), Infix(Not(my), "==>", And(Not(i), mam))),
            Infix(Infix(i, "||", mam), "==>", h)), Infix(h, "==>", ma), m);
  }
}
