/** The three-valued evaluator and truth-table entailment of entail_engine.py: a symbol
    the model does not assign is undefined (`None`), and undefinedness spreads through the
    connectives unless an operand already decides the result. */
module EntailEngine {
  import opened Wrappers
  import opened Exprs
  import opened Semantics
  import Utils

  /** `True`, `False` or `None`. */
  datatype Truth = Known(value: bool) | Unknown

  /** The argument of `pl_true`: a Python boolean, returned as it is, or an expression. */
  datatype Operand = Bool(b: bool) | Formula(e: Expr)

  /** How "<=>" answers when its left side is defined and its right side is not: the
      source compares the two (`pt == qt`, which is false against `None`); the corrected
      evaluator reports the result as undefined. */
  datatype IffMode = Compare | Propagate

  /** `model.get(exp)`. */
  function Lookup3(m: Model, e: Expr): (r: Truth)
    ensures r.Known? <==> e in m
    ensures r.Known? ==> r.value == m[e]
  {
    if e in m then Known(m[e]) else Unknown
  }

  /** `None if p is None else not p`. */
  function Negate(t: Truth): (r: Truth)
    ensures r.Unknown? <==> t.Unknown?
    ensures r.Known? ==> r.value != t.value
  {
    match t
    case Known(b) => Known(!b)
    case Unknown => Unknown
  }

  // ---------------------------------------------------------------------------
  // pl_true

  /** `pl_true(exp, model)` on an expression. "||" and "&" run their loops; "==>" is
      `~p || q`; every other tag with two operands evaluates `p` first and gives up with
      `None` when it is undefined, before even looking at the tag. */
  function Eval3(mode: IffMode, e: Expr, m: Model): (r: Result<Truth>)
    ensures r.Err? ==> !WellFormed(e, "==>", 0)
    decreases Size(e), 1
  {
    if IsSymbol(e.op) then Ok(Lookup3(m, e))
    else if e.op == "~" then
      if |e.args| == 0 then Err(IndexOutOfRange)
      else
        SizeAllMember(e.args, 0);
        var p :- Eval3(mode, e.args[0], m);
        Ok(Negate(p))
    else if e.op == "||" then Or3(mode, e.args, m, Known(false))
    else if e.op == "&" then And3(mode, e.args, m, Known(true))
    else if |e.args| != 2 then Err(UnpackMismatch)
    else
      SizeAllMember(e.args, 0);
      SizeAllMember(e.args, 1);
      var p, q := e.args[0], e.args[1];
      if e.op == "==>" then
        var np :- Eval3(mode, p, m);
        var n := Negate(np);
        if n == Known(true) then Ok(Known(true))
        else
          var qt :- Eval3(mode, q, m);
          if qt == Known(true) then Ok(Known(true))
          else if n == Unknown || qt == Unknown then Ok(Unknown)
          else Ok(Known(false))
      else
        var pt :- Eval3(mode, p, m);
        if pt == Unknown then Ok(Unknown)
        else
          var qt :- Eval3(mode, q, m);
          if e.op == "<=>" then
            if qt == Unknown && mode == Propagate then Ok(Unknown)
            else Ok(Known(qt == pt))
          else Err(IllegalOperator)
  }

  /** The loop of the "||" case with its running `result`: true at the first true
      operand; an undefined operand turns `result` into `None`. */
  function Or3(mode: IffMode, es: seq<Expr>, m: Model, acc: Truth): (r: Result<Truth>)
    ensures r.Err? ==> exists i | 0 <= i < |es| :: !WellFormed(es[i], "==>", 0)
    decreases SizeAll(es), 2
  {
    if es == [] then Ok(acc)
    else
      SizeAllMember(es, 0);
      var p :- Eval3(mode, es[0], m);
      if p == Known(true) then Ok(Known(true))
      else
        var r := Or3(mode, es[1..], m, if p == Unknown then Unknown else acc);
        assert r.Err? ==> exists i | 1 <= i < |es| :: !WellFormed(es[i], "==>", 0) by {
          if r.Err? {
            var i :| 0 <= i < |es[1..]| && !WellFormed(es[1..][i], "==>", 0);
            assert es[1..][i] == es[i + 1];
          }
        }
        r
  }

  /** The loop of the "&" case: false at the first false operand; an undefined operand
      turns `result` into `None`. */
  function And3(mode: IffMode, es: seq<Expr>, m: Model, acc: Truth): (r: Result<Truth>)
    ensures r.Err? ==> exists i | 0 <= i < |es| :: !WellFormed(es[i], "==>", 0)
    decreases SizeAll(es), 2
  {
    if es == [] then Ok(acc)
    else
      SizeAllMember(es, 0);
      var p :- Eval3(mode, es[0], m);
      if p == Known(false) then Ok(Known(false))
      else
        var r := And3(mode, es[1..], m, if p == Unknown then Unknown else acc);
        assert r.Err? ==> exists i | 1 <= i < |es| :: !WellFormed(es[i], "==>", 0) by {
          if r.Err? {
            var i :| 0 <= i < |es[1..]| && !WellFormed(es[1..][i], "==>", 0);
            assert es[1..][i] == es[i + 1];
          }
        }
        r
  }

  /** `pl_true` as entail_engine.py writes it. */
  function PlTrue3AsWritten(o: Operand, m: Model): (r: Result<Truth>)
    ensures o.Bool? ==> r == Ok(Known(o.b))
  {
    match o
    case Bool(b) => Ok(Known(b))
    case Formula(e) => Eval3(Compare, e, m)
  }

  /** `pl_true` with "<=>" undefined whenever one side is, as the rest of the model uses
      it. */
  function PlTrue3(o: Operand, m: Model): (r: Result<Truth>)
    ensures o.Bool? ==> r == Ok(Known(o.b))
  {
    match o
    case Bool(b) => Ok(Known(b))
    case Formula(e) => Eval3(Propagate, e, m)
  }

  // ---------------------------------------------------------------------------
  // Truth tables of the connectives

  /** "||" is true when some operand is true and false only when every operand is false;
      otherwise it is undefined. */
  lemma {:induction false} Or3Table(mode: IffMode, es: seq<Expr>, m: Model, acc: Truth)
    requires acc == Known(false) || acc == Unknown
    requires forall i | 0 <= i < |es| :: WellFormed(es[i], "==>", 0)
    ensures Or3(mode, es, m, acc).Ok?
    ensures Or3(mode, es, m, acc).value == Known(true)
      <==> exists i | 0 <= i < |es| :: Eval3(mode, es[i], m) == Ok(Known(true))
    ensures Or3(mode, es, m, acc).value == Known(false)
      <==> acc == Known(false) && forall i | 0 <= i < |es| :: Eval3(mode, es[i], m) == Ok(Known(false))
    decreases |es|
  {
    if es != [] {
      assert forall i | 0 <= i < |es[1..]| :: es[1..][i] == es[i + 1];
      var p := Eval3(mode, es[0], m).value;
      if p != Known(true) {
        Or3Table(mode, es[1..], m, if p == Unknown then Unknown else acc);
      }
    }
  }

  /** "&" is false when some operand is false and true only when every operand is true;
      otherwise it is undefined. */
  lemma {:induction false} And3Table(mode: IffMode, es: seq<Expr>, m: Model, acc: Truth)
    requires acc == Known(true) || acc == Unknown
    requires forall i | 0 <= i < |es| :: WellFormed(es[i], "==>", 0)
    ensures And3(mode, es, m, acc).Ok?
    ensures And3(mode, es, m, acc).value == Known(false)
      <==> exists i | 0 <= i < |es| :: Eval3(mode, es[i], m) == Ok(Known(false))
    ensures And3(mode, es, m, acc).value == Known(true)
      <==> acc == Known(true) && forall i | 0 <= i < |es| :: Eval3(mode, es[i], m) == Ok(Known(true))
    decreases |es|
  {
    if es != [] {
      assert forall i | 0 <= i < |es[1..]| :: es[1..][i] == es[i + 1];
      var p := Eval3(mode, es[0], m).value;
      if p != Known(false) {
        And3Table(mode, es[1..], m, if p == Unknown then Unknown else acc);
      }
    }
  }

  /** "==>" is evaluated exactly as the disjunction `~p || q` it is rewritten to. */
  lemma ImplicationIsDisjunction(mode: IffMode, p: Expr, q: Expr, m: Model)
    ensures Eval3(mode, Expr("==>", [p, q]), m) == Eval3(mode, Infix(Not(p), "||", q), m)
  {
    ConnectivesAreNotSymbols();
    assert [Not(p), q][1..] == [q] && [q][1..] == [];
    var d := Infix(Not(p), "||", q);
    assert Eval3(mode, d, m) == Or3(mode, [Not(p), q], m, Known(false));
    match Eval3(mode, p, m)
    case Err(_) =>
    case Ok(pt) =>
      assert Eval3(mode, Not(p), m) == Ok(Negate(pt));
      if Negate(pt) != Known(true) {
        var acc := if Negate(pt) == Unknown then Unknown else Known(false);
        assert Or3(mode, [Not(p), q], m, Known(false)) == Or3(mode, [q], m, acc);
        match Eval3(mode, q, m)
        case Err(_) =>
        case Ok(qt) =>
          assert Or3(mode, [q][1..], m, if qt == Unknown then Unknown else acc)
            == Ok(if qt == Unknown then Unknown else acc);
      }
  }

  // ---------------------------------------------------------------------------
  // Total models

  /** Under a model that assigns every symbol of a formula of the evaluators' dialect,
      nothing is undefined: both readings of "<=>" give the textbook truth value. */
  lemma {:induction false} Eval3Total(mode: IffMode, e: Expr, m: Model)
    requires WellFormed(e, "==>", 0) && Symbols(e) <= m.Keys
    ensures Eval3(mode, e, m) == Ok(Known(Holds(e, m)))
    decreases Size(e), 1
  {
    if !IsSymbol(e.op) {
      if e.op == "||" {
        Or3Total(mode, e.args, m);
      } else if e.op == "&" {
        And3Total(mode, e.args, m);
      } else {
        SizeAllMember(e.args, 0);
        SymbolsAllMember(e.args, 0);
        Eval3Total(mode, e.args[0], m);
        if e.op != "~" {
          SizeAllMember(e.args, 1);
          SymbolsAllMember(e.args, 1);
          Eval3Total(mode, e.args[1], m);
        }
      }
    }
  }

  lemma {:induction false} Or3Total(mode: IffMode, es: seq<Expr>, m: Model)
    requires forall i | 0 <= i < |es| :: WellFormed(es[i], "==>", 0)
    requires SymbolsAll(es) <= m.Keys
    ensures Or3(mode, es, m, Known(false)) == Ok(Known(AnyHolds(es, m)))
    decreases SizeAll(es), 2
  {
    if es != [] {
      SizeAllMember(es, 0);
      SymbolsAllMember(es, 0);
      Eval3Total(mode, es[0], m);
      assert forall i | 0 <= i < |es[1..]| :: es[1..][i] == es[i + 1];
      Or3Total(mode, es[1..], m);
    }
  }

  lemma {:induction false} And3Total(mode: IffMode, es: seq<Expr>, m: Model)
    requires forall i | 0 <= i < |es| :: WellFormed(es[i], "==>", 0)
    requires SymbolsAll(es) <= m.Keys
    ensures And3(mode, es, m, Known(true)) == Ok(Known(AllHold(es, m)))
    decreases SizeAll(es), 2
  {
    if es != [] {
      SizeAllMember(es, 0);
      SymbolsAllMember(es, 0);
      Eval3Total(mode, es[0], m);
      assert forall i | 0 <= i < |es[1..]| :: es[1..][i] == es[i + 1];
      And3Total(mode, es[1..], m);
    }
  }

  // ---------------------------------------------------------------------------
  // Monotonicity

  /** `m2` keeps every assignment of `m1`, and may add more. */
  predicate Refines(m1: Model, m2: Model)
  {
    forall k | k in m1 :: k in m2 && m2[k] == m1[k]
  }

  /** A running `result` that is defined stays the same when the operands become more
      defined. */
  predicate AccRefines(a1: Truth, a2: Truth)
  {
    a1.Known? ==> a2 == a1
  }

  /** A value the corrected evaluator has decided stays decided when more symbols are
      assigned. */
  lemma {:induction false} Eval3Monotone(e: Expr, m1: Model, m2: Model, b: bool)
    requires WellFormed(e, "==>", 0) && Refines(m1, m2)
    requires Eval3(Propagate, e, m1) == Ok(Known(b))
    ensures Eval3(Propagate, e, m2) == Ok(Known(b))
    decreases Size(e), 1
  {
    if !IsSymbol(e.op) {
      if e.op == "||" {
        Or3Monotone(e.args, m1, m2, Known(false), Known(false), b);
      } else if e.op == "&" {
        And3Monotone(e.args, m1, m2, Known(true), Known(true), b);
      } else {
        SizeAllMember(e.args, 0);
        var p1 := Eval3(Propagate, e.args[0], m1).value;
        if p1.Known? {
          Eval3Monotone(e.args[0], m1, m2, p1.value);
        }
        if e.op != "~" {
          SizeAllMember(e.args, 1);
          var q1 := Eval3(Propagate, e.args[1], m1).value;
          if q1.Known? {
            Eval3Monotone(e.args[1], m1, m2, q1.value);
          }
        }
      }
    }
  }

  lemma {:induction false} Or3Monotone(es: seq<Expr>, m1: Model, m2: Model, a1: Truth, a2: Truth, b: bool)
    requires forall i | 0 <= i < |es| :: WellFormed(es[i], "==>", 0)
    requires Refines(m1, m2)
    requires a1 == Known(false) || a1 == Unknown
    requires a2 == Known(false) || a2 == Unknown
    requires AccRefines(a1, a2)
    requires Or3(Propagate, es, m1, a1) == Ok(Known(b))
    ensures Or3(Propagate, es, m2, a2) == Ok(Known(b))
    decreases SizeAll(es), 2
  {
    if es != [] {
      SizeAllMember(es, 0);
      assert forall i | 0 <= i < |es[1..]| :: es[1..][i] == es[i + 1];
      var p1 := Eval3(Propagate, es[0], m1).value;
      var p2 := Eval3(Propagate, es[0], m2).value;
      if p1.Known? {
        Eval3Monotone(es[0], m1, m2, p1.value);
      }
      if p1 != Known(true) && p2 != Known(true) {
        Or3Monotone(es[1..], m1, m2, if p1 == Unknown then Unknown else a1,
                    if p2 == Unknown then Unknown else a2, b);
      } else if p1 != Known(true) {
        Or3Table(Propagate, es[1..], m1, Unknown);
      }
    }
  }

  lemma {:induction false} And3Monotone(es: seq<Expr>, m1: Model, m2: Model, a1: Truth, a2: Truth, b: bool)
    requires forall i | 0 <= i < |es| :: WellFormed(es[i], "==>", 0)
    requires Refines(m1, m2)
    requires a1 == Known(true) || a1 == Unknown
    requires a2 == Known(true) || a2 == Unknown
    requires AccRefines(a1, a2)
    requires And3(Propagate, es, m1, a1) == Ok(Known(b))
    ensures And3(Propagate, es, m2, a2) == Ok(Known(b))
    decreases SizeAll(es), 2
  {
    if es != [] {
      SizeAllMember(es, 0);
      assert forall i | 0 <= i < |es[1..]| :: es[1..][i] == es[i + 1];
      var p1 := Eval3(Propagate, es[0], m1).value;
      var p2 := Eval3(Propagate, es[0], m2).value;
      if p1.Known? {
        Eval3Monotone(es[0], m1, m2, p1.value);
      }
      if p1 != Known(false) && p2 != Known(false) {
        And3Monotone(es[1..], m1, m2, if p1 == Unknown then Unknown else a1,
                     if p2 == Unknown then Unknown else a2, b);
      } else if p1 != Known(false) {
        And3Table(Propagate, es[1..], m1, Unknown);
      }
    }
  }

  /** What the corrected evaluator decides under a partial model is the truth value in
      every total model that extends it. */
  lemma PlTrue3Sound(e: Expr, m: Model, total: Model, b: bool)
    requires WellFormed(e, "==>", 0)
    requires PlTrue3(Formula(e), m) == Ok(Known(b))
    requires Refines(m, total) && Symbols(e) <= total.Keys
    ensures Holds(e, total) == b
  {
    Eval3Monotone(e, m, total, b);
    Eval3Total(Propagate, e, total);
  }

  /** The source's "<=>" does not have that property: with `a` false and `b` unassigned,
      `a <=> b` is reported false, yet it is true once `b` is assigned false. */
  lemma PlTrue3AsWrittenIffNotMonotone(a: Expr, b: Expr)
    requires IsSymbol(a.op) && IsSymbol(b.op) && a != b
    ensures PlTrue3AsWritten(Formula(Infix(a, "<=>", b)), map[a := false]) == Ok(Known(false))
    ensures PlTrue3AsWritten(Formula(Infix(a, "<=>", b)), map[a := false, b := false]) == Ok(Known(true))
    ensures Refines(map[a := false], map[a := false, b := false])
    ensures PlTrue3(Formula(Infix(a, "<=>", b)), map[a := false]) == Ok(Unknown)
  {
    ConnectivesAreNotSymbols();
    var m1, m2 := map[a := false], map[a := false, b := false];
    var e := Infix(a, "<=>", b);
    assert e.args == [a, b] && !IsSymbol(e.op);
    assert Eval3(Compare, a, m1) == Ok(Known(false)) && Eval3(Compare, b, m1) == Ok(Unknown);
    assert Eval3(Propagate, a, m1) == Ok(Known(false)) && Eval3(Propagate, b, m1) == Ok(Unknown);
    assert Eval3(Compare, a, m2) == Ok(Known(false)) && Eval3(Compare, b, m2) == Ok(Known(false));
  }

  /** The source's "<=>" is also lopsided: an undefined left side gives `None`. */
  lemma PlTrue3AsWrittenIffLeftUndefined(a: Expr, b: Expr)
    requires IsSymbol(a.op) && IsSymbol(b.op) && a != b
    ensures PlTrue3AsWritten(Formula(Infix(a, "<=>", b)), map[b := false]) == Ok(Unknown)
  {
    ConnectivesAreNotSymbols();
    assert Eval3(Compare, a, map[b := false]) == Ok(Unknown);
  }

  /** An unknown binary tag is only noticed after both operands are evaluated: an
      undefined left operand gives `None` instead of the illegal-operator error. */
  lemma Eval3RejectsUnknownOperator(mode: IffMode, op: string, p: Expr, q: Expr, m: Model)
    requires !IsSymbol(op) && op !in {"~", "||", "&", "==>", "<=>"}
    requires WellFormed(p, "==>", 0) && WellFormed(q, "==>", 0)
    ensures Eval3(mode, Expr(op, [p, q]), m)
      == if Eval3(mode, p, m) == Ok(Unknown) then Ok(Unknown) else Err(IllegalOperator)
  {
  }

  // ---------------------------------------------------------------------------
  // tt_entails

  /** `tt_check_all(kb, query, symbols, model)`: a model where `kb` is true (not false,
      not `None`) must make `query` true; a `query` that is neither true nor false there
      trips `assert result in [True, False]`. */
  function TtCheckAll3(kb: Expr, q: Expr, syms: seq<Expr>, m: Model): (r: Result<bool>)
    ensures r == Ok(false) ==> exists w: Model ::
      Eval3(Compare, kb, w) == Ok(Known(true)) && Eval3(Compare, q, w) == Ok(Known(false))
    decreases |syms|
  {
    if syms == [] then
      var kv :- PlTrue3AsWritten(Formula(kb), m);
      if kv == Known(true) then
        var qv :- PlTrue3AsWritten(Formula(q), m);
        if qv.Unknown? then Err(AssertionFailed) else Ok(qv.value)
      else Ok(true)
    else
      var p, rest := syms[0], syms[1..];
      var left :- TtCheckAll3(kb, q, rest, Utils.Extend(m, p, true));
      if !left then Ok(false)
      else TtCheckAll3(kb, q, rest, Utils.Extend(m, p, false))
  }

  /** Called directly on a partial model, the as-written "<=>" decides a query whose
      right side is unassigned: with `a` false and `b` unassigned, `~a` holds and
      `a <=> b` reads as false, so the answer is false rather than the assertion. */
  lemma TtCheckAll3PartialIff(a: Expr, b: Expr)
    requires IsSymbol(a.op) && IsSymbol(b.op) && a != b
    ensures TtCheckAll3(Not(a), Infix(a, "<=>", b), [], map[a := false]) == Ok(false)
  {
    PlTrue3AsWrittenIffNotMonotone(a, b);
    ConnectivesAreNotSymbols();
    assert Not(a).args == [a];
    assert Eval3(Compare, a, map[a := false]) == Ok(Known(false));
  }

  /** `tt_entails(kb, query)` over an enumeration `syms` of `get_symbols(kb & query)`. */
  function TtEntails3(kb: Expr, q: Expr, syms: seq<Expr>): (r: Result<bool>)
    requires Utils.NoDuplicates(syms) && Utils.Elements(syms) == Symbols(And(kb, q))
    ensures r == Ok(false) ==> exists w: Model ::
      Eval3(Compare, kb, w) == Ok(Known(true)) && Eval3(Compare, q, w) == Ok(Known(false))
  {
    TtCheckAll3(kb, q, syms, map[])
  }

  /** Every leaf model is total on the symbols of `kb` and `query`, so the assertion never
      trips, and `tt_check_all` decides entailment over the remaining symbols. */
  lemma {:induction false} TtCheckAll3Correct(kb: Expr, q: Expr, syms: seq<Expr>, m: Model)
    requires WellFormed(kb, "==>", 0) && WellFormed(q, "==>", 0)
    requires Utils.NoDuplicates(syms)
    requires forall i | 0 <= i < |syms| :: syms[i] !in m
    requires Symbols(kb) + Symbols(q) <= m.Keys + Utils.Elements(syms)
    ensures TtCheckAll3(kb, q, syms, m).Ok?
    ensures TtCheckAll3(kb, q, syms, m).value <==> EntailsExtending(kb, q, m, Utils.Elements(syms))
    decreases |syms|
  {
    if syms == [] {
      assert Utils.Elements(syms) == {};
      Eval3Total(Compare, kb, m);
      Eval3Total(Compare, q, m);
      EntailsExtendingNothing(kb, q, m);
    } else {
      var p, rest := syms[0], syms[1..];
      assert Utils.Elements(syms) == {p} + Utils.Elements(rest);
      assert Utils.NoDuplicates(rest);
      assert forall i | 0 <= i < |rest| :: rest[i] != p && rest[i] == syms[i + 1];
      TtCheckAll3Correct(kb, q, rest, m[p := true]);
      TtCheckAll3Correct(kb, q, rest, m[p := false]);
      EntailsExtendingSplit(kb, q, m, p, Utils.Elements(rest));
    }
  }

  /** `tt_entails` is true exactly when `kb` entails `query`. */
  lemma TtEntails3Correct(kb: Expr, q: Expr, syms: seq<Expr>)
    requires WellFormed(kb, "==>", 0) && WellFormed(q, "==>", 0)
    requires Utils.NoDuplicates(syms) && Utils.Elements(syms) == Symbols(And(kb, q))
    ensures TtEntails3(kb, q, syms).Ok?
    ensures TtEntails3(kb, q, syms).value <==> Entails(kb, q)
  {
    ConnectivesAreNotSymbols();
    BuilderSymbols(kb, q, "||");
    TtCheckAll3Correct(kb, q, syms, map[]);
    EntailsExtendingEmpty(kb, q, Utils.Elements(syms));
    EntailsOverSymbols(kb, q);
  }

  // ---------------------------------------------------------------------------
  // The cases of the test suite

  /** The `pl_true` cases of the test suite, for any three distinct symbols. */
  lemma PlTrue3Examples(a: Expr, b: Expr, c: Expr)
    requires IsSymbol(a.op) && IsSymbol(b.op) && IsSymbol(c.op)
    requires a != b && b != c && a != c
    ensures PlTrue3AsWritten(Formula(Infix(a, "||", b)), map[a := false, b := true]) == Ok(Known(true))
    ensures PlTrue3AsWritten(Formula(Infix(And(a, b), "==>", c)), map[a := true, c := false, b := true])
      == Ok(Known(false))
    ensures
      var m := map[a := false, b := false, c := false];
      PlTrue3AsWritten(Formula(Infix(Infix(And(a, b), "==>", c), "<=>",
                                     Infix(Infix(a, "==>", c), "||", Infix(b, "==>", c)))), m)
        == Ok(Known(true))
  {
    ConnectivesAreNotSymbols();
    assert [a, b][1..] == [b] && [b][1..] == [];
    var m1, m2, m3 := map[a := false, b := true], map[a := true, c := false, b := true], map[a := false, b := false, c := false];
    assert Eval3(Compare, a, m1) == Ok(Known(false)) && Eval3(Compare, b, m1) == Ok(Known(true));
    assert Or3(Compare, [b], m1, Known(false)) == Ok(Known(true));
    assert Or3(Compare, [a, b], m1, Known(false)) == Ok(Known(true));
    assert Eval3(Compare, Infix(a, "||", b), m1) == Ok(Known(true));
    assert Eval3(Compare, a, m2) == Ok(Known(true)) && Eval3(Compare, b, m2) == Ok(Known(true));
    assert And3(Compare, [b][1..], m2, Known(true)) == Ok(Known(true));
    assert And3(Compare, [b], m2, Known(true)) == Ok(Known(true));
    assert Eval3(Compare, And(a, b), m2) == Ok(Known(true));
    assert Eval3(Compare, c, m2) == Ok(Known(false));
    assert Eval3(Compare, a, m3) == Ok(Known(false));
    assert Eval3(Compare, And(a, b), m3) == Ok(Known(false));
    var ac, bc := Infix(a, "==>", c), Infix(b, "==>", c);
    assert Eval3(Compare, Infix(And(a, b), "==>", c), m3) == Ok(Known(true));
    assert Eval3(Compare, ac, m3) == Ok(Known(true));
    assert Eval3(Compare, Infix(ac, "||", bc), m3) == Ok(Known(true));
  }

  /** `(It_is_raining & ~I_have_an_umbrella ==> I_get_wet) & (It_is_raining)`, the
      expression the knowledge-base text of this scenario turns into. */
  function RainKb(rain: Expr, umbrella: Expr, wet: Expr): Expr
  {
    And(Infix(And(rain, Not(umbrella)), "==>", wet), rain)
  }

  /** The knowledge base does not entail `I_get_wet`: it says nothing about the umbrella,
      and with an umbrella one stays dry. */
  lemma TtEntails3RainExample(rain: Expr, umbrella: Expr, wet: Expr, syms: seq<Expr>)
    requires IsSymbol(rain.op) && IsSymbol(umbrella.op) && IsSymbol(wet.op)
    requires rain != umbrella && rain != wet && umbrella != wet
    requires Utils.NoDuplicates(syms) && Utils.Elements(syms) == Symbols(And(RainKb(rain, umbrella, wet), wet))
    ensures TtEntails3(RainKb(rain, umbrella, wet), wet, syms) == Ok(false)
  {
    RainWellFormed(rain, umbrella, wet);
    RainNotEntailed(rain, umbrella, wet);
    TtEntails3Correct(RainKb(rain, umbrella, wet), wet, syms);
  }

  lemma RainWellFormed(rain: Expr, umbrella: Expr, wet: Expr)
    requires IsSymbol(rain.op) && IsSymbol(umbrella.op) && IsSymbol(wet.op)
    ensures WellFormed(RainKb(rain, umbrella, wet), "==>", 0) && WellFormed(wet, "==>", 0)
  {
    ConnectivesAreNotSymbols();
    assert WellFormed(rain, "==>", 0) && WellFormed(umbrella, "==>", 0) && WellFormed(wet, "==>", 0);
    BuiltWellFormed(umbrella, umbrella, "==>", 0);
    BuiltWellFormed(rain, Not(umbrella), "==>", 0);
    BuiltWellFormed(And(rain, Not(umbrella)), wet, "==>", 0);
    BuiltWellFormed(Infix(And(rain, Not(umbrella)), "==>", wet), rain, "==>", 0);
  }

  lemma RainNotEntailed(rain: Expr, umbrella: Expr, wet: Expr)
    requires IsSymbol(rain.op) && IsSymbol(umbrella.op) && IsSymbol(wet.op)
    requires rain != umbrella && rain != wet && umbrella != wet
    ensures !Entails(RainKb(rain, umbrella, wet), wet)
  {
    var w := map[rain := true, umbrella := true, wet := false];
    BuiltHolds(umbrella, umbrella, w);
    BuiltHolds(rain, Not(umbrella), w);
    BuiltHolds(And(rain, Not(umbrella)), wet, w);
    BuiltHolds(Infix(And(rain, Not(umbrella)), "==>", wet), rain, w);
    assert Holds(RainKb(rain, umbrella, wet), w) && !Holds(wet, w);
  }
}
