// cnf.py: conversion to conjunctive normal form in three rewrites, each with its shape
// and its truth value proved.
module Cnf {
  import opened Wrappers
  import opened Exprs
  import opened Semantics
  import Utils

  // ---------------------------------------------------------------------------
  // Shapes of the intermediate and final formulas

  /** A symbol, or "~" applied directly to a symbol. */
  predicate IsLiteral(e: Expr)
  {
    IsSymbol(e.op) || (e.op == "~" && |e.args| == 1 && IsSymbol(e.args[0].op))
  }

  /** Built from symbols with "~" (one operand), "&" and "||" (at least one operand):
      the shape `eliminate_implications` leaves. */
  predicate IsBasic(e: Expr)
  {
    || IsSymbol(e.op)
    || (e.op == "~" && |e.args| == 1 && IsBasic(e.args[0]))
    || ((e.op == "&" || e.op == "||") && |e.args| >= 1 && forall i | 0 <= i < |e.args| :: IsBasic(e.args[i]))
  }

  /** Negation normal form: "&" and "||" (at least one operand) over literals. */
  predicate IsNnf(e: Expr)
  {
    || IsLiteral(e)
    || ((e.op == "&" || e.op == "||") && |e.args| >= 1 && forall i | 0 <= i < |e.args| :: IsNnf(e.args[i]))
  }

  /** A literal, or a flat disjunction of at least two literals. */
  predicate IsClause(e: Expr)
  {
    IsLiteral(e) || (e.op == "||" && |e.args| >= 2 && forall i | 0 <= i < |e.args| :: IsLiteral(e.args[i]))
  }

  /** A clause, or a flat conjunction of at least two clauses. */
  predicate IsCnf(e: Expr)
  {
    IsClause(e) || (e.op == "&" && |e.args| >= 2 && forall i | 0 <= i < |e.args| :: IsClause(e.args[i]))
  }

  // ---------------------------------------------------------------------------
  // Stage 1: eliminate_implications

  /** `eliminate_implications(s)` with the implication tag as a parameter: `arrow` is
      rewritten to `~a || b`, "<=>" to `(~a || b) & (~b || a)`, "&", "||" and "~" are
      rebuilt from their rewritten operands, and any other non-symbol tag with operands
      trips the assertion. Symbols and operand-less nodes come back unchanged. */
  function EliminateWith(arrow: string, s: Expr): Result<Expr>
    decreases Size(s), 0
  {
    if |s.args| == 0 || IsSymbol(s.op) then Ok(s)
    else
      var args :- EliminateAllWith(arrow, s.args);
      Rewrite(arrow, s.op, args)
  }

  /** The node `eliminate_implications` builds from the rewritten operands `args` (at
      least one) of a node tagged `op`: it reads only the first and the last operand of an
      implication or a biconditional. */
  function Rewrite(arrow: string, op: string, args: seq<Expr>): (r: Result<Expr>)
    requires |args| >= 1
    ensures r.Err? <==> op != arrow && op !in {"<=>", "&", "||", "~"}
  {
    var a, b := args[0], args[|args| - 1];
    if op == arrow then Ok(Infix(Not(a), "||", b))
    else if op == "<=>" then Ok(And(Infix(Not(a), "||", b), Infix(Not(b), "||", a)))
    else if op == "&" || op == "||" || op == "~" then Ok(Expr(op, args))
    else Err(AssertionFailed)
  }

  /** `list(map(eliminate_implications, args))`: the first failure wins. */
  function EliminateAllWith(arrow: string, es: seq<Expr>): (r: Result<seq<Expr>>)
    ensures r.Ok? ==> |r.value| == |es|
    decreases SizeAll(es), 1
  {
    if es == [] then Ok([])
    else
      var h :- EliminateWith(arrow, es[0]);
      var t :- EliminateAllWith(arrow, es[1..]);
      Ok([h] + t)
  }

  /** `eliminate_implications` as cnf.py writes it: the implication tag is "=>". */
  function EliminateImplications(s: Expr): Result<Expr>
  {
    EliminateWith("=>", s)
  }

  /** On a well-formed formula the rewrite succeeds, leaves only "~", "&" and "||", and
      keeps the truth value in every model. */
  lemma {:induction false} EliminateCorrect(arrow: string, s: Expr, m: Model)
    requires arrow == "=>" || arrow == "==>"
    requires WellFormed(s, arrow, 1)
    ensures EliminateWith(arrow, s).Ok?
    ensures IsBasic(EliminateWith(arrow, s).value)
    ensures Holds(EliminateWith(arrow, s).value, m) == Holds(s, m)
    decreases Size(s), 0
  {
    if |s.args| > 0 && !IsSymbol(s.op) {
      EliminateAllCorrect(arrow, s.args, m);
      RewriteCorrect(arrow, s, EliminateAllWith(arrow, s.args).value, m);
    }
  }

  /** The rebuilt node is basic and means what the original node meant, given rewritten
      operands that are basic and mean what the originals meant. */
  lemma RewriteCorrect(arrow: string, s: Expr, args: seq<Expr>, m: Model)
    requires arrow == "=>" || arrow == "==>"
    requires WellFormed(s, arrow, 1) && |s.args| > 0 && !IsSymbol(s.op)
    requires |args| == |s.args|
    requires forall i | 0 <= i < |args| :: IsBasic(args[i]) && Holds(args[i], m) == Holds(s.args[i], m)
    ensures Rewrite(arrow, s.op, args).Ok?
    ensures IsBasic(Rewrite(arrow, s.op, args).value)
    ensures Holds(Rewrite(arrow, s.op, args).value, m) == Holds(s, m)
  {
    ConnectivesAreNotSymbols();
    if s.op == arrow || s.op == "<=>" {
      RewriteArrowCorrect(arrow, s, args, m);
    } else if s.op == "&" || s.op == "||" {
      RewriteJunctionCorrect(arrow, s, args, m);
    }
  }

  /** The implication and biconditional cases of `RewriteCorrect`. */
  lemma RewriteArrowCorrect(arrow: string, s: Expr, args: seq<Expr>, m: Model)
    requires arrow == "=>" || arrow == "==>"
    requires WellFormed(s, arrow, 1) && |s.args| > 0 && (s.op == arrow || s.op == "<=>")
    requires |args| == |s.args|
    requires forall i | 0 <= i < |args| :: IsBasic(args[i]) && Holds(args[i], m) == Holds(s.args[i], m)
    ensures Rewrite(arrow, s.op, args).Ok?
    ensures IsBasic(Rewrite(arrow, s.op, args).value)
    ensures Holds(Rewrite(arrow, s.op, args).value, m) == Holds(s, m)
  {
    ConnectivesAreNotSymbols();
    var a, b := args[0], args[|args| - 1];
    PairHolds(Not(a), b, m);
    PairHolds(Not(b), a, m);
    PairHolds(Infix(Not(a), "||", b), Infix(Not(b), "||", a), m);
  }

  /** The conjunction and disjunction cases of `RewriteCorrect`. */
  lemma RewriteJunctionCorrect(arrow: string, s: Expr, args: seq<Expr>, m: Model)
    requires arrow == "=>" || arrow == "==>"
    requires WellFormed(s, arrow, 1) && |s.args| > 0 && (s.op == "&" || s.op == "||")
    requires |args| == |s.args|
    requires forall i | 0 <= i < |args| :: IsBasic(args[i]) && Holds(args[i], m) == Holds(s.args[i], m)
    ensures Rewrite(arrow, s.op, args).Ok?
    ensures IsBasic(Rewrite(arrow, s.op, args).value)
    ensures Holds(Rewrite(arrow, s.op, args).value, m) == Holds(s, m)
  {
    ConnectivesAreNotSymbols();
    if s.op == "&" {
      AllHoldIff(args, m);
      AllHoldIff(s.args, m);
    } else {
      AnyHoldsIff(args, m);
      AnyHoldsIff(s.args, m);
    }
  }

  lemma {:induction false} EliminateAllCorrect(arrow: string, es: seq<Expr>, m: Model)
    requires arrow == "=>" || arrow == "==>"
    requires forall i | 0 <= i < |es| :: WellFormed(es[i], arrow, 1)
    ensures EliminateAllWith(arrow, es).Ok?
    ensures forall i | 0 <= i < |es| :: IsBasic(EliminateAllWith(arrow, es).value[i])
    ensures forall i | 0 <= i < |es| ::
      Holds(EliminateAllWith(arrow, es).value[i], m) == Holds(es[i], m)
    decreases SizeAll(es), 1
  {
    if es != [] {
      EliminateCorrect(arrow, es[0], m);
      EliminateAllCorrect(arrow, es[1..], m);
      var h := EliminateWith(arrow, es[0]).value;
      var t := EliminateAllWith(arrow, es[1..]).value;
      assert EliminateAllWith(arrow, es).value == [h] + t;
      Utils.PointwiseCons(es, h, t, (b: Expr, e: Expr) => IsBasic(b) && Holds(b, m) == Holds(e, m));
    }
  }

  // ---------------------------------------------------------------------------
  // Stage 2: move_not_inwards

  /** `move_not_inwards(s)`: "~~a" becomes `a`, "~(a & ...)" and "~(a || ...)" follow
      De Morgan through `associate`, "~" over anything else stays, and other nodes with
      operands are rebuilt from their rewritten operands. A "~" without an operand is an
      index error. */
  function MoveNotInwards(s: Expr): Result<Expr>
    decreases Size(s), 1
  {
    if s.op == "~" then
      if |s.args| == 0 then Err(IndexOutOfRange)
      else
        var a := s.args[0];
        assert Size(s) >= 1 + Size(a) by {
          assert SizeAll(s.args) == Size(a) + SizeAll(s.args[1..]);
        }
        if a.op == "~" then
          if |a.args| == 0 then Err(IndexOutOfRange)
          else
            assert SizeAll(a.args) == Size(a.args[0]) + SizeAll(a.args[1..]);
            MoveNotInwards(a.args[0])
        else if a.op == "&" then
          var ns :- NegateAll(a.args);
          Associate("||", ns)
        else if a.op == "||" then
          var ns :- NegateAll(a.args);
          Associate("&", ns)
        else Ok(s)
    else if IsSymbol(s.op) || |s.args| == 0 then Ok(s)
    else
      var ms :- MoveAll(s.args);
      Ok(Expr(s.op, ms))
  }

  /** `list(map(NOT, bs))` with `NOT(b) = move_not_inwards(~b)`. */
  function NegateAll(bs: seq<Expr>): (r: Result<seq<Expr>>)
    ensures r.Ok? ==> |r.value| == |bs|
    decreases SizeAll(bs) + 1, 2
  {
    if bs == [] then Ok([])
    else
      SizeOfBuilt(bs[0], bs[0], "~");
      var n :- MoveNotInwards(Not(bs[0]));
      var ns :- NegateAll(bs[1..]);
      Ok([n] + ns)
  }

  /** `list(map(move_not_inwards, es))`. */
  function MoveAll(es: seq<Expr>): (r: Result<seq<Expr>>)
    ensures r.Ok? ==> |r.value| == |es|
    decreases SizeAll(es), 2
  {
    if es == [] then Ok([])
    else
      var h :- MoveNotInwards(es[0]);
      var t :- MoveAll(es[1..]);
      Ok([h] + t)
  }

  /** Flattening keeps any property that an `op` node passes on to its operands. */
  lemma {:induction false} DissociateKeeps(op: string, xs: seq<Expr>, P: Expr -> bool)
    requires forall x | P(x) && x.op == op :: forall i | 0 <= i < |x.args| :: P(x.args[i])
    requires forall i | 0 <= i < |xs| :: P(xs[i])
    ensures forall y | y in Dissociate(op, xs) :: P(y)
    decreases SizeAll(xs)
  {
    if xs != [] {
      var head := if xs[0].op == op then Dissociate(op, xs[0].args) else [xs[0]];
      var tail := Dissociate(op, xs[1..]);
      assert Dissociate(op, xs) == head + tail;
      assert SizeAll(xs) == Size(xs[0]) + SizeAll(xs[1..]);
      DissociateKeeps(op, xs[1..], P);
      if xs[0].op == op {
        assert SizeAll(xs[0].args) < Size(xs[0]);
        DissociateKeeps(op, xs[0].args, P);
      }
    }
  }

  /** Formulas in negation normal form have operands under every "&" and "||". */
  lemma {:induction false} NnfPopulated(e: Expr)
    requires IsNnf(e)
    ensures Populated(e)
  {
    ConnectivesAreNotSymbols();
    if e.op == "&" || e.op == "||" {
      forall i | 0 <= i < |e.args| ensures Populated(e.args[i]) {
        NnfPopulated(e.args[i]);
      }
    }
  }

  /** Flattening formulas in negation normal form keeps them in negation normal form, and
      a non-empty list stays non-empty. */
  lemma DissociateNnf(op: string, xs: seq<Expr>)
    requires op == "&" || op == "||"
    requires forall i | 0 <= i < |xs| :: IsNnf(xs[i])
    ensures forall y | y in Dissociate(op, xs) :: IsNnf(y)
    ensures |xs| >= 1 ==> |Dissociate(op, xs)| >= 1
  {
    ConnectivesAreNotSymbols();
    DissociateKeeps(op, xs, IsNnf);
    forall i | 0 <= i < |xs| ensures Populated(xs[i]) {
      NnfPopulated(xs[i]);
    }
    if |xs| >= 1 {
      DissociateNonEmpty(op, xs);
    }
  }

  /** Rebuilding a non-empty list of negation-normal-form formulas succeeds and stays in
      negation normal form. */
  lemma AssociateNnf(op: string, xs: seq<Expr>)
    requires op == "&" || op == "||"
    requires |xs| >= 1 && forall i | 0 <= i < |xs| :: IsNnf(xs[i])
    ensures Associate(op, xs).Ok? && IsNnf(Associate(op, xs).value)
  {
    DissociateNnf(op, xs);
  }

  /** On formulas over "~", "&", "||" the rewrite succeeds, negates only symbols, and
      keeps the truth value. */
  lemma {:induction false} MoveNotInwardsCorrect(s: Expr, m: Model)
    requires IsBasic(s)
    ensures MoveNotInwards(s).Ok?
    ensures IsNnf(MoveNotInwards(s).value)
    ensures Holds(MoveNotInwards(s).value, m) == Holds(s, m)
    decreases Size(s), 1
  {
    ConnectivesAreNotSymbols();
    if s.op == "~" {
      var a := s.args[0];
      assert SizeAll(s.args) == Size(a) + SizeAll(s.args[1..]);
      if a.op == "~" {
        assert SizeAll(a.args) == Size(a.args[0]) + SizeAll(a.args[1..]);
        MoveNotInwardsCorrect(a.args[0], m);
      } else if a.op == "&" || a.op == "||" {
        NegateAllCorrect(a.args, m);
        DeMorganCorrect(a, NegateAll(a.args).value, m);
      }
    } else if !IsSymbol(s.op) {
      MoveAllCorrect(s.args, m);
      RebuildCorrect(s, MoveAll(s.args).value, m);
    }
  }

  /** De Morgan: the negated operands of a conjunction, rebuilt as a disjunction (and
      the other way round), are in negation normal form and mean the negation. */
  lemma DeMorganCorrect(a: Expr, ns: seq<Expr>, m: Model)
    requires IsBasic(a) && (a.op == "&" || a.op == "||")
    requires |ns| == |a.args|
    requires forall i | 0 <= i < |ns| :: IsNnf(ns[i]) && Holds(ns[i], m) == !Holds(a.args[i], m)
    ensures var op' := if a.op == "&" then "||" else "&";
      && Associate(op', ns).Ok?
      && IsNnf(Associate(op', ns).value)
      && Holds(Associate(op', ns).value, m) == !Holds(a, m)
  {
    ConnectivesAreNotSymbols();
    var op' := if a.op == "&" then "||" else "&";
    AssociateNnf(op', ns);
    AssociateHolds(op', ns, m);
    if a.op == "&" {
      AllHoldIff(a.args, m);
      AnyHoldsIff(ns, m);
    } else {
      AnyHoldsIff(a.args, m);
      AllHoldIff(ns, m);
    }
  }

  /** A node other than "~" rebuilt from rewritten operands keeps its shape and value. */
  lemma RebuildCorrect(s: Expr, ms: seq<Expr>, m: Model)
    requires IsBasic(s) && s.op != "~" && !IsSymbol(s.op)
    requires |ms| == |s.args|
    requires forall i | 0 <= i < |ms| :: IsNnf(ms[i]) && Holds(ms[i], m) == Holds(s.args[i], m)
    ensures IsNnf(Expr(s.op, ms))
    ensures Holds(Expr(s.op, ms), m) == Holds(s, m)
  {
    ConnectivesAreNotSymbols();
    if s.op == "&" {
      AllHoldIff(ms, m);
      AllHoldIff(s.args, m);
    } else {
      AnyHoldsIff(ms, m);
      AnyHoldsIff(s.args, m);
    }
  }

  lemma {:induction false} NegateAllCorrect(bs: seq<Expr>, m: Model)
    requires forall i | 0 <= i < |bs| :: IsBasic(bs[i])
    ensures NegateAll(bs).Ok?
    ensures forall i | 0 <= i < |bs| :: IsNnf(NegateAll(bs).value[i])
    ensures forall i | 0 <= i < |bs| :: Holds(NegateAll(bs).value[i], m) == !Holds(bs[i], m)
    decreases SizeAll(bs) + 1, 2
  {
    if bs != [] {
      ConnectivesAreNotSymbols();
      SizeOfBuilt(bs[0], bs[0], "~");
      MoveNotInwardsCorrect(Not(bs[0]), m);
      NegateAllCorrect(bs[1..], m);
      var h := MoveNotInwards(Not(bs[0])).value;
      var t := NegateAll(bs[1..]).value;
      assert NegateAll(bs).value == [h] + t;
      Utils.PointwiseCons(bs, h, t, (n: Expr, b: Expr) => IsNnf(n) && Holds(n, m) == !Holds(b, m));
    }
  }

  lemma {:induction false} MoveAllCorrect(es: seq<Expr>, m: Model)
    requires forall i | 0 <= i < |es| :: IsBasic(es[i])
    ensures MoveAll(es).Ok?
    ensures forall i | 0 <= i < |es| :: IsNnf(MoveAll(es).value[i])
    ensures forall i | 0 <= i < |es| :: Holds(MoveAll(es).value[i], m) == Holds(es[i], m)
    decreases SizeAll(es), 2
  {
    if es != [] {
      MoveNotInwardsCorrect(es[0], m);
      MoveAllCorrect(es[1..], m);
      var h := MoveNotInwards(es[0]).value;
      var t := MoveAll(es[1..]).value;
      assert MoveAll(es).value == [h] + t;
      Utils.PointwiseCons(es, h, t, (n: Expr, e: Expr) => IsNnf(n) && Holds(n, m) == Holds(e, m));
    }
  }

  // ---------------------------------------------------------------------------
  // Stage 3: distribute_and_over_or

  /** Number of nodes not tagged "||": the measure that shrinks when a disjunction trades
      a conjunction operand for the operand's own operands. */
  function NonOr(e: Expr): nat
  {
    (if e.op == "||" then 0 else 1) + NonOrAll(e.args)
  }

  function NonOrAll(es: seq<Expr>): nat
  {
    if es == [] then 0 else NonOr(es[0]) + NonOrAll(es[1..])
  }

  lemma {:induction false} NonOrAllAppend(a: seq<Expr>, b: seq<Expr>)
    ensures NonOrAll(a + b) == NonOrAll(a) + NonOrAll(b)
  {
    if a != [] {
      assert (a + b)[0] == a[0] && (a + b)[1..] == a[1..] + b;
      NonOrAllAppend(a[1..], b);
    } else {
      assert a + b == b;
    }
  }

  /** Taking the operand at `k` out of a list. */
  lemma NonOrAllRemove(xs: seq<Expr>, k: nat)
    requires k < |xs|
    ensures NonOrAll(xs) == NonOr(xs[k]) + NonOrAll(xs[..k] + xs[k + 1..])
  {
    var before, after := xs[..k], xs[k + 1..];
    var mid := [xs[k]] + after;
    assert xs == before + mid;
    assert mid[0] == xs[k] && mid[1..] == after;
    NonOrAllAppend(before, mid);
    NonOrAllAppend(before, after);
  }

  /** A disjunction node of two operands. */
  lemma NonOrOfDisjunction(a: Expr, b: Expr)
    ensures NonOr(Expr("||", [a, b])) == NonOr(a) + NonOr(b)
  {
    assert [a, b][1..] == [b] && [b][1..] == [];
    assert NonOrAll([b]) == NonOr(b);
    assert NonOrAll([a, b]) == NonOr(a) + NonOrAll([b]);
  }

  /** Flattening disjunctions removes only "||" nodes. */
  lemma {:induction false} DissociateOrNonOr(xs: seq<Expr>)
    ensures NonOrAll(Dissociate("||", xs)) == NonOrAll(xs)
    decreases SizeAll(xs)
  {
    if xs != [] {
      var head := if xs[0].op == "||" then Dissociate("||", xs[0].args) else [xs[0]];
      var tail := Dissociate("||", xs[1..]);
      assert Dissociate("||", xs) == head + tail;
      assert SizeAll(xs) == Size(xs[0]) + SizeAll(xs[1..]);
      NonOrAllAppend(head, tail);
      DissociateOrNonOr(xs[1..]);
      if xs[0].op == "||" {
        assert SizeAll(xs[0].args) < Size(xs[0]);
        DissociateOrNonOr(xs[0].args);
      } else {
        assert [xs[0]][1..] == [];
      }
    }
  }

  /** Rebuilding a disjunction keeps the count of non-"||" nodes. */
  lemma AssociateOrNonOr(xs: seq<Expr>)
    requires Associate("||", xs).Ok?
    ensures NonOr(Associate("||", xs).value) == NonOrAll(xs)
  {
    DissociateOrNonOr(xs);
    var flat := Dissociate("||", xs);
    if |flat| == 1 {
      assert flat[1..] == [];
    }
  }

  /** `first(arg for arg in args if arg.op == '&')`, as the position of that operand. */
  function FirstConjunct(args: seq<Expr>): (r: Option<nat>)
    ensures r.Some? ==> r.value < |args| && args[r.value].op == "&"
    ensures r.Some? ==> forall j | 0 <= j < r.value :: args[j].op != "&"
    ensures r.None? <==> forall j | 0 <= j < |args| :: args[j].op != "&"
  {
    if args == [] then None
    else if args[0].op == "&" then Some(0)
    else
      match FirstConjunct(args[1..])
      case None => None
      case Some(k) => Some(k + 1)
  }

  /** `distribute_and_over_or(s)`. A disjunction is flattened; if one of its operands is a
      conjunction `c1 & ... & cn`, that operand is taken out and the result is the
      conjunction of `ci || rest` for each `ci`, each distributed again. A conjunction is
      rebuilt from its distributed operands. Anything else is an atom and is returned as
      it is. */
  function Distribute(s: Expr): Result<Expr>
    decreases NonOr(s), Size(s), 0
  {
    if s.op == "||" then
      var t :- Associate("||", s.args);
      AssociateOrNonOr(s.args);
      if t.op != "||" then Distribute(t)
      else if |t.args| == 1 then assert false; Err(AssertionFailed)
      else if |t.args| == 0 then assert false; Err(AssertionFailed)
      else
        match FirstConjunct(t.args)
        case None => Ok(t)
        case Some(k) =>
          var conj := t.args[k];
          var others := t.args[..k] + t.args[k + 1..];
          var rest :- Associate("||", others);
          NonOrAllRemove(t.args, k);
          AssociateOrNonOr(others);
          DissociateOrNonOr(s.args);
          var ds :- DistributeEach(conj.args, rest);
          Associate("&", ds)
    else if s.op == "&" then
      var ds :- DistributeAll(s.args);
      Associate("&", ds)
    else Ok(s)
  }

  /** A node that is neither a disjunction nor a conjunction is taken as an atom and
      returned untouched, whatever lies beneath it. */
  lemma DistributeKeepsOtherNodes(s: Expr)
    requires s.op != "&" && s.op != "||"
    ensures Distribute(s) == Ok(s)
  {
  }

  /** `[distribute_and_over_or(c | '||' | rest) for c in cs]`. */
  function DistributeEach(cs: seq<Expr>, rest: Expr): (r: Result<seq<Expr>>)
    ensures r.Ok? ==> |r.value| == |cs|
    decreases NonOrAll(cs) + NonOr(rest) + 1, 0, |cs|
  {
    if cs == [] then Ok([])
    else
      NonOrOfDisjunction(cs[0], rest);
      var d :- Distribute(Infix(cs[0], "||", rest));
      var ds :- DistributeEach(cs[1..], rest);
      Ok([d] + ds)
  }

  /** `list(map(distribute_and_over_or, es))`. */
  function DistributeAll(es: seq<Expr>): (r: Result<seq<Expr>>)
    ensures r.Ok? ==> |r.value| == |es|
    decreases NonOrAll(es), SizeAll(es), |es|
  {
    if es == [] then Ok([])
    else
      var h :- Distribute(es[0]);
      var t :- DistributeAll(es[1..]);
      Ok([h] + t)
  }

  /** Formulas in conjunctive normal form have operands under every "&" and "||". */
  lemma CnfPopulated(e: Expr)
    requires IsCnf(e)
    ensures Populated(e)
  {
    ConnectivesAreNotSymbols();
  }

  /** Rebuilding a non-empty list of CNF formulas as a conjunction succeeds and gives a
      CNF formula. */
  lemma AssociateCnf(xs: seq<Expr>)
    requires |xs| >= 1 && forall i | 0 <= i < |xs| :: IsCnf(xs[i])
    ensures Associate("&", xs).Ok? && IsCnf(Associate("&", xs).value)
  {
    ConnectivesAreNotSymbols();
    DissociateKeeps("&", xs, IsCnf);
    forall i | 0 <= i < |xs| ensures Populated(xs[i]) {
      CnfPopulated(xs[i]);
    }
    DissociateNonEmpty("&", xs);
    var flat := Dissociate("&", xs);
    assert forall i | 0 <= i < |flat| :: flat[i] in flat && flat[i].op != "&";
  }

  /** Taking the operand at `k` out of a disjunction. */
  lemma AnyHoldsRemove(xs: seq<Expr>, k: nat, m: Model)
    requires k < |xs|
    ensures AnyHolds(xs, m) == (Holds(xs[k], m) || AnyHolds(xs[..k] + xs[k + 1..], m))
  {
    var before, after := xs[..k], xs[k + 1..];
    assert xs == before + ([xs[k]] + after);
    assert ([xs[k]] + after)[0] == xs[k] && ([xs[k]] + after)[1..] == after;
    AnyHoldsAppend(before, [xs[k]] + after, m);
    AnyHoldsAppend(before, after, m);
  }

  /** `(c1 || r) & ... & (cn || r)` means `(c1 & ... & cn) || r`. */
  lemma DistributeHolds(ds: seq<Expr>, cs: seq<Expr>, r: Expr, m: Model)
    requires |ds| == |cs|
    requires forall i | 0 <= i < |ds| :: Holds(ds[i], m) == (Holds(cs[i], m) || Holds(r, m))
    ensures AllHold(ds, m) == (AllHold(cs, m) || Holds(r, m))
  {
    AllHoldIff(ds, m);
    AllHoldIff(cs, m);
  }

  /** The pieces `distribute_and_over_or` cuts a flattened disjunction `t` into when
      its operand `k` is the first conjunction: the conjunction's operands and the rebuilt
      remaining disjunction `rest`, all in negation normal form, with fewer non-"||"
      nodes than `s` and with `s`'s truth value split between them. */
  lemma SplitDisjunction(s: Expr, t: Expr, k: nat, m: Model)
    requires IsNnf(s) && s.op == "||"
    requires Associate("||", s.args) == Ok(t) && t.op == "||"
    requires FirstConjunct(t.args) == Some(k)
    ensures Associate("||", t.args[..k] + t.args[k + 1..]).Ok?
    ensures var conj, rest := t.args[k], Associate("||", t.args[..k] + t.args[k + 1..]).value;
      && IsNnf(rest)
      && |conj.args| >= 1
      && (forall i | 0 <= i < |conj.args| :: IsNnf(conj.args[i]))
      && NonOrAll(conj.args) + NonOr(rest) + 1 <= NonOr(s)
      && Holds(s, m) == (AllHold(conj.args, m) || Holds(rest, m))
  {
    var conj, others := t.args[k], t.args[..k] + t.args[k + 1..];
    assert IsNnf(conj) && (forall y | y in others :: IsNnf(y)) && |others| >= 1 by {
      SplitPiecesNnf(s, t, k);
    }
    ConnectivesAreNotSymbols();
    AssociateNnf("||", others);
    assert NonOrAll(conj.args) + NonOr(Associate("||", others).value) + 1 <= NonOr(s) by {
      AssociateOrNonOr(s.args);
      NonOrAllRemove(t.args, k);
      AssociateOrNonOr(others);
    }
    assert Holds(s, m) == (AllHold(conj.args, m) || Holds(Associate("||", others).value, m)) by {
      AssociateHolds("||", s.args, m);
      AssociateHolds("||", others, m);
      AnyHoldsRemove(t.args, k, m);
    }
  }

  /** The operands of a flattened disjunction of formulas in negation normal form are in
      negation normal form. */
  lemma SplitPiecesNnf(s: Expr, t: Expr, k: nat)
    requires IsNnf(s) && s.op == "||"
    requires Associate("||", s.args) == Ok(t) && t.op == "||"
    requires k < |t.args|
    ensures IsNnf(t.args[k]) && |t.args| >= 2
    ensures forall y | y in t.args[..k] + t.args[k + 1..] :: IsNnf(y)
  {
    ConnectivesAreNotSymbols();
    DissociateNnf("||", s.args);
    var flat := Dissociate("||", s.args);
    assert t.args == flat;
    assert t.args[k] in flat;
    assert forall y | y in t.args[..k] + t.args[k + 1..] :: y in flat;
  }

  /** Rebuilding the distributed pieces as a conjunction gives CNF with the value of
      `conj || rest`. */
  lemma JoinDistributed(t: Expr, k: nat, rest: Expr, ds: seq<Expr>, m: Model)
    requires k < |t.args|
    requires |ds| == |t.args[k].args| >= 1
    requires forall i | 0 <= i < |ds| :: IsCnf(ds[i])
    requires forall i | 0 <= i < |ds| :: Holds(ds[i], m) == (Holds(t.args[k].args[i], m) || Holds(rest, m))
    ensures Associate("&", ds).Ok? && IsCnf(Associate("&", ds).value)
    ensures Holds(Associate("&", ds).value, m) == (AllHold(t.args[k].args, m) || Holds(rest, m))
  {
    AssociateCnf(ds);
    AssociateHolds("&", ds, m);
    DistributeHolds(ds, t.args[k].args, rest, m);
  }

  /** On a formula in negation normal form the rewrite succeeds, gives conjunctive normal
      form, and keeps the truth value. */
  lemma {:induction false} DistributeCorrect(s: Expr, m: Model)
    requires IsNnf(s)
    ensures Distribute(s).Ok?
    ensures IsCnf(Distribute(s).value)
    ensures Holds(Distribute(s).value, m) == Holds(s, m)
    decreases NonOr(s), Size(s), 2
  {
    if s.op == "||" {
      DistributeOrCorrect(s, m);
    } else if s.op == "&" {
      DistributeAndCorrect(s, m);
    }
  }

  /** The disjunction case: flatten, then either recurse on a lone operand, stop at a
      clause, or distribute over the first conjunction. */
  lemma {:induction false} DistributeOrCorrect(s: Expr, m: Model)
    requires IsNnf(s) && s.op == "||"
    ensures Distribute(s).Ok?
    ensures IsCnf(Distribute(s).value)
    ensures Holds(Distribute(s).value, m) == Holds(s, m)
    decreases NonOr(s), Size(s), 1
  {
    ConnectivesAreNotSymbols();
    DissociateNnf("||", s.args);
    AssociateHolds("||", s.args, m);
    AssociateOrNonOr(s.args);
    var t := Associate("||", s.args).value;
    if t.op != "||" {
      assert t in Dissociate("||", s.args);
      DistributeCorrect(t, m);
    } else {
      match FirstConjunct(t.args)
      case None =>
        FlatDisjunctionIsClause(s, t);
      case Some(k) =>
        DistributeSplitCorrect(s, t, k, m);
    }
  }

  /** The distribution step over the first conjunction operand `k` of the flattened
      disjunction `t`. */
  lemma {:induction false} DistributeSplitCorrect(s: Expr, t: Expr, k: nat, m: Model)
    requires IsNnf(s) && s.op == "||"
    requires Associate("||", s.args) == Ok(t) && t.op == "||"
    requires FirstConjunct(t.args) == Some(k)
    ensures Distribute(s).Ok?
    ensures IsCnf(Distribute(s).value)
    ensures Holds(Distribute(s).value, m) == Holds(s, m)
    decreases NonOr(s), Size(s), 0
  {
    var conj := t.args[k];
    SplitDisjunction(s, t, k, m);
    var rest := Associate("||", t.args[..k] + t.args[k + 1..]).value;
    assert |t.args| >= 2 by { SplitPiecesNnf(s, t, k); }
    DistributeEachCorrect(conj.args, rest, m);
    var ds := DistributeEach(conj.args, rest).value;
    JoinDistributed(t, k, rest, ds, m);
  }

  /** The conjunction case: distribute every operand and rebuild. */
  lemma {:induction false} DistributeAndCorrect(s: Expr, m: Model)
    requires IsNnf(s) && s.op == "&"
    ensures Distribute(s).Ok?
    ensures IsCnf(Distribute(s).value)
    ensures Holds(Distribute(s).value, m) == Holds(s, m)
    decreases NonOr(s), Size(s), 1
  {
    ConnectivesAreNotSymbols();
    DistributeAllCorrect(s.args, m);
    var ds := DistributeAll(s.args).value;
    AssociateCnf(ds);
    AssociateHolds("&", ds, m);
    AllHoldIff(ds, m);
    AllHoldIff(s.args, m);
  }

  /** A flattened disjunction of formulas in negation normal form without a conjunction
      operand is a clause. */
  lemma FlatDisjunctionIsClause(s: Expr, t: Expr)
    requires IsNnf(s) && s.op == "||"
    requires Associate("||", s.args) == Ok(t) && t.op == "||"
    requires forall j | 0 <= j < |t.args| :: t.args[j].op != "&"
    ensures IsCnf(t)
  {
    ConnectivesAreNotSymbols();
    DissociateNnf("||", s.args);
    var flat := Dissociate("||", s.args);
    assert forall i | 0 <= i < |flat| :: flat[i] in flat && flat[i].op != "||";
  }

  lemma {:induction false} DistributeEachCorrect(cs: seq<Expr>, rest: Expr, m: Model)
    requires forall i | 0 <= i < |cs| :: IsNnf(cs[i])
    requires IsNnf(rest)
    ensures DistributeEach(cs, rest).Ok?
    ensures forall i | 0 <= i < |cs| :: IsCnf(DistributeEach(cs, rest).value[i])
    ensures forall i | 0 <= i < |cs| ::
      Holds(DistributeEach(cs, rest).value[i], m) == (Holds(cs[i], m) || Holds(rest, m))
    decreases NonOrAll(cs) + NonOr(rest) + 1, 0, |cs|
  {
    if cs != [] {
      DistributeOneCorrect(cs, rest, m);
      DistributeEachCorrect(cs[1..], rest, m);
      var h := Distribute(Infix(cs[0], "||", rest)).value;
      var t := DistributeEach(cs[1..], rest).value;
      assert DistributeEach(cs, rest).value == [h] + t;
      Utils.PointwiseCons(cs, h, t, (d: Expr, c: Expr) => IsCnf(d) && Holds(d, m) == (Holds(c, m) || Holds(rest, m)));
    }
  }

  /** The first entry of `DistributeEach`: `cs[0] || rest`, distributed. */
  lemma {:induction false} DistributeOneCorrect(cs: seq<Expr>, rest: Expr, m: Model)
    requires |cs| > 0 && IsNnf(cs[0]) && IsNnf(rest)
    ensures Distribute(Infix(cs[0], "||", rest)).Ok?
    ensures IsCnf(Distribute(Infix(cs[0], "||", rest)).value)
    ensures Holds(Distribute(Infix(cs[0], "||", rest)).value, m) == (Holds(cs[0], m) || Holds(rest, m))
    decreases NonOrAll(cs) + NonOr(rest) + 1, 0, 0
  {
    ConnectivesAreNotSymbols();
    NonOrOfDisjunction(cs[0], rest);
    PairHolds(cs[0], rest, m);
    assert NonOrAll(cs) >= NonOr(cs[0]);
    DistributeCorrect(Infix(cs[0], "||", rest), m);
  }

  lemma {:induction false} DistributeAllCorrect(es: seq<Expr>, m: Model)
    requires forall i | 0 <= i < |es| :: IsNnf(es[i])
    ensures DistributeAll(es).Ok?
    ensures forall i | 0 <= i < |es| :: IsCnf(DistributeAll(es).value[i])
    ensures forall i | 0 <= i < |es| :: Holds(DistributeAll(es).value[i], m) == Holds(es[i], m)
    decreases NonOrAll(es), SizeAll(es), |es| + 2
  {
    if es != [] {
      DistributeCorrect(es[0], m);
      DistributeAllCorrect(es[1..], m);
      var h := Distribute(es[0]).value;
      var t := DistributeAll(es[1..]).value;
      assert DistributeAll(es).value == [h] + t;
      Utils.PointwiseCons(es, h, t, (d: Expr, e: Expr) => IsCnf(d) && Holds(d, m) == Holds(e, m));
    }
  }

  /** `to_cnf(s)` with the implication tag as a parameter. */
  function ToCnfWith(arrow: string, s: Expr): Result<Expr>
  {
    var a :- EliminateWith(arrow, s);
    var b :- MoveNotInwards(a);
    Distribute(b)
  }

  /** `to_cnf(s)` as cnf.py writes it, recognising "=>". */
  function ToCnf(s: Expr): Result<Expr>
  {
    ToCnfWith("=>", s)
  }

  /** The conversion succeeds on every well-formed formula of its dialect, returns a
      conjunction of clauses whose negations sit directly on symbols, and keeps the truth
      value in every model. */
  lemma ToCnfCorrect(arrow: string, s: Expr, m: Model)
    requires arrow == "=>" || arrow == "==>"
    requires WellFormed(s, arrow, 1)
    ensures ToCnfWith(arrow, s).Ok?
    ensures IsCnf(ToCnfWith(arrow, s).value)
    ensures Holds(ToCnfWith(arrow, s).value, m) == Holds(s, m)
  {
    EliminateCorrect(arrow, s, m);
    var a := EliminateWith(arrow, s).value;
    MoveNotInwardsCorrect(a, m);
    DistributeCorrect(MoveNotInwards(a).value, m);
  }

  /** The implication the evaluators and the knowledge-base text use, "==>", is not
      recognised: `to_cnf` of `a ==> b` trips the assertion of `eliminate_implications`. */
  lemma ToCnfRejectsEvaluatorArrow(a: Expr, b: Expr)
    requires WellFormed(a, "=>", 1) && WellFormed(b, "=>", 1)
    ensures ToCnf(Expr("==>", [a, b])) == Err(AssertionFailed)
  {
    ConnectivesAreNotSymbols();
    EliminateAllCorrect("=>", [a, b], map[]);
  }
}
