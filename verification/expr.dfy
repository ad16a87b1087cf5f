/** Propositional expressions (expr.py): one recursive node type with an operator tag
    and an ordered operand sequence, its builders, flattening and rendering. */
module Exprs {
  import opened Wrappers
  import Utils

  /** `Expr(op, *args)`. A symbol is a node whose tag starts with a letter; connectives
      are the tags "~", "&", "||", "=>", "==>", "<=>". */
  datatype Expr = Expr(op: string, args: seq<Expr>)

  /** The pending value of `a | op`, waiting for its right operand. */
  datatype PartialExpr = PartialExpr(op: string, lhs: Expr)

  // ---------------------------------------------------------------------------
  // Symbols

  /** `str.isalpha` restricted to ASCII letters. */
  predicate IsLetter(c: char)
  {
    'a' <= c <= 'z' || 'A' <= c <= 'Z'
  }

  predicate IsAlpha(s: string)
  {
    |s| > 0 && forall i | 0 <= i < |s| :: IsLetter(s[i])
  }

  /** `is_symbol(s)`: `s[:1].isalpha()`. */
  predicate IsSymbol(s: string)
  {
    IsAlpha(s[..if |s| < 1 then |s| else 1])
  }

  /** A tag is a symbol exactly when it is non-empty and starts with a letter. */
  lemma SymbolIffLeadingLetter(s: string)
    ensures IsSymbol(s) <==> |s| > 0 && IsLetter(s[0])
  {
  }

  /** No connective tag is a symbol. */
  lemma ConnectivesAreNotSymbols()
    ensures !IsSymbol("~") && !IsSymbol("&") && !IsSymbol("||")
    ensures !IsSymbol("=>") && !IsSymbol("==>") && !IsSymbol("<=>") && !IsSymbol("")
  {
    SymbolIffLeadingLetter("~");
    SymbolIffLeadingLetter("&");
    SymbolIffLeadingLetter("||");
    SymbolIffLeadingLetter("=>");
    SymbolIffLeadingLetter("==>");
    SymbolIffLeadingLetter("<=>");
  }

  /** `Symbol(name)`. */
  function Symbol(name: string): Expr
  {
    Expr(name, [])
  }

  // ---------------------------------------------------------------------------
  // Structural measures used for termination

  function Size(e: Expr): nat
  {
    1 + SizeAll(e.args)
  }

  function SizeAll(es: seq<Expr>): nat
  {
    if es == [] then 0 else Size(es[0]) + SizeAll(es[1..])
  }

  lemma {:induction false} SizeAllAppend(a: seq<Expr>, b: seq<Expr>)
    ensures SizeAll(a + b) == SizeAll(a) + SizeAll(b)
  {
    if a != [] {
      assert (a + b)[0] == a[0];
      assert (a + b)[1..] == a[1..] + b;
      SizeAllAppend(a[1..], b);
    } else {
      assert a + b == b;
    }
  }

  /** Sizes of the nodes the builders make. */
  lemma SizeOfBuilt(a: Expr, b: Expr, op: string)
    ensures Size(Expr("~", [a])) == 1 + Size(a)
    ensures Size(Expr(op, [a, b])) == 1 + Size(a) + Size(b)
  {
    assert [a][1..] == [] && [a, b][1..] == [b] && [b][1..] == [];
    assert SizeAll([b]) == Size(b);
    assert SizeAll([a]) == Size(a);
  }

  lemma {:induction false} SizeAllMember(es: seq<Expr>, i: nat)
    requires i < |es|
    ensures Size(es[i]) <= SizeAll(es)
  {
    if i > 0 {
      SizeAllMember(es[1..], i - 1);
    }
  }

  // ---------------------------------------------------------------------------
  // Equality and builders

  /** `Expr.__eq__`: same tag and equal operand tuples, compared element by element. */
  function Equal(a: Expr, b: Expr): (r: bool)
    ensures r <==> a == b
  {
    a.op == b.op && EqualAll(a.args, b.args)
  }

  /** Tuple equality: same length and pairwise `__eq__`. */
  function EqualAll(xs: seq<Expr>, ys: seq<Expr>): (r: bool)
    ensures r <==> xs == ys
  {
    if xs == [] || ys == [] then |xs| == |ys|
    else
      assert xs == [xs[0]] + xs[1..] && ys == [ys[0]] + ys[1..];
      Equal(xs[0], ys[0]) && EqualAll(xs[1..], ys[1..])
  }

  /** `~e` (`__invert__`). */
  function Not(e: Expr): Expr
  {
    Expr("~", [e])
  }

  /** `a & b` (`__and__`). */
  function And(a: Expr, b: Expr): Expr
  {
    Expr("&", [a, b])
  }

  /** `lhs & self` evaluated as `self.__rand__(lhs)`. */
  function RightAnd(self: Expr, lhs: Expr): Expr
  {
    Expr("&", [lhs, self])
  }

  /** `self | op` (`__or__`): the first half of the infix builder. */
  function Pipe(self: Expr, op: string): PartialExpr
  {
    PartialExpr(op, self)
  }

  /** `partial | rhs` (`PartialExpr.__or__`): the second half of the infix builder. */
  function Complete(p: PartialExpr, rhs: Expr): Expr
  {
    Expr(p.op, [p.lhs, rhs])
  }

  /** `a | op | b`. */
  function Infix(a: Expr, op: string, b: Expr): Expr
  {
    Complete(Pipe(a, op), b)
  }

  /** Negation wraps one operand; `a & b` and `b.__rand__(a)` build the same node. */
  lemma BuildersShape(a: Expr, b: Expr)
    ensures Not(a) == Expr("~", [a])
    ensures And(a, b) == RightAnd(b, a) == Expr("&", [a, b])
  {
  }

  /** `a | op` is pending on `op` with `a` on its left, and completing it with `| b` gives
      the binary node `op(a, b)`. */
  lemma InfixBuilderShape(a: Expr, b: Expr, op: string)
    ensures Pipe(a, op).op == op && Pipe(a, op).lhs == a
    ensures Infix(a, op, b) == Expr(op, [a, b])
  {
  }

  // ---------------------------------------------------------------------------
  // Symbols of an expression

  /** `get_symbols(x)`: the set of symbol nodes reached without passing through a symbol. */
  function Symbols(e: Expr): (r: set<Expr>)
    ensures forall x | x in r :: IsSymbol(x.op)
    ensures IsSymbol(e.op) ==> r == {e}
  {
    if IsSymbol(e.op) then {e} else SymbolsAll(e.args)
  }

  function SymbolsAll(es: seq<Expr>): (r: set<Expr>)
    ensures forall x | x in r :: IsSymbol(x.op)
  {
    if es == [] then {} else Symbols(es[0]) + SymbolsAll(es[1..])
  }

  lemma {:induction false} SymbolsAllAppend(a: seq<Expr>, b: seq<Expr>)
    ensures SymbolsAll(a + b) == SymbolsAll(a) + SymbolsAll(b)
  {
    if a != [] {
      assert (a + b)[0] == a[0];
      assert (a + b)[1..] == a[1..] + b;
      SymbolsAllAppend(a[1..], b);
    } else {
      assert a + b == b;
    }
  }

  lemma {:induction false} SymbolsAllMember(es: seq<Expr>, i: nat)
    requires i < |es|
    ensures Symbols(es[i]) <= SymbolsAll(es)
  {
    if i > 0 {
      SymbolsAllMember(es[1..], i - 1);
    }
  }

  /** The builders neither lose nor invent symbols. */
  lemma BuilderSymbols(a: Expr, b: Expr, op: string)
    requires !IsSymbol(op)
    ensures Symbols(Not(a)) == Symbols(a)
    ensures Symbols(And(a, b)) == Symbols(a) + Symbols(b)
    ensures Symbols(Infix(a, op, b)) == Symbols(a) + Symbols(b)
  {
    ConnectivesAreNotSymbols();
    assert [a, b][1..] == [b];
    assert [a][1..] == [] && [b][1..] == [];
    assert SymbolsAll([b]) == Symbols(b) + SymbolsAll([]);
    assert SymbolsAll([a]) == Symbols(a) + SymbolsAll([]);
    assert SymbolsAll([a, b]) == Symbols(a) + SymbolsAll([b]);
  }

  // ---------------------------------------------------------------------------
  // Flattening and rebuilding

  /** `dissociate(op, args)`: the operands, with nested `op` nodes spliced in place. */
  function Dissociate(op: string, args: seq<Expr>): (r: seq<Expr>)
    ensures forall i | 0 <= i < |r| :: r[i].op != op
    ensures SizeAll(r) <= SizeAll(args)
  {
    if args == [] then []
    else
      var head := if args[0].op == op then Dissociate(op, args[0].args) else [args[0]];
      var tail := Dissociate(op, args[1..]);
      SizeAllAppend(head, tail);
      assert [args[0]][1..] == [];
      head + tail
  }

  lemma {:induction false} DissociateAppend(op: string, a: seq<Expr>, b: seq<Expr>)
    ensures Dissociate(op, a + b) == Dissociate(op, a) + Dissociate(op, b)
  {
    if a != [] {
      assert (a + b)[0] == a[0];
      assert (a + b)[1..] == a[1..] + b;
      DissociateAppend(op, a[1..], b);
      calc {
        Dissociate(op, a + b);
        (if a[0].op == op then Dissociate(op, a[0].args) else [a[0]]) + Dissociate(op, a[1..] + b);
        (if a[0].op == op then Dissociate(op, a[0].args) else [a[0]]) + (Dissociate(op, a[1..]) + Dissociate(op, b));
      }
    } else {
      assert a + b == b;
    }
  }

  /** An operand list without `op` nodes is already flat. */
  lemma {:induction false} DissociateFlat(op: string, args: seq<Expr>)
    requires forall i | 0 <= i < |args| :: args[i].op != op
    ensures Dissociate(op, args) == args
  {
    if args != [] {
      DissociateFlat(op, args[1..]);
    }
  }

  /** Flattening twice is flattening once. */
  lemma DissociateIdempotent(op: string, args: seq<Expr>)
    ensures Dissociate(op, Dissociate(op, args)) == Dissociate(op, args)
  {
    DissociateFlat(op, Dissociate(op, args));
  }

  /** Flattening keeps every symbol and adds none. */
  lemma {:induction false} DissociateSymbols(op: string, args: seq<Expr>)
    requires !IsSymbol(op)
    ensures SymbolsAll(Dissociate(op, args)) == SymbolsAll(args)
  {
    if args != [] {
      var head := if args[0].op == op then Dissociate(op, args[0].args) else [args[0]];
      SymbolsAllAppend(head, Dissociate(op, args[1..]));
      DissociateSymbols(op, args[1..]);
      if args[0].op == op {
        DissociateSymbols(op, args[0].args);
      } else {
        assert [args[0]][1..] == [];
      }
    }
  }

  /** Nodes tagged "&" or "||" carry at least one operand, down through every "&" and
      "||" node. */
  predicate Populated(e: Expr)
  {
    e.op == "&" || e.op == "||" ==>
      |e.args| >= 1 && forall i | 0 <= i < |e.args| :: Populated(e.args[i])
  }

  /** Flattening a non-empty list of populated expressions leaves something to rebuild. */
  lemma {:induction false} DissociateNonEmpty(op: string, args: seq<Expr>)
    requires op == "&" || op == "||"
    requires |args| >= 1
    requires forall i | 0 <= i < |args| :: Populated(args[i])
    ensures |Dissociate(op, args)| >= 1
  {
    if args[0].op == op {
      DissociateNonEmpty(op, args[0].args);
    }
  }

  /** `associate(op, args)`: flatten, then rebuild; flattening to nothing trips `assert False`. */
  function Associate(op: string, args: seq<Expr>): (r: Result<Expr>)
    ensures r.Err? <==> Dissociate(op, args) == []
    ensures r.Ok? ==> (r.value.op == op <==> |Dissociate(op, args)| >= 2)
    ensures r.Ok? && r.value.op == op ==> r.value.args == Dissociate(op, args)
    ensures r.Ok? ==> Size(r.value) <= 1 + SizeAll(args)
    ensures r.Ok? && r.value.op != op ==> r.value == Dissociate(op, args)[0]
    ensures r.Ok? && r.value.op != op ==> Size(r.value) <= SizeAll(args)
  {
    var flat := Dissociate(op, args);
    if |flat| == 0 then Err(AssertionFailed)
    else if |flat| == 1 then
      assert flat[1..] == [];
      Ok(flat[0])
    else Ok(Expr(op, flat))
  }

  /** Rebuilding keeps exactly the operands' symbols. */
  lemma AssociateSymbols(op: string, args: seq<Expr>)
    requires !IsSymbol(op)
    requires Associate(op, args).Ok?
    ensures Symbols(Associate(op, args).value) == SymbolsAll(args)
  {
    var flat := Dissociate(op, args);
    DissociateSymbols(op, args);
    if |flat| == 1 {
      assert flat[1..] == [];
    }
  }

  /** Flattening a one-element list. */
  lemma DissociateOne(op: string, x: Expr)
    ensures Dissociate(op, [x]) == (if x.op == op then Dissociate(op, x.args) else [x])
  {
    assert [x][1..] == [];
  }

  /** The first `associate` example of the test suite: nested conjunctions are spliced
      in, a disjunction operand is kept whole. */
  lemma AssociateSplicesConjunctions()
    ensures
      var a, b, c := Symbol("a"), Symbol("b"), Symbol("c");
      Associate("&", [And(a, b), Infix(b, "||", c), And(b, c)])
        == Ok(Expr("&", [a, b, Infix(b, "||", c), b, c]))
  {
    var a, b, c := Symbol("a"), Symbol("b"), Symbol("c");
    var bc := Infix(b, "||", c);
    DissociateOne("&", And(a, b));
    DissociateFlat("&", [a, b]);
    DissociateOne("&", bc);
    DissociateOne("&", And(b, c));
    DissociateFlat("&", [b, c]);
    SplitThree(And(a, b), bc, And(b, c));
    DissociateAppend("&", [And(a, b)], [bc] + [And(b, c)]);
    DissociateAppend("&", [bc], [And(b, c)]);
    JoinFive(a, b, bc, b, c);
  }

  lemma SplitThree<T>(x: T, y: T, z: T)
    ensures [x, y, z] == [x] + ([y] + [z])
  {
  }

  lemma JoinFive<T>(v: T, w: T, x: T, y: T, z: T)
    ensures [v, w] + ([x] + [y, z]) == [v, w, x, y, z]
  {
  }

  /** The second `associate` example of the test suite: disjunctions nested to the right
      are flattened, a conjunction operand is kept whole. */
  lemma AssociateFlattensNestedDisjunctions()
    ensures
      var a, b, c := Symbol("a"), Symbol("b"), Symbol("c");
      Associate("||", [a, Infix(b, "||", Infix(c, "||", And(a, b)))])
        == Ok(Expr("||", [a, b, c, And(a, b)]))
  {
    var a, b, c := Symbol("a"), Symbol("b"), Symbol("c");
    var cab := Infix(c, "||", And(a, b));
    var top := Infix(b, "||", cab);
    DissociateOne("||", cab);
    DissociateFlat("||", [c, And(a, b)]);
    DissociateOne("||", b);
    assert [b, cab] == [b] + [cab];
    DissociateAppend("||", [b], [cab]);
    DissociateOne("||", top);
    DissociateOne("||", a);
    assert [a, top] == [a] + [top];
    DissociateAppend("||", [a], [top]);
    assert Dissociate("||", [a, top]) == [a] + ([b] + [c, And(a, b)]);
    assert [a] + ([b] + [c, And(a, b)]) == [a, b, c, And(a, b)];
  }

  /** The first `dissociate` example of the test suite, for any two symbols: the
      operands of `a & b`. */
  lemma DissociatePairExample(a: Expr, b: Expr)
    requires IsSymbol(a.op) && IsSymbol(b.op)
    ensures Dissociate("&", And(a, b).args) == [a, b]
  {
    ConnectivesAreNotSymbols();
    DissociateFlat("&", [a, b]);
  }

  /** The operands of a left-nested chain `((x op y) op z) op w` whose four leaves are
      not `op` nodes are the four leaves in order. */
  lemma DissociateLeftChain(op: string, x: Expr, y: Expr, z: Expr, w: Expr)
    requires x.op != op && y.op != op && z.op != op && w.op != op
    ensures Dissociate(op, Expr(op, [Expr(op, [Expr(op, [x, y]), z]), w]).args) == [x, y, z, w]
  {
    var two := Expr(op, [x, y]);
    var three := Expr(op, [two, z]);
    DissociateFlat(op, [x, y]);
    DissociateOne(op, two);
    DissociateOne(op, z);
    DissociateSplice(op, two, z);
    DissociateOne(op, three);
    DissociateOne(op, w);
    DissociateSplice(op, three, w);
    JoinFour(x, y, z, w);
  }

  /** The second `dissociate` example of the test suite, for any four symbols: the
      operands of `((a & b) & (c || b)) & d` are `a, b, c || b, d`. */
  lemma DissociateNestedConjunctionExample(a: Expr, b: Expr, c: Expr, d: Expr)
    requires IsSymbol(a.op) && IsSymbol(b.op) && IsSymbol(c.op) && IsSymbol(d.op)
    ensures
      Dissociate("&", And(And(And(a, b), Infix(c, "||", b)), d).args)
        == [a, b, Infix(c, "||", b), d]
  {
    ConnectivesAreNotSymbols();
    DissociateLeftChain("&", a, b, Infix(c, "||", b), d);
  }

  /** The third `dissociate` example of the test suite, for any four symbols: the
      operands of `(((a <=> b) || (c => a)) || c) || d` are `a <=> b, c => a, c, d`. */
  lemma DissociateNestedDisjunctionExample(a: Expr, b: Expr, c: Expr, d: Expr)
    requires IsSymbol(a.op) && IsSymbol(b.op) && IsSymbol(c.op) && IsSymbol(d.op)
    ensures
      var iff, imp := Infix(a, "<=>", b), Infix(c, "=>", a);
      Dissociate("||", Infix(Infix(Infix(iff, "||", imp), "||", c), "||", d).args)
        == [iff, imp, c, d]
  {
    ConnectivesAreNotSymbols();
    DissociateLeftChain("||", Infix(a, "<=>", b), Infix(c, "=>", a), c, d);
  }

  /** The operands of a pair, flattened, are those of each side in turn. */
  lemma DissociateSplice(op: string, x: Expr, y: Expr)
    ensures Dissociate(op, [x, y]) == Dissociate(op, [x]) + Dissociate(op, [y])
  {
    assert [x, y] == [x] + [y];
    DissociateAppend(op, [x], [y]);
  }

  lemma JoinFour<T>(w: T, x: T, y: T, z: T)
    ensures [w, x] + [y] + [z] == [w, x, y, z]
  {
  }

  // ---------------------------------------------------------------------------
  // Rendering

  predicate IsDigit(c: char)
  {
    '0' <= c <= '9'
  }

  /** `str.isidentifier` restricted to ASCII. */
  predicate IsIdentifier(s: string)
  {
    && |s| > 0
    && (IsLetter(s[0]) || s[0] == '_')
    && forall i | 1 <= i < |s| :: IsLetter(s[i]) || IsDigit(s[i]) || s[i] == '_'
  }

  /** `Expr.__repr__`. */
  function Repr(e: Expr): string
  {
    var parts := ReprAll(e.args);
    if IsIdentifier(e.op) then
      if |parts| == 0 then e.op else e.op + "(" + Utils.Join(", ", parts) + ")"
    else if |parts| == 1 then e.op + parts[0]
    else "(" + Utils.Join(" " + e.op + " ", parts) + ")"
  }

  function ReprAll(es: seq<Expr>): (r: seq<string>)
    ensures |r| == |es|
  {
    if es == [] then [] else [Repr(es[0])] + ReprAll(es[1..])
  }

  /** A symbol renders as its name. */
  lemma ReprSymbol(name: string)
    requires IsIdentifier(name)
    ensures Repr(Symbol(name)) == name
  {
  }

  /** A negation renders as "~" before its operand. */
  lemma ReprNot(a: Expr)
    ensures Repr(Not(a)) == "~" + Repr(a)
  {
    assert !IsIdentifier("~");
    assert ReprAll([a]) == [Repr(a)];
  }

  /** A binary connective renders as its operands around the spaced tag, in parentheses. */
  lemma ReprBinary(a: Expr, b: Expr, op: string)
    requires !IsIdentifier(op)
    ensures Repr(Expr(op, [a, b])) == "(" + Repr(a) + " " + op + " " + Repr(b) + ")"
  {
    assert ReprAll([a, b]) == [Repr(a), Repr(b)] by {
      assert [a, b][1..] == [b];
    }
    var sep := " " + op + " ";
    assert Utils.Join(sep, [Repr(a), Repr(b)]) == Repr(a) + sep + Repr(b) by {
      assert [Repr(a), Repr(b)][1..] == [Repr(b)];
    }
  }

  /** The rendering in the `kb2expr` docstring. */
  lemma ReprExample()
    ensures Repr(And(Symbol("magical"), Symbol("mythical"))) == "(magical & mythical)"
  {
    ExampleNames();
    ReprSymbol("magical");
    ReprSymbol("mythical");
    ReprBinary(Symbol("magical"), Symbol("mythical"), "&");
    ExampleText();
  }

  lemma ExampleNames()
    ensures IsIdentifier("magical") && IsIdentifier("mythical") && !IsIdentifier("&")
  {
  }

  lemma ExampleText()
    ensures "(" + "magical" + " " + "&" + " " + "mythical" + ")" == "(magical & mythical)"
  {
  }
}
