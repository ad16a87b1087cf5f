/** The text rewriting done before Python's `eval` turns a sentence into an `Expr`
    (expr.py `handle_infix_ops` and the string-building loop of `kb2expr`). */
module Infix {
  import Utils

  /** `pat` occurs in `s` starting at position `i`. */
  predicate OccursAt(pat: string, s: string, i: int)
  {
    0 <= i && i + |pat| <= |s| && s[i..i + |pat|] == pat
  }

  /** `pat` occurs somewhere in `s`. */
  predicate Occurs(pat: string, s: string)
  {
    exists i | 0 <= i <= |s| :: OccursAt(pat, s, i)
  }

  /** A pattern whose first character is missing from `s` does not occur in `s`. */
  lemma AbsentHeadNoOccurrence(pat: string, s: string)
    requires |pat| > 0 && pat[0] !in s
    ensures !Occurs(pat, s)
  {
    forall i | 0 <= i <= |s| ensures !OccursAt(pat, s, i) {
      if i + |pat| <= |s| {
        assert s[i..i + |pat|][0] == s[i];
      }
    }
  }

  predicate StartsWith(s: string, prefix: string)
  {
    |prefix| <= |s| && s[..|prefix|] == prefix
  }

  /** An occurrence in a suffix is an occurrence in the whole string. */
  lemma OccursInTail(pat: string, s: string, k: nat)
    requires k <= |s|
    ensures Occurs(pat, s[k..]) ==> Occurs(pat, s)
  {
    if Occurs(pat, s[k..]) {
      var i :| 0 <= i <= |s[k..]| && OccursAt(pat, s[k..], i);
      assert 0 <= i && i + |pat| <= |s| - k;
      assert s[k + i..k + i + |pat|] == s[k..][i..i + |pat|];
      assert OccursAt(pat, s, k + i);
    }
  }

  /** `s.replace(pat, rep)`: every non-overlapping occurrence of `pat`, scanned left to
      right, is replaced by `rep`; a string without `pat` comes back unchanged. */
  function Replace(s: string, pat: string, rep: string): (r: string)
    requires |pat| > 0
    ensures !Occurs(pat, s) ==> r == s
    ensures StartsWith(s, pat) ==> StartsWith(r, rep)
    decreases |s|
  {
    if |s| < |pat| then s
    else if s[..|pat|] == pat then
      assert OccursAt(pat, s, 0);
      rep + Replace(s[|pat|..], pat, rep)
    else
      OccursInTail(pat, s, 1);
      [s[0]] + Replace(s[1..], pat, rep)
  }

  /** One step of the scan when `s` does not start with `pat`. */
  lemma ReplaceSkip(s: string, pat: string, rep: string)
    requires |pat| > 0 && |s| > 0 && (s[0] != pat[0] || !StartsWith(s, pat))
    ensures Replace(s, pat, rep) == [s[0]] + Replace(s[1..], pat, rep)
  {
    if |s| >= |pat| {
      assert s[..|pat|][0] == s[0];
    } else {
      assert [s[0]] + s[1..] == s;
    }
  }

  /** One step of the scan when `s` starts with `pat`. */
  lemma ReplaceHit(s: string, pat: string, rep: string)
    requires |pat| > 0 && StartsWith(s, pat)
    ensures Replace(s, pat, rep) == rep + Replace(s[|pat|..], pat, rep)
  {
  }

  /** `handle_infix_ops(x)`: each of "||", "<=>", "==>" becomes `| 'op' |`, so that `eval`
      reads it through the two-step infix builder. */
  function HandleInfixOps(x: string): string
  {
    var x1 := Replace(x, "||", "| '||' |");
    var x2 := Replace(x1, "<=>", "| '<=>' |");
    Replace(x2, "==>", "| '==>' |")
  }

  /** Text without any of the three infix tokens is passed to `eval` unchanged. */
  lemma HandleInfixOpsKeepsPlainText(x: string)
    requires !Occurs("||", x) && !Occurs("<=>", x) && !Occurs("==>", x)
    ensures HandleInfixOps(x) == x
  {
  }

  /** Operand text as the three infix rewrites see it: none of their first characters. */
  predicate PlainOperand(t: string)
  {
    '|' !in t && '<' !in t && '=' !in t
  }

  /** All three infix tokens in one sentence, `a || b <=> c ==> d`, become the infix-builder
      forms, and the operand texts between them are kept. */
  lemma HandleInfixOpsAllThree(a: string, b: string, c: string, d: string)
    requires PlainOperand(a) && PlainOperand(b) && PlainOperand(c) && PlainOperand(d)
    ensures HandleInfixOps(a + "||" + b + "<=>" + c + "==>" + d)
      == a + "| '||' |" + b + "| '<=>' |" + c + "| '==>' |" + d
  {
    OrPass(a, b, c, d);
    IffPass(a, b, c, d);
    ImplicationPass(a, b, c, d);
  }

  /** The "||" pass over `a || b <=> c ==> d`. */
  lemma OrPass(a: string, b: string, c: string, d: string)
    requires PlainOperand(a) && PlainOperand(b) && PlainOperand(c) && PlainOperand(d)
    ensures Replace(a + "||" + b + "<=>" + c + "==>" + d, "||", "| '||' |")
      == a + "| '||' |" + b + "<=>" + c + "==>" + d
  {
    var v := b + "<=>" + c + "==>" + d;
    CharNotInJoin('|', b + "<=>", c, "==>", d);
    RegroupTail(a, "||", b, "<=>", c, "==>", d);
    RegroupTail(a, "| '||' |", b, "<=>", c, "==>", d);
    ReplaceLone(a, v, "||", "| '||' |");
  }

  /** Regrouping the last five of seven pieces of text. */
  lemma RegroupTail(x0: string, x1: string, x2: string, x3: string, x4: string, x5: string, x6: string)
    ensures x0 + x1 + (x2 + x3 + x4 + x5 + x6) == x0 + x1 + x2 + x3 + x4 + x5 + x6
  {
  }

  /** The "<=>" pass that follows. */
  lemma IffPass(a: string, b: string, c: string, d: string)
    requires PlainOperand(a) && PlainOperand(b) && PlainOperand(c) && PlainOperand(d)
    ensures Replace(a + "| '||' |" + b + "<=>" + c + "==>" + d, "<=>", "| '<=>' |")
      == a + "| '||' |" + b + "| '<=>' |" + c + "==>" + d
  {
    var u, v := a + "| '||' |" + b, c + "==>" + d;
    assert '<' !in u && '<' !in v;
    RegroupMiddle(a, "| '||' |", b, "<=>", c, "==>", d);
    RegroupMiddle(a, "| '||' |", b, "| '<=>' |", c, "==>", d);
    ReplaceLone(u, v, "<=>", "| '<=>' |");
  }

  /** Regrouping seven pieces of text around the fourth. */
  lemma RegroupMiddle(x0: string, x1: string, x2: string, x3: string, x4: string, x5: string, x6: string)
    ensures (x0 + x1 + x2) + x3 + (x4 + x5 + x6) == x0 + x1 + x2 + x3 + x4 + x5 + x6
  {
  }

  /** The "==>" pass last: the '=' inside the quoted "<=>" starts no match. */
  lemma ImplicationPass(a: string, b: string, c: string, d: string)
    requires PlainOperand(a) && PlainOperand(b) && PlainOperand(c) && PlainOperand(d)
    ensures Replace(a + "| '||' |" + b + "| '<=>' |" + c + "==>" + d, "==>", "| '==>' |")
      == a + "| '||' |" + b + "| '<=>' |" + c + "| '==>' |" + d
  {
    var q1, q2, rep := "| '||' |", "| '<=>' |", "| '==>' |";
    QuotedIff();
    var p := a + q1 + b + "| '";
    CharNotInJoin('=', a, q1, b, "| '");
    Regroup(a + q1 + b, "| '", "<=>", "' |", c, "==>", d);
    Regroup(a + q1 + b, "| '", "<=>", "' |", c, rep, d);
    ImplicationAfterIff(p, "' |", c, d, rep);
  }

  /** A character missing from four texts is missing from their concatenation. */
  lemma CharNotInJoin(ch: char, w: string, x: string, y: string, z: string)
    requires ch !in w && ch !in x && ch !in y && ch !in z
    ensures ch !in w + x + y + z
  {
  }

  lemma QuotedIff()
    ensures "| '<=>' |" == "| '" + "<=>" + "' |"
  {
  }

  /** Regrouping seven pieces of text. */
  lemma Regroup(x0: string, x1: string, x2: string, x3: string, x4: string, x5: string, x6: string)
    ensures x0 + (x1 + x2 + x3) + x4 + x5 + x6 == (x0 + x1) + x2 + x3 + x4 + x5 + x6
  {
  }

  /** The implication scan over `p <=> r c ==> d` where only the "<=>" and the "==>"
      contain '='. */
  lemma ImplicationAfterIff(p: string, r: string, c: string, d: string, rep: string)
    requires '=' !in p && '=' !in r && '=' !in c && '=' !in d
    ensures Replace(p + "<=>" + r + c + "==>" + d, "==>", rep) == p + "<=>" + r + c + rep + d
  {
    var tail := r + c;
    assert p + "<=>" + r + c + "==>" + d == p + ("<=>" + (tail + "==>" + d));
    ReplaceKeepsPrefix(p, "<=>" + (tail + "==>" + d), "==>", rep);
    IffSkippedByImplicationScan(tail + "==>" + d, rep);
    ReplaceLone(tail, d, "==>", rep);
    Regroup6(p, "<=>", r, c, rep, d);
  }

  lemma Regroup6(x0: string, x1: string, x2: string, x3: string, x4: string, x5: string)
    ensures x0 + (x1 + ((x2 + x3) + x4 + x5)) == x0 + x1 + x2 + x3 + x4 + x5
  {
  }

  /** The implication scan copies a "<=>" through unchanged. */
  lemma IffSkippedByImplicationScan(r: string, rep: string)
    ensures Replace("<=>" + r, "==>", rep) == "<=>" + Replace(r, "==>", rep)
  {
    IffPieces(r);
    ReplaceSkip("<=>" + r, "==>", rep);
    ArrowSkipped(r, rep);
    ConsIff(Replace(r, "==>", rep));
  }

  lemma IffPieces(r: string)
    ensures ("<=>" + r)[0] == '<' && ("<=>" + r)[1..] == "=>" + r
  {
  }

  lemma ConsIff(t: string)
    ensures ['<'] + ("=>" + t) == "<=>" + t
  {
  }

  /** The implication scan copies the "=>" left after a '<'. */
  lemma ArrowSkipped(r: string, rep: string)
    ensures Replace("=>" + r, "==>", rep) == "=>" + Replace(r, "==>", rep)
  {
    var s1 := "=>" + r;
    ArrowPieces(r);
    assert |s1| >= 3 ==> s1[..3][1] == '>';
    ReplaceSkip(s1, "==>", rep);
    ReplaceSkip(">" + r, "==>", rep);
    ArrowJoin(Replace(r, "==>", rep));
  }

  lemma ArrowPieces(r: string)
    ensures ("=>" + r)[0] == '=' && ("=>" + r)[1] == '>' && ("=>" + r)[1..] == ">" + r
    ensures (">" + r)[0] == '>' && (">" + r)[1..] == r
  {
  }

  lemma ArrowJoin(t: string)
    ensures ['='] + (['>'] + t) == "=>" + t
  {
  }

  /** Text that cannot start a match is copied through by the scan. */
  lemma {:induction false} ReplaceKeepsPrefix(u: string, rest: string, pat: string, rep: string)
    requires |pat| > 0 && pat[0] !in u
    ensures Replace(u + rest, pat, rep) == u + Replace(rest, pat, rep)
    decreases |u|
  {
    if u != [] {
      var s := u + rest;
      var t := Replace(rest, pat, rep);
      assert s[0] == u[0] && s[1..] == u[1..] + rest;
      assert pat[0] !in u[1..] by { assert forall x | x in u[1..] :: x in u; }
      ReplaceSkip(s, pat, rep);
      ReplaceKeepsPrefix(u[1..], rest, pat, rep);
      ConsAppend(u, t);
    } else {
      assert u + rest == rest;
    }
  }

  /** Putting the head of `u` back in front of its tail followed by `t`. */
  lemma ConsAppend(u: string, t: string)
    requires u != []
    ensures [u[0]] + (u[1..] + t) == u + t
  {
    assert [u[0]] + u[1..] == u;
  }

  /** Text in which the first character of `pat` does not appear is left unchanged. */
  lemma ReplaceAbsent(v: string, pat: string, rep: string)
    requires |pat| > 0 && pat[0] !in v
    ensures Replace(v, pat, rep) == v
  {
    AbsentHeadNoOccurrence(pat, v);
  }

  /** An implication between operand texts free of '|', '<' and '=' is rewritten into the
      infix-builder form `| '==>' |`, and nothing else changes. */
  lemma HandleInfixOpsImplication(u: string, v: string)
    requires '|' !in u && '<' !in u && '=' !in u
    requires '|' !in v && '<' !in v && '=' !in v
    ensures HandleInfixOps(u + "==>" + v) == u + "| '==>' |" + v
  {
    var x := u + "==>" + v;
    assert '|' !in x && '<' !in x;
    ReplaceAbsent(x, "||", "| '||' |");
    ReplaceAbsent(x, "<=>", "| '<=>' |");
    ReplaceLone(u, v, "==>", "| '==>' |");
  }

  /** Replacing a token that sits between two texts which lack its first character. */
  lemma ReplaceLone(u: string, v: string, pat: string, rep: string)
    requires |pat| > 0 && pat[0] !in u && pat[0] !in v
    ensures Replace(u + pat + v, pat, rep) == u + rep + v
  {
    var w := pat + v;
    assert u + pat + v == u + w;
    ReplaceKeepsPrefix(u, w, pat, rep);
    ReplaceLoneToken(pat, v, rep);
    assert u + (rep + v) == u + rep + v;
  }

  /** A text that starts with `pat` and holds no other start of it. */
  lemma ReplaceLoneToken(pat: string, v: string, rep: string)
    requires |pat| > 0 && pat[0] !in v
    ensures Replace(pat + v, pat, rep) == rep + v
  {
    var w := pat + v;
    assert StartsWith(w, pat) && w[|pat|..] == v;
    ReplaceHit(w, pat, rep);
    ReplaceAbsent(v, pat, rep);
  }

  /** An occurrence past the first character of `s` is an occurrence in `s[1..]`, one
      position earlier. */
  lemma OccursShift(pat: string, s: string, i: int)
    requires |s| > 0 && 1 <= i
    ensures OccursAt(pat, s, i) == OccursAt(pat, s[1..], i - 1)
  {
    if i + |pat| <= |s| {
      assert s[1..][i - 1..i - 1 + |pat|] == s[i..i + |pat|];
    }
  }

  /** The scan replaces the first occurrence of `pat`: when nothing before `|u|` starts an
      occurrence in `u + pat + v`, the text `u` is copied, `pat` becomes `rep`, and the
      scan resumes after it. */
  lemma {:induction false} ReplaceAtFirstOccurrence(u: string, pat: string, v: string, rep: string)
    requires |pat| > 0
    requires forall i | 0 <= i < |u| :: !OccursAt(pat, u + pat + v, i)
    ensures Replace(u + pat + v, pat, rep) == u + rep + Replace(v, pat, rep)
    decreases |u|
  {
    if u == [] {
      var s := u + pat + v;
      assert s == pat + v && StartsWith(s, pat) && s[|pat|..] == v;
      ReplaceHit(s, pat, rep);
    } else {
      var t := Replace(v, pat, rep);
      NoEarlyOccurrenceTail(u, pat, v);
      ReplaceAtFirstOccurrence(u[1..], pat, v, rep);
      ReplaceSkipHead(u, pat, v, rep);
      ConsAppendRep(u, rep, t);
    }
  }

  /** No early occurrence in `u + pat + v` means none in its tail either. */
  lemma NoEarlyOccurrenceTail(u: string, pat: string, v: string)
    requires u != []
    requires forall i | 0 <= i < |u| :: !OccursAt(pat, u + pat + v, i)
    ensures forall i | 0 <= i < |u[1..]| :: !OccursAt(pat, u[1..] + pat + v, i)
  {
    var s := u + pat + v;
    assert s[1..] == u[1..] + pat + v;
    forall i | 0 <= i < |u[1..]| ensures !OccursAt(pat, u[1..] + pat + v, i) {
      OccursShift(pat, s, i + 1);
    }
  }

  /** The first character of `u` is copied when no occurrence starts there. */
  lemma ReplaceSkipHead(u: string, pat: string, v: string, rep: string)
    requires |pat| > 0 && u != [] && !OccursAt(pat, u + pat + v, 0)
    ensures Replace(u + pat + v, pat, rep) == [u[0]] + Replace(u[1..] + pat + v, pat, rep)
  {
    var t := pat + v;
    assert u + pat + v == u + t;
    assert u[1..] + t == u[1..] + pat + v;
    HeadTail(u, t);
    assert !StartsWith(u + t, pat) by { assert !OccursAt(pat, u + t, 0); }
    ReplaceSkip(u + t, pat, rep);
  }

  lemma HeadTail(u: string, t: string)
    requires u != []
    ensures (u + t)[0] == u[0] && (u + t)[1..] == u[1..] + t
  {
  }

  lemma ConsAppendRep(u: string, rep: string, t: string)
    requires u != []
    ensures [u[0]] + (u[1..] + rep + t) == u + rep + t
  {
    assert [u[0]] + u[1..] == u;
  }

  /** A string in which `pat` occurs has a first occurrence. */
  lemma {:induction false} FirstOccurrence(pat: string, s: string) returns (k: nat)
    requires |pat| > 0 && Occurs(pat, s)
    ensures OccursAt(pat, s, k) && forall i | 0 <= i < k :: !OccursAt(pat, s, i)
    decreases |s|
  {
    if OccursAt(pat, s, 0) {
      k := 0;
    } else {
      var j :| 0 <= j <= |s| && OccursAt(pat, s, j);
      assert j >= 1 && |s| > 0;
      OccursShift(pat, s, j);
      assert OccursAt(pat, s[1..], j - 1);
      var k1 := FirstOccurrence(pat, s[1..]);
      k := k1 + 1;
      OccursShift(pat, s, k);
      forall i | 0 <= i < k ensures !OccursAt(pat, s, i) {
        if i >= 1 {
          OccursShift(pat, s, i);
        }
      }
    }
  }

  /** Together with the contract of `Replace` for text without `pat`, this pins
      `str.replace` down: in text where `pat` occurs, the part before its first occurrence
      is copied, that occurrence becomes `rep`, and the rest is replaced in turn. */
  lemma ReplaceSplitsAtFirst(s: string, pat: string, rep: string) returns (k: nat)
    requires |pat| > 0 && Occurs(pat, s)
    ensures k + |pat| <= |s| && s[k..k + |pat|] == pat
    ensures forall i | 0 <= i < k :: !OccursAt(pat, s, i)
    ensures Replace(s, pat, rep) == s[..k] + rep + Replace(s[k + |pat|..], pat, rep)
  {
    k := FirstOccurrence(pat, s);
    var u, v := s[..k], s[k + |pat|..];
    assert s == u + pat + v;
    ReplaceAtFirstOccurrence(u, pat, v, rep);
  }

  // ---------------------------------------------------------------------------
  // The arrow rewrite of kb2expr

  /** `sentence.replace('=>', '==>')` exactly as expr.py writes it: every "=>" grows an
      "=", including the ones inside "<=>" and "==>". */
  function ArrowRewriteAsWritten(sentence: string): string
  {
    Replace(sentence, "=>", "==>")
  }

  /** The rewrite as written turns a biconditional "<=>" into "<==>", after which the text
      holds no "<=>" at all. */
  lemma ArrowRewriteAsWrittenManglesIff(u: string, v: string)
    requires '=' !in u && '=' !in v
    ensures ArrowRewriteAsWritten(u + "<=>" + v) == u + "<==>" + v
    ensures !Occurs("<=>", ArrowRewriteAsWritten(u + "<=>" + v))
  {
    var w := "<=>" + v;
    assert u + "<=>" + v == u + w;
    ReplaceKeepsPrefix(u, w, "=>", "==>");
    IffTail(v);
    assert u + ("<==>" + v) == u + "<==>" + v;
    NoIffAfterMangling(u, v);
  }

  /** The scan over "<=>" followed by '='-free text. */
  lemma IffTail(v: string)
    requires '=' !in v
    ensures Replace("<=>" + v, "=>", "==>") == "<==>" + v
  {
    var w := "<=>" + v;
    IffSplit(v);
    ReplaceSkip(w, "=>", "==>");
    ArrowTail(v);
  }

  lemma IffSplit(v: string)
    ensures |"<=>" + v| > 0 && ("<=>" + v)[0] == '<' && ("<=>" + v)[1..] == "=>" + v
    ensures ['<'] + ("==>" + v) == "<==>" + v
  {
  }

  /** The scan over "=>" followed by '='-free text. */
  lemma ArrowTail(v: string)
    requires '=' !in v
    ensures Replace("=>" + v, "=>", "==>") == "==>" + v
  {
    var w1 := "=>" + v;
    assert StartsWith(w1, "=>") && w1[2..] == v;
    ReplaceHit(w1, "=>", "==>");
    ReplaceAbsent(v, "=>", "==>");
  }

  /** "<==>" between '='-free texts contains no "<=>". */
  lemma NoIffAfterMangling(u: string, v: string)
    requires '=' !in u && '=' !in v
    ensures !Occurs("<=>", u + "<==>" + v)
  {
    var r := u + "<==>" + v;
    assert forall j | 0 <= j < |u| :: r[j] == u[j];
    assert forall j | 0 <= j < |v| :: r[|u| + 4 + j] == v[j];
    assert r[|u|..|u| + 4] == "<==>";
    forall i | 0 <= i <= |r| ensures !OccursAt("<=>", r, i) {
      if i + 3 <= |r| {
        assert r[i..i + 3][0] == r[i] && r[i..i + 3][1] == r[i + 1] && r[i..i + 3][2] == r[i + 2];
      }
    }
  }

  /** The rewrite as written lengthens an implication "==>" that is already there into
      "===>". */
  lemma ArrowRewriteAsWrittenManglesImplication(u: string, v: string)
    requires '=' !in u && '=' !in v
    ensures ArrowRewriteAsWritten(u + "==>" + v) == u + "===>" + v
  {
    var w := "==>" + v;
    assert u + "==>" + v == u + w;
    ReplaceKeepsPrefix(u, w, "=>", "==>");
    ImplicationTail(v);
    assert u + ("===>" + v) == u + "===>" + v;
  }

  /** The scan over "==>" followed by '='-free text. */
  lemma ImplicationTail(v: string)
    requires '=' !in v
    ensures Replace("==>" + v, "=>", "==>") == "===>" + v
  {
    var w := "==>" + v;
    EqualsTail(v);
    SkipDoubledEquals(w);
    ArrowTail(v);
    EqualsPrefix(v);
  }

  lemma EqualsTail(v: string)
    ensures |"==>" + v| >= 2 && ("==>" + v)[0] == '=' && ("==>" + v)[1] == '='
    ensures ("==>" + v)[1..] == "=>" + v
  {
  }

  lemma EqualsPrefix(v: string)
    ensures ['='] + ("==>" + v) == "===>" + v
  {
  }

  /** An '=' followed by another '=' does not start an arrow, so the scan copies it. */
  lemma SkipDoubledEquals(w: string)
    requires |w| >= 2 && w[0] == '=' && w[1] == '='
    ensures Replace(w, "=>", "==>") == ['='] + Replace(w[1..], "=>", "==>")
  {
    assert w[..2][1] == '=';
    ReplaceSkip(w, "=>", "==>");
  }

  /** `s` begins with the evaluators' implication token "==>". */
  predicate StartsWithImplies(s: string)
  {
    |s| >= 3 && s[0] == '=' && s[1] == '=' && s[2] == '>'
  }

  /** `s` begins with the biconditional token "<=>". */
  predicate StartsWithIff(s: string)
  {
    |s| >= 3 && s[0] == '<' && s[1] == '=' && s[2] == '>'
  }

  /** `s` begins with the arrow "=>". */
  predicate StartsWithArrow(s: string)
  {
    |s| >= 2 && s[0] == '=' && s[1] == '>'
  }

  /** The evidently intended rewrite: a bare "=>" becomes "==>", while "==>" and "<=>"
      are kept as they are. */
  function NormalizeArrows(s: string): (r: string)
    ensures |r| >= |s|
    ensures |s| < 2 ==> r == s
    ensures |s| > 0 ==> r[0] == s[0]
    ensures |s| >= 2 && !StartsWithArrow(s) ==> |r| >= 2 && r[1] == s[1]
    ensures !StartsWithArrow(r)
    decreases |s|
  {
    if StartsWithImplies(s) || StartsWithIff(s) then s[..3] + NormalizeArrows(s[3..])
    else if StartsWithArrow(s) then "==>" + NormalizeArrows(s[2..])
    else if s == [] then []
    else [s[0]] + NormalizeArrows(s[1..])
  }

  /** A string that begins with a bare arrow contains "=>". */
  lemma ArrowOccurs(s: string)
    requires StartsWithArrow(s)
    ensures Occurs("=>", s)
  {
    assert OccursAt("=>", s, 0);
  }

  /** Text without a "=>" is left as it is. */
  lemma {:induction false} NormalizeArrowsKeepsArrowFree(s: string)
    requires !Occurs("=>", s)
    ensures NormalizeArrows(s) == s
    decreases |s|
  {
    if StartsWithImplies(s) || StartsWithIff(s) {
      assert OccursAt("=>", s, 1);
    } else if StartsWithArrow(s) {
      ArrowOccurs(s);
      assert false;
    } else if s != [] {
      OccursInTail("=>", s, 1);
      NormalizeArrowsKeepsArrowFree(s[1..]);
    }
  }

  /** "=>" sits at position `i` of `t`. */
  predicate ArrowAt(t: string, i: int)
  {
    0 <= i && i + 2 <= |t| && t[i] == '=' && t[i + 1] == '>'
  }

  /** Every "=>" in `t` is the tail of a "==>" or a "<=>". */
  predicate NoBareArrow(t: string)
  {
    forall i | 0 <= i < |t| && ArrowAt(t, i) :: i > 0 && (t[i - 1] == '=' || t[i - 1] == '<')
  }

  /** The corrected rewrite leaves no bare "=>" behind. */
  lemma {:induction false} NormalizeArrowsLeavesNoBareArrow(s: string)
    ensures NoBareArrow(NormalizeArrows(s))
    decreases |s|
  {
    var t := NormalizeArrows(s);
    if StartsWithImplies(s) || StartsWithIff(s) || StartsWithArrow(s) {
      var k := if StartsWithImplies(s) || StartsWithIff(s) then 3 else 2;
      var rest := NormalizeArrows(s[k..]);
      assert t[3..] == rest;
      assert t[1] == '=' && t[2] == '>';
      NormalizeArrowsLeavesNoBareArrow(s[k..]);
      forall i | 0 <= i < |t| && ArrowAt(t, i)
        ensures i > 0 && (t[i - 1] == '=' || t[i - 1] == '<')
      {
        if i >= 3 {
          assert ArrowAt(rest, i - 3);
        }
      }
    } else if s != [] {
      var rest := NormalizeArrows(s[1..]);
      assert t[1..] == rest;
      NormalizeArrowsLeavesNoBareArrow(s[1..]);
      forall i | 0 <= i < |t| && ArrowAt(t, i)
        ensures i > 0 && (t[i - 1] == '=' || t[i - 1] == '<')
      {
        if i > 0 {
          assert ArrowAt(rest, i - 1);
        }
      }
    }
  }

  /** Normalising twice is normalising once. */
  lemma {:induction false} NormalizeArrowsIdempotent(s: string)
    ensures NormalizeArrows(NormalizeArrows(s)) == NormalizeArrows(s)
    decreases |s|
  {
    var t := NormalizeArrows(s);
    if StartsWithImplies(s) || StartsWithIff(s) {
      NormalizeArrowsIdempotent(s[3..]);
      assert t[..3] == s[..3] && t[3..] == NormalizeArrows(s[3..]);
    } else if StartsWithArrow(s) {
      NormalizeArrowsIdempotent(s[2..]);
      assert t[..3] == "==>" && t[3..] == NormalizeArrows(s[2..]);
    } else if s != [] {
      var rest := NormalizeArrows(s[1..]);
      NormalizeArrowsIdempotent(s[1..]);
      assert t[1..] == rest;
      assert !StartsWithImplies(t) && !StartsWithIff(t) && !StartsWithArrow(t) by {
        if |t| >= 2 && t[1] == '>' {
          assert rest[0] == '>';
        }
      }
    }
  }

  /** A biconditional survives the rewrite. */
  lemma NormalizeArrowsKeepsIff()
    ensures NormalizeArrows("a <=> b") == "a <=> b"
  {
    var s := "a <=> b";
    assert StartsWithIff(s[2..]);
    assert NormalizeArrows(" b") == " b";
    assert NormalizeArrows(s[1..]) == " " + NormalizeArrows(s[2..]);
  }

  /** An implication already written "==>" survives the rewrite. */
  lemma NormalizeArrowsKeepsImplication()
    ensures NormalizeArrows("p ==> q") == "p ==> q"
  {
    var t := "p ==> q";
    assert StartsWithImplies(t[2..]);
    assert NormalizeArrows(" q") == " q";
    assert NormalizeArrows(t[1..]) == " " + NormalizeArrows(t[2..]);
  }

  /** A bare "=>" gains its "=". */
  lemma NormalizeArrowsWidensArrow()
    ensures NormalizeArrows("p => q") == "p ==> q"
  {
    var u := "p => q";
    assert StartsWithArrow(u[2..]) && !StartsWithImplies(u[2..]) && !StartsWithIff(u[2..]);
    assert NormalizeArrows(" q") == " q";
    assert NormalizeArrows(u[1..]) == " " + NormalizeArrows(u[2..]);
  }

  // ---------------------------------------------------------------------------
  // The string loop of kb2expr

  /** Each sentence passed through `rewrite` and put in parentheses. */
  function Wrapped(rewrite: string -> string, kb: seq<string>): (r: seq<string>)
    ensures |r| == |kb|
  {
    seq(|kb|, i requires 0 <= i < |kb| => "(" + rewrite(kb[i]) + ")")
  }

  /** Wrapping one more sentence appends its wrapped form. */
  lemma WrappedSnoc(rewrite: string -> string, kb: seq<string>, i: nat)
    requires i < |kb|
    ensures Wrapped(rewrite, kb[..i + 1]) == Wrapped(rewrite, kb[..i]) + ["(" + rewrite(kb[i]) + ")"]
  {
    assert kb[..i + 1][i] == kb[i];
  }

  /** The text `kb2expr` hands to `expr`: each sentence with every "=>" replaced by "==>"
      as expr.py:88 writes it, parenthesised, the sentences joined by "&". */
  method KbToText(kb: seq<string>) returns (text: string)
    ensures text == Utils.Join("&", Wrapped(ArrowRewriteAsWritten, kb))
    ensures text == "" <==> kb == []
  {
    text := "";
    var i := 0;
    while i < |kb|
      invariant 0 <= i <= |kb|
      invariant text == Utils.Join("&", Wrapped(ArrowRewriteAsWritten, kb[..i]))
      invariant text == "" <==> i == 0
    {
      var sentence := Replace(kb[i], "=>", "==>");
      KbTextStep(kb, i, text);
      if text != "" {
        text := text + "&(" + sentence + ")";
      } else {
        text := text + "(" + sentence + ")";
      }
      i := i + 1;
    }
    assert kb[..i] == kb;
  }

  /** One turn of the loop of `KbToText`. */
  lemma KbTextStep(kb: seq<string>, i: nat, text: string)
    requires i < |kb|
    requires text == Utils.Join("&", Wrapped(ArrowRewriteAsWritten, kb[..i]))
    requires text == "" <==> i == 0
    ensures var sentence := ArrowRewriteAsWritten(kb[i]);
      var next := if text != "" then text + "&(" + sentence + ")" else text + "(" + sentence + ")";
      next == Utils.Join("&", Wrapped(ArrowRewriteAsWritten, kb[..i + 1])) && next != ""
  {
    var sentence := ArrowRewriteAsWritten(kb[i]);
    var part := "(" + sentence + ")";
    WrappedSnoc(ArrowRewriteAsWritten, kb, i);
    if text != "" {
      Utils.JoinSnoc("&", Wrapped(ArrowRewriteAsWritten, kb[..i]), part);
      assert text + "&(" + sentence + ")" == text + "&" + part;
    } else {
      assert Wrapped(ArrowRewriteAsWritten, kb[..i + 1]) == [part];
      assert text + "(" + sentence + ")" == part;
    }
  }

  /** The text for a knowledge base of one sentence is that sentence, rewritten, in
      parentheses. */
  lemma KbTextSingle(rewrite: string -> string, sentence: string)
    ensures Utils.Join("&", Wrapped(rewrite, [sentence])) == "(" + rewrite(sentence) + ")"
  {
    assert Wrapped(rewrite, [sentence]) == ["(" + rewrite(sentence) + ")"];
  }

  /** As written, `kb2expr(['a <=> b'])` hands `(a <==> b)` to `expr`: the biconditional
      is lost. */
  lemma KbTextAsWrittenManglesIff(u: string, v: string)
    requires '=' !in u && '=' !in v
    ensures Utils.Join("&", Wrapped(ArrowRewriteAsWritten, [u + "<=>" + v])) == "(" + u + "<==>" + v + ")"
  {
    KbTextSingle(ArrowRewriteAsWritten, u + "<=>" + v);
    ArrowRewriteAsWrittenManglesIff(u, v);
  }

  /** As written, `kb2expr(['p ==> q'])` hands `(p ===> q)` to `expr`. */
  lemma KbTextAsWrittenManglesImplication(u: string, v: string)
    requires '=' !in u && '=' !in v
    ensures Utils.Join("&", Wrapped(ArrowRewriteAsWritten, [u + "==>" + v])) == "(" + u + "===>" + v + ")"
  {
    KbTextSingle(ArrowRewriteAsWritten, u + "==>" + v);
    ArrowRewriteAsWrittenManglesImplication(u, v);
  }

  /** With the corrected rewrite `kb2expr(['a <=> b'])` hands `(a <=> b)` to `expr`. */
  lemma KbTextNormalizedIff()
    ensures Utils.Join("&", Wrapped(NormalizeArrows, ["a <=> b"])) == "(a <=> b)"
  {
    KbTextSingle(NormalizeArrows, "a <=> b");
    NormalizeArrowsKeepsIff();
  }

  /** With the corrected rewrite `kb2expr(['p ==> q'])` hands `(p ==> q)` to `expr`. */
  lemma KbTextNormalizedImplication()
    ensures Utils.Join("&", Wrapped(NormalizeArrows, ["p ==> q"])) == "(p ==> q)"
  {
    KbTextSingle(NormalizeArrows, "p ==> q");
    NormalizeArrowsKeepsImplication();
  }

  /** With the corrected rewrite a bare "=>" reaches `expr` as "==>". */
  lemma KbTextNormalizedArrow()
    ensures Utils.Join("&", Wrapped(NormalizeArrows, ["p => q"])) == "(p ==> q)"
  {
    KbTextSingle(NormalizeArrows, "p => q");
    NormalizeArrowsWidensArrow();
  }

  /** On sentences without "=>" the two rewrites agree: both leave every sentence as it
      is. */
  lemma KbTextArrowFree(kb: seq<string>)
    requires forall i | 0 <= i < |kb| :: !Occurs("=>", kb[i])
    ensures Wrapped(ArrowRewriteAsWritten, kb) == Wrapped(NormalizeArrows, kb) == Wrapped(s => s, kb)
  {
    forall i | 0 <= i < |kb|
      ensures ArrowRewriteAsWritten(kb[i]) == kb[i] && NormalizeArrows(kb[i]) == kb[i]
    {
      NormalizeArrowsKeepsArrowFree(kb[i]);
    }
  }
}
