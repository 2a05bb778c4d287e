/** The grammar of Kconfig expressions, and that the parser accepts exactly its sentences. */
module KconfigGrammar {
  import opened KconfigExpr

  /** ts is an expression with the tree e: a conjunction, or one, || and an expression. */
  ghost predicate IsExpr(ts: seq<Token>, e: Expr, sp: Special, transformM: bool)
    decreases |ts|, 2
  {
    || IsAnd(ts, e, sp, transformM)
    || (e.OrOf? && exists i | 0 <= i < |ts| ::
          ts[i] == TOr && IsAnd(ts[..i], e.a, sp, transformM) && IsExpr(ts[i + 1..], e.b, sp, transformM))
  }

  /** ts is a conjunction: a factor, or one, && and a conjunction. */
  ghost predicate IsAnd(ts: seq<Token>, e: Expr, sp: Special, transformM: bool)
    decreases |ts|, 1
  {
    || IsFactor(ts, e, sp, transformM)
    || (e.AndOf? && exists i | 0 <= i < |ts| ::
          ts[i] == TAnd && IsFactor(ts[..i], e.a, sp, transformM) && IsAnd(ts[i + 1..], e.b, sp, transformM))
  }

  /** ts is a factor: a symbol, where m may stand for m && MODULES; a relation between two symbols; ! and a factor; or an
      expression in parentheses. */
  ghost predicate IsFactor(ts: seq<Token>, e: Expr, sp: Special, transformM: bool)
    decreases |ts|, 0
  {
    || (|ts| == 1 && ts[0].TSym?
        && e == if transformM && ts[0].s == sp.m then AndOf(SymOf(sp.m), SymOf(sp.modules)) else SymOf(ts[0].s))
    || (|ts| == 3 && e.RelOf? && ts == [TSym(e.x), TRel(e.op), TSym(e.y)])
    || (|ts| > 1 && ts[0] == TNot && e.NotOf? && IsFactor(ts[1..], e.e, sp, transformM))
    || (|ts| > 1 && ts[0] == TOpen && ts[|ts| - 1] == TClose && IsExpr(ts[1..|ts| - 1], e, sp, transformM))
  }

  // ---------- what parses is in the grammar ----------

  lemma {:induction false} ParsedFactor(ts: seq<Token>, sp: Special, transformM: bool) returns (n: nat)
    requires ParseFactor(ts, sp, transformM).Parsed?
    ensures var r := ParseFactor(ts, sp, transformM);
            n <= |ts| && ts[n..] == r.rest && IsFactor(ts[..n], r.e, sp, transformM)
    decreases |ts|, 0
  {
    hide IsExpr, IsFactor, ParseExpr;
    var r := ParseFactor(ts, sp, transformM);
    match ts[0]
    case TSym(s) =>
      n := |ts| - |r.rest|;
      SymbolIsFactor(ts[..n], r.e, sp, transformM);
    case TNot =>
      n := ParsedFactor(ts[1..], sp, transformM);
      n := n + 1;
      assert ts[..n][1..] == ts[1..][..n - 1];
      NotIsFactor(ts[..n], r.e.e, sp, transformM);
    case TOpen =>
      n := ParsedExpr(ts[1..], sp, transformM);
      n := n + 2;
      assert ts[1..][n - 2..] == ts[n - 1..];
      assert ts[..n][1..n - 1] == ts[1..][..n - 2];
      GroupIsFactor(ts[..n], r.e, sp, transformM);
    case _ =>
  }

  lemma SymbolIsFactor(ts: seq<Token>, e: Expr, sp: Special, transformM: bool)
    requires ts != [] && ts[0].TSym? && ParseFactor(ts, sp, transformM) == Parsed(e, [])
    ensures IsFactor(ts, e, sp, transformM)
  {
  }

  lemma NotIsFactor(ts: seq<Token>, e: Expr, sp: Special, transformM: bool)
    requires |ts| > 1 && ts[0] == TNot && IsFactor(ts[1..], e, sp, transformM)
    ensures IsFactor(ts, NotOf(e), sp, transformM)
  {
  }

  lemma GroupIsFactor(ts: seq<Token>, e: Expr, sp: Special, transformM: bool)
    requires |ts| > 1 && ts[0] == TOpen && ts[|ts| - 1] == TClose && IsExpr(ts[1..|ts| - 1], e, sp, transformM)
    ensures IsFactor(ts, e, sp, transformM)
  {
  }

  lemma LoneFactor(ts: seq<Token>, e: Expr, sp: Special, transformM: bool)
    requires IsFactor(ts, e, sp, transformM)
    ensures IsAnd(ts, e, sp, transformM)
  {
  }

  lemma JoinsAnd(ts: seq<Token>, i: nat, a: Expr, b: Expr, sp: Special, transformM: bool)
    requires i < |ts| && ts[i] == TAnd && IsFactor(ts[..i], a, sp, transformM) && IsAnd(ts[i + 1..], b, sp, transformM)
    ensures IsAnd(ts, AndOf(a, b), sp, transformM)
  {
  }

  lemma {:induction false} ParsedAnd(ts: seq<Token>, sp: Special, transformM: bool) returns (n: nat)
    requires ParseAnd(ts, sp, transformM).Parsed?
    ensures var r := ParseAnd(ts, sp, transformM);
            n <= |ts| && ts[n..] == r.rest && IsAnd(ts[..n], r.e, sp, transformM)
    decreases |ts|, 1
  {
    hide IsAnd, IsFactor, ParseFactor;
    n := ParsedFactor(ts, sp, transformM);
    LoneFactor(ts[..n], ParseFactor(ts, sp, transformM).e, sp, transformM);
    if n < |ts| && ts[n] == TAnd {
      assert ts[n..][1..] == ts[n + 1..];
      var l := n;
      var m := ParsedAnd(ts[n + 1..], sp, transformM);
      n := n + 1 + m;
      assert ts[n..] == ts[l + 1..][m..];
      assert ts[..n][..l] == ts[..l] && ts[..n][l + 1..] == ts[l + 1..][..m];
      JoinsAnd(ts[..n], l, ParseFactor(ts, sp, transformM).e, ParseAnd(ts[l + 1..], sp, transformM).e, sp, transformM);
    }
  }

  lemma LoneAnd(ts: seq<Token>, e: Expr, sp: Special, transformM: bool)
    requires IsAnd(ts, e, sp, transformM)
    ensures IsExpr(ts, e, sp, transformM)
  {
  }

  lemma JoinsExpr(ts: seq<Token>, i: nat, a: Expr, b: Expr, sp: Special, transformM: bool)
    requires i < |ts| && ts[i] == TOr && IsAnd(ts[..i], a, sp, transformM) && IsExpr(ts[i + 1..], b, sp, transformM)
    ensures IsExpr(ts, OrOf(a, b), sp, transformM)
  {
  }

  lemma {:induction false} ParsedExpr(ts: seq<Token>, sp: Special, transformM: bool) returns (n: nat)
    requires ParseExpr(ts, sp, transformM).Parsed?
    ensures var r := ParseExpr(ts, sp, transformM);
            n <= |ts| && ts[n..] == r.rest && IsExpr(ts[..n], r.e, sp, transformM)
    decreases |ts|, 2
  {
    hide IsExpr, IsAnd, ParseAnd;
    n := ParsedAnd(ts, sp, transformM);
    LoneAnd(ts[..n], ParseAnd(ts, sp, transformM).e, sp, transformM);
    if n < |ts| && ts[n] == TOr {
      assert ts[n..][1..] == ts[n + 1..];
      var l := n;
      var m := ParsedExpr(ts[n + 1..], sp, transformM);
      n := n + 1 + m;
      assert ts[n..] == ts[l + 1..][m..];
      assert ts[..n][..l] == ts[..l] && ts[..n][l + 1..] == ts[l + 1..][..m];
      JoinsExpr(ts[..n], l, ParseAnd(ts, sp, transformM).e, ParseExpr(ts[l + 1..], sp, transformM).e, sp, transformM);
    }
  }

  // ---------- what is in the grammar parses ----------

  lemma {:induction false} FactorIsParsed(p: seq<Token>, e: Expr, rest: seq<Token>, sp: Special, transformM: bool)
    requires IsFactor(p, e, sp, transformM) && EndsFactor(rest)
    ensures ParseFactor(p + rest, sp, transformM) == Parsed(e, rest)
    decreases |p|, 0
  {
    var ts := p + rest;
    if p[0].TSym? {
      assert |p| == 1 ==> ts[1..] == rest;
      assert |p| == 3 ==> ts[3..] == rest;
      assert rest != [] ==> ts[|p|] == rest[0];
    } else if p[0] == TNot {
      assert ts[1..] == p[1..] + rest;
      FactorIsParsed(p[1..], e.e, rest, sp, transformM);
    } else {
      var q := p[1..|p| - 1];
      assert ts[1..] == q + ([TClose] + rest);
      ExprIsParsed(q, e, [TClose] + rest, sp, transformM);
      assert ([TClose] + rest)[1..] == rest;
    }
  }

  lemma GoesOnAnd(ts: seq<Token>, us: seq<Token>, a: Expr, b: Expr, rest: seq<Token>, sp: Special, transformM: bool)
    requires ParseFactor(ts, sp, transformM) == Parsed(a, [TAnd] + us) && ParseAnd(us, sp, transformM) == Parsed(b, rest)
    ensures ParseAnd(ts, sp, transformM) == Parsed(AndOf(a, b), rest)
  {
    assert ([TAnd] + us)[1..] == us;
  }

  lemma StopsAnd(ts: seq<Token>, e: Expr, rest: seq<Token>, sp: Special, transformM: bool)
    requires ParseFactor(ts, sp, transformM) == Parsed(e, rest) && !StartsWith(rest, TAnd)
    ensures ParseAnd(ts, sp, transformM) == Parsed(e, rest)
  {
  }

  lemma {:induction false} AndIsParsed(p: seq<Token>, e: Expr, rest: seq<Token>, sp: Special, transformM: bool)
    requires IsAnd(p, e, sp, transformM) && EndsAnd(rest)
    ensures ParseAnd(p + rest, sp, transformM) == Parsed(e, rest)
    decreases |p|, 1
  {
    hide IsFactor, ParseFactor, ParseAnd;
    if IsFactor(p, e, sp, transformM) {
      FactorIsParsed(p, e, rest, sp, transformM);
      StopsAnd(p + rest, e, rest, sp, transformM);
    } else {
      var i :| 0 <= i < |p| && p[i] == TAnd && IsFactor(p[..i], e.a, sp, transformM) && IsAnd(p[i + 1..], e.b, sp, transformM);
      var us := p[i + 1..] + rest;
      assert p + rest == p[..i] + ([TAnd] + us);
      FactorIsParsed(p[..i], e.a, [TAnd] + us, sp, transformM);
      AndIsParsed(p[i + 1..], e.b, rest, sp, transformM);
      GoesOnAnd(p + rest, us, e.a, e.b, rest, sp, transformM);
    }
  }

  lemma GoesOnExpr(ts: seq<Token>, us: seq<Token>, a: Expr, b: Expr, rest: seq<Token>, sp: Special, transformM: bool)
    requires ParseAnd(ts, sp, transformM) == Parsed(a, [TOr] + us) && ParseExpr(us, sp, transformM) == Parsed(b, rest)
    ensures ParseExpr(ts, sp, transformM) == Parsed(OrOf(a, b), rest)
  {
    assert ([TOr] + us)[1..] == us;
  }

  lemma StopsExpr(ts: seq<Token>, e: Expr, rest: seq<Token>, sp: Special, transformM: bool)
    requires ParseAnd(ts, sp, transformM) == Parsed(e, rest) && !StartsWith(rest, TOr)
    ensures ParseExpr(ts, sp, transformM) == Parsed(e, rest)
  {
  }

  lemma {:induction false} ExprIsParsed(p: seq<Token>, e: Expr, rest: seq<Token>, sp: Special, transformM: bool)
    requires IsExpr(p, e, sp, transformM) && EndsExpr(rest)
    ensures ParseExpr(p + rest, sp, transformM) == Parsed(e, rest)
    decreases |p|, 2
  {
    hide IsAnd, ParseAnd, ParseExpr;
    if IsAnd(p, e, sp, transformM) {
      AndIsParsed(p, e, rest, sp, transformM);
      StopsExpr(p + rest, e, rest, sp, transformM);
    } else {
      var i :| 0 <= i < |p| && p[i] == TOr && IsAnd(p[..i], e.a, sp, transformM) && IsExpr(p[i + 1..], e.b, sp, transformM);
      var us := p[i + 1..] + rest;
      assert p + rest == p[..i] + ([TOr] + us);
      AndIsParsed(p[..i], e.a, [TOr] + us, sp, transformM);
      ExprIsParsed(p[i + 1..], e.b, rest, sp, transformM);
      GoesOnExpr(p + rest, us, e.a, e.b, rest, sp, transformM);
    }
  }

  /** The parser takes a sequence of tokens for an expression exactly if it is one, and gives it its tree. */
  lemma ParsesIff(ts: seq<Token>, e: Expr, sp: Special, transformM: bool)
    ensures ParseExpr(ts, sp, transformM) == Parsed(e, []) <==> IsExpr(ts, e, sp, transformM)
  {
    if ParseExpr(ts, sp, transformM) == Parsed(e, []) {
      var n := ParsedExpr(ts, sp, transformM);
      assert ts[..n] == ts;
    }
    if IsExpr(ts, e, sp, transformM) {
      ExprIsParsed(ts, e, [], sp, transformM);
      assert ts + [] == ts;
    }
  }

  /** A sequence of tokens has at most one tree: && binds closer than ||, both group to the right. */
  lemma OneTree(ts: seq<Token>, e: Expr, f: Expr, sp: Special, transformM: bool)
    requires IsExpr(ts, e, sp, transformM) && IsExpr(ts, f, sp, transformM)
    ensures e == f
  {
    ParsesIff(ts, e, sp, transformM);
    ParsesIff(ts, f, sp, transformM);
  }
}
