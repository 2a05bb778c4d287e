/** Kconfig expressions: printing, parsing and evaluation. A symbol is its number. */
module KconfigExpr {
  import opened Options

  type Sym = nat

  datatype Op = EQUAL | UNEQUAL | LESS | LESS_EQUAL | GREATER | GREATER_EQUAL

  datatype Expr = SymOf(s: Sym) | AndOf(a: Expr, b: Expr) | OrOf(a: Expr, b: Expr) | NotOf(e: Expr)
                | RelOf(op: Op, x: Sym, y: Sym)

  datatype Token = TSym(s: Sym) | TRel(op: Op) | TAnd | TOr | TNot | TOpen | TClose

  // ---------- printing ----------

  /** expr_str, as tokens. */
  function Print(e: Expr): seq<Token>
    decreases e, 0
  {
    match e
    case SymOf(s) => [TSym(s)]
    case AndOf(a, b) => AndOperand(a) + [TAnd] + AndOperand(b)
    case OrOf(a, b) => OrOperand(a) + [TOr] + OrOperand(b)
    case NotOf(f) => if f.SymOf? then [TNot, TSym(f.s)] else [TNot, TOpen] + Print(f) + [TClose]
    case RelOf(op, x, y) => [TSym(x), TRel(op), TSym(y)]
  }

  /** _parenthesize with OR: the operands of an AND. */
  function AndOperand(e: Expr): seq<Token>
    decreases e, 1
  {
    if e.OrOf? then [TOpen] + Print(e) + [TClose] else Print(e)
  }

  /** _parenthesize with AND: the operands of an OR. */
  function OrOperand(e: Expr): seq<Token>
    decreases e, 1
  {
    if e.AndOf? then [TOpen] + Print(e) + [TClose] else Print(e)
  }

  // ---------- parsing ----------

  datatype Parsed = Malformed | Parsed(e: Expr, rest: seq<Token>)

  /** The symbol m and the modules symbol, for the rewrite of m to m && MODULES. */
  datatype Special = Special(m: Sym, modules: Sym)

  predicate StartsWith(ts: seq<Token>, t: Token) {
    ts != [] && ts[0] == t
  }

  /** _parse_expr. */
  function ParseExpr(ts: seq<Token>, sp: Special, transformM: bool): (r: Parsed)
    ensures r.Parsed? ==> |r.rest| < |ts|
    decreases |ts|, 2
  {
    var l := ParseAnd(ts, sp, transformM);
    if l.Malformed? then Malformed
    else if !StartsWith(l.rest, TOr) then l
    else
      var r := ParseExpr(l.rest[1..], sp, transformM);
      if r.Malformed? then Malformed else Parsed(OrOf(l.e, r.e), r.rest)
  }

  /** _parse_and_expr. */
  function ParseAnd(ts: seq<Token>, sp: Special, transformM: bool): (r: Parsed)
    ensures r.Parsed? ==> |r.rest| < |ts|
    decreases |ts|, 1
  {
    var l := ParseFactor(ts, sp, transformM);
    if l.Malformed? then Malformed
    else if !StartsWith(l.rest, TAnd) then l
    else
      var r := ParseAnd(l.rest[1..], sp, transformM);
      if r.Malformed? then Malformed else Parsed(AndOf(l.e, r.e), r.rest)
  }

  /** _parse_factor. */
  function ParseFactor(ts: seq<Token>, sp: Special, transformM: bool): (r: Parsed)
    ensures r.Parsed? ==> |r.rest| < |ts|
    decreases |ts|, 0
  {
    if ts == [] then Malformed
    else match ts[0]
      case TSym(s) =>
        if |ts| == 1 || !ts[1].TRel? then
          Parsed(if transformM && s == sp.m then AndOf(SymOf(sp.m), SymOf(sp.modules)) else SymOf(s), ts[1..])
        else if |ts| == 2 || !ts[2].TSym? then Malformed
        else Parsed(RelOf(ts[1].op, s, ts[2].s), ts[3..])
      case TNot =>
        var r := ParseFactor(ts[1..], sp, transformM);
        if r.Malformed? then Malformed else Parsed(NotOf(r.e), r.rest)
      case TOpen =>
        var r := ParseExpr(ts[1..], sp, transformM);
        if r.Parsed? && StartsWith(r.rest, TClose) then Parsed(r.e, r.rest[1..]) else Malformed
      case _ => Malformed
  }

  // ---------- the shape the parser gives ----------

  function AndAppend(e: Expr, f: Expr): Expr {
    if e.AndOf? then AndOf(e.a, AndAppend(e.b, f)) else AndOf(e, f)
  }

  function OrAppend(e: Expr, f: Expr): Expr {
    if e.OrOf? then OrOf(e.a, OrAppend(e.b, f)) else OrOf(e, f)
  }

  /** The expression with AND and OR associated to the right. */
  function RightAssoc(e: Expr): Expr {
    match e
    case AndOf(a, b) => AndAppend(RightAssoc(a), RightAssoc(b))
    case OrOf(a, b) => OrAppend(RightAssoc(a), RightAssoc(b))
    case NotOf(f) => NotOf(RightAssoc(f))
    case _ => e
  }

  lemma {:induction false} AndAppendAssoc(e: Expr, f: Expr, g: Expr)
    ensures AndAppend(e, AndAppend(f, g)) == AndAppend(AndAppend(e, f), g)
  {
    if e.AndOf? {
      AndAppendAssoc(e.b, f, g);
    }
  }

  lemma {:induction false} OrAppendAssoc(e: Expr, f: Expr, g: Expr)
    ensures OrAppend(e, OrAppend(f, g)) == OrAppend(OrAppend(e, f), g)
  {
    if e.OrOf? {
      OrAppendAssoc(e.b, f, g);
    }
  }

  // ---------- parsing what was printed ----------

  /** What may follow a factor, an AND and an expression without becoming part of it. */
  predicate EndsFactor(rest: seq<Token>) {
    rest == [] || !rest[0].TRel?
  }

  predicate EndsAnd(rest: seq<Token>) {
    EndsFactor(rest) && !StartsWith(rest, TAnd)
  }

  predicate EndsExpr(rest: seq<Token>) {
    EndsAnd(rest) && !StartsWith(rest, TOr)
  }

  /** Symbols, relations, negations and parenthesized expressions parse as factors. */
  lemma {:induction false} FactorParses(e: Expr, rest: seq<Token>, sp: Special)
    requires EndsFactor(rest)
    ensures !e.AndOf? && !e.OrOf? ==> ParseFactor(Print(e) + rest, sp, false) == Parsed(RightAssoc(e), rest)
    ensures ParseFactor([TOpen] + Print(e) + [TClose] + rest, sp, false) == Parsed(RightAssoc(e), rest)
    decreases e, 2
  {
    var ts := [TOpen] + Print(e) + [TClose] + rest;
    assert ts[1..] == Print(e) + ([TClose] + rest);
    assert ([TClose] + rest)[1..] == rest;
    ExprParses(e, [TClose] + rest, sp);
    if !e.AndOf? && !e.OrOf? {
      PlainParses(e, rest, sp);
    }
  }

  /** Printed operands of an AND, up to one that is followed by &&, join what comes after it. */
  lemma {:induction false} AndContinues(e: Expr, ts: seq<Token>, sp: Special)
    requires ParseAnd(ts, sp, false).Parsed?
    ensures var r := ParseAnd(ts, sp, false);
            ParseAnd(AndOperand(e) + [TAnd] + ts, sp, false) == Parsed(AndAppend(RightAssoc(e), r.e), r.rest)
    decreases e, 4
  {
    var r := ParseAnd(ts, sp, false);
    if e.AndOf? {
      var us := AndOperand(e.b) + [TAnd] + ts;
      AndContinues(e.b, ts, sp);
      AndContinues(e.a, us, sp);
      Regroup(AndOperand(e.a), AndOperand(e.b), ts, TAnd);
      AndAppendAssoc(RightAssoc(e.a), RightAssoc(e.b), r.e);
    } else {
      OperandIsFactor(e, [TAnd] + ts, sp);
      assert AndOperand(e) + [TAnd] + ts == AndOperand(e) + ([TAnd] + ts);
      FactorThenAnd(AndOperand(e), RightAssoc(e), ts, sp);
    }
  }

  lemma Regroup(a: seq<Token>, b: seq<Token>, ts: seq<Token>, t: Token)
    ensures a + [t] + b + [t] + ts == a + [t] + (b + [t] + ts)
  {
  }

  lemma FactorThenAnd(f: seq<Token>, e: Expr, ts: seq<Token>, sp: Special)
    requires ParseFactor(f + ([TAnd] + ts), sp, false) == Parsed(e, [TAnd] + ts) && ParseAnd(ts, sp, false).Parsed?
    ensures var r := ParseAnd(ts, sp, false); ParseAnd(f + ([TAnd] + ts), sp, false) == Parsed(AndOf(e, r.e), r.rest)
  {
    assert ([TAnd] + ts)[1..] == ts;
  }

  /** An operand of an AND other than an AND parses as a factor. */
  lemma {:induction false} OperandIsFactor(e: Expr, rest: seq<Token>, sp: Special)
    requires EndsFactor(rest) && !e.AndOf?
    ensures ParseFactor(AndOperand(e) + rest, sp, false) == Parsed(RightAssoc(e), rest)
    ensures !RightAssoc(e).AndOf?
    decreases e, 3
  {
    FactorParses(e, rest, sp);
    if e.OrOf? {
      OrIsOr(e);
    }
  }

  lemma OrIsOr(e: Expr)
    requires e.OrOf?
    ensures RightAssoc(e).OrOf?
  {
  }

  lemma AndIsAnd(e: Expr)
    requires e.AndOf?
    ensures RightAssoc(e).AndOf?
  {
  }

  lemma {:induction false} AndParses(e: Expr, rest: seq<Token>, sp: Special)
    requires EndsAnd(rest)
    ensures ParseAnd(AndOperand(e) + rest, sp, false) == Parsed(RightAssoc(e), rest)
    decreases e, 5
  {
    if e.AndOf? {
      AndParses(e.b, rest, sp);
      AndContinues(e.a, AndOperand(e.b) + rest, sp);
      assert AndOperand(e) + rest == AndOperand(e.a) + [TAnd] + (AndOperand(e.b) + rest);
    } else {
      FactorParses(e, rest, sp);
    }
  }

  lemma {:induction false} OrContinues(e: Expr, ts: seq<Token>, sp: Special)
    requires ParseExpr(ts, sp, false).Parsed?
    ensures var r := ParseExpr(ts, sp, false);
            ParseExpr(OrOperand(e) + [TOr] + ts, sp, false) == Parsed(OrAppend(RightAssoc(e), r.e), r.rest)
    decreases e, 5
  {
    var r := ParseExpr(ts, sp, false);
    if e.OrOf? {
      var us := OrOperand(e.b) + [TOr] + ts;
      OrContinues(e.b, ts, sp);
      OrContinues(e.a, us, sp);
      Regroup(OrOperand(e.a), OrOperand(e.b), ts, TOr);
      OrAppendAssoc(RightAssoc(e.a), RightAssoc(e.b), r.e);
    } else {
      OperandParses(e, [TOr] + ts, sp);
      assert OrOperand(e) + [TOr] + ts == OrOperand(e) + ([TOr] + ts);
      assert ([TOr] + ts)[1..] == ts;
    }
  }

  /** An operand of an OR other than an OR parses as an AND. */
  lemma {:induction false} OperandParses(e: Expr, rest: seq<Token>, sp: Special)
    requires EndsAnd(rest) && !e.OrOf?
    ensures ParseAnd(OrOperand(e) + rest, sp, false) == Parsed(RightAssoc(e), rest)
    ensures !RightAssoc(e).OrOf?
    decreases e, 4
  {
    FactorParses(e, rest, sp);
    if e.AndOf? {
      assert [TOpen] + Print(e) + [TClose] + rest == OrOperand(e) + rest;
      AndIsAnd(e);
    }
  }

  lemma {:induction false} ExprParses(e: Expr, rest: seq<Token>, sp: Special)
    requires EndsExpr(rest)
    ensures ParseExpr(Print(e) + rest, sp, false) == Parsed(RightAssoc(e), rest)
    decreases e, 1
  {
    if e.OrOf? {
      OrParses(e.b, rest, sp);
      OrContinues(e.a, OrOperand(e.b) + rest, sp);
      assert Print(e) + rest == OrOperand(e.a) + [TOr] + (OrOperand(e.b) + rest);
    } else if e.AndOf? {
      AndParses(e.b, rest, sp);
      AndContinues(e.a, AndOperand(e.b) + rest, sp);
      assert Print(e) + rest == AndOperand(e.a) + [TAnd] + (AndOperand(e.b) + rest);
    } else {
      PlainParses(e, rest, sp);
    }
  }

  lemma {:induction false} OrParses(e: Expr, rest: seq<Token>, sp: Special)
    requires EndsExpr(rest)
    ensures ParseExpr(OrOperand(e) + rest, sp, false) == Parsed(RightAssoc(e), rest)
    decreases e, 6
  {
    if e.OrOf? {
      OrParses(e.b, rest, sp);
      OrContinues(e.a, OrOperand(e.b) + rest, sp);
      assert OrOperand(e) + rest == OrOperand(e.a) + [TOr] + (OrOperand(e.b) + rest);
    } else {
      OperandParses(e, rest, sp);
    }
  }

  /** A symbol, a relation or a negation. */
  lemma {:induction false} PlainParses(e: Expr, rest: seq<Token>, sp: Special)
    requires EndsFactor(rest) && !e.AndOf? && !e.OrOf?
    ensures ParseFactor(Print(e) + rest, sp, false) == Parsed(RightAssoc(e), rest)
    decreases e, 0
  {
    match e
    case SymOf(s) =>
      assert (Print(e) + rest)[1..] == rest;
      assert rest != [] ==> (Print(e) + rest)[1] == rest[0];
    case RelOf(op, x, y) =>
      assert (Print(e) + rest)[3..] == rest;
    case NotOf(f) =>
      var us := Print(e) + rest;
      FactorParses(f, rest, sp);
      if f.SymOf? {
        assert us[1..] == Print(f) + rest;
      } else {
        assert us[1..] == [TOpen] + Print(f) + [TClose] + rest;
      }
  }

  /** Parsing what expr_str printed gives the expression back, up to the association of AND and OR. */
  lemma PrintedExpressionsParse(e: Expr, sp: Special)
    ensures ParseExpr(Print(e), sp, false) == Parsed(RightAssoc(e), [])
  {
    ExprParses(e, [], sp);
    assert Print(e) + [] == Print(e);
  }

  /** Association does not show in print, so it is all that printing loses. */
  lemma {:induction false} AndAppendPrints(e: Expr, f: Expr)
    ensures AndOperand(AndAppend(e, f)) == AndOperand(e) + [TAnd] + AndOperand(f)
  {
    if e.AndOf? {
      AndAppendPrints(e.b, f);
    }
  }

  lemma {:induction false} OrAppendPrints(e: Expr, f: Expr)
    ensures OrOperand(OrAppend(e, f)) == OrOperand(e) + [TOr] + OrOperand(f)
  {
    if e.OrOf? {
      OrAppendPrints(e.b, f);
    }
  }

  lemma {:induction false} RightAssocPrintsAlike(e: Expr)
    ensures Print(RightAssoc(e)) == Print(e)
    ensures e.AndOf? <==> RightAssoc(e).AndOf?
    ensures e.OrOf? <==> RightAssoc(e).OrOf?
    ensures e.SymOf? <==> RightAssoc(e).SymOf?
  {
    match e
    case AndOf(a, b) =>
      RightAssocPrintsAlike(a);
      RightAssocPrintsAlike(b);
      AndAppendPrints(RightAssoc(a), RightAssoc(b));
    case OrOf(a, b) =>
      RightAssocPrintsAlike(a);
      RightAssocPrintsAlike(b);
      OrAppendPrints(RightAssoc(a), RightAssoc(b));
    case NotOf(f) => RightAssocPrintsAlike(f);
    case _ =>
  }

  /** Two expressions print the same exactly if they differ in association only. */
  lemma SamePrintIff(e: Expr, f: Expr)
    ensures Print(e) == Print(f) <==> RightAssoc(e) == RightAssoc(f)
  {
    PrintedExpressionsParse(e, Special(0, 0));
    PrintedExpressionsParse(f, Special(0, 0));
    RightAssocPrintsAlike(e);
    RightAssocPrintsAlike(f);
  }

  // ---------- evaluation ----------

  type Tri = n: int | 0 <= n <= 2

  datatype Type = BOOL | TRISTATE | STRING | INT | HEX | UNKNOWN

  /** What a symbol's visibility, tristate value and string value are. */
  datatype Values = Values(vis: Sym -> Tri, tri: Sym -> Tri, str: Sym -> string)

  /** The types of the symbols, and int(s, base) for the base of a type. */
  datatype Context = Context(types: Sym -> Type, num: (Type, string) -> Option<int>)

  /** _strcmp. */
  function Strcmp(a: string, b: string): (r: int)
    ensures -1 <= r <= 1
    ensures r == 0 <==> a == b
    decreases |a|
  {
    if a == [] then (if b == [] then 0 else -1)
    else if b == [] then 1
    else if a[0] != b[0] then (if a[0] < b[0] then -1 else 1)
    else
      assert a == [a[0]] + a[1..] && b == [b[0]] + b[1..];
      Strcmp(a[1..], b[1..])
  }

  predicate IsLogical(t: Type) {
    t == BOOL || t == TRISTATE
  }

  /** _sym_to_num, None for its ValueError. */
  function SymToNum(c: Context, v: Values, x: Sym): Option<int> {
    if IsLogical(c.types(x)) then Some(v.tri(x)) else c.num(c.types(x), v.str(x))
  }

  function Compare(c: Context, v: Values, x: Sym, y: Sym): int {
    if c.types(x) == STRING && c.types(y) == STRING then Strcmp(v.str(x), v.str(y))
    else if SymToNum(c, v, x).Some? && SymToNum(c, v, y).Some? then SymToNum(c, v, x).value - SymToNum(c, v, y).value
    else Strcmp(v.str(x), v.str(y))
  }

  predicate Holds(op: Op, comp: int) {
    match op
    case EQUAL => comp == 0
    case UNEQUAL => comp != 0
    case LESS => comp < 0
    case LESS_EQUAL => comp <= 0
    case GREATER => comp > 0
    case GREATER_EQUAL => comp >= 0
  }

  function Min(a: Tri, b: Tri): Tri {
    if a < b then a else b
  }

  function Max(a: Tri, b: Tri): Tri {
    if a < b then b else a
  }

  /** expr_value, with its short circuits. */
  function ExprValue(c: Context, v: Values, e: Expr): Tri {
    match e
    case SymOf(s) => v.tri(s)
    case AndOf(a, b) => if ExprValue(c, v, a) == 0 then 0 else Min(ExprValue(c, v, a), ExprValue(c, v, b))
    case OrOf(a, b) => if ExprValue(c, v, a) == 2 then 2 else Max(ExprValue(c, v, a), ExprValue(c, v, b))
    case NotOf(f) => 2 - ExprValue(c, v, f)
    case RelOf(op, x, y) => if Holds(op, Compare(c, v, x, y)) then 2 else 0
  }

  lemma {:induction false} AppendValues(c: Context, v: Values, e: Expr, f: Expr)
    ensures ExprValue(c, v, AndAppend(e, f)) == Min(ExprValue(c, v, e), ExprValue(c, v, f))
    ensures ExprValue(c, v, OrAppend(e, f)) == Max(ExprValue(c, v, e), ExprValue(c, v, f))
  {
    if e.AndOf? || e.OrOf? {
      AppendValues(c, v, e.b, f);
    }
  }

  lemma {:induction false} RightAssocKeepsValue(c: Context, v: Values, e: Expr)
    ensures ExprValue(c, v, RightAssoc(e)) == ExprValue(c, v, e)
  {
    match e
    case AndOf(a, b) =>
      RightAssocKeepsValue(c, v, a);
      RightAssocKeepsValue(c, v, b);
      AppendValues(c, v, RightAssoc(a), RightAssoc(b));
    case OrOf(a, b) =>
      RightAssocKeepsValue(c, v, a);
      RightAssocKeepsValue(c, v, b);
      AppendValues(c, v, RightAssoc(a), RightAssoc(b));
    case NotOf(f) => RightAssocKeepsValue(c, v, f);
    case _ =>
  }

  /** Printing and parsing back keeps the value under every assignment of symbol values. */
  lemma PrintAndParseKeepsValue(c: Context, v: Values, e: Expr, sp: Special)
    ensures var r := ParseExpr(Print(e), sp, false);
            r.Parsed? && r.rest == [] && ExprValue(c, v, r.e) == ExprValue(c, v, e)
  {
    PrintedExpressionsParse(e, sp);
    RightAssocKeepsValue(c, v, e);
  }

  // ---------- the parser object ----------

  class Parser {
    const tokens: seq<Token>               // _tokens, without the None at its end
    const sp: Special
    var i: nat                             // the index of the next token, _tokens_i + 1

    constructor (tokens: seq<Token>, sp: Special)
      ensures this.tokens == tokens && this.sp == sp && i == 0
    {
      this.tokens, this.sp, i := tokens, sp, 0;
    }

    /** What is left to parse. */
    function Left(): seq<Token>
      reads this
      requires i <= |tokens|
    {
      tokens[i..]
    }

    /** _check_token. */
    method CheckToken(t: Token) returns (found: bool)
      requires i <= |tokens|
      modifies this
      ensures i <= |tokens| && found == StartsWith(old(Left()), t)
      ensures Left() == if found then old(Left())[1..] else old(Left())
    {
      found := i < |tokens| && tokens[i] == t;
      if found {
        i := i + 1;
      }
    }

    /** _parse_expr; None stands for the parse error. */
    method Expr(transformM: bool) returns (e: Option<Expr>)
      requires i <= |tokens|
      modifies this
      ensures var r := ParseExpr(old(Left()), sp, transformM);
              && e == (if r.Parsed? then Some(r.e) else None)
              && (r.Parsed? ==> old(i) < i <= |tokens| && Left() == r.rest)
      decreases |tokens| - i, 2
    {
      e := AndExpr(transformM);
      if e.Some? {
        ghost var rest := Left();
        var more := CheckToken(TOr);
        if more {
          var f := Expr(transformM);
          e := if f.Some? then Some(OrOf(e.value, f.value)) else None;
        }
      }
    }

    /** _parse_and_expr. */
    method AndExpr(transformM: bool) returns (e: Option<Expr>)
      requires i <= |tokens|
      modifies this
      ensures var r := ParseAnd(old(Left()), sp, transformM);
              && e == (if r.Parsed? then Some(r.e) else None)
              && (r.Parsed? ==> old(i) < i <= |tokens| && Left() == r.rest)
      decreases |tokens| - i, 1
    {
      e := Factor(transformM);
      if e.Some? {
        var more := CheckToken(TAnd);
        if more {
          var f := AndExpr(transformM);
          e := if f.Some? then Some(AndOf(e.value, f.value)) else None;
        }
      }
    }

    /** _parse_factor. */
    method Factor(transformM: bool) returns (e: Option<Expr>)
      requires i <= |tokens|
      modifies this
      ensures var r := ParseFactor(old(Left()), sp, transformM);
              && e == (if r.Parsed? then Some(r.e) else None)
              && (r.Parsed? ==> old(i) < i <= |tokens| && Left() == r.rest)
      decreases |tokens| - i, 0
    {
      if i == |tokens| {
        return None;
      }
      var token := tokens[i];
      i := i + 1;
      match token
      case TSym(s) =>
        if i == |tokens| || !tokens[i].TRel? {
          e := Some(if transformM && s == sp.m then AndOf(SymOf(sp.m), SymOf(sp.modules)) else SymOf(s));
        } else {
          var op := tokens[i].op;
          i := i + 1;
          if i < |tokens| && tokens[i].TSym? {
            i := i + 1;
            e := Some(RelOf(op, s, tokens[i - 1].s));
          } else {
            e := None;
          }
        }
      case TNot =>
        var f := Factor(transformM);
        e := if f.Some? then Some(NotOf(f.value)) else None;
      case TOpen =>
        e := Expr(transformM);
        if e.Some? {
          var closed := CheckToken(TClose);
          if !closed {
            e := None;
          }
        }
      case _ => e := None;
    }
  }
}
