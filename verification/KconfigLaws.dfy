/** What Kconfig symbols and expressions are worth, as equations over the values themselves. */
module KconfigLaws {
  import opened Options
  import opened KconfigExpr
  import opened KconfigCache
  import K = Kconfig

  // ---------- expressions ----------

  /** a comes before b: the first character in which they differ is smaller in a, or a ends there. */
  ghost predicate Before(a: string, b: string) {
    exists i: nat :: DifferAt(a, b, i) && i < |b| && (i == |a| || a[i] < b[i])
  }

  ghost predicate DifferAt(a: string, b: string, i: nat) {
    i <= |a| && i <= |b| && a[..i] == b[..i] && (i < |a| && i < |b| ==> a[i] != b[i])
  }

  /** _strcmp is the lexicographic order of the characters. */
  lemma {:induction false} StrcmpIsLexicographic(a: string, b: string)
    ensures Strcmp(a, b) < 0 <==> Before(a, b)
    ensures Strcmp(a, b) == 0 <==> a == b
    ensures Strcmp(a, b) > 0 <==> Before(b, a)
    decreases |a|
  {
    if a != [] && b != [] && a[0] == b[0] {
      StrcmpIsLexicographic(a[1..], b[1..]);
      assert a == [a[0]] + a[1..] && b == [b[0]] + b[1..];
      BeforeTails(a, b);
      BeforeTails(b, a);
    } else {
      DifferAtOnce(a, b);
      DifferAtOnce(b, a);
    }
  }

  lemma BeforeTails(a: string, b: string)
    requires a != [] && b != [] && a[0] == b[0]
    ensures Before(a, b) <==> Before(a[1..], b[1..])
  {
    if Before(a, b) {
      var i: nat :| DifferAt(a, b, i) && i < |b| && (i == |a| || a[i] < b[i]);
      assert i != 0;
      assert a[1..][..i - 1] == a[..i][1..] && b[1..][..i - 1] == b[..i][1..];
      assert DifferAt(a[1..], b[1..], i - 1);
    }
    if Before(a[1..], b[1..]) {
      var i: nat :| DifferAt(a[1..], b[1..], i) && i < |b| - 1 && (i == |a| - 1 || a[1..][i] < b[1..][i]);
      assert a[..i + 1] == [a[0]] + a[1..][..i] && b[..i + 1] == [b[0]] + b[1..][..i];
      assert DifferAt(a, b, i + 1);
    }
  }

  lemma DifferAtOnce(a: string, b: string)
    requires a == [] || b == [] || a[0] != b[0]
    ensures Before(a, b) <==> b != [] && (a == [] || a[0] < b[0])
  {
    if b != [] && (a == [] || a[0] < b[0]) {
      assert DifferAt(a, b, 0);
    }
    forall i: nat | DifferAt(a, b, i)
      ensures i == 0
    {
      PrefixesAgree(a, b, i);
    }
  }

  lemma PrefixesAgree(a: string, b: string, i: nat)
    requires i <= |a| && i <= |b| && a[..i] == b[..i]
    ensures i > 0 ==> a[0] == b[0]
  {
    if i > 0 {
      assert a[..i][0] == a[0] && b[..i][0] == b[0];
    }
  }

  /** The number of a symbol in a comparison: n, m and y count 0, 1 and 2, other values as they read in their base. */
  ghost predicate IsNumber(c: Context, v: Values, x: Sym, n: int) {
    if c.types(x) == BOOL || c.types(x) == TRISTATE then n == v.tri(x) else c.num(c.types(x), v.str(x)) == Some(n)
  }

  ghost predicate NumbersCount(c: Context, v: Values, x: Sym, y: Sym, a: int, b: int) {
    !(c.types(x) == STRING && c.types(y) == STRING) && IsNumber(c, v, x, a) && IsNumber(c, v, y, b)
  }

  /** A relation is y or n. If both sides are numbers, and not both of type string, these are compared. */
  lemma NumbersAreCompared(c: Context, v: Values, op: Op, x: Sym, y: Sym, a: int, b: int)
    requires NumbersCount(c, v, x, y, a, b)
    ensures var t := ExprValue(c, v, RelOf(op, x, y));
            && (t == 0 || t == 2)
            && (t == 2 <==> match op
                            case EQUAL => a == b
                            case UNEQUAL => a != b
                            case LESS => a < b
                            case LESS_EQUAL => a <= b
                            case GREATER => a > b
                            case GREATER_EQUAL => a >= b)
  {
    assert SymToNum(c, v, x) == Some(a) && SymToNum(c, v, y) == Some(b);
  }

  /** Otherwise the strings are, character by character. */
  lemma StringsAreCompared(c: Context, v: Values, op: Op, x: Sym, y: Sym)
    requires forall a, b :: !NumbersCount(c, v, x, y, a, b)
    ensures var t, a, b := ExprValue(c, v, RelOf(op, x, y)), v.str(x), v.str(y);
            && (t == 0 || t == 2)
            && (t == 2 <==> match op
                            case EQUAL => a == b
                            case UNEQUAL => a != b
                            case LESS => Before(a, b)
                            case LESS_EQUAL => a == b || Before(a, b)
                            case GREATER => Before(b, a)
                            case GREATER_EQUAL => a == b || Before(b, a))
  {
    StrcmpIsLexicographic(v.str(x), v.str(y));
    var m, n := SymToNum(c, v, x), SymToNum(c, v, y);
    if m.Some? && n.Some? {
      assert !NumbersCount(c, v, x, y, m.value, n.value);
    }
  }

  /** n is less than m, and m than y; !, && and || are the complement, the minimum and the maximum. */
  lemma ConnectivesAre(c: Context, v: Values, a: Expr, b: Expr, s: Sym)
    ensures ExprValue(c, v, SymOf(s)) == v.tri(s)
    ensures ExprValue(c, v, NotOf(a)) + ExprValue(c, v, a) == 2
    ensures IsLesser(ExprValue(c, v, AndOf(a, b)), ExprValue(c, v, a), ExprValue(c, v, b))
    ensures IsLarger(ExprValue(c, v, OrOf(a, b)), ExprValue(c, v, a), ExprValue(c, v, b))
  {
  }

  predicate IsLesser(t: int, a: int, b: int) {
    t <= a && t <= b && (t == a || t == b)
  }

  predicate IsLarger(t: int, a: int, b: int) {
    a <= t && b <= t && (t == a || t == b)
  }

  // ---------- what is in force ----------

  function Worth(k: Config, v: Values, e: Expr): Tri {
    ExprValue(Ctx(k), v, e)
  }

  ghost predicate Meets(k: Config, v: Values, e: Expr) {
    Worth(k, v, e) != 0
  }

  /** Default i is the first with a condition that is met. */
  ghost predicate DefaultInForce(k: Config, v: Values, ds: seq<Default>, i: nat) {
    i < |ds| && Meets(k, v, ds[i].cond) && forall j | 0 <= j < i :: !Meets(k, v, ds[j].cond)
  }

  ghost predicate NoDefaultInForce(k: Config, v: Values, ds: seq<Default>) {
    forall j | 0 <= j < |ds| :: !Meets(k, v, ds[j].cond)
  }

  ghost predicate RangeInForce(k: Config, v: Values, rs: seq<Range>, i: nat) {
    i < |rs| && Meets(k, v, rs[i].cond) && forall j | 0 <= j < i :: !Meets(k, v, rs[j].cond)
  }

  ghost predicate NoRangeInForce(k: Config, v: Values, rs: seq<Range>) {
    forall j | 0 <= j < |rs| :: !Meets(k, v, rs[j].cond)
  }

  /** The symbol has a user value and is visible. */
  ghost predicate UserInForce(u: User, v: Values, s: Sym) {
    s in u && v.vis(s) != 0
  }

  /** A tristate symbol is one while modules are on. */
  ghost predicate IsTristate(k: Config, v: Values, s: Sym)
    requires s < |k.defs|
  {
    k.defs[s].orig == TRISTATE && v.tri(k.modules) != 0
  }

  /** m stands for y in a symbol that is not tristate, and in one that is implied by y. */
  ghost predicate IsPromoted(k: Config, v: Values, s: Sym, t: Tri, r: Tri)
    requires s < |k.defs|
  {
    if t == 1 && (!IsTristate(k, v, s) || Worth(k, v, k.defs[s].weakRevDep) == 2) then r == 2 else r == t
  }

  // ---------- visibility ----------

  /** t is the largest value of the conditions, n if there are none. */
  ghost predicate IsLargest(k: Config, v: Values, es: seq<Expr>, t: Tri) {
    && (forall i | 0 <= i < |es| :: Worth(k, v, es[i]) <= t)
    && (t != 0 ==> exists i | 0 <= i < |es| :: Worth(k, v, es[i]) == t)
  }

  lemma {:induction false} PromptsAreLargest(k: Config, v: Values, es: seq<Expr>)
    ensures IsLargest(k, v, es, PromptsValue(k, v, es))
  {
    if es != [] {
      var t, rest := PromptsValue(k, v, es), PromptsValue(k, v, es[1..]);
      PromptsAreLargest(k, v, es[1..]);
      forall i | 0 <= i < |es|
        ensures Worth(k, v, es[i]) <= t
      {
        assert i > 0 ==> es[i] == es[1..][i - 1];
      }
      if t != 0 && Worth(k, v, es[0]) != t {
        var i :| 0 <= i < |es[1..]| && Worth(k, v, es[1..][i]) == t;
        assert es[i + 1] == es[1..][i];
      }
    }
  }

  /** The visibility is the largest of the prompt conditions, with m for y in a symbol that is not tristate. */
  lemma VisibilityIs(k: Config, u: User, s: Sym, t: Tri)
    requires WellFormed(k) && s < |k.defs|
    requires IsLargest(k, Current(k, u), k.defs[s].prompts, t)
    ensures var v := Current(k, u); v.vis(s) == if t == 1 && !IsTristate(k, v, s) then 2 else t
  {
    CurrentIsComputed(k, u, VisKey(s));
    PromptsAreLargest(k, Current(k, u), k.defs[s].prompts);
  }

  // ---------- bool and tristate symbols ----------

  lemma {:induction false} FirstDefault(k: Config, v: Values, ds: seq<Default>, i: nat)
    requires DefaultInForce(k, v, ds, i)
    ensures IsLesser(DefaultTri(k, v, ds), Worth(k, v, ds[i].value), Worth(k, v, ds[i].cond))
    ensures AnyDefault(k, v, ds)
    ensures ds[i].value.SymOf? ==> DefaultStr(k, v, ds) == v.str(ds[i].value.s)
  {
    if i > 0 {
      assert ds[0] == ds[..i][0] && !Meets(k, v, ds[0].cond);
      assert ds[1..][i - 1] == ds[i];
      forall j | 0 <= j < i - 1
        ensures !Meets(k, v, ds[1..][j].cond)
      {
        assert ds[1..][j] == ds[j + 1];
      }
      FirstDefault(k, v, ds[1..], i - 1);
    }
  }

  lemma {:induction false} NoDefault(k: Config, v: Values, ds: seq<Default>)
    requires NoDefaultInForce(k, v, ds)
    ensures DefaultTri(k, v, ds) == 0 && !AnyDefault(k, v, ds) && DefaultStr(k, v, ds) == ""
  {
    if ds != [] {
      assert !Meets(k, v, ds[0].cond);
      forall j | 0 <= j < |ds| - 1
        ensures !Meets(k, v, ds[1..][j].cond)
      {
        assert ds[1..][j] == ds[j + 1];
      }
      NoDefault(k, v, ds[1..]);
    }
  }

  /** t is the value of the default in force, as far as its condition lets it be; n without one. */
  ghost predicate IsDefaulted(k: Config, v: Values, ds: seq<Default>, t: Tri) {
    if NoDefaultInForce(k, v, ds) then t == 0
    else exists i: nat :: DefaultInForce(k, v, ds, i) && IsLesser(t, Worth(k, v, ds[i].value), Worth(k, v, ds[i].cond))
  }

  /** t is the larger of the default and what implies the symbol, if its dependencies are met. */
  ghost predicate IsImplied(k: Config, v: Values, s: Sym, t: Tri)
    requires s < |k.defs|
  {
    exists x: Tri :: IsDefaulted(k, v, k.defs[s].defaults, x)
      && if Meets(k, v, k.defs[s].directDep) then IsLarger(t, x, Worth(k, v, k.defs[s].weakRevDep)) else t == x
  }

  /** t is what the symbol is before it is selected: the user value as far as the visibility lets it be, or else the
      default and what implies the symbol. */
  ghost predicate IsOwn(k: Config, u: User, v: Values, s: Sym, t: Tri)
    requires s < |k.defs|
  {
    if UserInForce(u, v, s) && u[s].TriVal? then IsLesser(t, u[s].t, v.vis(s)) else IsImplied(k, v, s, t)
  }

  lemma OwnIs(k: Config, u: User, v: Values, s: Sym, t: Tri)
    requires s < |k.defs| && IsOwn(k, u, v, s, t)
    ensures t == OwnTri(k, u, v, s)
  {
    if !(UserInForce(u, v, s) && u[s].TriVal?) {
      var ds := k.defs[s].defaults;
      var x: Tri :| IsDefaulted(k, v, ds, x)
        && if Meets(k, v, k.defs[s].directDep) then IsLarger(t, x, Worth(k, v, k.defs[s].weakRevDep)) else t == x;
      DefaultedIs(k, v, ds, x);
    }
  }

  lemma DefaultedIs(k: Config, v: Values, ds: seq<Default>, t: Tri)
    requires IsDefaulted(k, v, ds, t)
    ensures t == DefaultTri(k, v, ds)
  {
    if NoDefaultInForce(k, v, ds) {
      NoDefault(k, v, ds);
    } else {
      var i: nat :| DefaultInForce(k, v, ds, i) && IsLesser(t, Worth(k, v, ds[i].value), Worth(k, v, ds[i].cond));
      FirstDefault(k, v, ds, i);
    }
  }

  /** The value of a bool or tristate symbol: its own or, if that is larger, the one it is selected to, m promoted. */
  lemma TriIs(k: Config, u: User, s: Sym, own: Tri, t: Tri)
    requires WellFormed(k) && IsDefined(k, s) && IsLogical(k.defs[s].orig)
    requires IsOwn(k, u, Current(k, u), s, own) && IsLarger(t, own, Worth(k, Current(k, u), k.defs[s].revDep))
    ensures IsPromoted(k, Current(k, u), s, t, Current(k, u).tri(s))
  {
    CurrentIsComputed(k, u, TriKey(s));
    OwnIs(k, u, Current(k, u), s, own);
  }

  /** There is always exactly one such value. */
  lemma OwnExists(k: Config, u: User, v: Values, s: Sym) returns (own: Tri)
    requires s < |k.defs|
    ensures IsOwn(k, u, v, s, own)
    ensures forall t: Tri :: IsOwn(k, u, v, s, t) ==> t == own
  {
    own := OwnTri(k, u, v, s);
    var ds := k.defs[s].defaults;
    var x := DefaultTri(k, v, ds);
    if !NoDefaultInForce(k, v, ds) {
      var i := FirstInForce(k, v, ds);
      FirstDefault(k, v, ds, i);
    } else {
      NoDefault(k, v, ds);
    }
    assert IsDefaulted(k, v, ds, x);
    assert IsImplied(k, v, s, own) || (UserInForce(u, v, s) && u[s].TriVal?);
    forall t: Tri | IsOwn(k, u, v, s, t)
      ensures t == own
    {
      OwnIs(k, u, v, s, t);
    }
  }

  lemma {:induction false} FirstInForce(k: Config, v: Values, ds: seq<Default>) returns (i: nat)
    requires !NoDefaultInForce(k, v, ds)
    ensures DefaultInForce(k, v, ds, i)
  {
    if Meets(k, v, ds[0].cond) {
      i := 0;
    } else {
      var j :| 0 <= j < |ds| && Meets(k, v, ds[j].cond);
      assert ds[1..][j - 1] == ds[j];
      i := FirstInForce(k, v, ds[1..]);
      forall h | 0 <= h < i + 1
        ensures !Meets(k, v, ds[h].cond)
      {
        assert h > 0 ==> ds[h] == ds[1..][h - 1];
      }
      i := i + 1;
    }
  }

  /** A symbol that nobody has set, selects or implies is worth its first default with a condition that is met, and no
      more than that condition. */
  lemma DefaultCounts(k: Config, u: User, s: Sym, i: nat, t: Tri)
    requires WellFormed(k) && IsDefined(k, s) && IsLogical(k.defs[s].orig)
    requires var v, d := Current(k, u), k.defs[s];
             && !UserInForce(u, v, s) && Worth(k, v, d.revDep) == 0 && (Worth(k, v, d.weakRevDep) == 0 || Worth(k, v, d.directDep) == 0)
             && DefaultInForce(k, v, d.defaults, i)
             && IsLesser(t, Worth(k, v, d.defaults[i].value), Worth(k, v, d.defaults[i].cond))
    ensures IsPromoted(k, Current(k, u), s, t, Current(k, u).tri(s))
  {
    var v, d := Current(k, u), k.defs[s];
    assert IsDefaulted(k, v, d.defaults, t);
    assert IsImplied(k, v, s, t);
    TriIs(k, u, s, t, t);
  }

  /** Without such a default it is n. */
  lemma NoDefaultIsN(k: Config, u: User, s: Sym)
    requires WellFormed(k) && IsDefined(k, s) && IsLogical(k.defs[s].orig)
    requires var v, d := Current(k, u), k.defs[s];
             && !UserInForce(u, v, s) && Worth(k, v, d.revDep) == 0 && (Worth(k, v, d.weakRevDep) == 0 || Worth(k, v, d.directDep) == 0)
             && NoDefaultInForce(k, v, d.defaults)
    ensures Current(k, u).tri(s) == 0
  {
    var v, d := Current(k, u), k.defs[s];
    assert IsDefaulted(k, v, d.defaults, 0);
    assert IsImplied(k, v, s, 0);
    TriIs(k, u, s, 0, 0);
  }

  /** Other symbols are n in a logical context, except for the constants. */
  lemma OtherTriIs(k: Config, u: User, s: Sym)
    requires WellFormed(k) && s < |k.defs|
    ensures var d := k.defs[s];
            && (d.kind == CONSTANT && d.orig == TRISTATE ==> Current(k, u).tri(s) == d.constTri)
            && (d.orig != BOOL && d.orig != TRISTATE ==> Current(k, u).tri(s) == 0)
  {
    CurrentIsComputed(k, u, TriKey(s));
  }

  // ---------- strings and numbers ----------

  /** x is the string of the default in force, empty without one. */
  ghost predicate IsDefaultString(k: Config, v: Values, ds: seq<Default>, x: string) {
    if NoDefaultInForce(k, v, ds) then x == ""
    else exists i: nat :: DefaultInForce(k, v, ds, i) && ds[i].value.SymOf? && x == v.str(ds[i].value.s)
  }

  lemma DefaultStringIs(k: Config, v: Values, ds: seq<Default>, x: string)
    requires IsDefaultString(k, v, ds, x)
    ensures x == DefaultStr(k, v, ds) && (AnyDefault(k, v, ds) <==> !NoDefaultInForce(k, v, ds))
  {
    if NoDefaultInForce(k, v, ds) {
      NoDefault(k, v, ds);
    } else {
      var i: nat :| DefaultInForce(k, v, ds, i) && ds[i].value.SymOf? && x == v.str(ds[i].value.s);
      FirstDefault(k, v, ds, i);
    }
  }

  /** The string of a symbol: n, m or y for a logical one, the name for one without a type, and for one of type string
      what the user gave it while it is visible, or the default. */
  lemma StringIs(k: Config, u: User, s: Sym, x: string)
    requires WellFormed(k) && s < |k.defs|
    requires IsDefaultString(k, Current(k, u), k.defs[s].defaults, x)
    ensures var v, d := Current(k, u), k.defs[s];
            match d.orig
            case BOOL => v.str(s) == ["n", "m", "y"][v.tri(s)]
            case TRISTATE => v.str(s) == ["n", "m", "y"][v.tri(s)]
            case UNKNOWN => v.str(s) == d.name
            case STRING => v.str(s) == if UserInForce(u, v, s) && u[s].StrVal? then u[s].s else x
            case _ => true
  {
    CurrentIsComputed(k, u, StrKey(s));
    DefaultStringIs(k, Current(k, u), k.defs[s].defaults, x);
  }

  /** n is the number of a string, zero for a string that is none. */
  ghost predicate IsRead(k: Config, t: Type, x: string, n: int) {
    k.num(t, x) == Some(n) || (k.num(t, x) == None && n == 0)
  }

  lemma {:induction false} FirstRange(k: Config, v: Values, rs: seq<Range>, i: nat)
    requires RangeInForce(k, v, rs, i)
    ensures ActiveRange(k, v, rs) == Some(rs[i])
  {
    if i > 0 {
      assert rs[0] == rs[..i][0] && !Meets(k, v, rs[0].cond);
      assert rs[1..][i - 1] == rs[i];
      forall j | 0 <= j < i - 1
        ensures !Meets(k, v, rs[1..][j].cond)
      {
        assert rs[1..][j] == rs[j + 1];
      }
      FirstRange(k, v, rs[1..], i - 1);
    }
  }

  lemma {:induction false} NoRange(k: Config, v: Values, rs: seq<Range>)
    requires NoRangeInForce(k, v, rs)
    ensures ActiveRange(k, v, rs) == None
  {
    if rs != [] {
      assert !Meets(k, v, rs[0].cond);
      forall j | 0 <= j < |rs| - 1
        ensures !Meets(k, v, rs[1..][j].cond)
      {
        assert rs[1..][j] == rs[j + 1];
      }
      NoRange(k, v, rs[1..]);
    }
  }

  /** An int or hex symbol without a range in force: what the user gave it while it is visible, unless that is empty,
      or the default. */
  lemma UnlimitedNumberIs(k: Config, u: User, s: Sym, x: string)
    requires WellFormed(k) && s < |k.defs| && (k.defs[s].orig == INT || k.defs[s].orig == HEX)
    requires NoRangeInForce(k, Current(k, u), k.defs[s].ranges) && IsDefaultString(k, Current(k, u), k.defs[s].defaults, x)
    ensures var v := Current(k, u);
            v.str(s) == if UserInForce(u, v, s) && u[s].StrVal? && u[s].s != "" then u[s].s else x
  {
    CurrentIsComputed(k, u, StrKey(s));
    NoRange(k, Current(k, u), k.defs[s].ranges);
    DefaultStringIs(k, Current(k, u), k.defs[s].defaults, x);
  }

  /** The user value of a visible int or hex symbol counts, as written, if it lies in the range in force. */
  lemma UserNumberIs(k: Config, u: User, s: Sym, i: nat, low: int, high: int, n: int)
    requires WellFormed(k) && s < |k.defs| && (k.defs[s].orig == INT || k.defs[s].orig == HEX)
    requires var v, d := Current(k, u), k.defs[s];
             && RangeInForce(k, v, d.ranges, i)
             && IsRead(k, d.orig, v.str(d.ranges[i].low), low) && IsRead(k, d.orig, v.str(d.ranges[i].high), high)
             && UserInForce(u, v, s) && u[s].StrVal? && u[s].s != "" && IsRead(k, d.orig, u[s].s, n) && low <= n <= high
    ensures Current(k, u).str(s) == u[s].s
  {
    CurrentIsComputed(k, u, StrKey(s));
    FirstRange(k, Current(k, u), k.defs[s].ranges, i);
  }

  /** Otherwise the default counts, zero without one, moved to the nearer end of the range if it lies outside. */
  lemma LimitedNumberIs(k: Config, u: User, s: Sym, i: nat, low: int, high: int, x: string, n: int)
    requires WellFormed(k) && s < |k.defs| && (k.defs[s].orig == INT || k.defs[s].orig == HEX)
    requires var v, d := Current(k, u), k.defs[s];
             && RangeInForce(k, v, d.ranges, i)
             && IsRead(k, d.orig, v.str(d.ranges[i].low), low) && IsRead(k, d.orig, v.str(d.ranges[i].high), high)
             && IsDefaultString(k, v, d.defaults, x)
             && (if NoDefaultInForce(k, v, d.defaults) then n == 0 else IsRead(k, d.orig, x, n))
             && (UserInForce(u, v, s) && u[s].StrVal? && u[s].s != "" ==>
                   exists m :: IsRead(k, d.orig, u[s].s, m) && !(low <= m <= high))
    ensures Current(k, u).str(s) == if n < low then k.show(k.defs[s].orig, low)
                                    else if n > high then k.show(k.defs[s].orig, high)
                                    else x
  {
    var v, d := Current(k, u), k.defs[s];
    CurrentIsComputed(k, u, StrKey(s));
    FirstRange(k, v, d.ranges, i);
    DefaultStringIs(k, v, d.defaults, x);
    assert !TakesUser(k, u, v, s);
  }

  // ---------- what set_value accepts ----------

  /** set_value takes n and y for a bool symbol, m as well for a tristate one, given as numbers or as letters; any
      string for a string, a number in its base for an int and one that is not negative for a hex symbol; nothing else. */
  lemma AcceptedIff(o: K.Kconfig, s: Sym, x: Val)
    requires s < |o.k.defs|
    ensures o.FitsType(s, o.Meaning(s, x)) <==>
              match o.k.defs[s].orig
              case BOOL => x in {TriVal(0), TriVal(2), StrVal("n"), StrVal("y")}
              case TRISTATE => x in {TriVal(0), TriVal(1), TriVal(2), StrVal("n"), StrVal("m"), StrVal("y")}
              case STRING => x.StrVal?
              case INT => x.StrVal? && o.k.num(INT, x.s) != None
              case HEX => x.StrVal? && o.k.num(HEX, x.s) != None && o.k.num(HEX, x.s).value >= 0
              case UNKNOWN => false
    ensures o.FitsType(s, o.Meaning(s, x)) ==>
              o.Meaning(s, x) == if o.k.defs[s].orig != BOOL && o.k.defs[s].orig != TRISTATE then x
                                 else if x == StrVal("n") then TriVal(0)
                                 else if x == StrVal("m") then TriVal(1)
                                 else if x == StrVal("y") then TriVal(2)
                                 else x
  {
  }

  // ---------- dependents ----------

  /** A symbol mentions what its prompts, defaults, ranges and dependencies do. */
  lemma MentionedIff(d: Def, x: Sym)
    ensures x in DefMentions(d) <==>
              || (exists i :: 0 <= i < |d.prompts| && x in Mentions(d.prompts[i]))
              || (exists i :: 0 <= i < |d.defaults| && x in Mentions(d.defaults[i].value) + Mentions(d.defaults[i].cond))
              || (exists i :: 0 <= i < |d.ranges| && x in {d.ranges[i].low, d.ranges[i].high} + Mentions(d.ranges[i].cond))
              || x in Mentions(d.revDep) + Mentions(d.weakRevDep) + Mentions(d.directDep)
  {
    PromptsMention(d.prompts, x);
    DefaultsMention(d.defaults, x);
    RangesMention(d.ranges, x);
  }

  lemma {:induction false} PromptsMention(es: seq<Expr>, x: Sym)
    ensures x in MentionsOfAll(es) <==> exists i :: 0 <= i < |es| && x in Mentions(es[i])
  {
    if es != [] {
      PromptsMention(es[1..], x);
      assert forall i | 0 < i < |es| :: es[i] == es[1..][i - 1];
      assert forall i | 0 <= i < |es[1..]| :: es[1..][i] == es[i + 1];
    }
  }

  lemma {:induction false} DefaultsMention(ds: seq<Default>, x: Sym)
    ensures x in MentionsOfDefaults(ds) <==> exists i :: 0 <= i < |ds| && x in Mentions(ds[i].value) + Mentions(ds[i].cond)
  {
    if ds != [] {
      DefaultsMention(ds[1..], x);
      assert forall i | 0 < i < |ds| :: ds[i] == ds[1..][i - 1];
      assert forall i | 0 <= i < |ds[1..]| :: ds[1..][i] == ds[i + 1];
    }
  }

  lemma {:induction false} RangesMention(rs: seq<Range>, x: Sym)
    ensures x in MentionsOfRanges(rs) <==> exists i :: 0 <= i < |rs| && x in {rs[i].low, rs[i].high} + Mentions(rs[i].cond)
  {
    if rs != [] {
      RangesMention(rs[1..], x);
      assert forall i | 0 < i < |rs| :: rs[i] == rs[1..][i - 1];
      assert forall i | 0 <= i < |rs[1..]| :: rs[1..][i] == rs[i + 1];
    }
  }

  /** An expression mentions the symbols in its print. */
  lemma {:induction false} MentionedIsPrinted(e: Expr, x: Sym)
    ensures x in Mentions(e) <==> TSym(x) in Print(e)
  {
    match e
    case AndOf(a, b) =>
      MentionedIsPrinted(a, x);
      MentionedIsPrinted(b, x);
    case OrOf(a, b) =>
      MentionedIsPrinted(a, x);
      MentionedIsPrinted(b, x);
    case NotOf(f) => MentionedIsPrinted(f, x);
    case _ =>
  }
}
