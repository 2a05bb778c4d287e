/** Kconfig symbol values: how they are computed from user values and definitions, and the cache over them with its
    early-stopping invalidation. Symbols are numbered so that a symbol's definition mentions lower ones only, which
    is possible exactly for acyclic dependencies; there are no choices. */
module KconfigCache {
  import opened Options
  import opened KconfigExpr

  datatype Kind = DEFINED | UNDEFINED | CONSTANT

  /** A default value with its condition. */
  datatype Default = Default(value: Expr, cond: Expr)

  /** The range of an int or hex symbol, in force if its condition is met. */
  datatype Range = Range(low: Sym, high: Sym, cond: Expr)

  /** Prompt conditions over all definitions of the symbol, defaults, ranges, and the reverse, weak reverse and
      direct dependencies. constTri is the value of the constants n, m and y. */
  datatype Def = Def(kind: Kind, orig: Type, name: string, constTri: Tri, prompts: seq<Expr>, defaults: seq<Default>,
                     ranges: seq<Range>, revDep: Expr, weakRevDep: Expr, directDep: Expr)

  /** num reads a string as a number in the base of the type, if it is one; show writes one, for int and hex. */
  datatype Config = Config(defs: seq<Def>, modules: Sym, num: (Type, string) -> Option<int>, show: (Type, int) -> string)

  datatype Val = TriVal(t: Tri) | StrVal(s: string)

  type User = map<Sym, Val>

  /** One of the three cached values of a symbol. */
  datatype Key = VisKey(s: Sym) | TriKey(s: Sym) | StrKey(s: Sym)

  // ---------- well-formed configurations ----------

  function Mentions(e: Expr): set<Sym> {
    match e
    case SymOf(s) => {s}
    case AndOf(a, b) => Mentions(a) + Mentions(b)
    case OrOf(a, b) => Mentions(a) + Mentions(b)
    case NotOf(f) => Mentions(f)
    case RelOf(_, x, y) => {x, y}
  }

  function MentionsOfAll(es: seq<Expr>): set<Sym> {
    if es == [] then {} else Mentions(es[0]) + MentionsOfAll(es[1..])
  }

  function MentionsOfDefaults(ds: seq<Default>): set<Sym> {
    if ds == [] then {} else Mentions(ds[0].value) + Mentions(ds[0].cond) + MentionsOfDefaults(ds[1..])
  }

  function MentionsOfRanges(rs: seq<Range>): set<Sym> {
    if rs == [] then {} else {rs[0].low, rs[0].high} + Mentions(rs[0].cond) + MentionsOfRanges(rs[1..])
  }

  /** The symbols in a definition. */
  function DefMentions(d: Def): set<Sym> {
    MentionsOfAll(d.prompts) + MentionsOfDefaults(d.defaults) + MentionsOfRanges(d.ranges)
    + Mentions(d.revDep) + Mentions(d.weakRevDep) + Mentions(d.directDep)
  }

  /** The types whose default values are symbols, read as strings. */
  predicate HasStrings(d: Def) {
    d.orig == STRING || d.orig == INT || d.orig == HEX
  }

  /** All symbols of e are below n. */
  predicate Below(e: Expr, n: nat) {
    match e
    case SymOf(s) => s < n
    case AndOf(a, b) => Below(a, n) && Below(b, n)
    case OrOf(a, b) => Below(a, n) && Below(b, n)
    case NotOf(f) => Below(f, n)
    case RelOf(_, x, y) => x < n && y < n
  }

  function Numbers(n: nat): (r: set<Sym>)
    ensures forall x: Sym :: x in r <==> x < n
  {
    if n == 0 then {} else Numbers(n - 1) + {n - 1}
  }

  lemma {:induction false} BelowMentions(e: Expr, n: nat)
    requires Mentions(e) <= Numbers(n)
    ensures Below(e, n)
  {
    match e
    case AndOf(a, b) =>
      BelowMentions(a, n);
      BelowMentions(b, n);
    case OrOf(a, b) =>
      BelowMentions(a, n);
      BelowMentions(b, n);
    case NotOf(f) => BelowMentions(f, n);
    case SymOf(s) => assert s in Mentions(e);
    case RelOf(_, x, y) => assert x in Mentions(e) && y in Mentions(e);
  }

  lemma {:induction false} AllBelow(es: seq<Expr>, n: nat, i: nat)
    requires MentionsOfAll(es) <= Numbers(n) && i < |es|
    ensures Below(es[i], n)
  {
    assert Mentions(es[0]) <= MentionsOfAll(es) && MentionsOfAll(es[1..]) <= MentionsOfAll(es);
    if i == 0 {
      BelowMentions(es[0], n);
    } else {
      AllBelow(es[1..], n, i - 1);
    }
  }

  lemma {:induction false} DefaultsBelow(ds: seq<Default>, n: nat, i: nat)
    requires MentionsOfDefaults(ds) <= Numbers(n) && i < |ds|
    ensures Below(ds[i].value, n) && Below(ds[i].cond, n)
  {
    assert Mentions(ds[0].value) <= MentionsOfDefaults(ds) && Mentions(ds[0].cond) <= MentionsOfDefaults(ds);
    assert MentionsOfDefaults(ds[1..]) <= MentionsOfDefaults(ds);
    if i == 0 {
      BelowMentions(ds[0].value, n);
      BelowMentions(ds[0].cond, n);
    } else {
      DefaultsBelow(ds[1..], n, i - 1);
    }
  }

  lemma {:induction false} RangesBelow(rs: seq<Range>, n: nat, i: nat)
    requires MentionsOfRanges(rs) <= Numbers(n) && i < |rs|
    ensures rs[i].low < n && rs[i].high < n && Below(rs[i].cond, n)
  {
    assert {rs[0].low, rs[0].high} <= MentionsOfRanges(rs) && Mentions(rs[0].cond) <= MentionsOfRanges(rs);
    assert MentionsOfRanges(rs[1..]) <= MentionsOfRanges(rs);
    if i == 0 {
      assert rs[0].low in MentionsOfRanges(rs) && rs[0].high in MentionsOfRanges(rs);
      BelowMentions(rs[0].cond, n);
    } else {
      RangesBelow(rs[1..], n, i - 1);
    }
  }

  lemma PromptBelow(k: Config, s: Sym, i: nat)
    requires WellFormed(k) && s < |k.defs| && i < |k.defs[s].prompts|
    ensures Below(k.defs[s].prompts[i], s)
  {
    assert DefOk(k, s);
    PartsBelow(k, s);
    AllBelow(k.defs[s].prompts, s, i);
  }

  lemma DefaultBelow(k: Config, s: Sym, i: nat)
    requires WellFormed(k) && s < |k.defs| && i < |k.defs[s].defaults|
    ensures Below(k.defs[s].defaults[i].value, s) && Below(k.defs[s].defaults[i].cond, s)
    ensures HasStrings(k.defs[s]) ==> k.defs[s].defaults[i].value.SymOf?
  {
    assert DefOk(k, s);
    PartsBelow(k, s);
    DefaultsBelow(k.defs[s].defaults, s, i);
    assert k.defs[s].defaults[i] in k.defs[s].defaults;
  }

  lemma RangeBelow(k: Config, s: Sym, i: nat)
    requires WellFormed(k) && s < |k.defs| && i < |k.defs[s].ranges|
    ensures var r := k.defs[s].ranges[i]; r.low < s && r.high < s && Below(r.cond, s)
  {
    assert DefOk(k, s);
    PartsBelow(k, s);
    RangesBelow(k.defs[s].ranges, s, i);
  }

  lemma DependenciesBelow(k: Config, s: Sym)
    requires WellFormed(k) && s < |k.defs| && k.defs[s].kind == DEFINED
    ensures Below(k.defs[s].revDep, s) && Below(k.defs[s].weakRevDep, s) && Below(k.defs[s].directDep, s)
  {
    PartsBelow(k, s);
    BelowMentions(k.defs[s].revDep, s);
    BelowMentions(k.defs[s].weakRevDep, s);
    BelowMentions(k.defs[s].directDep, s);
  }

  lemma PartsBelow(k: Config, s: Sym)
    requires WellFormed(k) && s < |k.defs| && k.defs[s].kind == DEFINED
    ensures var d, below := k.defs[s], Numbers(s);
            && MentionsOfAll(d.prompts) <= below && MentionsOfDefaults(d.defaults) <= below && MentionsOfRanges(d.ranges) <= below
            && Mentions(d.revDep) <= below && Mentions(d.weakRevDep) <= below && Mentions(d.directDep) <= below
  {
    assert DefOk(k, s);
    assert forall x | x in DefMentions(k.defs[s]) :: x in Numbers(s);
    assert DefMentions(k.defs[s]) <= Numbers(s);
  }

  /** The definition of a defined symbol mentions lower symbols; the type of a tristate symbol depends on MODULES, which
      is lower, too; constants and undefined symbols have no properties, and what their dependencies say, which for
      the constants n, m and y is n, counts for nothing; the default of a string, int or hex symbol is a symbol. */
  ghost predicate WellFormed(k: Config) {
    && k.modules < |k.defs|
    && forall s | 0 <= s < |k.defs| :: DefOk(k, s)
  }

  ghost predicate DefOk(k: Config, s: Sym)
    requires s < |k.defs|
  {
    var d := k.defs[s];
    && (d.kind == DEFINED ==> forall x <- DefMentions(d) :: x < s)
    && (d.kind == DEFINED && d.orig == TRISTATE ==> k.modules < s)
    && (d.kind != DEFINED ==> d.prompts == [] && d.defaults == [] && d.ranges == [])
    && (d.kind == UNDEFINED ==> d.orig == UNKNOWN)
    && (d.kind == CONSTANT ==> d.orig == TRISTATE || d.orig == UNKNOWN)
    && (HasStrings(d) ==> forall x <- d.defaults :: x.value.SymOf?)
  }

  function Ctx(k: Config): Context {
    Context((x: Sym) => if x < |k.defs| then k.defs[x].orig else UNKNOWN, k.num)
  }

  // ---------- the values ----------

  function TriToStr(t: Tri): string {
    if t == 0 then "n" else if t == 1 then "m" else "y"
  }

  function PromptsValue(k: Config, v: Values, es: seq<Expr>): Tri {
    if es == [] then 0 else Max(ExprValue(Ctx(k), v, es[0]), PromptsValue(k, v, es[1..]))
  }

  /** The type property. */
  function TypeOf(k: Config, v: Values, s: Sym): Type
    requires s < |k.defs|
  {
    if k.defs[s].orig == TRISTATE && v.tri(k.modules) == 0 then BOOL else k.defs[s].orig
  }

  /** _visibility. */
  function VisOf(k: Config, v: Values, s: Sym): Tri
    requires s < |k.defs|
  {
    var vis := PromptsValue(k, v, k.defs[s].prompts);
    if vis == 1 && TypeOf(k, v, s) != TRISTATE then 2 else vis
  }

  function DefaultTri(k: Config, v: Values, ds: seq<Default>): Tri {
    if ds == [] then 0
    else
      var cond := ExprValue(Ctx(k), v, ds[0].cond);
      if cond != 0 then Min(ExprValue(Ctx(k), v, ds[0].value), cond) else DefaultTri(k, v, ds[1..])
  }

  function DefaultStr(k: Config, v: Values, ds: seq<Default>): string {
    if ds == [] then ""
    else if ExprValue(Ctx(k), v, ds[0].cond) != 0 then (if ds[0].value.SymOf? then v.str(ds[0].value.s) else "")
    else DefaultStr(k, v, ds[1..])
  }

  predicate AnyDefault(k: Config, v: Values, ds: seq<Default>) {
    ds != [] && (ExprValue(Ctx(k), v, ds[0].cond) != 0 || AnyDefault(k, v, ds[1..]))
  }

  /** The first range whose condition is met. */
  function ActiveRange(k: Config, v: Values, rs: seq<Range>): Option<Range> {
    if rs == [] then None
    else if ExprValue(Ctx(k), v, rs[0].cond) != 0 then Some(rs[0])
    else ActiveRange(k, v, rs[1..])
  }

  /** The number a string stands for; anything else counts as zero. */
  function NumOf(k: Config, t: Type, x: string): int {
    if k.num(t, x).Some? then k.num(t, x).value else 0
  }

  /** The numbers the range in force stands for, if one is. */
  datatype Limits = Unlimited | Limits(low: int, high: int)

  function LimitsOf(k: Config, v: Values, s: Sym): Limits
    requires s < |k.defs|
  {
    var r, t := ActiveRange(k, v, k.defs[s].ranges), k.defs[s].orig;
    if r.None? then Unlimited else Limits(NumOf(k, t, v.str(r.value.low)), NumOf(k, t, v.str(r.value.high)))
  }

  predicate Within(l: Limits, n: int) {
    l.Limits? ==> l.low <= n <= l.high
  }

  /** A default is written anew only if it has to be moved into the range. */
  function Clamped(k: Config, t: Type, l: Limits, x: string, n: int): string {
    if l.Limits? && n < l.low then k.show(t, l.low)
    else if l.Limits? && n > l.high then k.show(t, l.high)
    else x
  }

  predicate UsesUser(u: User, v: Values, s: Sym) {
    v.vis(s) != 0 && s in u
  }

  /** The value before the symbol is selected: the user's, or the default and what implies it. */
  function OwnTri(k: Config, u: User, v: Values, s: Sym): Tri
    requires s < |k.defs|
  {
    var d := k.defs[s];
    if UsesUser(u, v, s) && u[s].TriVal? then Min(u[s].t, v.vis(s))
    else
      var val, weak := DefaultTri(k, v, d.defaults), ExprValue(Ctx(k), v, d.weakRevDep);
      if weak != 0 && ExprValue(Ctx(k), v, d.directDep) != 0 then Max(weak, val) else val
  }

  function SelectedTri(k: Config, u: User, v: Values, s: Sym): Tri
    requires s < |k.defs|
  {
    Max(ExprValue(Ctx(k), v, k.defs[s].revDep), OwnTri(k, u, v, s))
  }

  /** tri_value. */
  function TriOf(k: Config, u: User, v: Values, s: Sym): Tri
    requires s < |k.defs|
  {
    var d := k.defs[s];
    if d.kind == CONSTANT && d.orig == TRISTATE then d.constTri
    else if !IsLogical(d.orig) then 0
    else
      var val := SelectedTri(k, u, v, s);
      if val == 1 && (TypeOf(k, v, s) == BOOL || ExprValue(Ctx(k), v, d.weakRevDep) == 2) then 2 else val
  }

  /** str_value. */
  function StrOf(k: Config, u: User, v: Values, s: Sym): string
    requires s < |k.defs|
  {
    var d := k.defs[s];
    if IsLogical(d.orig) then TriToStr(v.tri(s))
    else if d.orig == UNKNOWN then d.name
    else if d.orig == STRING then if UsesUser(u, v, s) && u[s].StrVal? then u[s].s else DefaultStr(k, v, d.defaults)
    else NumStr(k, u, v, s)
  }

  /** A user value in the range counts as it is written. */
  predicate TakesUser(k: Config, u: User, v: Values, s: Sym)
    requires s < |k.defs|
  {
    UsesUser(u, v, s) && u[s].StrVal? && u[s].s != "" && Within(LimitsOf(k, v, s), NumOf(k, k.defs[s].orig, u[s].s))
  }

  /** str_value of an int or hex symbol. */
  function NumStr(k: Config, u: User, v: Values, s: Sym): string
    requires s < |k.defs|
  {
    var d := k.defs[s];
    if TakesUser(k, u, v, s) then u[s].s
    else
      var x := DefaultStr(k, v, d.defaults);
      Clamped(k, d.orig, LimitsOf(k, v, s), x, if AnyDefault(k, v, d.defaults) then NumOf(k, d.orig, x) else 0)
  }

  /** What the value of a key comes to under v. */
  function Compute(k: Config, u: User, v: Values, key: Key): Val
    requires key.s < |k.defs|
  {
    match key
    case VisKey(s) => TriVal(VisOf(k, v, s))
    case TriKey(s) => TriVal(TriOf(k, u, v, s))
    case StrKey(s) => StrVal(StrOf(k, u, v, s))
  }

  function Get(v: Values, key: Key): Val {
    match key
    case VisKey(s) => TriVal(v.vis(s))
    case TriKey(s) => TriVal(v.tri(s))
    case StrKey(s) => StrVal(v.str(s))
  }

  // ---------- recomputation from the user values ----------

  /** The three values of the symbols below some number. */
  datatype Table = Table(vis: seq<Tri>, tri: seq<Tri>, str: seq<string>)

  function View(t: Table): Values {
    Values((x: Sym) => if x < |t.vis| then t.vis[x] else 0,
           (x: Sym) => if x < |t.tri| then t.tri[x] else 0,
           (x: Sym) => if x < |t.str| then t.str[x] else "")
  }

  /** All values below n, recomputed from scratch, lowest symbol first. */
  function Fresh(k: Config, u: User, n: nat): (t: Table)
    requires n <= |k.defs|
    ensures |t.vis| == |t.tri| == |t.str| == n
  {
    if n == 0 then Table([], [], [])
    else
      var t, s := Fresh(k, u, n - 1), n - 1;
      var t1 := t.(vis := t.vis + [VisOf(k, View(t), s)]);
      var t2 := t1.(tri := t.tri + [TriOf(k, u, View(t1), s)]);
      t2.(str := t.str + [StrOf(k, u, View(t2), s)])
  }

  /** The values of all symbols. */
  function Current(k: Config, u: User): Values {
    View(Fresh(k, u, |k.defs|))
  }

  // ---------- what an evaluation reads ----------

  function NumReads(c: Context, x: Sym): set<Key> {
    if IsLogical(c.types(x)) then {TriKey(x)} else {StrKey(x)}
  }

  function CompareReads(c: Context, v: Values, x: Sym, y: Sym): set<Key> {
    if c.types(x) == STRING && c.types(y) == STRING then {StrKey(x), StrKey(y)}
    else
      NumReads(c, x)
      + (if SymToNum(c, v, x).Some? then NumReads(c, y) else {})
      + (if SymToNum(c, v, x).Some? && SymToNum(c, v, y).Some? then {} else {StrKey(x), StrKey(y)})
  }

  /** The keys expr_value reads, short circuits taken into account. */
  function ExprReads(c: Context, v: Values, e: Expr): set<Key> {
    match e
    case SymOf(s) => {TriKey(s)}
    case AndOf(a, b) => ExprReads(c, v, a) + if ExprValue(c, v, a) == 0 then {} else ExprReads(c, v, b)
    case OrOf(a, b) => ExprReads(c, v, a) + if ExprValue(c, v, a) == 2 then {} else ExprReads(c, v, b)
    case NotOf(f) => ExprReads(c, v, f)
    case RelOf(_, x, y) => CompareReads(c, v, x, y)
  }

  function PromptsReads(k: Config, v: Values, es: seq<Expr>): set<Key> {
    if es == [] then {} else ExprReads(Ctx(k), v, es[0]) + PromptsReads(k, v, es[1..])
  }

  function TypeReads(k: Config, s: Sym): set<Key>
    requires s < |k.defs|
  {
    if k.defs[s].orig == TRISTATE then {TriKey(k.modules)} else {}
  }

  function VisReads(k: Config, v: Values, s: Sym): set<Key>
    requires s < |k.defs|
  {
    PromptsReads(k, v, k.defs[s].prompts) + if PromptsValue(k, v, k.defs[s].prompts) == 1 then TypeReads(k, s) else {}
  }

  function DefaultTriReads(k: Config, v: Values, ds: seq<Default>): set<Key> {
    if ds == [] then {}
    else ExprReads(Ctx(k), v, ds[0].cond)
         + if ExprValue(Ctx(k), v, ds[0].cond) != 0 then ExprReads(Ctx(k), v, ds[0].value) else DefaultTriReads(k, v, ds[1..])
  }

  function DefaultStrReads(k: Config, v: Values, ds: seq<Default>): set<Key> {
    if ds == [] then {}
    else ExprReads(Ctx(k), v, ds[0].cond)
         + if ExprValue(Ctx(k), v, ds[0].cond) != 0 then (if ds[0].value.SymOf? then {StrKey(ds[0].value.s)} else {})
           else DefaultStrReads(k, v, ds[1..])
  }

  function RangeReads(k: Config, v: Values, rs: seq<Range>): set<Key> {
    if rs == [] then {}
    else ExprReads(Ctx(k), v, rs[0].cond)
         + if ExprValue(Ctx(k), v, rs[0].cond) != 0 then {StrKey(rs[0].low), StrKey(rs[0].high)} else RangeReads(k, v, rs[1..])
  }

  function OwnReads(k: Config, u: User, v: Values, s: Sym): set<Key>
    requires s < |k.defs|
  {
    var d := k.defs[s];
    {VisKey(s)}
    + if UsesUser(u, v, s) && u[s].TriVal? then {}
      else DefaultTriReads(k, v, d.defaults) + ExprReads(Ctx(k), v, d.weakRevDep)
           + if ExprValue(Ctx(k), v, d.weakRevDep) != 0 then ExprReads(Ctx(k), v, d.directDep) else {}
  }

  function TriReads(k: Config, u: User, v: Values, s: Sym): set<Key>
    requires s < |k.defs|
  {
    var d := k.defs[s];
    if d.kind == CONSTANT || !IsLogical(d.orig) then {}
    else
      OwnReads(k, u, v, s) + ExprReads(Ctx(k), v, d.revDep)
      + if SelectedTri(k, u, v, s) != 1 then {}
        else TypeReads(k, s) + if TypeOf(k, v, s) == BOOL then {} else ExprReads(Ctx(k), v, d.weakRevDep)
  }

  function StrReads(k: Config, u: User, v: Values, s: Sym): set<Key>
    requires s < |k.defs|
  {
    var d := k.defs[s];
    if IsLogical(d.orig) then {TriKey(s)}
    else if d.orig == UNKNOWN then {}
    else if d.orig == STRING then
      {VisKey(s)} + if UsesUser(u, v, s) && u[s].StrVal? then {} else DefaultStrReads(k, v, d.defaults)
    else NumStrReads(k, u, v, s)
  }

  function NumStrReads(k: Config, u: User, v: Values, s: Sym): set<Key>
    requires s < |k.defs|
  {
    var d := k.defs[s];
    {VisKey(s)} + RangeReads(k, v, d.ranges)
    + if TakesUser(k, u, v, s) then {} else DefaultStrReads(k, v, d.defaults)
  }

  function Reads(k: Config, u: User, v: Values, key: Key): set<Key>
    requires key.s < |k.defs|
  {
    match key
    case VisKey(s) => VisReads(k, v, s)
    case TriKey(s) => TriReads(k, u, v, s)
    case StrKey(s) => StrReads(k, u, v, s)
  }

  ghost predicate Agree(v: Values, w: Values, keys: set<Key>) {
    forall key <- keys :: Get(v, key) == Get(w, key)
  }

  lemma {:induction false} ExprDetermined(c: Context, v: Values, w: Values, e: Expr)
    requires Agree(v, w, ExprReads(c, v, e))
    ensures ExprValue(c, v, e) == ExprValue(c, w, e) && ExprReads(c, v, e) == ExprReads(c, w, e)
  {
    match e
    case SymOf(s) => assert Get(v, TriKey(s)) == Get(w, TriKey(s));
    case AndOf(a, b) =>
      ExprDetermined(c, v, w, a);
      if ExprValue(c, v, a) != 0 {
        ExprDetermined(c, v, w, b);
      }
    case OrOf(a, b) =>
      ExprDetermined(c, v, w, a);
      if ExprValue(c, v, a) != 2 {
        ExprDetermined(c, v, w, b);
      }
    case NotOf(f) => ExprDetermined(c, v, w, f);
    case RelOf(_, x, y) => CompareDetermined(c, v, w, x, y);
  }

  lemma CompareDetermined(c: Context, v: Values, w: Values, x: Sym, y: Sym)
    requires Agree(v, w, CompareReads(c, v, x, y))
    ensures Compare(c, v, x, y) == Compare(c, w, x, y) && CompareReads(c, v, x, y) == CompareReads(c, w, x, y)
  {
    var r := CompareReads(c, v, x, y);
    assert forall key <- NumReads(c, x) :: key in r || (c.types(x) == STRING && c.types(y) == STRING);
    assert StrKey(x) in r ==> Get(v, StrKey(x)) == Get(w, StrKey(x));
    assert StrKey(y) in r ==> Get(v, StrKey(y)) == Get(w, StrKey(y));
    assert TriKey(x) in r ==> Get(v, TriKey(x)) == Get(w, TriKey(x));
    assert TriKey(y) in r ==> Get(v, TriKey(y)) == Get(w, TriKey(y));
  }

  lemma {:induction false} PromptsDetermined(k: Config, v: Values, w: Values, es: seq<Expr>)
    requires Agree(v, w, PromptsReads(k, v, es))
    ensures PromptsValue(k, v, es) == PromptsValue(k, w, es) && PromptsReads(k, v, es) == PromptsReads(k, w, es)
  {
    if es != [] {
      ExprDetermined(Ctx(k), v, w, es[0]);
      PromptsDetermined(k, v, w, es[1..]);
    }
  }

  lemma {:induction false} DefaultTriDetermined(k: Config, v: Values, w: Values, ds: seq<Default>)
    requires Agree(v, w, DefaultTriReads(k, v, ds))
    ensures DefaultTri(k, v, ds) == DefaultTri(k, w, ds) && DefaultTriReads(k, v, ds) == DefaultTriReads(k, w, ds)
  {
    if ds != [] {
      ExprDetermined(Ctx(k), v, w, ds[0].cond);
      if ExprValue(Ctx(k), v, ds[0].cond) != 0 {
        ExprDetermined(Ctx(k), v, w, ds[0].value);
      } else {
        DefaultTriDetermined(k, v, w, ds[1..]);
      }
    }
  }

  lemma {:induction false} DefaultStrDetermined(k: Config, v: Values, w: Values, ds: seq<Default>)
    requires Agree(v, w, DefaultStrReads(k, v, ds))
    ensures DefaultStr(k, v, ds) == DefaultStr(k, w, ds) && DefaultStrReads(k, v, ds) == DefaultStrReads(k, w, ds)
    ensures AnyDefault(k, v, ds) == AnyDefault(k, w, ds)
  {
    if ds != [] {
      ExprDetermined(Ctx(k), v, w, ds[0].cond);
      if ExprValue(Ctx(k), v, ds[0].cond) != 0 {
        assert ds[0].value.SymOf? ==> Get(v, StrKey(ds[0].value.s)) == Get(w, StrKey(ds[0].value.s));
      } else {
        DefaultStrDetermined(k, v, w, ds[1..]);
      }
    }
  }

  lemma TypeDetermined(k: Config, v: Values, w: Values, s: Sym)
    requires s < |k.defs| && Agree(v, w, TypeReads(k, s))
    ensures TypeOf(k, v, s) == TypeOf(k, w, s)
  {
    assert k.defs[s].orig == TRISTATE ==> Get(v, TriKey(k.modules)) == Get(w, TriKey(k.modules));
  }

  lemma VisDetermined(k: Config, v: Values, w: Values, s: Sym)
    requires s < |k.defs| && Agree(v, w, VisReads(k, v, s))
    ensures VisOf(k, v, s) == VisOf(k, w, s) && VisReads(k, v, s) == VisReads(k, w, s)
  {
    PromptsDetermined(k, v, w, k.defs[s].prompts);
    if PromptsValue(k, v, k.defs[s].prompts) == 1 {
      TypeDetermined(k, v, w, s);
    }
  }

  /** Two sets of user values that treat a symbol alike. */
  predicate SameUser(u: User, u': User, s: Sym) {
    (s in u <==> s in u') && (s in u ==> u[s] == u'[s])
  }

  lemma OwnDetermined(k: Config, u: User, u': User, v: Values, w: Values, s: Sym)
    requires s < |k.defs| && Agree(v, w, OwnReads(k, u, v, s)) && SameUser(u, u', s)
    ensures OwnTri(k, u, v, s) == OwnTri(k, u', w, s) && OwnReads(k, u, v, s) == OwnReads(k, u', w, s)
  {
    var d := k.defs[s];
    assert VisKey(s) in OwnReads(k, u, v, s);
    assert Get(v, VisKey(s)) == Get(w, VisKey(s));
    if !(UsesUser(u, v, s) && u[s].TriVal?) {
      DefaultTriDetermined(k, v, w, d.defaults);
      ExprDetermined(Ctx(k), v, w, d.weakRevDep);
      if ExprValue(Ctx(k), v, d.weakRevDep) != 0 {
        ExprDetermined(Ctx(k), v, w, d.directDep);
      }
    }
  }

  lemma TriDetermined(k: Config, u: User, u': User, v: Values, w: Values, s: Sym)
    requires s < |k.defs| && Agree(v, w, TriReads(k, u, v, s)) && SameUser(u, u', s)
    requires k.defs[s].kind == CONSTANT ==> k.defs[s].orig == TRISTATE || k.defs[s].orig == UNKNOWN
    ensures TriOf(k, u, v, s) == TriOf(k, u', w, s) && TriReads(k, u, v, s) == TriReads(k, u', w, s)
  {
    var d := k.defs[s];
    if d.kind != CONSTANT && IsLogical(d.orig) {
      OwnDetermined(k, u, u', v, w, s);
      ExprDetermined(Ctx(k), v, w, d.revDep);
      assert SelectedTri(k, u, v, s) == SelectedTri(k, u', w, s);
      if SelectedTri(k, u, v, s) == 1 {
        TypeDetermined(k, v, w, s);
        if TypeOf(k, v, s) != BOOL {
          ExprDetermined(Ctx(k), v, w, d.weakRevDep);
        }
      }
    }
  }

  lemma {:induction false} RangeDetermined(k: Config, v: Values, w: Values, rs: seq<Range>)
    requires Agree(v, w, RangeReads(k, v, rs))
    ensures ActiveRange(k, v, rs) == ActiveRange(k, w, rs) && RangeReads(k, v, rs) == RangeReads(k, w, rs)
    ensures ActiveRange(k, v, rs).Some? ==>
              var r := ActiveRange(k, v, rs).value; v.str(r.low) == w.str(r.low) && v.str(r.high) == w.str(r.high)
  {
    if rs != [] {
      ExprDetermined(Ctx(k), v, w, rs[0].cond);
      if ExprValue(Ctx(k), v, rs[0].cond) != 0 {
        assert Get(v, StrKey(rs[0].low)) == Get(w, StrKey(rs[0].low)) && Get(v, StrKey(rs[0].high)) == Get(w, StrKey(rs[0].high));
      } else {
        RangeDetermined(k, v, w, rs[1..]);
      }
    }
  }

  lemma NumStrDetermined(k: Config, u: User, u': User, v: Values, w: Values, s: Sym)
    requires s < |k.defs| && Agree(v, w, NumStrReads(k, u, v, s)) && SameUser(u, u', s)
    ensures NumStr(k, u, v, s) == NumStr(k, u', w, s) && NumStrReads(k, u, v, s) == NumStrReads(k, u', w, s)
  {
    var d := k.defs[s];
    assert VisKey(s) in NumStrReads(k, u, v, s);
    assert Get(v, VisKey(s)) == Get(w, VisKey(s));
    RangeDetermined(k, v, w, d.ranges);
    assert TakesUser(k, u, v, s) == TakesUser(k, u', w, s);
    if !TakesUser(k, u, v, s) {
      DefaultStrDetermined(k, v, w, d.defaults);
    }
  }

  lemma StrDetermined(k: Config, u: User, u': User, v: Values, w: Values, s: Sym)
    requires s < |k.defs| && Agree(v, w, StrReads(k, u, v, s)) && SameUser(u, u', s)
    ensures StrOf(k, u, v, s) == StrOf(k, u', w, s) && StrReads(k, u, v, s) == StrReads(k, u', w, s)
  {
    var d := k.defs[s];
    if IsLogical(d.orig) {
      assert Get(v, TriKey(s)) == Get(w, TriKey(s));
    } else if d.orig == INT || d.orig == HEX {
      NumStrDetermined(k, u, u', v, w, s);
    } else if d.orig != UNKNOWN {
      assert VisKey(s) in StrReads(k, u, v, s);
      assert Get(v, VisKey(s)) == Get(w, VisKey(s));
      if !(UsesUser(u, v, s) && u[s].StrVal?) {
        DefaultStrDetermined(k, v, w, d.defaults);
      }
    }
  }

  /** The value of a key depends on nothing but what its evaluation reads and its own user value. */
  lemma KeyDetermined(k: Config, u: User, u': User, v: Values, w: Values, key: Key)
    requires WellFormed(k) && key.s < |k.defs| && Agree(v, w, Reads(k, u, v, key)) && SameUser(u, u', key.s)
    ensures Compute(k, u, v, key) == Compute(k, u', w, key) && Reads(k, u, v, key) == Reads(k, u', w, key)
  {
    assert DefOk(k, key.s);
    match key
    case VisKey(s) => VisDetermined(k, v, w, s);
    case TriKey(s) => TriDetermined(k, u, u', v, w, s);
    case StrKey(s) => StrDetermined(k, u, u', v, w, s);
  }

  // ---------- evaluations read what is mentioned ----------

  lemma {:induction false} ExprReadsMentioned(c: Context, v: Values, e: Expr)
    ensures forall key <- ExprReads(c, v, e) :: key.s in Mentions(e)
  {
    match e
    case AndOf(a, b) =>
      ExprReadsMentioned(c, v, a);
      ExprReadsMentioned(c, v, b);
    case OrOf(a, b) =>
      ExprReadsMentioned(c, v, a);
      ExprReadsMentioned(c, v, b);
    case NotOf(f) => ExprReadsMentioned(c, v, f);
    case _ =>
  }

  lemma {:induction false} PromptsReadsMentioned(k: Config, v: Values, es: seq<Expr>)
    ensures forall key <- PromptsReads(k, v, es) :: key.s in MentionsOfAll(es)
  {
    if es != [] {
      ExprReadsMentioned(Ctx(k), v, es[0]);
      PromptsReadsMentioned(k, v, es[1..]);
    }
  }

  lemma {:induction false} DefaultReadsMentioned(k: Config, v: Values, ds: seq<Default>)
    ensures forall key <- DefaultTriReads(k, v, ds) :: key.s in MentionsOfDefaults(ds)
    ensures forall key <- DefaultStrReads(k, v, ds) :: key.s in MentionsOfDefaults(ds)
  {
    if ds != [] {
      ExprReadsMentioned(Ctx(k), v, ds[0].cond);
      ExprReadsMentioned(Ctx(k), v, ds[0].value);
      DefaultReadsMentioned(k, v, ds[1..]);
    }
  }

  lemma {:induction false} RangeReadsMentioned(k: Config, v: Values, rs: seq<Range>)
    ensures forall key <- RangeReads(k, v, rs) :: key.s in MentionsOfRanges(rs)
  {
    if rs != [] {
      ExprReadsMentioned(Ctx(k), v, rs[0].cond);
      RangeReadsMentioned(k, v, rs[1..]);
    }
  }

  function Rank(key: Key): nat {
    match key
    case VisKey(_) => 0
    case TriKey(_) => 1
    case StrKey(_) => 2
  }

  /** What an evaluation reads: symbols of the definition, MODULES for a tristate symbol, and lower values of the
      symbol itself. */
  ghost predicate ReadOk(k: Config, key: Key, r: Key)
    requires key.s < |k.defs|
  {
    || (k.defs[key.s].kind == DEFINED && r.s in DefMentions(k.defs[key.s]))
    || (r == TriKey(k.modules) && k.defs[key.s].kind == DEFINED && k.defs[key.s].orig == TRISTATE)
    || (r.s == key.s && Rank(r) < Rank(key))
  }

  lemma ReadsAreMentioned(k: Config, u: User, v: Values, key: Key)
    requires WellFormed(k) && key.s < |k.defs|
    ensures forall r <- Reads(k, u, v, key) :: ReadOk(k, key, r)
  {
    hide ExprReads, RangeReads, DefaultTriReads, DefaultStrReads, PromptsReads;
    var d := k.defs[key.s];
    assert DefOk(k, key.s);
    PromptsReadsMentioned(k, v, d.prompts);
    DefaultReadsMentioned(k, v, d.defaults);
    RangeReadsMentioned(k, v, d.ranges);
    ExprReadsMentioned(Ctx(k), v, d.revDep);
    ExprReadsMentioned(Ctx(k), v, d.weakRevDep);
    ExprReadsMentioned(Ctx(k), v, d.directDep);
  }

  lemma ReadsAreLower(k: Config, key: Key, r: Key)
    requires WellFormed(k) && key.s < |k.defs| && ReadOk(k, key, r)
    ensures r.s < key.s || (r.s == key.s && Rank(r) < Rank(key))
  {
    assert DefOk(k, key.s);
  }

  // ---------- recomputation is what Compute says ----------

  lemma {:induction false} TableGrows(k: Config, u: User, n: nat, m: nat)
    requires n <= m <= |k.defs|
    ensures var t, t' := Fresh(k, u, n), Fresh(k, u, m);
            forall x | 0 <= x < n :: t.vis[x] == t'.vis[x] && t.tri[x] == t'.tri[x] && t.str[x] == t'.str[x]
  {
    if n < m {
      TableGrows(k, u, n, m - 1);
    }
  }

  /** t holds at least the values below n, and the first values of symbol n itself; T agrees with it. */
  ghost predicate Early(t: Table, T: Table) {
    && |t.vis| <= |T.vis| && |t.tri| <= |T.tri| && |t.str| <= |T.str|
    && (forall x | 0 <= x < |t.vis| :: t.vis[x] == T.vis[x])
    && (forall x | 0 <= x < |t.tri| :: t.tri[x] == T.tri[x])
    && (forall x | 0 <= x < |t.str| :: t.str[x] == T.str[x])
  }

  lemma EarlyAgrees(t: Table, T: Table, r: Key)
    requires Early(t, T)
    requires r.VisKey? ==> r.s < |t.vis|
    requires r.TriKey? ==> r.s < |t.tri|
    requires r.StrKey? ==> r.s < |t.str|
    ensures Get(View(t), r) == Get(View(T), r)
  {
  }

  /** Every value is what its evaluation gives under all the values. */
  lemma CurrentIsComputed(k: Config, u: User, key: Key)
    requires WellFormed(k) && key.s < |k.defs|
    ensures Get(Current(k, u), key) == Compute(k, u, Current(k, u), key)
  {
    var s, T := key.s, Fresh(k, u, |k.defs|);
    var t := Fresh(k, u, s);
    var t1 := t.(vis := t.vis + [VisOf(k, View(t), s)]);
    var t2 := t1.(tri := t.tri + [TriOf(k, u, View(t1), s)]);
    var t3 := t2.(str := t.str + [StrOf(k, u, View(t2), s)]);
    assert Fresh(k, u, s + 1) == t3;
    TableGrows(k, u, s + 1, |k.defs|);
    assert Early(t3, T);
    EarlyAgrees(t3, T, key);
    match key
    case VisKey(_) => ComputedFrom(k, u, t, T, key);
    case TriKey(_) => ComputedFrom(k, u, t1, T, key);
    case StrKey(_) => ComputedFrom(k, u, t2, T, key);
  }

  /** What the value of a bool or tristate symbol obeys, whatever its defaults: a select bounds it from below;
      no bool symbol, and no tristate one while modules are off, has the value or the visibility m; a user
      value counts as far as the visibility lets it, and not at all for an invisible symbol; and the string is
      the name of the tristate value. */
  lemma CurrentTriLaws(k: Config, u: User, s: Sym)
    requires WellFormed(k) && IsDefined(k, s) && IsLogical(k.defs[s].orig)
    ensures var v, d := Current(k, u), k.defs[s];
            && ExprValue(Ctx(k), v, d.revDep) <= v.tri(s)
            && (TypeOf(k, v, s) == BOOL ==> v.tri(s) != 1 && v.vis(s) != 1)
            && (UsesUser(u, v, s) && u[s].TriVal? && ExprValue(Ctx(k), v, d.revDep) == 0 && ExprValue(Ctx(k), v, d.weakRevDep) == 0 ==>
                  v.tri(s) == if Min(u[s].t, v.vis(s)) == 1 && TypeOf(k, v, s) == BOOL then 2 else Min(u[s].t, v.vis(s)))
            && (v.vis(s) == 0 ==> v.tri(s) == TriOf(k, u - {s}, v, s))
            && v.str(s) == TriToStr(v.tri(s))
  {
    CurrentIsComputed(k, u, VisKey(s));
    CurrentIsComputed(k, u, TriKey(s));
    CurrentIsComputed(k, u, StrKey(s));
  }

  /** What the value of an int or hex symbol obeys if num reads back what show writes: a range in force that is not
      empty holds for it, whatever the user and the defaults say; and a user value of a visible symbol that the
      range allows is the value, exactly as it was written. */
  lemma CurrentNumLaws(k: Config, u: User, s: Sym)
    requires WellFormed(k) && IsDefined(k, s) && (k.defs[s].orig == INT || k.defs[s].orig == HEX)
    requires k.num(k.defs[s].orig, "").None? && forall n: int :: k.num(k.defs[s].orig, k.show(k.defs[s].orig, n)) == Some(n)
    ensures var v, t := Current(k, u), k.defs[s].orig;
            var l := LimitsOf(k, v, s);
            && (l.Limits? && l.low <= l.high ==> Within(l, NumOf(k, t, v.str(s))))
            && (TakesUser(k, u, v, s) ==> v.str(s) == u[s].s)
            && (v.vis(s) == 0 ==> v.str(s) == NumStr(k, u - {s}, v, s))
  {
    var v := Current(k, u);
    CurrentIsComputed(k, u, StrKey(s));
    NoDefaultNoString(k, v, k.defs[s].defaults);
  }

  lemma {:induction false} NoDefaultNoString(k: Config, v: Values, ds: seq<Default>)
    ensures !AnyDefault(k, v, ds) ==> DefaultStr(k, v, ds) == ""
  {
    if ds != [] {
      NoDefaultNoString(k, v, ds[1..]);
    }
  }

  lemma ComputedFrom(k: Config, u: User, t: Table, T: Table, key: Key)
    requires WellFormed(k) && key.s < |k.defs| && Early(t, T) && key.s <= |t.str|
    requires |t.vis| >= key.s + (if key.VisKey? then 0 else 1) && |t.tri| >= key.s + (if key.StrKey? then 1 else 0)
    ensures Compute(k, u, View(t), key) == Compute(k, u, View(T), key)
  {
    forall r: Key | r.s < key.s || (r.s == key.s && Rank(r) < Rank(key))
      ensures Get(View(t), r) == Get(View(T), r)
    {
      EarlyAgrees(t, T, r);
    }
    ComputedEarly(k, u, View(t), View(T), key);
  }

  lemma ComputedEarly(k: Config, u: User, v: Values, w: Values, key: Key)
    requires WellFormed(k) && key.s < |k.defs|
    requires forall r: Key | r.s < key.s || (r.s == key.s && Rank(r) < Rank(key)) :: Get(v, r) == Get(w, r)
    ensures Compute(k, u, v, key) == Compute(k, u, w, key)
  {
    ReadsAreMentioned(k, u, v, key);
    forall r | r in Reads(k, u, v, key)
      ensures Get(v, r) == Get(w, r)
    {
      ReadsAreLower(k, key, r);
    }
    KeyDetermined(k, u, u, v, w, key);
  }

  // ---------- the cache ----------

  datatype Caches = Caches(vis: map<Sym, Tri>, tri: map<Sym, Tri>, str: map<Sym, string>)

  predicate Has(c: Caches, key: Key) {
    match key
    case VisKey(s) => s in c.vis
    case TriKey(s) => s in c.tri
    case StrKey(s) => s in c.str
  }

  function Cached(c: Caches, key: Key): Val
    requires Has(c, key)
  {
    match key
    case VisKey(s) => TriVal(c.vis[s])
    case TriKey(s) => TriVal(c.tri[s])
    case StrKey(s) => StrVal(c.str[s])
  }

  predicate IsDefined(k: Config, s: Sym) {
    s < |k.defs| && k.defs[s].kind == DEFINED
  }

  predicate IsConstTri(d: Def) {
    d.kind == CONSTANT && d.orig == TRISTATE
  }

  /** A value whose calculation involves the visibility as a side effect. */
  predicate NeedsVis(k: Config, key: Key) {
    IsDefined(k, key.s) &&
    match key
    case VisKey(_) => true
    case TriKey(s) => IsLogical(k.defs[s].orig)
    case StrKey(s) => k.defs[s].orig != UNKNOWN
  }

  /** A cached value is the recomputed one; what its evaluation read is cached, too; and _cached_vis is set with it. */
  ghost predicate EntryOk(k: Config, u: User, v: Values, c: Caches, key: Key)
    requires Has(c, key)
  {
    && key.s < |k.defs| && Cached(c, key) == Get(v, key)
    && (forall r <- Reads(k, u, v, key) :: Has(c, r))
    && (NeedsVis(k, key) ==> key.s in c.vis)
  }

  ghost predicate CacheOk(k: Config, u: User, c: Caches) {
    && (forall key: Key | Has(c, key) :: EntryOk(k, u, Current(k, u), c, key))
    && forall s | 0 <= s < |k.defs| && IsConstTri(k.defs[s]) :: s in c.tri
  }

  ghost predicate Grown(c: Caches, c': Caches) {
    forall key: Key | Has(c, key) :: Has(c', key) && Cached(c', key) == Cached(c, key)
  }

  function Add(c: Caches, key: Key, x: Val): Caches
    requires x.StrVal? <==> key.StrKey?
  {
    match key
    case VisKey(s) => c.(vis := c.vis[s := x.t])
    case TriKey(s) => c.(tri := c.tri[s := x.t])
    case StrKey(s) => c.(str := c.str[s := x.s])
  }

  lemma AddGrows(c: Caches, key: Key, x: Val, k: Config, u: User)
    requires CacheOk(k, u, c) && x == Get(Current(k, u), key)
    ensures Grown(c, Add(c, key, x)) && Has(Add(c, key, x), key) && Cached(Add(c, key, x), key) == x
    ensures forall y: Key | y != key :: Has(Add(c, key, x), y) <==> Has(c, y)
  {
    if Has(c, key) {
      assert EntryOk(k, u, Current(k, u), c, key);
    }
  }

  lemma AddKeeps(k: Config, u: User, c: Caches, key: Key)
    requires CacheOk(k, u, c) && key.s < |k.defs|
    requires forall r <- Reads(k, u, Current(k, u), key) :: Has(c, r)
    requires NeedsVis(k, key) && !key.VisKey? ==> key.s in c.vis
    ensures var c' := Add(c, key, Get(Current(k, u), key)); CacheOk(k, u, c') && Has(c', key) && Grown(c, c')
  {
    var c' := Add(c, key, Get(Current(k, u), key));
    AddGrows(c, key, Get(Current(k, u), key), k, u);
    forall x: Key | Has(c', x)
      ensures EntryOk(k, u, Current(k, u), c', x)
    {
      if x != key {
        assert Has(c, x) && EntryOk(k, u, Current(k, u), c, x);
      }
    }
  }

  // ---------- invalidation ----------

  /** The symbols whose values may depend on symbol i, by _build_dep; constants have none. */
  function Dependents(k: Config, i: Sym): set<Sym>
    requires i < |k.defs|
  {
    if k.defs[i].kind == CONSTANT then {}
    else set d | 0 <= d < |k.defs| && k.defs[d].kind == DEFINED && i in DefMentions(k.defs[d])
  }

  /** c' is c without the values of the symbols in gone. */
  ghost predicate Cleared(c: Caches, c': Caches, gone: set<Sym>) {
    forall key: Key ::
      && (Has(c', key) <==> Has(c, key) && key.s !in gone)
      && (Has(c', key) ==> Cached(c', key) == Cached(c, key))
  }

  /** No dependent of a cleared symbol has a visibility left, and if MODULES was cleared, no symbol has. */
  ghost predicate NothingDepends(k: Config, c: Caches, i: Sym)
    requires i < |k.defs|
  {
    && (forall d <- Dependents(k, i) :: d !in c.vis)
    && (i == k.modules ==> forall d | IsDefined(k, d) :: d !in c.vis)
  }

  /** The definition of d mentions s, or a symbol that s reaches in this way; or d is s. */
  ghost predicate Reaches(k: Config, s: Sym, d: Sym)
    decreases d
  {
    d == s || (IsDefined(k, d) && exists m <- DefMentions(k.defs[d]) :: m < d && Reaches(k, s, m))
  }

  /** A value of symbol d may depend on the user value of s: s reaches it, or MODULES, on which all depend. */
  ghost predicate MayFollow(k: Config, s: Sym, d: Sym) {
    IsDefined(k, d) && (Reaches(k, s, d) || Reaches(k, s, k.modules))
  }

  lemma {:induction false} ReachesOn(k: Config, s: Sym, m: Sym, d: Sym)
    requires WellFormed(k) && s < |k.defs| && m in Dependents(k, s) && Reaches(k, m, d)
    ensures Reaches(k, s, d)
    decreases d
  {
    if d == m {
      assert DefOk(k, m);
      assert s in DefMentions(k.defs[m]) && s < m && Reaches(k, s, s);
    } else {
      var x :| x in DefMentions(k.defs[d]) && x < d && Reaches(k, m, x);
      ReachesOn(k, s, m, x);
      assert d == s || Reaches(k, s, x);
    }
  }

  lemma FollowsOn(k: Config, s: Sym, m: Sym, more: set<Sym>)
    requires WellFormed(k) && s < |k.defs| && m in Dependents(k, s) && forall d <- more :: MayFollow(k, m, d)
    ensures forall d <- more :: MayFollow(k, s, d)
  {
    forall d | d in more
      ensures MayFollow(k, s, d)
    {
      if Reaches(k, m, d) {
        ReachesOn(k, s, m, d);
      } else {
        ReachesOn(k, s, m, k.modules);
      }
    }
  }

  ghost predicate ClosedUnder(k: Config, c: Caches, gone: set<Sym>) {
    forall i <- gone :: IsDefined(k, i) && NothingDepends(k, c, i)
  }

  lemma UndefinedReads(k: Config, u: User, v: Values, key: Key)
    requires WellFormed(k) && key.s < |k.defs| && !NeedsVis(k, key)
    ensures forall r <- Reads(k, u, v, key) :: r.s == key.s
  {
    assert DefOk(k, key.s);
  }

  /** What a surviving value was computed from survives as well: otherwise its symbol would have been reached. */
  lemma ReadsSurvive(k: Config, u: User, c: Caches, c': Caches, gone: set<Sym>, key: Key, r: Key)
    requires WellFormed(k) && CacheOk(k, u, c) && Cleared(c, c', gone) && ClosedUnder(k, c', gone)
    requires Has(c', key) && key.s < |k.defs| && r in Reads(k, u, Current(k, u), key)
    ensures Has(c', r)
  {
    hide Reads, Current, DefMentions;
    assert Has(c, key) && EntryOk(k, u, Current(k, u), c, key);
    assert Has(c, r);
    ReadsAreMentioned(k, u, Current(k, u), key);
    assert ReadOk(k, key, r);
    UndefinedReadsOwn(k, u, key, r);
    assert EntryOk(k, u, Current(k, u), c, r);
    assert NeedsVis(k, key) && r.s in DefMentions(k.defs[key.s]) && k.defs[r.s].kind != CONSTANT ==> key.s in Dependents(k, r.s);
    assert NeedsVis(k, key) ==> Has(c, VisKey(key.s));
    assert r.s != key.s ==> Has(c', VisKey(key.s));
    if r.s in gone {
      assert false;
    }
  }

  lemma UndefinedReadsOwn(k: Config, u: User, key: Key, r: Key)
    requires WellFormed(k) && key.s < |k.defs| && r in Reads(k, u, Current(k, u), key)
    ensures r.s != key.s ==> NeedsVis(k, key)
  {
    if !NeedsVis(k, key) {
      UndefinedReads(k, u, Current(k, u), key);
    }
  }

  /** A value that survives the invalidation is not changed by the new user values. */
  lemma {:induction false} SurvivorUnchanged(k: Config, u: User, u': User, c: Caches, c': Caches, gone: set<Sym>, key: Key)
    requires WellFormed(k) && CacheOk(k, u, c) && Cleared(c, c', gone) && ClosedUnder(k, c', gone)
    requires forall s | s !in gone :: SameUser(u, u', s)
    requires Has(c', key)
    ensures key.s < |k.defs|
    ensures Get(Current(k, u), key) == Get(Current(k, u'), key)
    ensures Reads(k, u, Current(k, u), key) == Reads(k, u', Current(k, u'), key)
    decreases key.s, Rank(key)
  {
    var v, w := Current(k, u), Current(k, u');
    assert Has(c, key) && EntryOk(k, u, v, c, key);
    ReadsAreMentioned(k, u, v, key);
    forall r | r in Reads(k, u, v, key)
      ensures Get(v, r) == Get(w, r)
    {
      ReadsSurvive(k, u, c, c', gone, key, r);
      ReadsAreLower(k, key, r);
      SurvivorUnchanged(k, u, u', c, c', gone, r);
    }
    KeyDetermined(k, u, u', v, w, key);
    CurrentIsComputed(k, u, key);
    CurrentIsComputed(k, u', key);
  }

  /** Clearing a symbol, and recursively its dependents that have a visibility cached, is enough: every value left in
      the cache is what recomputation from the new user values gives. */
  lemma InvalidationIsEnough(k: Config, u: User, u': User, c: Caches, c': Caches, gone: set<Sym>)
    requires WellFormed(k) && CacheOk(k, u, c) && Cleared(c, c', gone) && ClosedUnder(k, c', gone)
    requires forall s | s !in gone :: SameUser(u, u', s)
    ensures CacheOk(k, u', c')
  {
    forall key: Key | Has(c', key)
      ensures EntryOk(k, u', Current(k, u'), c', key)
    {
      assert Has(c, key) && EntryOk(k, u, Current(k, u), c, key);
      SurvivorUnchanged(k, u, u', c, c', gone, key);
      forall r | r in Reads(k, u', Current(k, u'), key)
        ensures Has(c', r)
      {
        ReadsSurvive(k, u, c, c', gone, key, r);
      }
      if NeedsVis(k, key) {
        assert Has(c, VisKey(key.s)) && Has(c', VisKey(key.s));
      }
    }
    forall s | 0 <= s < |k.defs| && IsConstTri(k.defs[s])
      ensures s in c'.tri
    {
      assert Has(c, TriKey(s)) && Has(c', TriKey(s));
    }
  }

  lemma NoPromptInvisible(k: Config, u: User, s: Sym)
    requires WellFormed(k) && s < |k.defs| && k.defs[s].prompts == []
    ensures Current(k, u).vis(s) == 0
  {
    CurrentIsComputed(k, u, VisKey(s));
  }

  /** The values of an invisible symbol are computed without its user value. */
  lemma InvisibleIgnoresUser(k: Config, u: User, u': User, v: Values, key: Key)
    requires key.s < |k.defs| && v.vis(key.s) == 0
    ensures Compute(k, u, v, key) == Compute(k, u', v, key) && Reads(k, u, v, key) == Reads(k, u', v, key)
  {
  }

  /** A user value of a symbol without a prompt has no effect on any value. */
  lemma {:induction false} NoPromptNoEffect(k: Config, u: User, u': User, s: Sym, key: Key)
    requires WellFormed(k) && s < |k.defs| && k.defs[s].prompts == [] && key.s < |k.defs|
    requires forall x | x != s :: SameUser(u, u', x)
    ensures Get(Current(k, u), key) == Get(Current(k, u'), key)
    ensures Reads(k, u, Current(k, u), key) == Reads(k, u', Current(k, u'), key)
    decreases key.s, Rank(key)
  {
    hide Reads, Compute, ReadOk, Current, Get;
    var v, w := Current(k, u), Current(k, u');
    ReadsAreMentioned(k, u, v, key);
    forall r | r in Reads(k, u, v, key)
      ensures Get(v, r) == Get(w, r)
    {
      ReadsAreLower(k, key, r);
      assert DefOk(k, key.s);
      NoPromptNoEffect(k, u, u', s, r);
    }
    CurrentIsComputed(k, u, key);
    CurrentIsComputed(k, u', key);
    if key.s == s {
      KeyDetermined(k, u, u, v, w, key);
      NoPromptInvisible(k, u', s);
      InvisibleIgnoresUser(k, u, u', w, key);
    } else {
      KeyDetermined(k, u, u', v, w, key);
    }
  }
}
