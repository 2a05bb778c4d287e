/** The Kconfig object: the value properties that fill the symbols' caches, the user values, and the recursive
    invalidation. Whatever is read and set, every value returned is the one recomputed from the user values. */
module Kconfig {
  import opened Options
  import opened KconfigExpr
  import opened KconfigCache

  class Kconfig {
    const k: Config
    const dependents: seq<set<Sym>>        // _dependents
    var user: User                         // user_value
    var vis: map<Sym, Tri>                 // _cached_vis
    var tri: map<Sym, Tri>                 // _cached_tri_val
    var str: map<Sym, string>              // _cached_str_val

    ghost function Cache(): Caches
      reads this
    {
      Caches(vis, tri, str)
    }

    ghost function Now(): Values
      reads this
    {
      Current(k, user)
    }

    /** User values fit the types of their symbols. */
    predicate FitsType(s: Sym, x: Val)
      requires s < |k.defs|
    {
      match k.defs[s].orig
      case BOOL => x.TriVal? && x.t != 1
      case TRISTATE => x.TriVal?
      case STRING => x.StrVal?
      case INT => x.StrVal? && k.num(INT, x.s).Some?
      case HEX => x.StrVal? && k.num(HEX, x.s).Some? && k.num(HEX, x.s).value >= 0
      case UNKNOWN => false
    }

    /** What a value given to set_value stands for: a bool or tristate symbol takes n, m and y as strings, too. */
    function Meaning(s: Sym, x: Val): Val
      requires s < |k.defs|
    {
      if !IsLogical(k.defs[s].orig) || x.TriVal? then x
      else if x.s == "n" then TriVal(0)
      else if x.s == "m" then TriVal(1)
      else if x.s == "y" then TriVal(2)
      else x
    }

    ghost predicate Shaped()
      reads this
    {
      && WellFormed(k) && |dependents| == |k.defs|
      && (forall i | 0 <= i < |k.defs| :: dependents[i] == Dependents(k, i))
      && (forall s <- user :: s < |k.defs| && FitsType(s, user[s]))
    }

    /** Every cached value is the recomputed one, and the cache is closed enough for the invalidation to work. */
    ghost predicate Valid()
      reads this
    {
      Shaped() && CacheOk(k, user, Cache())
    }

    /** What reading a value leaves behind: the user values, a cache that only grew, and the given keys in it. */
    twostate predicate Filled(keys: set<Key>)
      reads this
    {
      && Valid() && user == old(user) && Grown(old(Cache()), Cache())
      && forall key <- keys :: Has(Cache(), key)
    }

    /** The state after parsing: nothing is cached but the values of the constants. */
    constructor (k: Config)
      requires WellFormed(k)
      ensures Valid() && this.k == k && user == map[]
    {
      this.k := k;
      var deps := BuildDep(k);
      dependents := deps;
      user, vis, str := map[], map[], map[];
      tri := map s | 0 <= s < |k.defs| && IsConstTri(k.defs[s]) :: k.defs[s].constTri;
      new;
      forall key: Key | Has(Cache(), key)
        ensures EntryOk(k, user, Now(), Cache(), key)
      {
        CurrentIsComputed(k, user, key);
      }
    }

    /** expr_value on an expression over symbols below n. */
    method ExprVal(e: Expr, ghost n: nat) returns (t: Tri)
      requires Valid() && n <= |k.defs| && Below(e, n)
      modifies this`vis, this`tri, this`str
      ensures Filled(ExprReads(Ctx(k), old(Now()), e)) && t == ExprValue(Ctx(k), old(Now()), e)
      decreases 8 * n, 1, e
    {
      match e
      case SymOf(s) => t := TriValue(s);
      case AndOf(a, b) =>
        t := ExprVal(a, n);
        if t != 0 {
          var t2 := ExprVal(b, n);
          t := Min(t, t2);
        }
      case OrOf(a, b) =>
        t := ExprVal(a, n);
        if t != 2 {
          var t2 := ExprVal(b, n);
          t := Max(t, t2);
        }
      case NotOf(f) =>
        t := ExprVal(f, n);
        t := 2 - t;
      case RelOf(op, x, y) =>
        var comp := CompareSyms(x, y, n);
        t := if Holds(op, comp) then 2 else 0;
    }

    /** The comparison of two symbols in expr_value. */
    method CompareSyms(x: Sym, y: Sym, ghost n: nat) returns (comp: int)
      requires Valid() && x < n <= |k.defs| && y < n
      modifies this`vis, this`tri, this`str
      ensures Filled(CompareReads(Ctx(k), old(Now()), x, y)) && comp == Compare(Ctx(k), old(Now()), x, y)
      decreases 8 * n, 0
    {
      if k.defs[x].orig == STRING && k.defs[y].orig == STRING {
        comp := CompareStrs(x, y, n);
        return;
      }
      var a := Num(x, n);
      if a.None? {
        comp := CompareStrs(x, y, n);
        return;
      }
      var b := Num(y, n);
      if b.None? {
        comp := CompareStrs(x, y, n);
        return;
      }
      comp := a.value - b.value;
    }

    method CompareStrs(x: Sym, y: Sym, ghost n: nat) returns (comp: int)
      requires Valid() && x < n <= |k.defs| && y < n
      modifies this`vis, this`tri, this`str
      ensures Filled({StrKey(x), StrKey(y)}) && comp == Strcmp(old(Now()).str(x), old(Now()).str(y))
      decreases 8 * n - 1
    {
      var s := StrValue(x);
      var t := StrValue(y);
      comp := Strcmp(s, t);
    }

    /** _sym_to_num. */
    method Num(x: Sym, ghost n: nat) returns (r: Option<int>)
      requires Valid() && x < n <= |k.defs|
      modifies this`vis, this`tri, this`str
      ensures Filled(NumReads(Ctx(k), x)) && r == SymToNum(Ctx(k), old(Now()), x)
      decreases 8 * n - 1
    {
      if IsLogical(k.defs[x].orig) {
        var t := TriValue(x);
        r := Some(t);
      } else {
        var s := StrValue(x);
        r := k.num(k.defs[x].orig, s);
      }
    }

    /** Whether the type property is b. */
    method HasType(s: Sym, b: Type) returns (same: bool)
      requires Valid() && s < |k.defs| && k.defs[s].kind == DEFINED
      modifies this`vis, this`tri, this`str
      ensures Filled(TypeReads(k, s)) && same == (TypeOf(k, old(Now()), s) == b)
      decreases 8 * s
    {
      assert DefOk(k, s);
      if k.defs[s].orig == TRISTATE {
        var m := TriValue(k.modules);
        same := b == if m == 0 then BOOL else TRISTATE;
      } else {
        same := b == k.defs[s].orig;
      }
    }

    /** The visibility property. */
    method Visibility(s: Sym) returns (t: Tri)
      requires Valid() && s < |k.defs|
      modifies this`vis, this`tri, this`str
      ensures Filled({VisKey(s)}) && t == old(Now()).vis(s)
      decreases 8 * s + 2
    {
      if s !in vis {
        assert DefOk(k, s);
        t := PromptsVal(s);
        if t == 1 {
          var tristate := HasType(s, TRISTATE);
          if !tristate {
            t := 2;
          }
        }
        Remember(VisKey(s), TriVal(t));
      }
      CacheHolds(k, user, Cache(), VisKey(s));
      t := vis[s];
    }

    /** The maximum of the prompt conditions. */
    method PromptsVal(s: Sym) returns (t: Tri)
      requires Valid() && s < |k.defs|
      modifies this`vis, this`tri, this`str
      ensures Filled(PromptsReads(k, old(Now()), k.defs[s].prompts)) && t == PromptsValue(k, old(Now()), k.defs[s].prompts)
      decreases 8 * s + 1
    {
      var es := k.defs[s].prompts;
      ghost var v := Now();
      assert DefOk(k, s);
      t := 0;
      var i := 0;
      while i < |es|
        invariant i <= |es| && Filled({}) && Max(t, PromptsValue(k, v, es[i..])) == PromptsValue(k, v, es)
        invariant forall key <- PromptsReads(k, v, es) :: Has(Cache(), key) || key in PromptsReads(k, v, es[i..])
      {
        assert es[i..][0] == es[i] && es[i..][1..] == es[i + 1..];
        PromptBelow(k, s, i);
        var c := ExprVal(es[i], s);
        t := Max(t, c);
        i := i + 1;
      }
    }

    /** The tri_value property. */
    method TriValue(s: Sym) returns (t: Tri)
      requires Valid() && s < |k.defs|
      modifies this`vis, this`tri, this`str
      ensures Filled({TriKey(s)}) && t == old(Now()).tri(s)
      decreases 8 * s + 5
    {
      if s !in tri {
        assert DefOk(k, s);
        if !IsLogical(k.defs[s].orig) {
          t := 0;
        } else {
          t := Selected(s);
        }
        Remember(TriKey(s), TriVal(t));
      }
      CacheHolds(k, user, Cache(), TriKey(s));
      t := tri[s];
    }

    /** The calculation of tri_value for a bool or tristate symbol. */
    method Selected(s: Sym) returns (val: Tri)
      requires Valid() && s < |k.defs| && k.defs[s].kind == DEFINED && IsLogical(k.defs[s].orig)
      modifies this`vis, this`tri, this`str
      ensures Filled(TriReads(k, old(user), old(Now()), s)) && val == TriOf(k, old(user), old(Now()), s)
      decreases 8 * s + 4, 2
    {
      var d := k.defs[s];
      DependenciesBelow(k, s);
      val := OwnVal(s);
      var rev := ExprVal(d.revDep, s);
      if rev != 0 {
        var _ := ExprVal(d.directDep, s);
        val := Max(rev, val);
      }
      if val == 1 {
        val := Promoted(s);
      }
    }

    /** m becomes y for a bool symbol and for one that is implied by y. */
    method Promoted(s: Sym) returns (val: Tri)
      requires Valid() && s < |k.defs| && k.defs[s].kind == DEFINED
      modifies this`vis, this`tri, this`str
      ensures Filled(TypeReads(k, s) + if TypeOf(k, old(Now()), s) == BOOL then {} else ExprReads(Ctx(k), old(Now()), k.defs[s].weakRevDep))
      ensures val == if TypeOf(k, old(Now()), s) == BOOL || ExprValue(Ctx(k), old(Now()), k.defs[s].weakRevDep) == 2 then 2 else 1
      decreases 8 * s + 4, 1
    {
      DependenciesBelow(k, s);
      var isBool := HasType(s, BOOL);
      if isBool {
        return 2;
      }
      var weak := ExprVal(k.defs[s].weakRevDep, s);
      val := if weak == 2 then 2 else 1;
    }

    /** The user value if the symbol is visible and has one, else the default and what implies the symbol. */
    method OwnVal(s: Sym) returns (val: Tri)
      requires Valid() && s < |k.defs| && k.defs[s].kind == DEFINED && IsLogical(k.defs[s].orig)
      modifies this`vis, this`tri, this`str
      ensures Filled(OwnReads(k, old(user), old(Now()), s)) && val == OwnTri(k, old(user), old(Now()), s)
      decreases 8 * s + 4, 0
    {
      var d := k.defs[s];
      DependenciesBelow(k, s);
      var visible := Visibility(s);
      if visible != 0 && s in user {
        return Min(user[s].t, visible);
      }
      val := DefaultTriVal(s);
      var weak := ExprVal(d.weakRevDep, s);
      if weak != 0 {
        var direct := ExprVal(d.directDep, s);
        if direct != 0 {
          val := Max(weak, val);
        }
      }
    }

    /** The first default whose condition is met. */
    method DefaultTriVal(s: Sym) returns (val: Tri)
      requires Valid() && s < |k.defs|
      modifies this`vis, this`tri, this`str
      ensures Filled(DefaultTriReads(k, old(Now()), k.defs[s].defaults)) && val == DefaultTri(k, old(Now()), k.defs[s].defaults)
      decreases 8 * s + 3
    {
      var ds := k.defs[s].defaults;
      ghost var v := Now();
      assert DefOk(k, s);
      var i := 0;
      while i < |ds|
        invariant i <= |ds| && Filled({}) && DefaultTri(k, v, ds[i..]) == DefaultTri(k, v, ds)
        invariant forall key <- DefaultTriReads(k, v, ds) :: Has(Cache(), key) || key in DefaultTriReads(k, v, ds[i..])
      {
        assert ds[i..][0] == ds[i] && ds[i..][1..] == ds[i + 1..];
        DefaultBelow(k, s, i);
        var cond := ExprVal(ds[i].cond, s);
        if cond != 0 {
          val := ExprVal(ds[i].value, s);
          return Min(val, cond);
        }
        i := i + 1;
      }
      val := 0;
    }

    /** The str_value property. */
    method StrValue(s: Sym) returns (x: string)
      requires Valid() && s < |k.defs|
      modifies this`vis, this`tri, this`str
      ensures Filled({StrKey(s)}) && x == old(Now()).str(s)
      decreases 8 * s + 6
    {
      if s !in str {
        assert DefOk(k, s);
        if IsLogical(k.defs[s].orig) {
          var t := TriValue(s);
          CacheFlags(k, user, Cache(), TriKey(s));
          x := TriToStr(t);
        } else if k.defs[s].orig == UNKNOWN {
          x := k.defs[s].name;
        } else if k.defs[s].orig != STRING {
          x := NumStrVal(s);
        } else {
          var visible := Visibility(s);
          if visible != 0 && s in user {
            x := user[s].s;
          } else {
            var found;
            x, found := DefaultStrVal(s);
          }
        }
        Remember(StrKey(s), StrVal(x));
      }
      CacheHolds(k, user, Cache(), StrKey(s));
      x := str[s];
    }

    /** str_value of an int or hex symbol: the user value if it is in the range, else the default, moved into it. */
    method NumStrVal(s: Sym) returns (x: string)
      requires Valid() && s < |k.defs| && (k.defs[s].orig == INT || k.defs[s].orig == HEX)
      modifies this`vis, this`tri, this`str
      ensures Filled(NumStrReads(k, old(user), old(Now()), s) + {VisKey(s)}) && x == NumStr(k, old(user), old(Now()), s)
      decreases 8 * s + 5
    {
      var t := k.defs[s].orig;
      ghost var v := Now();
      var visible := Visibility(s);
      var limits := LimitsVal(s);
      if visible != 0 && s in user && user[s].s != "" && Within(limits, NumOf(k, t, user[s].s)) {
        return user[s].s;
      }
      assert !TakesUser(k, user, v, s);
      var found;
      x, found := DefaultStrVal(s);
      x := Clamped(k, t, limits, x, if found then NumOf(k, t, x) else 0);
    }

    /** The limits of the first range whose condition is met. */
    method LimitsVal(s: Sym) returns (limits: Limits)
      requires Valid() && s < |k.defs|
      modifies this`vis, this`tri, this`str
      ensures Filled(RangeReads(k, old(Now()), k.defs[s].ranges)) && limits == LimitsOf(k, old(Now()), s)
      decreases 8 * s + 3
    {
      var rs, t := k.defs[s].ranges, k.defs[s].orig;
      ghost var v := Now();
      var i := 0;
      while i < |rs|
        invariant i <= |rs| && Filled({}) && ActiveRange(k, v, rs[i..]) == ActiveRange(k, v, rs)
        invariant forall key <- RangeReads(k, v, rs) :: Has(Cache(), key) || key in RangeReads(k, v, rs[i..])
      {
        assert rs[i..][0] == rs[i] && rs[i..][1..] == rs[i + 1..];
        RangeBelow(k, s, i);
        var cond := ExprVal(rs[i].cond, s);
        if cond != 0 {
          var low := StrValue(rs[i].low);
          var high := StrValue(rs[i].high);
          return Limits(NumOf(k, t, low), NumOf(k, t, high));
        }
        i := i + 1;
      }
      limits := Unlimited;
    }

    method DefaultStrVal(s: Sym) returns (x: string, found: bool)
      requires Valid() && s < |k.defs| && HasStrings(k.defs[s])
      modifies this`vis, this`tri, this`str
      ensures Filled(DefaultStrReads(k, old(Now()), k.defs[s].defaults)) && x == DefaultStr(k, old(Now()), k.defs[s].defaults)
      ensures found == AnyDefault(k, old(Now()), k.defs[s].defaults)
      decreases 8 * s + 3
    {
      var ds := k.defs[s].defaults;
      ghost var v := Now();
      assert DefOk(k, s);
      var i := 0;
      while i < |ds|
        invariant i <= |ds| && Filled({}) && DefaultStr(k, v, ds[i..]) == DefaultStr(k, v, ds)
        invariant AnyDefault(k, v, ds[i..]) == AnyDefault(k, v, ds)
        invariant forall key <- DefaultStrReads(k, v, ds) :: Has(Cache(), key) || key in DefaultStrReads(k, v, ds[i..])
      {
        assert ds[i..][0] == ds[i] && ds[i..][1..] == ds[i + 1..];
        DefaultBelow(k, s, i);
        var cond := ExprVal(ds[i].cond, s);
        if cond != 0 {
          x := StrValue(ds[i].value.s);
          found := true;
          return;
        }
        i := i + 1;
      }
      x, found := "", false;
    }

    // ---------- setting values ----------

    /** set_value. */
    method SetValue(s: Sym, x: Val) returns (ok: bool)
      requires Valid() && s < |k.defs|
      modifies this
      ensures Valid() && ok == FitsType(s, Meaning(s, x))
      ensures user == if ok then old(user)[s := Meaning(s, x)] else old(user)
    {
      if s in user && user[s] == x {
        assert user[s := x] == user;
        return true;
      }
      var meaning := Meaning(s, x);
      if !FitsType(s, meaning) {
        return false;
      }
      user := user[s := meaning];
      RecInvalidateIfHasPrompt(s, old(user));
      ok := true;
    }

    /** unset_value. */
    method UnsetValue(s: Sym)
      requires Valid() && s < |k.defs|
      modifies this
      ensures Valid() && user == old(user) - {s}
    {
      if s in user {
        user := user - {s};
        RecInvalidateIfHasPrompt(s, old(user));
      }
    }

    /** _rec_invalidate_if_has_prompt, after the user value of s has changed from what it is in before. */
    method RecInvalidateIfHasPrompt(s: Sym, ghost before: User)
      requires Shaped() && s < |k.defs| && CacheOk(k, before, Cache()) && forall x | x != s :: SameUser(before, user, x)
      modifies this`vis, this`tri, this`str
      ensures Valid()
    {
      if k.defs[s].prompts != [] {
        assert DefOk(k, s);
        ghost var gone := RecInvalidate(s);
        InvalidationIsEnough(k, before, user, old(Cache()), Cache(), gone);
      } else {
        forall key: Key | Has(Cache(), key)
          ensures EntryOk(k, user, Now(), Cache(), key)
        {
          assert EntryOk(k, before, Current(k, before), Cache(), key);
          NoPromptNoEffect(k, before, user, s, key);
        }
      }
    }

    /** _rec_invalidate, which clears nothing but what may follow s. Each recursive call clears a symbol that has its
        visibility cached. */
    method RecInvalidate(s: Sym) returns (ghost gone: set<Sym>)
      requires Shaped() && IsDefined(k, s)
      modifies this`vis, this`tri, this`str
      ensures s in gone && Cleared(old(Cache()), Cache(), gone) && ClosedUnder(k, Cache(), gone)
      ensures forall d <- gone :: MayFollow(k, s, d)
      decreases |vis.Keys - {s}|
    {
      if s == k.modules {
        gone := InvalidateAll();
        return;
      }
      ghost var before := Cache();
      Invalidate(s);
      gone := {s};
      var items := dependents[s];
      while items != {}
        invariant items <= dependents[s] && s in gone && Cleared(before, Cache(), gone) && ClosedBut(k, Cache(), gone, s)
        invariant vis.Keys <= before.vis.Keys - {s}
        invariant forall d <- gone :: MayFollow(k, s, d)
        invariant forall d <- dependents[s] - items :: d !in vis
        decreases |items|
      {
        var item :| item in items;
        items := items - {item};
        if item in vis {
          ghost var mid := Cache();
          Smaller(vis.Keys, before.vis.Keys - {s}, item);
          ghost var more := RecInvalidate(item);
          ClearedTwice(before, mid, Cache(), gone, more);
          ClosedMore(k, mid, Cache(), gone, more, s);
          FollowsOn(k, s, item, more);
          gone := gone + more;
        }
      }
    }

    /** _invalidate. */
    method Invalidate(s: Sym)
      modifies this`vis, this`tri, this`str
      ensures Cleared(old(Cache()), Cache(), {s}) && vis.Keys == old(vis.Keys) - {s}
    {
      vis, tri, str := vis - {s}, tri - {s}, str - {s};
    }

    /** _invalidate_all: every defined symbol. */
    method InvalidateAll() returns (ghost gone: set<Sym>)
      requires Shaped()
      modifies this`vis, this`tri, this`str
      ensures gone == set s | 0 <= s < |k.defs| && k.defs[s].kind == DEFINED
      ensures Cleared(old(Cache()), Cache(), gone) && ClosedUnder(k, Cache(), gone)
    {
      gone := {};
      var s := 0;
      while s < |k.defs|
        invariant s <= |k.defs| && Cleared(old(Cache()), Cache(), gone)
        invariant gone == set x | 0 <= x < s && k.defs[x].kind == DEFINED
      {
        if k.defs[s].kind == DEFINED {
          ghost var mid := Cache();
          Invalidate(s);
          ClearedTwice(old(Cache()), mid, Cache(), gone, {s});
          gone := gone + {s};
        }
        s := s + 1;
      }
      NobodyVisible(k, old(Cache()), Cache(), gone);
    }

    /** Stores a value that has just been calculated. */
    method Remember(key: Key, x: Val)
      requires Valid() && key.s < |k.defs| && (x.StrVal? <==> key.StrKey?)
      requires x == Compute(k, user, Now(), key)
      requires forall r <- Reads(k, user, Now(), key) :: Has(Cache(), r)
      requires NeedsVis(k, key) && !key.VisKey? ==> key.s in vis
      modifies this`vis, this`tri, this`str
      ensures Filled({key})
    {
      CurrentIsComputed(k, user, key);
      AddKeeps(k, user, Cache(), key);
      match key
      case VisKey(s) => vis := vis[s := x.t];
      case TriKey(s) => tri := tri[s := x.t];
      case StrKey(s) => str := str[s := x.s];
    }
  }

  lemma CacheHolds(k: Config, u: User, c: Caches, key: Key)
    requires CacheOk(k, u, c) && Has(c, key)
    ensures Cached(c, key) == Get(Current(k, u), key)
  {
    assert EntryOk(k, u, Current(k, u), c, key);
  }

  lemma CacheFlags(k: Config, u: User, c: Caches, key: Key)
    requires CacheOk(k, u, c) && Has(c, key)
    ensures NeedsVis(k, key) ==> key.s in c.vis
  {
    assert EntryOk(k, u, Current(k, u), c, key);
  }

  lemma Smaller(a: set<Sym>, b: set<Sym>, x: Sym)
    requires a <= b && x in a
    ensures |a - {x}| < |b|
  {
    Fewer(a, b);
  }

  lemma {:induction false} Fewer(a: set<Sym>, b: set<Sym>)
    requires a <= b
    ensures |a| <= |b|
  {
    if a != {} {
      var x :| x in a;
      Fewer(a - {x}, b - {x});
    }
  }

  /** Closed but for the dependents of s, which are still to come. */
  ghost predicate ClosedBut(k: Config, c: Caches, gone: set<Sym>, s: Sym) {
    forall i <- gone | i != s :: IsDefined(k, i) && NothingDepends(k, c, i)
  }

  lemma ClearedTwice(c0: Caches, c1: Caches, c2: Caches, gone: set<Sym>, more: set<Sym>)
    requires Cleared(c0, c1, gone) && Cleared(c1, c2, more)
    ensures Cleared(c0, c2, gone + more)
  {
    forall key: Key
      ensures Has(c2, key) <==> Has(c0, key) && key.s !in gone + more
      ensures Has(c2, key) ==> Cached(c2, key) == Cached(c0, key)
    {
      assert Has(c1, key) <==> Has(c0, key) && key.s !in gone;
      assert Has(c2, key) <==> Has(c1, key) && key.s !in more;
    }
  }

  /** What was closed stays closed as more is cleared. */
  lemma ClosedMore(k: Config, c1: Caches, c2: Caches, gone: set<Sym>, more: set<Sym>, s: Sym)
    requires Cleared(c1, c2, more) && ClosedUnder(k, c2, more)
    requires ClosedBut(k, c1, gone, s)
    ensures ClosedBut(k, c2, gone + more, s) && c2.vis.Keys <= c1.vis.Keys
    ensures forall x <- more :: x !in c2.vis
  {
    forall x
      ensures x in c2.vis <==> x in c1.vis && x !in more
    {
      assert Has(c2, VisKey(x)) <==> Has(c1, VisKey(x)) && x !in more;
    }
    forall i | i in gone && i != s
      ensures NothingDepends(k, c2, i)
    {
      assert NothingDepends(k, c1, i);
    }
  }

  lemma NobodyVisible(k: Config, c: Caches, c': Caches, gone: set<Sym>)
    requires Cleared(c, c', gone) && gone == set s | 0 <= s < |k.defs| && k.defs[s].kind == DEFINED
    ensures ClosedUnder(k, c', gone)
  {
    forall d | IsDefined(k, d)
      ensures d !in c'.vis
    {
      assert d in gone && !Has(c', VisKey(d));
    }
  }

  /** _make_depend_on: s becomes a dependent of every symbol in e that is not constant. */
  method MakeDependOn(k: Config, deps: seq<set<Sym>>, s: Sym, e: Expr) returns (r: seq<set<Sym>>)
    requires |deps| == |k.defs| && Below(e, |k.defs|)
    ensures |r| == |deps|
    ensures forall i | 0 <= i < |deps| ::
              r[i] == deps[i] + if i in Mentions(e) && k.defs[i].kind != CONSTANT then {s} else {}
    decreases e
  {
    match e
    case SymOf(x) =>
      r := if k.defs[x].kind != CONSTANT then deps[x := deps[x] + {s}] else deps;
    case AndOf(a, b) =>
      r := MakeDependOn(k, deps, s, a);
      r := MakeDependOn(k, r, s, b);
    case OrOf(a, b) =>
      r := MakeDependOn(k, deps, s, a);
      r := MakeDependOn(k, r, s, b);
    case NotOf(f) => r := MakeDependOn(k, deps, s, f);
    case RelOf(_, x, y) =>
      r := if k.defs[x].kind != CONSTANT then deps[x := deps[x] + {s}] else deps;
      r := if k.defs[y].kind != CONSTANT then r[y := r[y] + {s}] else r;
  }

  /** The dependencies of one definition. */
  method DependOnDef(k: Config, deps: seq<set<Sym>>, s: Sym) returns (r: seq<set<Sym>>)
    requires WellFormed(k) && s < |k.defs| && k.defs[s].kind == DEFINED && |deps| == |k.defs|
    ensures |r| == |deps|
    ensures forall i | 0 <= i < |deps| ::
              r[i] == deps[i] + if i in DefMentions(k.defs[s]) && k.defs[i].kind != CONSTANT then {s} else {}
  {
    hide WellFormed, DefOk, Mentions, MentionsOfAll, MentionsOfDefaults, MentionsOfRanges;
    var d := k.defs[s];
    r := DependOnPrompts(k, deps, s);
    r := DependOnDefaults(k, r, s);
    r := DependOnRanges(k, r, s);
    DependenciesBelow(k, s);
    BelowUp(d.revDep, s, |k.defs|);
    BelowUp(d.weakRevDep, s, |k.defs|);
    BelowUp(d.directDep, s, |k.defs|);
    r := MakeDependOn(k, r, s, d.revDep);
    r := MakeDependOn(k, r, s, d.weakRevDep);
    r := MakeDependOn(k, r, s, d.directDep);
  }

  /** The prompt conditions. */
  method DependOnPrompts(k: Config, deps: seq<set<Sym>>, s: Sym) returns (r: seq<set<Sym>>)
    requires WellFormed(k) && s < |k.defs| && |deps| == |k.defs|
    ensures |r| == |deps|
    ensures forall i | 0 <= i < |deps| ::
              r[i] == deps[i] + if i in MentionsOfAll(k.defs[s].prompts) && k.defs[i].kind != CONSTANT then {s} else {}
  {
    var es := k.defs[s].prompts;
    r := deps;
    var j := 0;
    while j < |es|
      invariant j <= |es| && |r| == |deps|
      invariant forall i | 0 <= i < |deps| ::
                  r[i] == deps[i] + if i in MentionsOfAll(es[..j]) && k.defs[i].kind != CONSTANT then {s} else {}
    {
      PromptBelow(k, s, j);
      BelowUp(es[j], s, |k.defs|);
      MentionsSnoc(es[..j], es[j]);
      assert es[..j + 1] == es[..j] + [es[j]];
      r := MakeDependOn(k, r, s, es[j]);
      j := j + 1;
    }
    assert es[..|es|] == es;
  }

  /** The default values and their conditions. */
  method DependOnDefaults(k: Config, deps: seq<set<Sym>>, s: Sym) returns (r: seq<set<Sym>>)
    requires WellFormed(k) && s < |k.defs| && |deps| == |k.defs|
    ensures |r| == |deps|
    ensures forall i | 0 <= i < |deps| ::
              r[i] == deps[i] + if i in MentionsOfDefaults(k.defs[s].defaults) && k.defs[i].kind != CONSTANT then {s} else {}
  {
    hide WellFormed, DefOk, Mentions, Below;
    var ds := k.defs[s].defaults;
    r := deps;
    var j := 0;
    while j < |ds|
      invariant j <= |ds| && |r| == |deps|
      invariant forall i | 0 <= i < |deps| ::
                  r[i] == deps[i] + if i in MentionsOfDefaults(ds[..j]) && k.defs[i].kind != CONSTANT then {s} else {}
    {
      DefaultBelow(k, s, j);
      BelowUp(ds[j].value, s, |k.defs|);
      BelowUp(ds[j].cond, s, |k.defs|);
      DefaultsSnoc(ds[..j], ds[j]);
      assert ds[..j + 1] == ds[..j] + [ds[j]];
      r := DependOnBoth(k, r, s, ds[j].value, ds[j].cond);
      j := j + 1;
    }
    assert ds[..|ds|] == ds;
  }

  /** The ranges along with their conditions. */
  method DependOnRanges(k: Config, deps: seq<set<Sym>>, s: Sym) returns (r: seq<set<Sym>>)
    requires WellFormed(k) && s < |k.defs| && |deps| == |k.defs|
    ensures |r| == |deps|
    ensures forall i | 0 <= i < |deps| ::
              r[i] == deps[i] + if i in MentionsOfRanges(k.defs[s].ranges) && k.defs[i].kind != CONSTANT then {s} else {}
  {
    var rs := k.defs[s].ranges;
    r := deps;
    var j := 0;
    while j < |rs|
      invariant j <= |rs| && |r| == |deps|
      invariant forall i | 0 <= i < |deps| ::
                  r[i] == deps[i] + if i in MentionsOfRanges(rs[..j]) && k.defs[i].kind != CONSTANT then {s} else {}
    {
      RangeBelow(k, s, j);
      BelowUp(rs[j].cond, s, |k.defs|);
      RangesSnoc(rs[..j], rs[j]);
      assert rs[..j + 1] == rs[..j] + [rs[j]];
      r := DependOnRange(k, r, s, rs[j]);
      j := j + 1;
    }
    assert rs[..|rs|] == rs;
  }

  method DependOnBoth(k: Config, deps: seq<set<Sym>>, s: Sym, e: Expr, f: Expr) returns (r: seq<set<Sym>>)
    requires |deps| == |k.defs| && Below(e, |k.defs|) && Below(f, |k.defs|)
    ensures |r| == |deps|
    ensures forall i | 0 <= i < |deps| ::
              r[i] == deps[i] + if i in Mentions(e) + Mentions(f) && k.defs[i].kind != CONSTANT then {s} else {}
  {
    r := MakeDependOn(k, deps, s, e);
    r := MakeDependOn(k, r, s, f);
  }

  method DependOnRange(k: Config, deps: seq<set<Sym>>, s: Sym, range: Range) returns (r: seq<set<Sym>>)
    requires |deps| == |k.defs| && range.low < |k.defs| && range.high < |k.defs| && Below(range.cond, |k.defs|)
    ensures |r| == |deps|
    ensures forall i | 0 <= i < |deps| ::
              r[i] == deps[i] + if i in {range.low, range.high} + Mentions(range.cond) && k.defs[i].kind != CONSTANT then {s} else {}
  {
    r := DependOnBoth(k, deps, s, SymOf(range.low), SymOf(range.high));
    r := MakeDependOn(k, r, s, range.cond);
  }

  /** The dependents of i among the symbols below n. */
  ghost function DependentsBelow(k: Config, i: Sym, n: nat): set<Sym>
    requires i < |k.defs|
  {
    set d | d in Dependents(k, i) && d < n
  }

  lemma OneMoreDependent(k: Config, i: Sym, s: Sym)
    requires i < |k.defs| && s < |k.defs|
    ensures DependentsBelow(k, i, s + 1) ==
              DependentsBelow(k, i, s)
              + if k.defs[s].kind == DEFINED && i in DefMentions(k.defs[s]) && k.defs[i].kind != CONSTANT then {s} else {}
  {
  }

  lemma NoMoreDependents(k: Config, i: Sym)
    requires i < |k.defs|
    ensures DependentsBelow(k, i, 0) == {} && DependentsBelow(k, i, |k.defs|) == Dependents(k, i)
  {
    assert forall d <- Dependents(k, i) :: d < |k.defs|;
  }

  /** _build_dep: the dependents of every symbol. */
  method BuildDep(k: Config) returns (deps: seq<set<Sym>>)
    requires WellFormed(k)
    ensures |deps| == |k.defs| && forall i | 0 <= i < |deps| :: deps[i] == Dependents(k, i)
  {
    deps := seq(|k.defs|, _ => {});
    forall i | 0 <= i < |deps|
      ensures deps[i] == DependentsBelow(k, i, 0)
    {
      NoMoreDependents(k, i);
    }
    var s := 0;
    while s < |k.defs|
      invariant s <= |k.defs| && |deps| == |k.defs|
      invariant forall i | 0 <= i < |deps| :: deps[i] == DependentsBelow(k, i, s)
    {
      ghost var before := deps;
      if k.defs[s].kind == DEFINED {
        deps := DependOnDef(k, deps, s);
      }
      forall i | 0 <= i < |deps|
        ensures deps[i] == DependentsBelow(k, i, s + 1)
      {
        assert before[i] == DependentsBelow(k, i, s);
        OneMoreDependent(k, i, s);
      }
      s := s + 1;
    }
    forall i | 0 <= i < |deps|
      ensures deps[i] == Dependents(k, i)
    {
      NoMoreDependents(k, i);
    }
  }

  lemma {:induction false} BelowUp(e: Expr, n: nat, m: nat)
    requires Below(e, n) && n <= m
    ensures Below(e, m)
  {
    match e
    case AndOf(a, b) =>
      BelowUp(a, n, m);
      BelowUp(b, n, m);
    case OrOf(a, b) =>
      BelowUp(a, n, m);
      BelowUp(b, n, m);
    case NotOf(f) => BelowUp(f, n, m);
    case _ =>
  }

  lemma {:induction false} MentionsSnoc(es: seq<Expr>, e: Expr)
    ensures MentionsOfAll(es + [e]) == MentionsOfAll(es) + Mentions(e)
  {
    if es == [] {
      assert [e][1..] == [];
    } else {
      assert (es + [e])[1..] == es[1..] + [e];
      MentionsSnoc(es[1..], e);
    }
  }

  lemma {:induction false} DefaultsSnoc(ds: seq<Default>, d: Default)
    ensures MentionsOfDefaults(ds + [d]) == MentionsOfDefaults(ds) + Mentions(d.value) + Mentions(d.cond)
  {
    if ds == [] {
      assert [d][1..] == [];
    } else {
      assert (ds + [d])[1..] == ds[1..] + [d];
      DefaultsSnoc(ds[1..], d);
    }
  }

  lemma {:induction false} RangesSnoc(rs: seq<Range>, r: Range)
    ensures MentionsOfRanges(rs + [r]) == MentionsOfRanges(rs) + {r.low, r.high} + Mentions(r.cond)
  {
    if rs == [] {
      assert [r][1..] == [];
    } else {
      assert (rs + [r])[1..] == rs[1..] + [r];
      RangesSnoc(rs[1..], r);
    }
  }
}
