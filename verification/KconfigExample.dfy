/** A configuration as small as they come, and numbers as int and hex symbols write them: what the claims about
    symbol values ask of a configuration is met by this one. */
module KconfigExample {
  import opened Options
  import opened KconfigExpr
  import opened KconfigCache

  // ---------- numbers ----------

  function DigitChar(d: nat): (c: char)
    requires d < 16
    ensures c != '-' && DigitValue(c) == Some(d)
  {
    if d < 10 then '0' + d as char else 'a' + (d - 10) as char
  }

  function DigitValue(c: char): Option<nat> {
    if '0' <= c <= '9' then Some((c - '0') as nat)
    else if 'a' <= c <= 'f' then Some((c - 'a') as nat + 10)
    else if 'A' <= c <= 'F' then Some((c - 'A') as nat + 10)
    else None
  }

  lemma Division(n: nat, base: nat)
    requires 2 <= base <= n
    ensures 0 <= n / base < n && 0 <= n % base < base && n / base * base + n % base == n
  {
  }

  function Digits(n: nat, base: nat): (r: string)
    requires 2 <= base <= 16
    ensures r != "" && r[0] != '-'
    decreases n
  {
    if n < base then [DigitChar(n)]
    else
      Division(n, base);
      Digits(n / base, base) + [DigitChar(n % base)]
  }

  function ReadDigits(x: string, base: nat): Option<nat> {
    if x == "" then None
    else
      var d, front := DigitValue(x[|x| - 1]), ReadDigits(x[..|x| - 1], base);
      if d.None? || d.value >= base then None
      else if |x| == 1 then d
      else if front.None? then None
      else Some(front.value * base + d.value)
  }

  function WriteUnsigned(t: Type, n: nat): (r: string)
    ensures r != "" && r[0] != '-'
  {
    if t == HEX then "0x" + Digits(n, 16) else Digits(n, 10)
  }

  /** str and hex. */
  function Write(t: Type, n: int): string {
    if n < 0 then "-" + WriteUnsigned(t, 0 - n) else WriteUnsigned(t, n)
  }

  function ReadUnsigned(t: Type, x: string): Option<nat> {
    if t == HEX && |x| >= 2 && x[0] == '0' && x[1] == 'x' then ReadDigits(x[2..], 16) else ReadDigits(x, if t == HEX then 16 else 10)
  }

  /** int, with the base of the type, without blanks and underscores. */
  function Read(t: Type, x: string): Option<int> {
    if x != "" && x[0] == '-' then
      var r := ReadUnsigned(t, x[1..]);
      if r.Some? then Some(0 - (r.value as int)) else None
    else
      var r := ReadUnsigned(t, x);
      if r.Some? then Some(r.value) else None
  }

  lemma {:induction false} DigitsReadBack(n: nat, base: nat)
    requires 2 <= base <= 16
    ensures ReadDigits(Digits(n, base), base) == Some(n)
    decreases n
  {
    if n >= base {
      Division(n, base);
      DigitsReadBack(n / base, base);
      var front, x := Digits(n / base, base), Digits(n, base);
      assert x[..|x| - 1] == front && x[|x| - 1] == DigitChar(n % base);
    }
  }

  lemma UnsignedReadsBack(t: Type, n: nat)
    ensures ReadUnsigned(t, WriteUnsigned(t, n)) == Some(n)
  {
    if t == HEX {
      DigitsReadBack(n, 16);
      assert ("0x" + Digits(n, 16))[2..] == Digits(n, 16);
    } else {
      DigitsReadBack(n, 10);
    }
  }

  /** What is written is read back. */
  lemma NumbersReadBack(t: Type, n: int)
    ensures Read(t, Write(t, n)) == Some(n) && Read(t, "").None?
  {
    hide Digits, ReadDigits, WriteUnsigned, ReadUnsigned;
    if n < 0 {
      UnsignedReadsBack(t, 0 - n);
      assert Write(t, n)[1..] == WriteUnsigned(t, 0 - n);
    } else {
      UnsignedReadsBack(t, n);
    }
    NothingReads(t);
  }

  lemma NothingReads(t: Type)
    ensures ReadUnsigned(t, "").None?
  {
  }

  // ---------- a configuration ----------

  const N: Sym := 0
  const M: Sym := 1
  const Y: Sym := 2
  const MODULES: Sym := 3

  function Constant(name: string, orig: Type, t: Tri): Def {
    Def(CONSTANT, orig, name, t, [], [], [], SymOf(N), SymOf(N), SymOf(N))
  }

  /** The constants, MODULES, a tristate symbol with a default, a bool symbol that it selects, and an int symbol with a
      range, prompted for if the tristate symbol is on. */
  function Example(): Config {
    Config(
      [Constant("n", TRISTATE, 0), Constant("m", TRISTATE, 1), Constant("y", TRISTATE, 2),
       Def(DEFINED, BOOL, "MODULES", 0, [SymOf(Y)], [], [], SymOf(N), SymOf(N), SymOf(Y)),
       Def(DEFINED, TRISTATE, "DRIVER", 0, [SymOf(Y)], [Default(SymOf(M), SymOf(Y))], [], SymOf(N), SymOf(N), SymOf(Y)),
       Def(DEFINED, BOOL, "BUS", 0, [], [], [], SymOf(4), SymOf(N), SymOf(Y)),
       Constant("10", UNKNOWN, 0), Constant("20", UNKNOWN, 0),
       Def(DEFINED, INT, "SIZE", 0, [SymOf(4)], [Default(SymOf(6), SymOf(Y))], [Range(6, 7, SymOf(Y))], SymOf(N), SymOf(N), SymOf(4))],
      MODULES, Read, Write)
  }

  lemma OneOfEach(e: Expr, d: Default, r: Range)
    ensures MentionsOfAll([]) == {} && MentionsOfAll([e]) == Mentions(e)
    ensures MentionsOfDefaults([]) == {} && MentionsOfDefaults([d]) == Mentions(d.value) + Mentions(d.cond)
    ensures MentionsOfRanges([]) == {} && MentionsOfRanges([r]) == {r.low, r.high} + Mentions(r.cond)
  {
    assert [e][1..] == [] && [d][1..] == [] && [r][1..] == [];
  }

  /** There are well-formed configurations, with every kind of symbol in them. */
  lemma ExampleIsWellFormed()
    ensures WellFormed(Example())
    ensures forall t, n: int :: Example().num(t, "").None? && Example().num(t, Example().show(t, n)) == Some(n)
  {
    var k := Example();
    forall s | 0 <= s < |k.defs|
      ensures DefOk(k, s)
    {
      OneOfEach(SymOf(Y), Default(SymOf(M), SymOf(Y)), Range(6, 7, SymOf(Y)));
      OneOfEach(SymOf(4), Default(SymOf(6), SymOf(Y)), Range(6, 7, SymOf(Y)));
    }
    forall t, n: int
      ensures k.num(t, "").None? && k.num(t, k.show(t, n)) == Some(n)
    {
      NumbersReadBack(t, n);
    }
  }

  /** The constants have the values their names say, under any user values. */
  lemma ConstantValues(u: User)
    ensures var v := Current(Example(), u); v.tri(N) == 0 && v.tri(M) == 1 && v.tri(Y) == 2
  {
    ExampleIsWellFormed();
    CurrentIsComputed(Example(), u, TriKey(N));
    CurrentIsComputed(Example(), u, TriKey(M));
    CurrentIsComputed(Example(), u, TriKey(Y));
  }

  /** With modules off the driver's default m counts as y; with modules on it is m, and the bus it selects, being bool, is y. */
  lemma ExampleValues(on: bool)
    ensures var v := Current(Example(), if on then map[MODULES := TriVal(2)] else map[]);
            && v.tri(MODULES) == (if on then 2 else 0)
            && v.tri(4) == (if on then 1 else 2) && v.tri(5) == 2
  {
    var k, u: User := Example(), if on then map[MODULES := TriVal(2)] else map[];
    ExampleIsWellFormed();
    ConstantValues(u);
    CurrentIsComputed(k, u, VisKey(MODULES));
    CurrentIsComputed(k, u, TriKey(MODULES));
    CurrentIsComputed(k, u, TriKey(4));
    CurrentIsComputed(k, u, TriKey(5));
    var v := Current(k, u);
    assert [SymOf(Y)][1..] == [];
    assert DefaultTri(k, v, []) == 0;
    assert DefaultTri(k, v, [Default(SymOf(M), SymOf(Y))]) == 1;
    assert PromptsValue(k, v, [SymOf(Y)]) == 2;
  }
}
