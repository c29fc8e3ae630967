/**
 * `XClause`: an XOR constraint over 32-bit variable indices, `vars` xor-ing to
 * `rhs`, and its text form. A non-empty clause is written as `x`, a `-` when
 * the right-hand side is false, each variable plus one followed by a space,
 * and a closing `0` line; an empty clause is written as the line `0` when its
 * right-hand side is true and not at all otherwise.
 */
module XorClauses {
  import opened Wrappers

  const U32: nat := 0x1_0000_0000

  newtype u32 = x: int | 0 <= x < 0x1_0000_0000

  datatype XClause = XClause(vars: seq<u32>, rhs: bool)

  function Size(x: XClause): nat
  {
    |x.vars|
  }

  function Empty(x: XClause): bool
  {
    |x.vars| == 0
  }

  /** `getClause`: only for a clause with at least one variable. */
  function GetClause(x: XClause): seq<u32>
    requires !Empty(x)
  {
    x.vars
  }

  /** The constructor keeps its arguments, and the accessors report them. */
  lemma Accessors(vars: seq<u32>, rhs: bool)
    ensures var x := XClause(vars, rhs);
      && x.vars == vars && x.rhs == rhs
      && Size(x) == |vars|
      && (Empty(x) <==> Size(x) == 0)
      && (!Empty(x) ==> GetClause(x) == vars)
  {
  }

  predicate IsDigit(c: char)
  {
    '0' <= c <= '9'
  }

  predicate AllDigits(s: string)
  {
    forall i :: 0 <= i < |s| ==> IsDigit(s[i])
  }

  /** The decimal form of a number, as a stream writes an unsigned integer. */
  function Decimal(n: nat): (s: string)
    ensures |s| > 0 && AllDigits(s)
  {
    if n < 10 then ["0123456789"[n]]
    else Decimal(n / 10) + ["0123456789"[n % 10]]
  }

  /** The number a string of digits denotes. */
  function ValueOf(s: string): nat
    requires AllDigits(s)
  {
    if s == [] then 0 else 10 * ValueOf(s[..|s| - 1]) + (s[|s| - 1] as int - '0' as int)
  }

  lemma {:induction false} DecimalValue(n: nat)
    ensures ValueOf(Decimal(n)) == n
  {
    var s := Decimal(n);
    if n >= 10 {
      DecimalValue(n / 10);
      assert s[..|s| - 1] == Decimal(n / 10);
    }
  }

  /** The only number written as `0` is 0: no other number has a leading zero. */
  lemma {:induction false} DecimalZero(n: nat)
    ensures Decimal(n) == "0" <==> n == 0
  {
    if n >= 10 {
      assert |Decimal(n)| >= 2;
    }
  }

  /** The numbers written for the variables, each followed by one space. */
  function Tokens(ns: seq<nat>): string
  {
    if ns == [] then [] else Decimal(ns[0]) + " " + Tokens(ns[1..])
  }

  lemma {:induction false} TokensSnoc(ns: seq<nat>, n: nat)
    ensures Tokens(ns + [n]) == Tokens(ns) + Decimal(n) + " "
  {
    if ns != [] {
      assert (ns + [n])[1..] == ns[1..] + [n];
      TokensSnoc(ns[1..], n);
    }
  }

  /** `it + 1` on a `uint32_t`: the sum is taken modulo 2^32. */
  function Plus1(v: u32): nat
  {
    ((v as int) + 1) % U32
  }

  /** The numbers `operator<<` writes for the variables. */
  function Printed(vars: seq<u32>): (ns: seq<nat>)
    ensures |ns| == |vars|
  {
    seq(|vars|, i requires 0 <= i < |vars| => Plus1(vars[i]))
  }

  /** The text around the variable numbers. */
  function Layout(rhs: bool, ns: seq<nat>): string
  {
    if ns == [] then (if rhs then "0\n" else "")
    else "x" + (if rhs then "" else "-") + Tokens(ns) + "0\n"
  }

  /** The text `operator<<` writes for a clause. */
  function Render(x: XClause): string
  {
    Layout(x.rhs, Printed(x.vars))
  }

  /**
   * `operator<<`: appends the clause's text to the stream's contents `os`,
   * piece by piece as the source does.
   */
  method Write(os: string, x: XClause) returns (out: string)
    ensures out == os + Render(x)
  {
    if |x.vars| == 0 {
      if x.rhs {
        out := os + "0\n";
      } else {
        out := os;
      }
      return;
    }
    out := os + "x";
    if !x.rhs {
      out := out + "-";
    }
    ghost var head := out;
    out := WriteVars(out, x.vars);
    out := out + "0\n";
    assert out == head + (Tokens(Printed(x.vars)) + "0\n");
  }

  /** The loop of `operator<<` over the variables: each one plus one, then a space. */
  method WriteVars(os: string, vars: seq<u32>) returns (out: string)
    ensures out == os + Tokens(Printed(vars))
  {
    out := os;
    for i := 0 to |vars|
      invariant out == os + Tokens(Printed(vars[..i]))
    {
      PrintedSnoc(vars, i);
      out := out + Decimal(((vars[i] as int) + 1) % U32) + " ";
    }
    assert vars[..|vars|] == vars;
  }

  lemma PrintedSnoc(vars: seq<u32>, i: nat)
    requires i < |vars|
    ensures Tokens(Printed(vars[..i + 1])) == Tokens(Printed(vars[..i])) + Decimal(Plus1(vars[i])) + " "
  {
    assert Printed(vars[..i + 1]) == Printed(vars[..i]) + [Plus1(vars[i])];
    TokensSnoc(Printed(vars[..i]), Plus1(vars[i]));
  }

  /** The position of the first space, or the length when there is none. */
  function SpaceAt(s: string): (k: nat)
    ensures k <= |s|
  {
    if s == [] then 0
    else if s[0] == ' ' then 0
    else 1 + SpaceAt(s[1..])
  }

  /** Reads a list of numbers, each a non-empty run of digits followed by one space. */
  function ReadTokens(s: string): Option<seq<nat>>
    decreases |s|
  {
    if s == [] then Some([])
    else
      var k := SpaceAt(s);
      if k == 0 || k == |s| || !AllDigits(s[..k]) then None
      else
        match ReadTokens(s[k + 1..])
        case None => None
        case Some(rest) => Some([ValueOf(s[..k])] + rest)
  }

  lemma {:induction false} SpaceAfterDigits(d: string, rest: string)
    requires AllDigits(d)
    ensures SpaceAt(d + " " + rest) == |d|
  {
    if d != [] {
      assert (d + " " + rest)[1..] == d[1..] + " " + rest;
      SpaceAfterDigits(d[1..], rest);
    }
  }

  lemma {:induction false} TokensRoundTrip(ns: seq<nat>)
    ensures ReadTokens(Tokens(ns)) == Some(ns)
  {
    if ns != [] {
      var d := Decimal(ns[0]);
      var rest := Tokens(ns[1..]);
      var s := d + " " + rest;
      assert Tokens(ns) == s;
      SpaceAfterDigits(d, rest);
      assert s[..|d|] == d;
      assert s[|d| + 1..] == rest;
      DecimalValue(ns[0]);
      TokensRoundTrip(ns[1..]);
      assert [ns[0]] + ns[1..] == ns;
    }
  }

  /**
   * Reads the text of one clause back, given how its variable numbers are
   * mapped back to variables; every number must be at least 1.
   */
  function ReadLayout(text: string): Option<(bool, seq<nat>)>
  {
    if |text| == 0 then Some((false, []))
    else if |text| == 2 && text[0] == '0' && text[1] == '\n' then Some((true, []))
    else if |text| >= 3 && text[0] == 'x' && text[|text| - 2] == '0' && text[|text| - 1] == '\n' then
      var body := text[1..|text| - 2];
      var rhs := !(|body| > 0 && body[0] == '-');
      match ReadTokens(if rhs then body else body[1..])
      case None => None
      case Some(ns) => if ns != [] then Some((rhs, ns)) else None
    else None
  }

  lemma LayoutRoundTrip(rhs: bool, ns: seq<nat>)
    ensures ReadLayout(Layout(rhs, ns)) == Some((rhs, ns))
  {
    if ns == [] {
      EmptyLayoutRoundTrip(rhs);
    } else {
      var toks := Tokens(ns);
      var body := (if rhs then "" else "-") + toks;
      LayoutOf(rhs, ns, body);
      TokensRoundTrip(ns);
      TokensStart(ns);
      ReadLayoutOf(body, toks, rhs, ns);
    }
  }

  lemma EmptyLayoutRoundTrip(rhs: bool)
    ensures ReadLayout(Layout(rhs, [])) == Some((rhs, []))
  {
  }

  lemma LayoutOf(rhs: bool, ns: seq<nat>, body: string)
    requires ns != [] && body == (if rhs then "" else "-") + Tokens(ns)
    ensures Layout(rhs, ns) == "x" + body + "0\n"
  {
  }

  lemma ReadLayoutOf(body: string, toks: string, rhs: bool, ns: seq<nat>)
    requires ns != [] && ReadTokens(toks) == Some(ns)
    requires |toks| > 0 && IsDigit(toks[0])
    requires body == (if rhs then "" else "-") + toks
    ensures ReadLayout("x" + body + "0\n") == Some((rhs, ns))
  {
    LayoutBody(body);
    if rhs {
      assert body == toks;
    } else {
      assert body[1..] == toks;
    }
  }

  lemma LayoutBody(body: string)
    ensures var text := "x" + body + "0\n";
      && |text| >= 3 && text[0] == 'x' && text[|text| - 2] == '0' && text[|text| - 1] == '\n'
      && text[1..|text| - 2] == body
  {
    var text := "x" + body + "0\n";
    assert text[0] == 'x';
  }

  lemma TokensStart(ns: seq<nat>)
    requires ns != []
    ensures |Tokens(ns)| > 0 && IsDigit(Tokens(ns)[0])
  {
    var d := Decimal(ns[0]);
    assert Tokens(ns) == d + " " + Tokens(ns[1..]);
    assert Tokens(ns)[0] == d[0];
  }

  /** The clause a text denotes: the variable of a number `n` is `n - 1`. */
  function Read(text: string): Option<XClause>
  {
    match ReadLayout(text)
    case None => None
    case Some((rhs, ns)) =>
      if forall i :: 0 <= i < |ns| ==> 1 <= ns[i] <= U32 then Some(XClause(VarsOf(ns), rhs)) else None
  }

  /** The variables that the numbers of a text stand for. */
  function VarsOf(ns: seq<nat>): (vars: seq<u32>)
    requires forall i :: 0 <= i < |ns| ==> 1 <= ns[i] <= U32
    ensures |vars| == |ns|
  {
    seq(|ns|, i requires 0 <= i < |ns| => (ns[i] - 1) as u32)
  }

  /** The text of a clause reads back as the clause, when no variable is the largest 32-bit value. */
  lemma RenderRoundTrip(x: XClause)
    requires forall i :: 0 <= i < |x.vars| ==> x.vars[i] < 0xFFFF_FFFF
    ensures Read(Render(x)) == Some(x)
  {
    RenderWideAgrees(x);
    RenderWideRoundTrip(x);
  }

  /** Every number written for a variable is at least 1, so the only `0` is the terminator. */
  lemma RenderNoZeroToken(x: XClause)
    requires forall i :: 0 <= i < |x.vars| ==> x.vars[i] < 0xFFFF_FFFF
    ensures forall i :: 0 <= i < |x.vars| ==> Printed(x.vars)[i] >= 1 && Decimal(Printed(x.vars)[i]) != "0"
  {
    forall i | 0 <= i < |x.vars|
      ensures Decimal(Printed(x.vars)[i]) != "0"
    {
      DecimalZero(Printed(x.vars)[i]);
    }
  }

  /**
   * As written, the variable 2^32 - 1 is printed as `0`, the terminator: the
   * one-variable clause over it is written `x0 0` and does not read back.
   */
  lemma LargestVarPrintedAsZero()
    ensures Render(XClause([0xFFFF_FFFF], true)) == "x0 0\n"
    ensures Read(Render(XClause([0xFFFF_FFFF], true))) != Some(XClause([0xFFFF_FFFF], true))
  {
    var x := XClause([0xFFFF_FFFF], true);
    assert Printed(x.vars) == [0];
    assert Tokens([0]) == "0 " by {
      assert [0][1..] == [];
    }
    assert Render(x) == "x0 0\n";
    LayoutRoundTrip(true, [0]);
  }

  /** The variable numbers with the sum taken without wrap-around, as evidently intended. */
  function PrintedWide(vars: seq<u32>): (ns: seq<nat>)
    ensures |ns| == |vars|
    ensures forall i :: 0 <= i < |vars| ==> ns[i] >= 1
  {
    seq(|vars|, i requires 0 <= i < |vars| => vars[i] as int + 1)
  }

  function RenderWide(x: XClause): string
  {
    Layout(x.rhs, PrintedWide(x.vars))
  }

  /** With the sum taken without wrap-around, every clause reads back from its text. */
  lemma RenderWideRoundTrip(x: XClause)
    ensures Read(RenderWide(x)) == Some(x)
  {
    var ns := PrintedWide(x.vars);
    LayoutRoundTrip(x.rhs, ns);
    assert VarsOf(ns) == x.vars;
  }

  /** The two agree except on the largest variable index. */
  lemma RenderWideAgrees(x: XClause)
    requires forall i :: 0 <= i < |x.vars| ==> x.vars[i] < 0xFFFF_FFFF
    ensures RenderWide(x) == Render(x)
  {
    assert PrintedWide(x.vars) == Printed(x.vars);
  }
}
