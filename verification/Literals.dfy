/** Number, duration and string literals as text: how crates/ndsl-fmt/src/adgl.rs writes them
    and how the lexer of crates/airpulse_dsl-syntax/src/parser.rs reads them. */
module Literals {

  const I64_MAX: int := 0x7fff_ffff_ffff_ffff

  import opened Options

  predicate IsDigit(c: char) { '0' <= c <= '9' }
  predicate IsHexDigit(c: char) { IsDigit(c) || 'a' <= c <= 'f' || 'A' <= c <= 'F' }
  predicate IsIdentContinue(c: char) { IsDigit(c) || 'a' <= c <= 'z' || 'A' <= c <= 'Z' || c == '_' }

  predicate Accepts(radix: nat, c: char)
  {
    c == '_' || (if radix == 16 then IsHexDigit(c) else if radix == 2 then c == '0' || c == '1' else IsDigit(c))
  }

  predicate StartsWith(s: string, p: string) { |p| <= |s| && s[..|p|] == p }

  // ----- reading a number -----

  function Lead(s: string, radix: nat): (n: nat)
    ensures n <= |s|
  {
    if s == [] || !Accepts(radix, s[0]) then 0 else Lead(s[1..], radix) + 1
  }

  function Strip(s: string): string
  {
    if s == [] then [] else if s[0] == '_' then Strip(s[1..]) else [s[0]] + Strip(s[1..])
  }

  function DigitValue(c: char): nat
  {
    if IsDigit(c) then c as nat - '0' as nat
    else if 'a' <= c <= 'f' then c as nat - 'a' as nat + 10
    else if 'A' <= c <= 'F' then c as nat - 'A' as nat + 10
    else 0
  }

  function Value(ds: string, radix: nat): nat
  {
    if ds == [] then 0 else Value(ds[..|ds| - 1], radix) * radix + DigitValue(ds[|ds| - 1])
  }

  /** `trim_start_matches` with a two-character pattern. */
  function TrimStart(s: string, p: string): string
    requires |p| == 2
    decreases |s|
  {
    if StartsWith(s, p) then TrimStart(s[2..], p) else s
  }

  /** What is handed to the integer parser. */
  function Body(ds: string, radix: nat): string
  {
    if radix == 10 then ds else TrimStart(TrimStart(TrimStart(TrimStart(ds, "0x"), "0X"), "0b"), "0B")
  }

  function ParseI64(ds: string, radix: nat): Option<int>
  {
    if ds == [] || Value(ds, radix) > I64_MAX then None else Some(Value(ds, radix))
  }

  datatype Lexed = IntLit(value: int, used: nat) | DurationLit(millis: int, used: nat) | OutOfRange | BadUnit

  function Saturate(n: int): int { if n > I64_MAX then I64_MAX else n }

  function WithUnit(value: int, unit: string, end: nat): Lexed
  {
    if StartsWith(unit, "ms") then DurationLit(value, end + 2)
    else if StartsWith(unit, "s") && !(|unit| > 1 && IsIdentContinue(unit[1])) then DurationLit(Saturate(value * 1000), end + 1)
    else if StartsWith(unit, "min") then DurationLit(Saturate(value * 60_000), end + 3)
    else if StartsWith(unit, "m") then BadUnit
    else IntLit(value, end)
  }

  function Radix(s: string): nat
  {
    if StartsWith(s, "0x") || StartsWith(s, "0X") then 16 else if StartsWith(s, "0b") || StartsWith(s, "0B") then 2 else 10
  }

  function End(s: string): (n: nat)
    ensures n <= |s|
  {
    if Radix(s) == 10 then Lead(s, 10) else 2 + Lead(s[2..], Radix(s))
  }

  function LexNumber(s: string): Lexed
  {
    var end := End(s);
    var value := ParseI64(Body(Strip(s[..end]), Radix(s)), Radix(s));
    if value.None? then OutOfRange else WithUnit(value.value, s[end..], end)
  }

  /** `lex_number_or_duration` from a digit on, with the source's scanning loop. */
  method LexNumberOrDuration(s: string) returns (r: Lexed)
    requires s != [] && IsDigit(s[0])
    ensures r == LexNumber(s)
  {
    hide Body, Strip, ParseI64, WithUnit;
    var radix := Radix(s);
    var end := if radix == 10 then 0 else 2;
    while end < |s| && Accepts(radix, s[end])
      invariant end <= |s| && End(s) == end + Lead(s[end..], radix)
    {
      assert s[end..][1..] == s[end + 1..];
      end := end + 1;
    }
    assert end < |s| ==> s[end..][0] == s[end];
    var value := ParseI64(Body(Strip(s[..end]), radix), radix);
    if value.None? { return OutOfRange; }
    r := WithUnit(value.value, s[end..], end);
  }

  // ----- writing a number -----

  function Digit(d: nat): char
    requires d < 10
  {
    (d + '0' as nat) as char
  }

  function Decimal(n: nat): string
  {
    if n < 10 then [Digit(n)] else Decimal(n / 10) + [Digit(n % 10)]
  }

  /** `emit_duration`: the largest unit that divides. */
  function Duration(ms: nat): string
  {
    if ms != 0 && ms % 60_000 == 0 then Decimal(ms / 60_000) + "min"
    else if ms != 0 && ms % 1000 == 0 then Decimal(ms / 1000) + "s"
    else Decimal(ms) + "ms"
  }

  lemma {:induction false} DecimalFacts(n: nat)
    ensures Decimal(n) != [] && Value(Decimal(n), 10) == n
    ensures forall i :: 0 <= i < |Decimal(n)| ==> IsDigit(Decimal(n)[i])
  {
    if n >= 10 {
      DecimalFacts(n / 10);
      assert Decimal(n)[..|Decimal(n)| - 1] == Decimal(n / 10);
    }
  }

  /** `n` of the unit `u` make `ms` milliseconds. */
  predicate Amounts(n: nat, u: string, ms: nat)
  {
    (u == "min" && n * 60_000 == ms) || (u == "s" && n * 1000 == ms) || (u == "ms" && n == ms)
  }

  /** A duration is printed as the least whole number of any unit, zero in milliseconds. */
  lemma DurationIsLeast(ms: nat) returns (n: nat, u: string)
    ensures Duration(ms) == Decimal(n) + u && Amounts(n, u, ms) && (ms == 0 ==> u == "ms")
    ensures forall m: nat, v :: Amounts(m, v, ms) ==> n <= m
  {
    hide Decimal;
    u := if ms != 0 && ms % 60_000 == 0 then "min" else if ms != 0 && ms % 1000 == 0 then "s" else "ms";
    n := if u == "min" then ms / 60_000 else if u == "s" then ms / 1000 else ms;
    forall m: nat, v | Amounts(m, v, ms) ensures n <= m {
      assert u == "ms" && v != "ms" ==> ms == 0;
    }
  }

  lemma ZeroIsZero()
    ensures Value("0", 10) == 0
  {
    assert "0"[..0] == "";
  }

  /** Numbers are printed without leading zeros. */
  lemma {:induction false} DecimalIsPlain(n: nat)
    ensures Value(Decimal(n), 10) == n && Decimal(n) != [] && (Decimal(n)[0] == '0' ==> Decimal(n) == "0")
  {
    DecimalFacts(n);
    if n >= 10 {
      DecimalIsPlain(n / 10);
      assert Decimal(n)[0] == Decimal(n / 10)[0];
      ZeroIsZero();
    }
  }

  lemma {:induction false} StripDigits(ds: string)
    requires forall i :: 0 <= i < |ds| ==> IsDigit(ds[i])
    ensures Strip(ds) == ds
  {
    if ds != [] { StripDigits(ds[1..]); }
  }

  lemma {:induction false} LeadOf(ds: string, rest: string, radix: nat)
    requires forall i :: 0 <= i < |ds| ==> Accepts(radix, ds[i])
    requires rest == [] || !Accepts(radix, rest[0])
    ensures Lead(ds + rest, radix) == |ds|
  {
    if ds == [] {
      assert ds + rest == rest;
    } else {
      assert (ds + rest)[1..] == ds[1..] + rest;
      LeadOf(ds[1..], rest, radix);
    }
  }

  /** What the lexer makes of printed digits, whatever the unit behind them. */
  lemma LexDecimal(n: nat, rest: string)
    requires n <= I64_MAX
    requires rest == [] || rest[0] == 'm' || rest[0] == 's' || !IsIdentContinue(rest[0])
    ensures LexNumber(Decimal(n) + rest) == WithUnit(n, rest, |Decimal(n)|)
  {
    hide Value, Strip, WithUnit, StartsWith;
    var ds := Decimal(n);
    var s := ds + rest;
    DecimalFacts(n);
    StripDigits(ds);
    NotPrefixed(ds, rest);
    LeadOf(ds, rest, 10);
    assert s[..|ds|] == ds && s[|ds|..] == rest;
  }

  lemma NotPrefixed(ds: string, rest: string)
    requires ds != [] && forall i :: 0 <= i < |ds| ==> IsDigit(ds[i])
    requires rest == [] || rest[0] == 'm' || rest[0] == 's' || !IsIdentContinue(rest[0])
    ensures Radix(ds + rest) == 10
  {
    var s := ds + rest;
    if |s| >= 2 {
      assert s[1] == if |ds| > 1 then ds[1] else rest[0];
      assert s[..2][1] == s[1];
    }
  }

  /** Every non-negative integer literal reads back, before any character that cannot
      continue a word. */
  lemma {:induction false} IntegerRoundTrip(n: nat, rest: string)
    requires n <= I64_MAX && (rest == [] || !IsIdentContinue(rest[0]))
    ensures LexNumber(Decimal(n) + rest) == IntLit(n, |Decimal(n)|)
  {
    hide LexNumber, Decimal;
    LexDecimal(n, rest);
    NoUnit(n, rest, |Decimal(n)|);
  }

  /** Every duration reads back as the same number of milliseconds. */
  lemma DurationRoundTrip(ms: nat, rest: string)
    requires ms <= I64_MAX && (rest == [] || !IsIdentContinue(rest[0]))
    ensures LexNumber(Duration(ms) + rest) == DurationLit(ms, |Duration(ms)|)
  {
    hide LexNumber, Decimal;
    if ms != 0 && ms % 60_000 == 0 {
      Unit(ms / 60_000, "min", rest);
      LexDecimal(ms / 60_000, "min" + rest);
      assert ("min" + rest)[..3] == "min" && ("min" + rest)[..2] == "mi" && ("min" + rest)[..1] == "m";
      assert ms / 60_000 * 60_000 == ms;
    } else if ms != 0 && ms % 1000 == 0 {
      Unit(ms / 1000, "s", rest);
      LexDecimal(ms / 1000, "s" + rest);
      SecondsUnit(rest);
      assert ms / 1000 * 1000 == ms;
    } else {
      Unit(ms, "ms", rest);
      LexDecimal(ms, "ms" + rest);
      assert ("ms" + rest)[..2] == "ms";
    }
  }

  lemma SecondsUnit(rest: string)
    requires rest == [] || !IsIdentContinue(rest[0])
    ensures StartsWith("s" + rest, "s") && !StartsWith("s" + rest, "ms")
    ensures |"s" + rest| > 1 ==> !IsIdentContinue(("s" + rest)[1])
  {
    var u := "s" + rest;
    assert u[..1] == "s";
    if |u| >= 2 { assert u[..2][0] == 's' && u[1] == rest[0]; }
  }

  lemma Unit(n: nat, unit: string, rest: string)
    ensures Decimal(n) + unit + rest == Decimal(n) + (unit + rest)
  {
  }

  // ----- what a number stands for -----

  /** `c` is the digit `d`. */
  predicate IsDigitOf(c: char, d: nat) { d < 16 && ("0123456789abcdef"[d] == c || "0123456789ABCDEF"[d] == c) }

  function Power(radix: nat, n: nat): nat { if n == 0 then 1 else radix * Power(radix, n - 1) }

  function Places(ds: string): nat { if ds == [] then 0 else Places(ds[1..]) + if ds[0] == '_' then 0 else 1 }

  /** `v` is the number written by `ds`, each digit counting by its place; underscores do not
      count. */
  ghost predicate Denotes(ds: string, radix: nat, v: nat)
  {
    if ds == [] then v == 0
    else if ds[0] == '_' then Denotes(ds[1..], radix, v)
    else exists d: nat, w: nat :: IsDigitOf(ds[0], d) && Denotes(ds[1..], radix, w) && v == d * Power(radix, Places(ds[1..])) + w
  }

  /** The characters of a number: binary, decimal or hexadecimal digits and underscores. */
  predicate BelongsTo(radix: nat, c: char)
  {
    c == '_' || exists d: nat :: d < radix && IsDigitOf(c, d)
  }

  /** The prefix of two characters says which digits follow. */
  ghost predicate HasRadix(s: string, radix: nat, start: nat)
  {
    if |s| >= 2 && s[0] == '0' && (s[1] == 'x' || s[1] == 'X') then radix == 16 && start == 2
    else if |s| >= 2 && s[0] == '0' && (s[1] == 'b' || s[1] == 'B') then radix == 2 && start == 2
    else radix == 10 && start == 0
  }

  /** The digits go from `start` up to `end`, as far as they reach. */
  ghost predicate Reaches(s: string, radix: nat, start: nat, end: nat)
  {
    && start <= end <= |s| && (forall i :: start <= i < end ==> BelongsTo(radix, s[i]))
    && (end < |s| ==> !BelongsTo(radix, s[end]))
  }

  /** The unit behind the digits, if there is one. */
  predicate Measures(v: int, unit: string, end: nat, r: Lexed)
  {
    if |unit| >= 2 && unit[0] == 'm' && unit[1] == 's' then r == DurationLit(v, end + 2)
    else if |unit| >= 1 && unit[0] == 's' && (|unit| == 1 || !IsIdentContinue(unit[1])) then
      r == DurationLit(if v * 1000 <= I64_MAX then v * 1000 else I64_MAX, end + 1)
    else if |unit| >= 3 && unit[0] == 'm' && unit[1] == 'i' && unit[2] == 'n' then
      r == DurationLit(if v * 60_000 <= I64_MAX then v * 60_000 else I64_MAX, end + 3)
    else if |unit| >= 1 && unit[0] == 'm' then r == BadUnit
    else r == IntLit(v, end)
  }

  lemma DigitValueIs(c: char, d: nat)
    requires IsHexDigit(c)
    ensures IsDigitOf(c, d) <==> d == DigitValue(c)
  {
  }

  lemma BelongsIsAccepts(radix: nat, c: char)
    requires radix == 2 || radix == 10 || radix == 16
    ensures BelongsTo(radix, c) <==> Accepts(radix, c)
  {
    if Accepts(radix, c) && c != '_' {
      DigitValueIs(c, DigitValue(c));
      assert DigitValue(c) < radix;
    }
  }

  lemma {:induction false} ValueFirst(c: char, t: string, radix: nat)
    ensures Value([c] + t, radix) == DigitValue(c) * Power(radix, |t|) + Value(t, radix)
  {
    if t == [] {
      assert [c] + t == [c] && [c][..0] == [];
      assert Value([], radix) == 0;
    } else {
      var n := |t| - 1;
      assert ([c] + t)[..|[c] + t| - 1] == [c] + t[..n];
      ValueFirst(c, t[..n], radix);
      OnePlaceMore(DigitValue(c), Power(radix, n), Value(t[..n], radix), radix);
    }
  }

  lemma OnePlaceMore(d: nat, p: nat, v: nat, radix: nat)
    ensures (d * p + v) * radix == d * (radix * p) + v * radix
  {
  }

  lemma {:induction false} PlacesAreStripped(ds: string)
    ensures |Strip(ds)| == Places(ds)
  {
    if ds != [] { PlacesAreStripped(ds[1..]); }
  }

  lemma {:induction false} DenotesIsValue(ds: string, radix: nat, v: nat)
    requires forall i :: 0 <= i < |ds| ==> Accepts(16, ds[i])
    ensures Denotes(ds, radix, v) <==> v == Value(Strip(ds), radix)
  {
    hide Value, IsHexDigit, IsDigitOf, DigitValue;
    if ds == [] {
      assert Strip(ds) == [];
      NoValue(radix);
    } else if ds[0] == '_' {
      DenotesIsValue(ds[1..], radix, v);
    } else {
      var c, t := ds[0], ds[1..];
      var d, w := DigitValue(c), Value(Strip(t), radix);
      forall x: nat ensures Denotes(t, radix, x) <==> x == w { DenotesIsValue(t, radix, x); }
      forall x: nat ensures IsDigitOf(c, x) <==> x == d { DigitValueIs(c, x); }
      assert IsDigitOf(c, d) && Denotes(t, radix, w);
      PlacesAreStripped(t);
      ValueFirst(c, Strip(t), radix);
    }
  }

  lemma NoValue(radix: nat)
    ensures Value([], radix) == 0
  {
  }

  lemma RadixIs(s: string)
    ensures HasRadix(s, Radix(s), if Radix(s) == 10 then 0 else 2)
  {
    if |s| >= 2 { assert s[..2] == [s[0], s[1]]; }
  }

  lemma {:induction false} LeadReaches(s: string, radix: nat)
    ensures forall i :: 0 <= i < Lead(s, radix) ==> Accepts(radix, s[i])
    ensures Lead(s, radix) < |s| ==> !Accepts(radix, s[Lead(s, radix)])
  {
    if s != [] && Accepts(radix, s[0]) { LeadReaches(s[1..], radix); }
  }

  lemma EndReaches(s: string)
    ensures Reaches(s, Radix(s), if Radix(s) == 10 then 0 else 2, End(s))
  {
    hide Accepts, Lead, BelongsTo;
    var radix := Radix(s);
    forall c ensures BelongsTo(radix, c) <==> Accepts(radix, c) { BelongsIsAccepts(radix, c); }
    LeadReaches(if radix == 10 then s else s[2..], radix);
  }

  lemma ReachesOnce(s: string, radix: nat, start: nat, a: nat, b: nat)
    requires Reaches(s, radix, start, a) && Reaches(s, radix, start, b)
    ensures a == b
  {
    hide BelongsTo;
  }

  lemma MeasuresIs(v: int, unit: string, end: nat)
    ensures Measures(v, unit, end, WithUnit(v, unit, end))
  {
    if |unit| >= 1 { assert unit[..1] == [unit[0]]; }
    if |unit| >= 2 { assert unit[..2] == [unit[0], unit[1]]; }
    if |unit| >= 3 { assert unit[..3] == [unit[0], unit[1], unit[2]]; }
  }

  /** Hexadecimal digits that begin with `0b` or `0B` are the exception of `HexIsExactIff`. */
  predicate Ambiguous(ds: string, radix: nat) { radix == 16 && LooksBinary(Strip(ds)) }

  /** A number reads as what its digits denote, with its unit; it is out of range if they are
      missing or denote more than 64 signed bits hold. */
  lemma NumberMeans(s: string, radix: nat, start: nat, end: nat, v: nat)
    requires s != [] && IsDigit(s[0]) && HasRadix(s, radix, start) && Reaches(s, radix, start, end)
    requires Denotes(s[start..end], radix, v) && !Ambiguous(s[start..end], radix)
    ensures if Places(s[start..end]) == 0 || v > I64_MAX then LexNumber(s) == OutOfRange else Measures(v, s[end..], end, LexNumber(s))
  {
    hide Accepts, Denotes, Reaches, Lead, Value, Strip, Body, WithUnit, Measures, LooksBinary, BelongsTo, StartsWith, IsHexDigit;
    RadixIs(s);
    assert radix == Radix(s) && start == if radix == 10 then 0 else 2;
    EndReaches(s);
    ReachesOnce(s, radix, start, end, End(s));
    var ds := s[start..end];
    AllAccepted(s, radix, start, end);
    DenotesIsValue(ds, radix, v);
    PlacesAreStripped(ds);
    PlainBody(s, radix, start, end);
    if Places(ds) != 0 && v <= I64_MAX { MeasuresIs(v, s[end..], end); }
  }

  lemma AllAccepted(s: string, radix: nat, start: nat, end: nat)
    requires HasRadix(s, radix, start) && Reaches(s, radix, start, end)
    ensures forall i :: start <= i < end ==> Accepts(radix, s[i])
    ensures forall i :: 0 <= i < end - start ==> Accepts(16, s[start..end][i])
  {
    forall i | start <= i < end ensures Accepts(radix, s[i]) { BelongsIsAccepts(radix, s[i]); }
  }

  /** Apart from the exception only the prefix is trimmed. */
  lemma PlainBody(s: string, radix: nat, start: nat, end: nat)
    requires HasRadix(s, radix, start) && start <= end <= |s| && !Ambiguous(s[start..end], radix)
    requires forall i :: start <= i < end ==> Accepts(radix, s[i])
    ensures Body(Strip(s[..end]), radix) == Strip(s[start..end])
  {
    hide TrimStart, Body, Strip, LooksBinary, Accepts, IsHexDigit;
    if radix == 10 {
      TenBody(s[..end]);
    } else {
      var p, ds := s[..2], s[2..end];
      assert s[..end] == p + ds && p == [s[0], s[1]];
      StripFirst(p, ds);
      if radix == 16 {
        HexDigitsAre(ds);
        HexBody(p, Strip(ds));
        TrimmedValue(Strip(ds));
      } else {
        BinaryDigitsAre(ds);
        BinaryBody(p, Strip(ds));
      }
    }
  }

  lemma TenBody(ds: string)
    ensures Body(Strip(ds), 10) == Strip(ds)
  {
  }

  lemma HexDigitsAre(ds: string)
    requires forall i :: 0 <= i < |ds| ==> Accepts(16, ds[i])
    ensures forall i :: 0 <= i < |Strip(ds)| ==> IsHexDigit(Strip(ds)[i])
  {
    StripHex(ds);
  }

  lemma {:induction false} BinaryDigitsAre(ds: string)
    requires forall i :: 0 <= i < |ds| ==> Accepts(2, ds[i])
    ensures forall i :: 0 <= i < |Strip(ds)| ==> Strip(ds)[i] == '0' || Strip(ds)[i] == '1'
  {
    if ds != [] { BinaryDigitsAre(ds[1..]); }
  }

  lemma {:induction false} BinaryBody(p: string, d: string)
    requires (p == "0b" || p == "0B") && forall i :: 0 <= i < |d| ==> d[i] == '0' || d[i] == '1'
    ensures Body(p + d, 2) == d
  {
    hide TrimStart;
    var s := p + d;
    assert s[..2] == p && p[1] != 'x' && p[1] != 'X';
    assert "0x"[1] == 'x' && "0X"[1] == 'X' && "0b"[1] == 'b' && "0B"[1] == 'B';
    NoTrim(s, "0x");
    NoTrim(s, "0X");
    TrimPrefix(p, d);
    if |d| >= 2 { assert d[..2][1] == d[1]; }
    NoTrim(d, "0b");
    NoTrim(d, "0B");
    if p == "0B" { NoTrim(s, "0b"); }
  }

  // ----- hexadecimal literals -----

  lemma {:induction false} ValueConcat(a: string, b: string)
    ensures Value(a + b, 16) >= Value(b, 16)
    ensures Value(a, 16) > 0 ==> Value(a + b, 16) > Value(b, 16)
  {
    if b == [] {
      assert a + b == a;
    } else {
      assert (a + b)[..|a + b| - 1] == a + b[..|b| - 1];
      ValueConcat(a, b[..|b| - 1]);
    }
  }

  lemma {:induction false} TrimOnlyShrinks(s: string, p: string)
    requires |p| == 2
    ensures Value(TrimStart(s, p), 16) <= Value(s, 16) && |TrimStart(s, p)| <= |s|
    decreases |s|
  {
    if StartsWith(s, p) {
      TrimOnlyShrinks(s[2..], p);
      assert s == s[..2] + s[2..];
      ValueConcat(s[..2], s[2..]);
    }
  }

  predicate LooksBinary(d: string) { StartsWith(d, "0b") || StartsWith(d, "0B") }

  lemma {:induction false} StripFirst(s: string, t: string)
    requires |s| == 2 && s[0] != '_' && s[1] != '_'
    ensures Strip(s + t) == s + Strip(t)
  {
    assert (s + t)[1..] == [s[1]] + t && ([s[1]] + t)[1..] == t;
  }

  lemma {:induction false} StripHex(ds: string)
    requires forall i :: 0 <= i < |ds| ==> Accepts(16, ds[i])
    ensures forall i :: 0 <= i < |Strip(ds)| ==> IsHexDigit(Strip(ds)[i])
  {
    if ds != [] { StripHex(ds[1..]); }
  }

  predicate IsHexPrefix(p: string) { p == "0x" || p == "0X" }

  /** The prefix goes, and then any leading `0b` of the digits goes with it. */
  lemma {:induction false} HexBody(p: string, d: string)
    requires IsHexPrefix(p) && forall i :: 0 <= i < |d| ==> IsHexDigit(d[i])
    ensures Body(p + d, 16) == TrimStart(TrimStart(d, "0b"), "0B")
  {
    hide TrimStart;
    TrimPrefix(p, d);
    NotTwice(d);
    NoTrim(d, "0x");
    NoTrim(d, "0X");
    if p == "0X" {
      assert (p + d)[..2] == "0X" && "0X"[1] != "0x"[1];
      NoTrim(p + d, "0x");
    }
  }

  lemma TrimPrefix(p: string, d: string)
    requires |p| == 2
    ensures TrimStart(p + d, p) == TrimStart(d, p)
  {
    assert (p + d)[..2] == p && (p + d)[2..] == d;
  }

  lemma NoTrim(d: string, p: string)
    requires |p| == 2 && !StartsWith(d, p)
    ensures TrimStart(d, p) == d
  {
  }

  lemma NotTwice(d: string)
    requires forall i :: 0 <= i < |d| ==> IsHexDigit(d[i])
    ensures !StartsWith(d, "0x") && !StartsWith(d, "0X")
  {
    if |d| >= 2 { assert d[..2][1] == d[1]; }
  }

  lemma TrimmedValue(d: string)
    ensures !LooksBinary(d) ==> TrimStart(TrimStart(d, "0b"), "0B") == d
    ensures LooksBinary(d) ==> Value(TrimStart(TrimStart(d, "0b"), "0B"), 16) < Value(d, 16)
  {
    if LooksBinary(d) {
      var t := TrimStart(d, "0b");
      TrimOnlyShrinks(t, "0B");
      assert d == d[..2] + d[2..];
      assert d[..2][..1] == "0" && "0"[..0] == "";
      assert Value("0", 16) == 0;
      assert Value(d[..2], 16) == 11;
      ValueConcat(d[..2], d[2..]);
      TrimOnlyShrinks(d[2..], "0b");
      TrimOnlyShrinks(d[2..], "0B");
    }
  }

  /** A hexadecimal literal in range, with either prefix, reads as its value exactly when its
      digits do not begin with `0b` or `0B`. */
  lemma {:induction false} HexIsExactIff(p: string, ds: string, rest: string)
    requires IsHexPrefix(p) && forall i :: 0 <= i < |ds| ==> Accepts(16, ds[i])
    requires Strip(ds) != [] && Value(Strip(ds), 16) <= I64_MAX
    requires rest == [] || !IsIdentContinue(rest[0])
    ensures LexNumber(p + ds + rest) == IntLit(Value(Strip(ds), 16), 2 + |ds|) <==> !LooksBinary(Strip(ds))
  {
    hide Value, Strip, Lead, TrimStart, Body, LooksBinary, LexNumber, Accepts, WithUnit;
    var d := Strip(ds);
    LexHex(p, ds, rest);
    StripHex(ds);
    HexBody(p, d);
    TrimmedValue(d);
    NoUnit(Value(TrimStart(TrimStart(d, "0b"), "0B"), 16), rest, 2 + |ds|);
  }

  lemma NoUnit(value: int, rest: string, end: nat)
    requires rest == [] || !IsIdentContinue(rest[0])
    ensures WithUnit(value, rest, end) == IntLit(value, end)
  {
  }

  lemma {:induction false} LexHex(p: string, ds: string, rest: string)
    requires IsHexPrefix(p) && forall i :: 0 <= i < |ds| ==> Accepts(16, ds[i])
    requires rest == [] || !IsIdentContinue(rest[0])
    ensures var value := ParseI64(Body(p + Strip(ds), 16), 16);
            LexNumber(p + ds + rest) == if value.None? then OutOfRange else WithUnit(value.value, rest, 2 + |ds|)
  {
    hide Value, Lead, TrimStart, Body, WithUnit, Strip, Radix, End;
    var s := p + ds + rest;
    HexEnd(p, ds, rest);
    assert s[..2 + |ds|] == p + ds && s[2 + |ds|..] == rest;
    StripFirst(p, ds);
  }

  lemma {:induction false} HexEnd(p: string, ds: string, rest: string)
    requires IsHexPrefix(p) && forall i :: 0 <= i < |ds| ==> Accepts(16, ds[i])
    requires rest == [] || !IsIdentContinue(rest[0])
    ensures Radix(p + ds + rest) == 16 && End(p + ds + rest) == 2 + |ds|
  {
    hide Lead;
    var s := p + ds + rest;
    assert s[..2] == p && s[2..] == ds + rest;
    LeadOf(ds, rest, 16);
  }

  /** `0x0b1` is 177 but reads as 1. */
  lemma {:induction false} HexLosesDigits()
    ensures LexNumber("0x0b1") == IntLit(1, 5) && Value("0b1", 16) == 177
  {
    hide LexNumber, Strip, Body, TrimStart, Value, WithUnit, Accepts;
    var ds := "0b1";
    HexDigitsOf0b1();
    LexHex("0x", ds, "");
    assert "0x" + ds + "" == "0x0b1";
    HexBody("0x", ds);
    TrimOf0b1();
    ValueOf0b1();
    NoUnit(1, "", 5);
  }

  lemma HexDigitsOf0b1()
    ensures Strip("0b1") == "0b1" && forall i :: 0 <= i < 3 ==> Accepts(16, "0b1"[i]) && IsHexDigit("0b1"[i])
  {
    assert "0b1"[1..] == "b1" && "b1"[1..] == "1" && "1"[1..] == "";
    assert Strip("") == "" && Strip("1") == "1" && Strip("b1") == "b1";
  }

  lemma TrimOf0b1()
    ensures TrimStart(TrimStart("0b1", "0b"), "0B") == "1"
  {
    assert "0b1"[..2] == "0b" && "0b1"[2..] == "1";
    assert TrimStart("1", "0b") == "1" && TrimStart("1", "0B") == "1";
  }

  lemma ValueOf0b1()
    ensures Value("0b1", 16) == 177 && Value("1", 16) == 1
  {
    assert "1"[..0] == "" && "0b1"[..2] == "0b" && "0b"[..1] == "0" && "0"[..0] == "";
    assert Value("", 16) == 0 && Value("0", 16) == 0 && Value("0b", 16) == 11;
  }

  // ----- strings -----

  datatype StringError = Unterminated | IncompleteHex | InvalidHex | UnknownEscape

  datatype StringLexed = Text(text: string, used: nat) | Failed(error: StringError)

  /** `u8::from_str_radix` on two characters, which takes a leading plus sign. */
  function HexByte(hi: char, lo: char): (b: Option<nat>)
    ensures b.Some? ==> b.value < 256
  {
    if !IsHexDigit(lo) then None
    else if hi == '+' then Some(DigitValue(lo))
    else if IsHexDigit(hi) then Some(DigitValue(hi) * 16 + DigitValue(lo))
    else None
  }

  function Escape(c: char): Option<char>
  {
    if c == 'n' then Some('\n') else if c == 't' then Some('\t') else if c == 'r' then Some('\r')
    else if c == '0' then Some('\0') else if c == '\"' then Some('\"') else if c == '\\' then Some('\\')
    else None
  }

  function Prefixed(out: string, used: nat, r: StringLexed): StringLexed
  {
    if r.Text? then Text(out + r.text, used + r.used) else r
  }

  /** One character of the body: what it stands for, and how much text it takes. */
  function NextChar(s: string): Option<(char, nat)>
    requires s != [] && s[0] != '\"'
  {
    if s[0] != '\\' then Some((s[0], 1))
    else if |s| < 2 then None
    else if s[1] == 'x' then
      if |s| >= 4 && HexByte(s[2], s[3]).Some? then Some((HexByte(s[2], s[3]).value as char, 4)) else None
    else if Escape(s[1]).Some? then Some((Escape(s[1]).value, 2))
    else None
  }

  function CharError(s: string): StringError
  {
    if |s| < 2 then Unterminated else if s[1] != 'x' then UnknownEscape else if |s| < 4 then IncompleteHex else InvalidHex
  }

  /** The text after an opening quote, up to the closing one. */
  function Unquote(s: string): StringLexed
    decreases |s|
  {
    if s == [] then Failed(Unterminated)
    else if s[0] == '\"' then Text([], 1)
    else
      var c := NextChar(s);
      if c.None? then Failed(CharError(s)) else Prefixed([c.value.0], c.value.1, Unquote(s[c.value.1..]))
  }

  /** `lex_string`: reads on from the opening quote, collecting characters. */
  method LexString(s: string) returns (r: StringLexed)
    ensures r == Unquote(s)
  {
    var out, pos := "", 0;
    while pos < |s|
      invariant pos <= |s| && Unquote(s) == Prefixed(out, pos, Unquote(s[pos..]))
    {
      if s[pos] == '\"' { return Text(out, pos + 1); }
      var c := NextChar(s[pos..]);
      if c.None? { return Failed(CharError(s[pos..])); }
      Regroup(out, pos, [c.value.0], c.value.1, Unquote(s[pos..][c.value.1..]));
      assert s[pos..][c.value.1..] == s[pos + c.value.1..];
      out := out + [c.value.0];
      pos := pos + c.value.1;
    }
    r := Failed(Unterminated);
  }

  lemma Regroup(a: string, m: nat, b: string, n: nat, r: StringLexed)
    ensures Prefixed(a, m, Prefixed(b, n, r)) == Prefixed(a + b, m + n, r)
  {
    if r.Text? { assert a + (b + r.text) == a + b + r.text; }
  }

  function EscapedChar(c: char): string
  {
    if c == '\"' then "\\\"" else if c == '\\' then "\\\\" else [c]
  }

  function Escaped(t: string): string
  {
    if t == [] then [] else Escaped(t[..|t| - 1]) + EscapedChar(t[|t| - 1])
  }

  /** `emit_string_lit`, appending to what is already written. */
  method EmitStringLit(out: string, t: string) returns (written: string)
    ensures written == out + "\"" + Escaped(t) + "\""
  {
    written := out + "\"";
    var i := 0;
    while i < |t|
      invariant 0 <= i <= |t| && written == out + "\"" + Escaped(t[..i])
    {
      assert t[..i + 1][..i] == t[..i];
      written := written + EscapedChar(t[i]);
      i := i + 1;
    }
    assert t[..i] == t;
    written := written + "\"";
  }

  lemma {:induction false} EscapedCons(c: char, t: string)
    ensures Escaped([c] + t) == EscapedChar(c) + Escaped(t)
  {
    hide Escaped;
    if t == [] {
      assert [c] + t == [c];
      EscapedOne(c);
    } else {
      EscapedCons(c, t[..|t| - 1]);
      EscapedSnoc([c] + t[..|t| - 1], t[|t| - 1]);
      EscapedSnoc(t[..|t| - 1], t[|t| - 1]);
      assert [c] + t == [c] + t[..|t| - 1] + [t[|t| - 1]] && t == t[..|t| - 1] + [t[|t| - 1]];
      Assoc(EscapedChar(c), Escaped(t[..|t| - 1]), EscapedChar(t[|t| - 1]));
    }
  }

  lemma EscapedOne(c: char)
    ensures Escaped([c]) == EscapedChar(c) + Escaped([])
  {
    assert [c][..0] == [];
    assert Escaped([]) == [] && EscapedChar(c) + [] == EscapedChar(c) && [] + EscapedChar(c) == EscapedChar(c);
  }

  lemma EscapedSnoc(t: string, c: char)
    ensures Escaped(t + [c]) == Escaped(t) + EscapedChar(c)
  {
    assert (t + [c])[..|t + [c]| - 1] == t;
  }

  lemma Assoc(a: string, b: string, c: string)
    ensures a + b + c == a + (b + c)
  {
  }

  /** Every string reads back, whatever follows its closing quote. */
  lemma {:induction false} StringRoundTrip(t: string, rest: string)
    ensures Unquote(Escaped(t) + "\"" + rest) == Text(t, |Escaped(t)| + 1)
  {
    var s := Escaped(t) + "\"" + rest;
    if t == [] {
      assert s[0] == '\"';
    } else {
      var c, tail := t[0], t[1..];
      StringRoundTrip(tail, rest);
      EscapedCons(c, tail);
      assert t == [c] + tail;
      Assoc(EscapedChar(c), Escaped(tail), "\"");
      Assoc(EscapedChar(c), Escaped(tail) + "\"", rest);
      UnquoteFirst(c, tail, Escaped(tail) + "\"" + rest, |Escaped(tail)| + 1);
    }
  }

  lemma UnquoteFirst(c: char, text: string, tail: string, used: nat)
    requires Unquote(tail) == Text(text, used)
    ensures Unquote(EscapedChar(c) + tail) == Text([c] + text, |EscapedChar(c)| + used)
  {
    var s := EscapedChar(c) + tail;
    FirstChar(c, tail, s);
    assert s[|EscapedChar(c)|..] == tail;
  }

  lemma FirstChar(c: char, tail: string, s: string)
    requires s == EscapedChar(c) + tail
    ensures s[0] != '\"' && NextChar(s) == Some((c, |EscapedChar(c)|))
  {
    if c == '\"' || c == '\\' { assert s[0] == '\\' && s[1] == c; } else { assert s[0] == c; }
  }

  // ----- what a string literal stands for -----

  /** The piece of text `p` stands for the character `c`. */
  ghost predicate StandsFor(p: string, c: char)
  {
    || (p == [c] && c != '\"' && c != '\\')
    || (|p| == 2 && p[0] == '\\' && Named(p[1], c))
    || (|p| == 4 && p[0] == '\\' && p[1] == 'x' && HexPair(p[2], p[3], c))
  }

  /** Two hexadecimal digits, or a plus sign and one. */
  ghost predicate HexPair(a: char, b: char, c: char)
  {
    exists hi: nat, lo: nat :: (IsDigitOf(a, hi) || (a == '+' && hi == 0)) && IsDigitOf(b, lo) && c as int == 16 * hi + lo
  }

  /** The escapes with a letter, a digit or a punctuation mark. */
  predicate Named(e: char, c: char)
  {
    || (e == 'n' && c as int == 10) || (e == 't' && c as int == 9) || (e == 'r' && c as int == 13) || (e == '0' && c as int == 0)
    || (e == '\"' && c == '\"') || (e == '\\' && c == '\\')
  }

  /** `body` is `text` written out piece by piece. */
  ghost predicate Spelled(text: string, body: string)
  {
    if text == [] then body == []
    else exists n :: 0 < n <= |body| && StandsFor(body[..n], text[0]) && Spelled(text[1..], body[n..])
  }

  /** Where the text ends or no piece begins, and why. */
  ghost predicate BreaksOff(rest: string, error: StringError)
  {
    if |rest| == 0 || rest == "\\" then error == Unterminated
    else
      && rest[0] == '\\'
      && if rest[1] == 'x' then
           (if |rest| < 4 then error == IncompleteHex else error == InvalidHex && forall c :: !StandsFor(rest[..4], c))
         else error == UnknownEscape && forall c :: !Named(rest[1], c)
  }

  lemma PieceIs(s: string, n: nat, c: char)
    requires s != [] && s[0] != '\"'
    ensures (0 < n <= |s| && StandsFor(s[..n], c)) <==> NextChar(s) == Some((c, n))
  {
    hide HexByte;
    if s[0] != '\\' {
      PlainPiece(s, n, c);
    } else if |s| >= 2 && s[1] == 'x' {
      if |s| >= 4 { HexPiece(s, c); }
    } else if |s| >= 2 {
      NamedIs(s[1], c);
    }
  }

  lemma PlainPiece(s: string, n: nat, c: char)
    requires s != [] && s[0] != '\"' && s[0] != '\\'
    ensures (0 < n <= |s| && StandsFor(s[..n], c)) <==> n == 1 && c == s[0]
  {
    if 0 < n <= |s| { assert s[..n][0] == s[0]; }
  }

  lemma NamedIs(e: char, c: char)
    ensures Named(e, c) <==> Escape(e) == Some(c)
  {
  }

  lemma HexPiece(s: string, c: char)
    requires |s| >= 4 && s[0] == '\\' && s[1] == 'x'
    ensures StandsFor(s[..4], c) <==> HexByte(s[2], s[3]).Some? && HexByte(s[2], s[3]).value as char == c
  {
    hide HexByte, HexPair;
    var p := s[..4];
    assert p[0] == s[0] && p[1] == s[1] && p[2] == s[2] && p[3] == s[3];
    HexByteIs(p[2], p[3], c);
  }

  lemma HexByteIs(a: char, b: char, c: char)
    ensures HexPair(a, b, c) <==> HexByte(a, b).Some? && HexByte(a, b).value as char == c
  {
    hide IsDigitOf;
    NotHex(a);
    NotHex(b);
    forall d: nat ensures IsHexDigit(a) ==> (IsDigitOf(a, d) <==> d == DigitValue(a)) { if IsHexDigit(a) { DigitValueIs(a, d); } }
    forall d: nat ensures IsHexDigit(b) ==> (IsDigitOf(b, d) <==> d == DigitValue(b)) { if IsHexDigit(b) { DigitValueIs(b, d); } }
    if HexByte(a, b).Some? {
      var hi: nat, lo: nat := if a == '+' then 0 else DigitValue(a), DigitValue(b);
      assert (IsDigitOf(a, hi) || (a == '+' && hi == 0)) && IsDigitOf(b, lo);
    }
  }

  lemma NotHex(c: char)
    ensures !IsHexDigit(c) ==> forall d: nat :: !IsDigitOf(c, d)
  {
  }

  lemma NoPieceStartsWithQuote(body: string, n: nat, c: char)
    requires 0 < n <= |body| && body[0] == '\"'
    ensures !StandsFor(body[..n], c)
  {
    assert body[..n][0] == '\"';
  }

  lemma {:induction false} SpelledUnfolds(text: string, body: string)
    requires text != []
    ensures Spelled(text, body) <==> exists n: nat :: 0 < n <= |body| && StandsFor(body[..n], text[0]) && Spelled(text[1..], body[n..])
  {
    hide StandsFor;
  }

  lemma NextCharTakes(s: string)
    requires s != [] && s[0] != '\"' && NextChar(s).Some?
    ensures 0 < NextChar(s).value.1 <= |s|
  {
    hide HexByte, Escape;
  }

  /** The first piece of what is spelled is the first character read. */
  lemma {:induction false} SpelledOn(text: string, s: string, m: nat)
    requires text != [] && m <= |s| && s != [] && s[0] != '\"'
    ensures var c := NextChar(s);
            Spelled(text, s[..m]) <==> c.Some? && c.value.0 == text[0] && c.value.1 <= m && Spelled(text[1..], s[c.value.1..][..m - c.value.1])
  {
    hide StandsFor, NextChar, Spelled;
    var c, body := NextChar(s), s[..m];
    SpelledUnfolds(text, body);
    if c.Some? {
      NextCharTakes(s);
      PieceIs(s, c.value.1, text[0]);
      if c.value.1 <= m { assert body[..c.value.1] == s[..c.value.1] && body[c.value.1..] == s[c.value.1..][..m - c.value.1]; }
    }
    if Spelled(text, body) {
      var n: nat :| 0 < n <= m && StandsFor(body[..n], text[0]) && Spelled(text[1..], body[n..]);
      assert body[..n] == s[..n];
      PieceIs(s, n, text[0]);
    }
  }

  /** No way of spelling a string is shorter than the printed one. */
  lemma {:induction false} EscapedIsShortest(t: string, body: string)
    requires Spelled(t, body)
    ensures |Escaped(t)| <= |body|
    decreases |t|
  {
    hide Spelled, StandsFor, Escaped;
    if t == [] {
      assert Escaped(t) == [] by { EscapedIsEmpty(); }
    } else {
      SpelledUnfolds(t, body);
      var n: nat :| 0 < n <= |body| && StandsFor(body[..n], t[0]) && Spelled(t[1..], body[n..]);
      PieceIsNoShorter(body[..n], t[0]);
      EscapedIsShortest(t[1..], body[n..]);
      EscapedCons(t[0], t[1..]);
      assert t == [t[0]] + t[1..];
    }
  }

  lemma EscapedIsEmpty()
    ensures Escaped([]) == []
  {
  }

  lemma PieceIsNoShorter(p: string, c: char)
    requires StandsFor(p, c)
    ensures |EscapedChar(c)| <= |p|
  {
  }

  lemma QuoteSpellsNothing(text: string, body: string)
    requires text != [] && body != [] && body[0] == '\"'
    ensures !Spelled(text, body)
  {
    hide StandsFor, Spelled;
    SpelledUnfolds(text, body);
    if Spelled(text, body) {
      var n: nat :| 0 < n <= |body| && StandsFor(body[..n], text[0]) && Spelled(text[1..], body[n..]);
      NoPieceStartsWithQuote(body, n, text[0]);
    }
  }

  lemma SpelledIsEmpty(text: string, body: string)
    requires text == [] || body == []
    ensures Spelled(text, body) <==> text == [] && body == []
  {
  }

  /** A string literal reads as `text` exactly if, up to a closing quote, it is `text` written
      out piece by piece. */
  lemma {:induction false} TextMeans(s: string, text: string, used: nat)
    ensures Unquote(s) == Text(text, used) <==> 1 <= used <= |s| && s[used - 1] == '\"' && Spelled(text, s[..used - 1])
    decreases |s|
  {
    hide StandsFor, NextChar, CharError, Spelled;
    if 1 <= used <= |s| { SpelledIsEmpty([], s[..used - 1]); SpelledIsEmpty(text, []); }
    if s != [] && s[0] == '\"' {
      if text != [] && 1 < used <= |s| { QuoteSpellsNothing(text, s[..used - 1]); }
    } else if s != [] {
      if text != [] && 1 <= used <= |s| { SpelledOn(text, s, used - 1); }
      if NextChar(s).Some? {
        NextCharTakes(s);
        RestMeans(s, text, used);
      }
    }
  }

  lemma {:induction false} RestMeans(s: string, text: string, used: nat)
    requires s != [] && s[0] != '\"' && NextChar(s).Some? && 0 < NextChar(s).value.1 <= |s|
    ensures var (c, n) := NextChar(s).value;
            Unquote(s) == Text(text, used)
            <==> text != [] && text[0] == c && n < used <= |s| && s[used - 1] == '\"' && Spelled(text[1..], s[n..][..used - 1 - n])
    decreases |s|, 0
  {
    hide StandsFor, NextChar, CharError, Spelled;
    var (c, n) := NextChar(s).value;
    var r := Unquote(s[n..]);
    if r.Text? { TextMeans(s[n..], r.text, r.used); }
    if text != [] && n < used {
      TextMeans(s[n..], text[1..], used - n);
      assert text == [text[0]] + text[1..];
    }
    assert Unquote(s) == Prefixed([c], n, r);
    if r.Text? && [c] + r.text == text { assert text[1..] == r.text; }
  }

  lemma BreaksOffIs(rest: string, error: StringError)
    ensures BreaksOff(rest, error)
            <==> if rest == [] then error == Unterminated else rest[0] != '\"' && NextChar(rest).None? && CharError(rest) == error
  {
    hide HexByte, StandsFor, Escape, Named;
    if |rest| >= 2 && rest[0] == '\\' {
      if rest[1] != 'x' {
        forall c ensures Named(rest[1], c) <==> Escape(rest[1]) == Some(c) { NamedIs(rest[1], c); }
      } else if |rest| >= 4 {
        forall c ensures StandsFor(rest[..4], c) <==> HexByte(rest[2], rest[3]).Some? && HexByte(rest[2], rest[3]).value as char == c { HexPiece(rest, c); }
        if b: nat :| HexByte(rest[2], rest[3]) == Some(b) && b < 256 { assert StandsFor(rest[..4], b as char); }
      }
    }
  }

  /** A string literal fails with an error exactly if it breaks off with it behind some
      spelled text. */
  lemma {:induction false} FailureMeans(s: string, error: StringError)
    ensures Unquote(s) == Failed(error) <==> exists n: nat, text :: n <= |s| && Spelled(text, s[..n]) && BreaksOff(s[n..], error)
  {
    hide Unquote, Spelled, BreaksOff;
    if Unquote(s) == Failed(error) {
      var n, text := FailurePoint(s);
    } else if n: nat, text :| n <= |s| && Spelled(text, s[..n]) && BreaksOff(s[n..], error) {
      BreakFails(s, n, text, error);
    }
  }

  lemma {:induction false} FailurePoint(s: string) returns (n: nat, text: string)
    requires Unquote(s).Failed?
    ensures n <= |s| && Spelled(text, s[..n]) && BreaksOff(s[n..], Unquote(s).error)
    decreases |s|
  {
    hide NextChar, CharError, Spelled, BreaksOff;
    n, text := 0, [];
    assert s[0..] == s && s[..0] == [];
    SpelledIsEmpty([], []);
    BreaksOffIs(s, Unquote(s).error);
    if s != [] && NextChar(s).Some? {
      var c := NextChar(s).value;
      NextCharTakes(s);
      var m, rest := FailurePoint(s[c.1..]);
      n, text := c.1 + m, [c.0] + rest;
      assert text[1..] == rest && s[c.1..][..n - c.1] == s[c.1..][..m] && s[n..] == s[c.1..][m..];
      SpelledOn(text, s, n);
    }
  }

  lemma {:induction false} BreakFails(s: string, n: nat, text: string, error: StringError)
    requires n <= |s| && Spelled(text, s[..n]) && BreaksOff(s[n..], error)
    ensures Unquote(s) == Failed(error)
    decreases |text|
  {
    hide NextChar, CharError, Spelled, BreaksOff;
    if text == [] {
      SpelledIsEmpty(text, s[..n]);
      assert n == 0 && s[0..] == s;
      BreaksOffIs(s, error);
    } else {
      SpelledIsEmpty(text, []);
      assert n > 0;
      if s[0] == '\"' { QuoteSpellsNothing(text, s[..n]); }
      SpelledOn(text, s, n);
      var c := NextChar(s).value;
      assert s[n..] == s[c.1..][n - c.1..];
      BreakFails(s[c.1..], n - c.1, text[1..], error);
    }
  }
}
