/**
 Configuration values with units: the printer chooses the greatest unit that represents a value exactly, and the
 parser reads the text back. Conversion factors are exact rationals.
 */
module Units {
  import opened Options
  import opened Numerals

  datatype Unit = TB | GB | MB | KB | B | Day | Hour | Minute | Second | Millisecond | Microsecond

  function Name(u: Unit): string {
    match u
    case TB => "TB" case GB => "GB" case MB => "MB" case KB => "kB" case B => "B"
    case Day => "d" case Hour => "h" case Minute => "min"
    case Second => "s" case Millisecond => "ms" case Microsecond => "us"
  }

  function Named(s: string): Option<Unit> {
    if s == "TB" then Some(TB) else if s == "GB" then Some(GB) else if s == "MB" then Some(MB)
    else if s == "kB" then Some(KB) else if s == "B" then Some(B)
    else if s == "d" then Some(Day) else if s == "h" then Some(Hour) else if s == "min" then Some(Minute)
    else if s == "s" then Some(Second) else if s == "ms" then Some(Millisecond)
    else if s == "us" then Some(Microsecond) else None
  }

  lemma NamedIsInverse(s: string, u: Unit)
    ensures Named(s) == Some(u) <==> s == Name(u)
    ensures Letters(Name(u))
  {}

  // ---------- the conversion tables ----------

  predicate Memory(u: Unit) { u.TB? || u.GB? || u.MB? || u.KB? || u.B? }

  predicate SameTable(u: Unit, base: Unit) { Memory(u) <==> Memory(base) }

  /** The columns of the tables; any other base has no table. */
  predicate IsBase(u: Unit) { u.B? || u.KB? || u.MB? || u.Millisecond? || u.Second? || u.Minute? }

  /** How many of the smallest unit of the table make one of this unit. */
  function Size(u: Unit): (n: nat)
    ensures n > 0
  {
    match u
    case TB => 0x100_0000_0000 case GB => 0x4000_0000 case MB => 0x10_0000 case KB => 0x400 case B => 1
    case Day => 86_400_000_000 case Hour => 3_600_000_000 case Minute => 60_000_000
    case Second => 1_000_000 case Millisecond => 1_000 case Microsecond => 1
  }

  /** How many base units make one of this unit: the table entry. */
  function Factor(u: Unit, base: Unit): (f: real)
    ensures f > 0.0
  {
    Size(u) as real / Size(base) as real
  }

  function Greatest(base: Unit): Unit { if Memory(base) then TB else Day }

  /** The next row of the table. */
  function Next(u: Unit): Option<Unit> {
    match u
    case TB => Some(GB) case GB => Some(MB) case MB => Some(KB) case KB => Some(B) case B => None
    case Day => Some(Hour) case Hour => Some(Minute) case Minute => Some(Second)
    case Second => Some(Millisecond) case Millisecond => Some(Microsecond) case Microsecond => None
  }

  /** How many of the next unit make one of each. */
  lemma TableSteps(u: Unit)
    ensures Next(u).Some? ==>
      var step := match u
        case TB => 1024 case GB => 1024 case MB => 1024 case KB => 1024
        case Day => 24 case Hour => 60 case Minute => 60 case Second => 1000 case Millisecond => 1000
        case _ => 0;
      Size(u) == step * Size(Next(u).value)
    ensures Size(B) == 1 && Size(Microsecond) == 1
    ensures Next(u).None? <==> u == B || u == Microsecond
    ensures Next(TB) == Some(GB) && Next(GB) == Some(MB) && Next(MB) == Some(KB) && Next(KB) == Some(B)
    ensures Next(Day) == Some(Hour) && Next(Hour) == Some(Minute) && Next(Minute) == Some(Second)
    ensures Next(Second) == Some(Millisecond) && Next(Millisecond) == Some(Microsecond)
  {}

  // ---------- rounding ----------

  /** Rounds to the nearest integer, halves to the even one. */
  function Round(x: real): (n: int)
    ensures x - 0.5 <= n as real <= x + 0.5
  {
    var below := x.Floor;
    var part := x - below as real;
    if part < 0.5 then below
    else if part > 0.5 then below + 1
    else if below % 2 == 0 then below else below + 1
  }

  lemma RoundWhole(n: int)
    ensures Round(n as real) == n
  {}

  /** To the nearest integer, and from half way to the even one. */
  lemma RoundIsNearest(n: int, part: real)
    requires 0.0 <= part < 1.0
    ensures part < 0.5 ==> Round(n as real + part) == n
    ensures part > 0.5 ==> Round(n as real + part) == n + 1
    ensures part == 0.5 ==> Round(n as real + part) % 2 == 0
  {
    assert (n as real + part).Floor == n;
  }

  /** Whether `x` is a whole multiple of `f`; for integers this is `x % f == 0`. */
  predicate Divides(f: real, x: real)
    requires f > 0.0
  {
    (x / f).Floor as real == x / f
  }

  // ---------- printing and parsing ----------

  /** The base unit of a parameter, such as 8kB: a multiplier, 1 when there is none, and a unit. */
  datatype Base = Base(multiplier: int, unit: Option<Unit>)

  function BaseOf(text: string): Base {
    var s := Strtol(text, Some(1));
    var u := Named(s.rest);
    Base(s.value.value, if u.Some? && IsBase(u.value) then u else None)
  }

  /** `convert_int_from_base_unit`: the first unit that is no more than the base unit or divides the value. */
  function ConvertFrom(value: int, base: string): Option<string> {
    var b := BaseOf(base);
    if b.unit.None? then None else Some(InUnits(value * b.multiplier, b.unit.value))
  }

  function InUnits(value: int, base: Unit): string {
    var u := Choice(value, base, Greatest(base));
    Print(Round(value as real / Factor(u, base))) + Name(u)
  }

  function Choice(value: int, base: Unit, from: Unit): Unit
    decreases Size(from)
  {
    if Factor(from, base) <= 1.0 || Divides(Factor(from, base), value as real) || Next(from).None? then from
    else Choice(value, base, Next(from).value)
  }

  /** `convert_to_base_unit`: nothing for an unknown unit; the division by a zero multiplier raises. */
  datatype Conversion = Unknown | Raised | Converted(value: real)

  function ConvertTo(value: int, unit: string, base: string): Conversion {
    var u, b := Named(unit), BaseOf(base);
    if u.None? || b.unit.None? || !SameTable(u.value, b.unit.value) then Unknown
    else if b.multiplier == 0 then Raised
    else Converted(Rounded(Scale(value, Factor(u.value, b.unit.value), b.multiplier), u.value, b.unit.value))
  }

  function Scale(value: int, f: real, multiplier: int): real
    requires multiplier != 0
  {
    value as real * (f / multiplier as real)
  }

  /** Rounds to a multiple of the next smaller unit. */
  function Rounded(x: real, unit: Unit, base: Unit): real {
    if Next(unit).None? then x else ToMultiple(x, Factor(Next(unit).value, base))
  }

  function ToMultiple(x: real, f: real): real
    requires f > 0.0
  {
    Round(x / f) as real * f
  }

  datatype Parsed = Invalid | Error | Fractional | Number(value: int)

  /** `parse_int`; texts with a fraction or an exponent go to floating point, which is not modelled. */
  function ParseInt(text: string, base: string): Parsed {
    var s := Strtol(text, None);
    if s.rest != [] && (s.rest[0] == '.' || (s.value.Some? && (s.rest[0] == 'e' || s.rest[0] == 'E'))) then Fractional
    else if s.value.None? then Invalid
    else
      var unit := Strip(s.rest);
      if unit == [] then Number(s.value.value)
      else
        match ConvertTo(s.value.value, unit, base)
        case Unknown => Invalid
        case Raised => Error
        case Converted(x) => Number(Round(x))
  }

  // ---------- exact arithmetic ----------

  lemma Distribute(a: real, b: real, c: real)
    ensures (a + b) * c == a * c + b * c
  {}

  lemma Scaled(x: real, f: real)
    requires f > 0.0
    ensures (x >= 1.0 <==> x * f >= f) && (x < 0.0 <==> x * f < 0.0)
  {}

  lemma RealQuotient(v: real, f: real, q: real, r: real)
    requires 0.0 <= r < f && v == q * f + r
    ensures v / f == q + r / f && 0.0 <= r / f < 1.0 && (r / f == 0.0 <==> r == 0.0)
  {
    var x := r / f;
    assert x * f == r;
    Distribute(q, x, f);
    assert (q + x) * f == v;
    Scaled(x, f);
  }

  lemma DividesWhole(f: nat, v: int)
    requires f >= 1
    ensures Divides(f as real, v as real) <==> v % f == 0
    ensures v % f == 0 ==> v as real / f as real == (v / f) as real
  {
    var q, r := v / f, v % f;
    assert v == q * f + r;
    assert v as real == (q * f) as real + r as real && (q * f) as real == q as real * f as real;
    RealQuotient(v as real, f as real, q as real, r as real);
    assert (v as real / f as real).Floor == q;
  }

  lemma WholeQuotient(f: real, x: real, n: int)
    requires f > 0.0 && x / f == n as real
    ensures Divides(f, x)
  {}

  lemma DividesSmall(f: nat, v: int)
    requires f >= 1
    ensures Divides(1.0 / f as real, v as real)
    ensures v as real / (1.0 / f as real) == (v * f) as real
  {
    hide Divides;
    RealProduct(v, f);
    DivideByInverse(v as real, f as real);
    WholeQuotient(1.0 / f as real, v as real, v * f);
  }

  lemma RealProduct(v: int, f: int)
    ensures v as real * f as real == (v * f) as real
  {}

  lemma DivideByInverse(v: real, f: real)
    requires f > 0.0
    ensures 1.0 / f > 0.0 && v / (1.0 / f) == v * f
  {
    var g := 1.0 / f;
    assert g * f == 1.0;
    Scaled(g, f);
    assert (v * f) * g == v * (f * g);
  }

  lemma MultipleMod(r: int, g: nat)
    requires g >= 1
    ensures (r * g) % g == 0 && (r * g) / g == r
  {
    var q, m := (r * g) / g, (r * g) % g;
    assert r * g == q * g + m;
    assert (r - q) * g == m;
    assert r - q >= 1 ==> (r - q) * g >= g;
    assert r - q <= -1 ==> (r - q) * g + g <= 0;
  }

  lemma Quotient(a: nat, b: nat)
    requires b > 0 && a % b == 0
    ensures a as real / b as real == (a / b) as real
  {
    assert a == (a / b) * b;
    assert a as real == (a / b) as real * b as real;
  }

  lemma Inverse(a: real, b: real)
    requires a >= b > 0.0
    ensures b / a == 1.0 / (a / b) && b / a <= 1.0
  {
    assert (b / a) * (a / b) == 1.0;
  }

  lemma Rescale(value: int, n: int, f: nat, m: int)
    requires m != 0 && value * m == n * f
    ensures Scale(n, f as real, m) == value as real
  {
    assert (value * m) as real == value as real * m as real;
    assert (n * f) as real == n as real * f as real;
    assert n as real * (f as real / m as real) == (n as real * f as real) / m as real;
  }

  // ---------- table entries ----------

  lemma SizesDivide(u: Unit, base: Unit)
    requires SameTable(u, base) && Size(u) >= Size(base)
    ensures Size(u) % Size(base) == 0 && Size(u) / Size(base) >= 1
  {}

  /** A unit of at least the base unit is a whole number of base units. */
  lemma GreatFactor(u: Unit, base: Unit) returns (f: nat)
    requires SameTable(u, base) && Size(u) >= Size(base)
    ensures f >= 1 && Factor(u, base) == f as real && f == Size(u) / Size(base)
  {
    SizesDivide(u, base);
    hide Size;
    Quotient(Size(u), Size(base));
    f := Size(u) / Size(base);
  }

  /** The base unit is a whole number of units of at most its size. */
  lemma SmallFactor(u: Unit, base: Unit) returns (f: nat)
    requires SameTable(u, base) && Size(u) <= Size(base)
    ensures f >= 1 && Factor(u, base) == 1.0 / f as real && Factor(u, base) <= 1.0
  {
    f := GreatFactor(base, u);
    hide Size;
    Inverse(Size(base) as real, Size(u) as real);
  }

  // ---------- the unit that is chosen ----------

  /** No unit greater than `u`, up to `from`, represents the value exactly. */
  ghost predicate NoneGreater(value: int, base: Unit, u: Unit, from: Unit) {
    forall w | SameTable(w, base) && Size(u) < Size(w) <= Size(from) :: !Divides(Factor(w, base), value as real)
  }

  /** The unit chosen represents the value exactly, and no greater unit does. */
  lemma {:induction false} ChoiceIsExact(value: int, base: Unit, from: Unit)
    requires SameTable(from, base) && Size(from) >= Size(base)
    ensures var u := Choice(value, base, from);
      && SameTable(u, base) && Size(base) <= Size(u) <= Size(from)
      && Divides(Factor(u, base), value as real) && NoneGreater(value, base, u, from)
    decreases Size(from)
  {
    ChoiceStep(value, base, from);
    hide Choice, Factor, Divides, Size, SameTable, Next, NoneGreater;
    if Size(from) == Size(base) || Divides(Factor(from, base), value as real) {
      NoneGreaterThanItself(value, base, from);
    } else {
      ChoiceIsExact(value, base, Next(from).value);
      NoneGreaterUp(value, base, Choice(value, base, from), from);
    }
  }

  lemma ChoiceStep(value: int, base: Unit, from: Unit)
    requires SameTable(from, base) && Size(from) >= Size(base)
    ensures if Size(from) == Size(base) || Divides(Factor(from, base), value as real)
            then Choice(value, base, from) == from && Divides(Factor(from, base), value as real)
            else
              && Next(from).Some? && Choice(value, base, from) == Choice(value, base, Next(from).value)
              && SameTable(Next(from).value, base) && Size(base) <= Size(Next(from).value) < Size(from)
  {
    NextIsSmaller(from, base);
    DividesWhole(1, value);
    hide Factor, Divides, Size, Next;
  }

  lemma NoneGreaterThanItself(value: int, base: Unit, u: Unit)
    ensures NoneGreater(value, base, u, u)
  {}

  lemma NoneGreaterUp(value: int, base: Unit, u: Unit, from: Unit)
    requires SameTable(from, base) && Size(from) > Size(base) && Next(from).Some?
    requires !Divides(Factor(from, base), value as real)
    requires NoneGreater(value, base, u, Next(from).value)
    ensures NoneGreater(value, base, u, from)
  {
    NextIsSmaller(from, base);
    hide Factor, Divides, Size, SameTable, Next;
  }

  lemma NextIsSmaller(u: Unit, base: Unit)
    requires SameTable(u, base) && Size(u) >= Size(base)
    ensures forall w | SameTable(w, base) && Size(w) <= Size(u) ::
      w == u || (Next(u).Some? && Size(w) <= Size(Next(u).value))
    ensures Next(u).Some? ==> SameTable(Next(u).value, u) && Size(Next(u).value) < Size(u)
    ensures Size(u) == Size(base) ==> Factor(u, base) == 1.0
    ensures Size(u) > Size(base) ==> Factor(u, base) > 1.0 && Next(u).Some? && Size(Next(u).value) >= Size(base)
  {
    var f := GreatFactor(u, base);
  }

  /** What is printed: a whole number of the greatest unit that divides the value. */
  lemma Printed(value: int, base: Unit) returns (u: Unit, f: nat, n: int)
    requires IsBase(base)
    ensures u == Choice(value, base, Greatest(base)) && SameTable(u, base) && Size(u) >= Size(base)
    ensures f >= 1 && Factor(u, base) == f as real && value == n * f
    ensures InUnits(value, base) == Print(n) + Name(u)
    ensures forall w | SameTable(w, base) && Size(w) > Size(u) :: !Divides(Factor(w, base), value as real)
  {
    assert SameTable(Greatest(base), base);
    assert forall w | SameTable(w, base) :: Size(w) <= Size(Greatest(base));
    u := Choice(value, base, Greatest(base));
    ChoiceIsExact(value, base, Greatest(base));
    f := GreatFactor(u, base);
    hide Factor, Size, SameTable, Divides, Choice, Print, Name, Round, Greatest;
    DividesWhole(f, value);
    n := value / f;
    RoundWhole(n);
    Exactly(value, f);
  }

  lemma Exactly(value: int, f: nat)
    requires f >= 1 && value % f == 0
    ensures value == value / f * f
  {}

  /** What the parser makes of a whole number of some unit. */
  lemma Reparsed(n: int, u: Unit, base: string)
    ensures ParseInt(Print(n) + Name(u), base) ==
      match ConvertTo(n, Name(u), base)
      case Unknown => Invalid
      case Raised => Error
      case Converted(x) => Number(Round(x))
  {
    NamedIsInverse(Name(u), u);
    hide Name, Strtol, Strip, Print, ConvertTo, Round;
    ScanPrinted(n, Name(u));
    StripNothing(Name(u));
  }

  /** Whether the value survives being rounded to a multiple of the unit after `u`. */
  predicate KeepsValue(value: int, u: Unit, base: Unit) {
    Next(u).None? || Divides(Factor(Next(u).value, base), value as real)
  }

  lemma MultipleIff(value: int, r: int, g: nat)
    requires g >= 1
    ensures r * g == value ==> value % g == 0
    ensures value % g == 0 && r == value / g ==> r * g == value
  {
    MultipleMod(r, g);
  }

  lemma GreatKept(value: int, g: nat)
    requires g >= 1
    ensures Round(ToMultiple(value as real, g as real)) == value <==> Divides(g as real, value as real)
  {
    hide Round;
    DividesWhole(g, value);
    hide Divides;
    var r := Round(value as real / g as real);
    assert r as real * g as real == (r * g) as real;
    RoundWhole(r * g);
    MultipleIff(value, r, g);
    if value % g == 0 {
      RoundWhole(value / g);
    }
  }

  lemma SmallKept(value: int, f: real, g: nat)
    requires g >= 1 && f == 1.0 / g as real && f > 0.0
    ensures Divides(f, value as real)
    ensures Round(ToMultiple(value as real, f)) == value
  {
    hide Round;
    DividesSmall(g, value);
    RoundWhole(value * g);
    Rescale(value, value * g, 1, g);
    RoundWhole(value);
  }

  lemma RoundedIffKept(value: int, u: Unit, base: Unit)
    requires SameTable(u, base)
    ensures Round(Rounded(value as real, u, base)) == value <==> KeepsValue(value, u, base)
  {
    hide Round, Divides, Factor, ToMultiple;
    RoundWhole(value);
    if Next(u).Some? {
      var w := Next(u).value;
      if Size(w) >= Size(base) {
        var g := GreatFactor(w, base);
        GreatKept(value, g);
      } else {
        var g := SmallFactor(w, base);
        SmallKept(value, Factor(w, base), g);
      }
    }
  }

  lemma ConvertedBack(value: int, n: int, u: Unit, f: nat, b: Base, base: string)
    requires b == BaseOf(base) && b.unit.Some? && b.multiplier != 0 && SameTable(u, b.unit.value)
    requires Factor(u, b.unit.value) == f as real && value * b.multiplier == n * f
    ensures ConvertTo(n, Name(u), base) == Converted(Rounded(value as real, u, b.unit.value))
  {
    hide BaseOf, Factor, SameTable, Rounded, Name, Named, Scale;
    NamedIsInverse(Name(u), u);
    Rescale(value, n, f, b.multiplier);
  }

  lemma ParsedBack(value: int, n: int, u: Unit, f: nat, b: Base, base: string)
    requires b == BaseOf(base) && b.unit.Some? && b.multiplier != 0 && SameTable(u, b.unit.value)
    requires Factor(u, b.unit.value) == f as real && value * b.multiplier == n * f
    ensures ParseInt(Print(n) + Name(u), base) == Number(Round(Rounded(value as real, u, b.unit.value)))
  {
    hide BaseOf, Factor, SameTable, Print, Rounded, Round, ParseInt, Name, ConvertTo;
    Reparsed(n, u, base);
    ConvertedBack(value, n, u, f, b, base);
  }

  /**
   Printing and parsing undo each other exactly when the value is a multiple of the unit after the one chosen. The
   parser rounds to that unit without taking the multiplier of the base into account.
   */
  lemma RoundTripIff(value: int, base: string)
    requires BaseOf(base).unit.Some? && BaseOf(base).multiplier != 0
    ensures var b := BaseOf(base);
      var u := Choice(value * b.multiplier, b.unit.value, Greatest(b.unit.value));
      && ConvertFrom(value, base).Some?
      && (ParseInt(ConvertFrom(value, base).value, base) == Number(value) <==> KeepsValue(value, u, b.unit.value))
  {
    var b := BaseOf(base);
    BaseIsBase(base);
    hide BaseOf, Choice, Factor, Size, SameTable, Name, Print, KeepsValue, Rounded, Round, InUnits, Greatest, ParseInt;
    var u, f, n := Printed(value * b.multiplier, b.unit.value);
    ParsedBack(value, n, u, f, b, base);
    RoundedIffKept(value, u, b.unit.value);
  }

  lemma BaseIsBase(base: string)
    ensures BaseOf(base).unit.Some? ==> IsBase(BaseOf(base).unit.value)
  {}

  /** The multiplier divides every step of the table down to the base unit, as 8 does for kB and 1 always does. */
  predicate Compatible(m: int, base: Unit) {
    m >= 1 && forall u | SameTable(u, base) && Next(u).Some? && Size(Next(u).value) >= Size(base) ::
      (Size(u) / Size(Next(u).value)) % m == 0
  }

  /** Then every value comes back. */
  lemma RoundTrip(value: int, text: string)
    requires BaseOf(text).unit.Some? && Compatible(BaseOf(text).multiplier, BaseOf(text).unit.value)
    ensures ConvertFrom(value, text).Some? && ParseInt(ConvertFrom(value, text).value, text) == Number(value)
  {
    var b := BaseOf(text);
    BaseIsBase(text);
    RoundTripIff(value, text);
    hide BaseOf, ConvertFrom, ParseInt, KeepsValue, Choice, Greatest, Factor, Size, SameTable, InUnits, IsBase;
    var u, f, n := Printed(value * b.multiplier, b.unit.value);
    MultipleKept(value, b.multiplier, u, f, n, b.unit.value);
  }

  /** In particular for each plain base unit. */
  lemma PlainRoundTrip(value: int, base: Unit)
    requires IsBase(base)
    ensures ConvertFrom(value, Name(base)).Some?
    ensures ParseInt(ConvertFrom(value, Name(base)).value, Name(base)) == Number(value)
  {
    PlainBase(base);
    assert Compatible(1, base);
    hide ConvertFrom, ParseInt, Compatible, BaseOf;
    RoundTrip(value, Name(base));
  }

  lemma PlainBase(base: Unit)
    requires IsBase(base)
    ensures BaseOf(Name(base)) == Base(1, Some(base))
  {
    NamedIsInverse(Name(base), base);
    StripNothing(Name(base));
    hide Strip, Named, Letters;
    assert Unsigned(Name(base)).value.None?;
  }

  lemma SizesChain(u: Unit, base: Unit)
    requires SameTable(u, base) && Next(u).Some? && Size(Next(u).value) >= Size(base)
    ensures var w := Next(u).value;
      SameTable(w, base) && Size(u) / Size(base) == (Size(u) / Size(w)) * (Size(w) / Size(base))
  {
    var w := Next(u).value;
    assert SameTable(w, base) && SameTable(u, w) && Size(u) >= Size(w);
    hide Size, SameTable, Next;
    SizesDivide(u, w);
    SizesDivide(w, base);
    QuotientChain(Size(u), Size(w), Size(base));
  }

  lemma QuotientChain(a: nat, b: nat, c: nat)
    requires b > 0 && c > 0 && a % b == 0 && b % c == 0
    ensures a / c == (a / b) * (b / c)
  {
    var x, y := a / b, b / c;
    Exactly(a, b);
    Exactly(b, c);
    assert a == (x * y) * c;
    MultipleMod(x * y, c);
  }

  lemma MultipleOf(value: int, m: nat, n: int, k: nat, g: nat)
    requires g >= 1 && m >= 1 && k % m == 0 && value * m == n * (k * g)
    ensures value % g == 0
  {
    var c := k / m;
    assert k == c * m;
    assert n * (k * g) == (n * c * g) * m;
    SameFactor(value, n * c * g, m);
    MultipleMod(n * c, g);
  }

  lemma SameFactor(a: int, b: int, m: nat)
    requires m >= 1 && a * m == b * m
    ensures a == b
  {
    MultipleMod(a, m);
    MultipleMod(b, m);
  }

  lemma MultipleKept(value: int, m: int, u: Unit, f: nat, n: int, base: Unit)
    requires SameTable(u, base) && Size(u) >= Size(base) && Compatible(m, base)
    requires Factor(u, base) == f as real && value * m == n * f
    ensures KeepsValue(value, u, base)
  {
    hide Divides, Factor;
    if Next(u).Some? {
      var w := Next(u).value;
      if Size(w) >= Size(base) {
        SizesChain(u, base);
        var f' := GreatFactor(u, base);
        var g := GreatFactor(w, base);
        MultipleOf(value, m, n, Size(u) / Size(w), g);
        DividesWhole(g, value);
      } else {
        var g := SmallFactor(w, base);
        SmallKept(value, Factor(w, base), g);
      }
    }
  }

  /** A printed multiplier in front of a base unit. */
  lemma MultipliedBase(m: int, base: Unit)
    requires IsBase(base)
    ensures BaseOf(Print(m) + Name(base)) == Base(m, Some(base))
  {
    NamedIsInverse(Name(base), base);
    hide Name, Named, Letters, Print, Strip, Unsigned;
    ScanPrinted(m, Name(base));
  }

  lemma GigabyteIsChosen() returns (n: int)
    ensures Choice(1048576, KB, Greatest(KB)) == GB && n == 1 && InUnits(1048576, KB) == Print(n) + Name(GB)
    ensures !KeepsValue(64, GB, KB)
  {
    hide InUnits, Choice, Divides, Factor, Print, Name;
    var u, f, k := Printed(1048576, KB);
    n := k;
    var terabyte := GreatFactor(TB, KB);
    var gigabyte := GreatFactor(GB, KB);
    var megabyte := GreatFactor(MB, KB);
    DividesWhole(terabyte, 1048576);
    DividesWhole(gigabyte, 1048576);
    DividesWhole(megabyte, 64);
  }

  lemma MultiplierFails(text: string)
    requires BaseOf(text) == Base(16384, Some(KB))
    ensures ConvertFrom(64, text) == Some(Print(1) + Name(GB))
    ensures ParseInt(Print(1) + Name(GB), text) != Number(64)
  {
    hide BaseOf, Print, ParseInt, InUnits, Name, Choice, KeepsValue, Greatest;
    RoundTripIff(64, text);
    var n := GigabyteIsChosen();
  }

  /** With the base unit 16384kB the value 64 prints as 1GB, which is not read back as 64. */
  lemma MultiplierWitness()
    ensures var base := Print(16384) + Name(KB);
      && ConvertFrom(64, base) == Some(Print(1) + Name(GB))
      && ParseInt(Print(1) + Name(GB), base) != Number(64)
  {
    hide BaseOf, Print, ParseInt, Name, ConvertFrom;
    MultipliedBase(16384, KB);
    MultiplierFails(Print(16384) + Name(KB));
  }
}
