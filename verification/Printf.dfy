/** Integer conversions of lib/stdio.c (format_integer, vsnprintf) and atoi of lib/stdlib.c. Characters go
    to a sequence in the order in which the source hands them to its output function. */
module Printf {
  import opened Division

  const UINTMAX1: nat := 0x1_0000_0000_0000_0000
  const INT_MIN: int := -0x8000_0000
  const INT_MAX: int := 0x7fff_ffff
  const BUFSIZE: nat := 64

  /** struct integer_base. */
  datatype Base = Base(base: nat, digits: string, x: char, group: nat)

  function BaseD(): Base { Base(10, "0123456789", '\0', 3) }

  function BaseO(): Base { Base(8, "01234567", '\0', 3) }

  function BaseX(upper: bool): Base {
    if upper then Base(16, "0123456789ABCDEF", 'X', 4) else Base(16, "0123456789abcdef", 'x', 4)
  }

  predicate IsBase(b: Base) { b == BaseD() || b == BaseO() || b == BaseX(false) || b == BaseX(true) }

  /** struct printf_conversion, without the argument type. */
  datatype Conversion = Conversion(minus: bool, plus: bool, space: bool, pound: bool, zero: bool, group: bool,
                                   width: nat, precision: int)

  const PLAIN: Conversion := Conversion(false, false, false, false, false, false, 0, -1)

  // ---------- the digits ----------

  function DropDigit(x: nat, n: nat): (r: nat)
    requires n > 1
    ensures x > 0 ==> r < x
  {
    DropSmaller(x, n);
    x / n
  }

  lemma DropSmaller(x: nat, n: nat)
    requires n > 1
    ensures x > 0 ==> x / n < x
  {
    FactorSmaller(x / n, n, x % n, x);
  }

  lemma FactorSmaller(q: nat, n: nat, r: nat, x: nat)
    requires n > 1 && x == n * q + r
    ensures x > 0 ==> q < x
  {
    assert (n - 1) * q >= q;
  }

  function LastDigit(x: nat, n: nat): (r: nat)
    requires n > 0
    ensures r < n
  {
    x % n
  }

  /** K digits fill a whole number of groups of G, and a further digit needs a comma before it. */
  predicate Full(k: nat, g: nat)
    requires g > 0
  {
    k > 0 && k % g == 0
  }

  function DigitValue(ch: char): nat {
    if '0' <= ch <= '9' then ch as int - '0' as int
    else if 'a' <= ch <= 'f' then ch as int - 'a' as int + 10
    else if 'A' <= ch <= 'F' then ch as int - 'A' as int + 10 else 0
  }

  lemma DigitOk(b: Base, d: nat)
    requires IsBase(b) && d < b.base
    ensures |b.digits| == b.base && DigitValue(b.digits[d]) == d && b.digits[d] != ','
    ensures b.base == 10 ==> b.digits[d] as int == '0' as int + d
  {
    assert d == 0 || d == 1 || d == 2 || d == 3 || d == 4 || d == 5 || d == 6 || d == 7
        || d == 8 || d == 9 || d == 10 || d == 11 || d == 12 || d == 13 || d == 14 || d == 15;
  }

  function DigitChar(b: Base, d: nat): char
    requires IsBase(b) && d < b.base
  {
    b.digits[d]
  }

  /** The digits of VALUE, the last one first, with the commas of the ' flag; K digits came before. */
  function Digits(value: nat, b: Base, group: bool, k: nat): string
    requires IsBase(b)
  {
    if value == 0 then ""
    else (if group && Full(k, b.group) then "," else "")
         + [DigitChar(b, LastDigit(value, b.base))] + Digits(DropDigit(value, b.base), b, group, k + 1)
  }

  function WithoutCommas(s: string): string {
    if s == "" then "" else if s[0] == ',' then WithoutCommas(s[1..]) else [s[0]] + WithoutCommas(s[1..])
  }

  /** The number a string of digits stands for, the last digit first; commas do not count. */
  function Value(s: string, base: nat): nat {
    if s == "" then 0
    else if s[0] == ',' then Value(s[1..], base)
    else DigitValue(s[0]) + base * Value(s[1..], base)
  }

  /** The digits stand for the value. */
  lemma {:induction false} DigitsValue(value: nat, b: Base, group: bool, k: nat)
    requires IsBase(b)
    ensures Value(Digits(value, b, group, k), b.base) == value
  {
    hide IsBase, DropDigit, LastDigit, Full;
    if value > 0 {
      BaseRange(b);
      DigitsValue(DropDigit(value, b.base), b, group, k + 1);
      DigitOk(b, LastDigit(value, b.base));
      DivMod(value, b.base);
      var rest := Digits(DropDigit(value, b.base), b, group, k + 1);
      var ch := DigitChar(b, LastDigit(value, b.base));
      assert ([ch] + rest)[1..] == rest;
      assert ("," + [ch] + rest)[1..] == [ch] + rest;
    }
  }

  lemma DivMod(x: nat, n: nat)
    requires n > 1
    ensures x == LastDigit(x, n) + n * DropDigit(x, n)
  {
  }

  lemma BaseRange(b: Base)
    requires IsBase(b)
    ensures 8 <= b.base <= 16 && 3 <= b.group <= 4 && |b.digits| == b.base
  {
  }

  /** Leaving out the commas gives the digits of the ungrouped conversion. */
  lemma {:induction false} GroupingKeepsDigits(value: nat, b: Base, k: nat)
    requires IsBase(b)
    ensures WithoutCommas(Digits(value, b, true, k)) == Digits(value, b, false, k)
  {
    hide IsBase, DropDigit, LastDigit, Full, WithoutCommas;
    if value == 0 {
      NoCommaLeft();
    } else {
      BaseRange(b);
      GroupingKeepsDigits(DropDigit(value, b.base), b, k + 1);
      DigitOk(b, LastDigit(value, b.base));
      var rest := Digits(DropDigit(value, b.base), b, true, k + 1);
      var ch := DigitChar(b, LastDigit(value, b.base));
      OneComma(ch, rest);
      NothingBefore([ch]);
    }
  }

  lemma NoCommaLeft()
    ensures WithoutCommas("") == ""
  {
  }

  lemma OneComma(ch: char, rest: string)
    requires ch != ','
    ensures WithoutCommas([ch] + rest) == [ch] + WithoutCommas(rest)
    ensures WithoutCommas("," + [ch] + rest) == [ch] + WithoutCommas(rest)
  {
    assert ([ch] + rest)[1..] == rest;
    assert ("," + [ch] + rest)[1..] == [ch] + rest;
  }

  function Pow8(n: nat): (r: nat)
    ensures r > 0
  {
    if n == 0 then 1 else 8 * Pow8(n - 1)
  }

  lemma {:induction false} DigitCount(value: nat, b: Base, group: bool, k: nat, n: nat)
    requires IsBase(b) && value < Pow8(n)
    ensures |Digits(value, b, group, k)| <= 2 * n
  {
    hide IsBase, DropDigit, LastDigit, Full;
    if value > 0 {
      BaseRange(b);
      assert n > 0;
      Smaller(value, b.base, Pow8(n - 1));
      DigitCount(DropDigit(value, b.base), b, group, k + 1, n - 1);
    }
  }

  lemma Smaller(x: nat, b: nat, p: nat)
    requires x < 8 * p && b >= 8
    ensures DropDigit(x, b) < p
  {
    DivMod(x, b);
    var q := DropDigit(x, b);
    assert q >= p ==> b * q >= b * p && b * p >= 8 * p;
  }

  /** How far digit K is into its group of G, counting the comma before it. */
  function Phase(k: nat, g: nat): nat
    requires g > 0
  {
    if k == 0 then 0 else if k % g == 0 then g else k % g
  }

  predicate CommaAt(g: nat, p: nat) { p % (g + 1) == g }

  /** Counting from the last digit, every (group + 1)-th character is a comma, and no other. */
  lemma {:induction false} CommaPositions(value: nat, b: Base, k: nat, j: nat)
    requires IsBase(b) && j < |Digits(value, b, true, k)|
    ensures Digits(value, b, true, k)[j] == ',' <==> CommaAt(b.group, Phase(k, b.group) + j)
    decreases value
  {
    hide IsBase, Phase, CommaAt, Digits, Full;
    BaseRange(b);
    CommaStep(k, b.group, j);
    NoDigits(b, true, k);
    var first, rest := DigitsStep(value, b, k);
    if j >= |first| {
      CommaPositions(rest, b, k + 1, j - |first|);
    }
  }

  lemma NoDigits(b: Base, group: bool, k: nat)
    requires IsBase(b)
    ensures Digits(0, b, group, k) == ""
  {
  }

  lemma DigitsStep(value: nat, b: Base, k: nat) returns (first: string, rest: nat)
    requires IsBase(b) && value > 0 && b.group > 0
    ensures rest < value && Digits(value, b, true, k) == first + Digits(rest, b, true, k + 1)
    ensures if Full(k, b.group) then |first| == 2 && first[0] == ',' && first[1] != ',' else |first| == 1 && first[0] != ','
  {
    hide IsBase, DropDigit, LastDigit, Full;
    BaseRange(b);
    DigitOk(b, LastDigit(value, b.base));
    rest := DropDigit(value, b.base);
    var d := DigitChar(b, LastDigit(value, b.base));
    first := if Full(k, b.group) then [',', d] else [d];
    assert Digits(value, b, true, k) == first + Digits(rest, b, true, k + 1);
  }

  lemma CommaStep(k: nat, g: nat, j: nat)
    requires 3 <= g <= 4
    ensures var comma := Full(k, g); var n := if comma then 2 else 1;
            && (j == 0 ==> (CommaAt(g, Phase(k, g) + j) <==> comma))
            && (comma && j == 1 ==> !CommaAt(g, Phase(k, g) + j))
            && (j >= n ==> (CommaAt(g, Phase(k + 1, g) + (j - n)) <==> CommaAt(g, Phase(k, g) + j)))
  {
    hide CommaAt;
    if g == 3 { PhaseStep3(k); Turn(3, j); } else { PhaseStep4(k); Turn(4, j); }
    Small(g, Phase(k, g));
    Small(g, 0);
    if k > 0 && k % g == 0 {
      Turn(g, 0);
      if j >= 2 { Turn(g, j - 1); }
    }
  }

  lemma Turn(g: nat, j: nat)
    requires 3 <= g <= 4
    ensures CommaAt(g, g + 1 + j) <==> CommaAt(g, j)
  {
    if g == 3 {
      assert 4 + j == 4 * (1 + j / 4) + j % 4;
      assert (4 + j) % 4 == j % 4;
    } else {
      assert 5 + j == 5 * (1 + j / 5) + j % 5;
      assert (5 + j) % 5 == j % 5;
    }
  }

  lemma Small(g: nat, p: nat)
    requires p <= g
    ensures CommaAt(g, p) <==> p == g
  {
  }

  lemma PhaseStep3(k: nat)
    ensures Phase(k, 3) <= 3 && Phase(k + 1, 3) == if k > 0 && k % 3 == 0 then 1 else Phase(k, 3) + 1
    ensures k > 0 && k % 3 == 0 <==> Phase(k, 3) == 3
  {
  }

  lemma PhaseStep4(k: nat)
    ensures Phase(k, 4) <= 4 && Phase(k + 1, 4) == if k > 0 && k % 4 == 0 then 1 else Phase(k, 4) + 1
    ensures k > 0 && k % 4 == 0 <==> Phase(k, 4) == 4
  {
  }

  // ---------- the buffer and the field ----------

  function Repeat(ch: char, n: nat): (r: string)
    ensures |r| == n && forall i :: 0 <= i < n ==> r[i] == ch
  {
    if n == 0 then "" else [ch] + Repeat(ch, n - 1)
  }

  function Reverse(s: string): (r: string)
    ensures |r| == |s| && forall i :: 0 <= i < |s| ==> r[i] == s[|s| - 1 - i]
  {
    if s == "" then "" else Reverse(s[1..]) + [s[0]]
  }

  /** The zeros that bring N characters up to the precision, as far as the buffer goes. */
  function Zeros(n: nat, precision: int): nat {
    var p := if precision < 0 then 1 else if precision > BUFSIZE - 1 then BUFSIZE - 1 else precision;
    if n < p then p - n else 0
  }

  /** The buffer's contents for VALUE: the digits from the last one on, zeros for the precision, and the
      leading zero of # in base 8. */
  function Body(value: nat, b: Base, c: Conversion): string
    requires IsBase(b)
  {
    var d := Digits(value, b, c.group, 0);
    var p := d + Repeat('0', Zeros(|d|, c.precision));
    if c.pound && b.base == 8 && (p == "" || p[|p| - 1] != '0') then p + "0" else p
  }

  function Sign(signed: bool, negative: bool, c: Conversion): string {
    if !signed then ""
    else if c.plus then (if negative then "-" else "+")
    else if c.space then (if negative then "-" else " ")
    else if negative then "-" else ""
  }

  function Prefix(value: nat, b: Base, c: Conversion): string {
    if c.pound && value != 0 && b.x != '\0' then ['0', b.x] else ""
  }

  function Padding(c: Conversion, n: nat): nat { if n < c.width then c.width - n else 0 }

  /** The whole field. */
  function Field(value: nat, signed: bool, negative: bool, b: Base, c: Conversion): string
    requires IsBase(b)
  {
    var body, front := Body(value, b, c), Sign(signed, negative, c) + Prefix(value, b, c);
    var pad := Padding(c, |body| + |front|);
    (if !c.minus && !c.zero then Repeat(' ', pad) else "")
      + front + (if c.zero then Repeat('0', pad) else "") + Reverse(body)
      + (if c.minus then Repeat(' ', pad) else "")
  }

  // ---------- what the field promises ----------

  lemma {:induction false} ValueZeros(s: string, n: nat, base: nat)
    ensures Value(s + Repeat('0', n), base) == Value(s, base)
  {
    if s == "" {
      assert "" + Repeat('0', n) == Repeat('0', n);
      if n > 0 {
        assert "" + Repeat('0', n - 1) == Repeat('0', n - 1);
        ValueZeros("", n - 1, base);
        assert Repeat('0', n)[1..] == Repeat('0', n - 1);
      }
    } else {
      ValueZeros(s[1..], n, base);
      assert (s + Repeat('0', n))[1..] == s[1..] + Repeat('0', n);
    }
  }

  /** Whatever the flags and the precision, the buffer's digits stand for the value. */
  lemma BodyValue(value: nat, b: Base, c: Conversion)
    requires IsBase(b)
    ensures Value(Body(value, b, c), b.base) == value
  {
    hide IsBase, Digits, Value, Zeros;
    var d := Digits(value, b, c.group, 0);
    DigitsValue(value, b, c.group, 0);
    var p := d + Repeat('0', Zeros(|d|, c.precision));
    ValueZeros(d, Zeros(|d|, c.precision), b.base);
    ValueZeros(p, 1, b.base);
    assert Repeat('0', 1) == "0";
  }

  /** The 64-byte buffer is never exceeded: 63 bytes are enough for every 64-bit value. */
  lemma BufferSuffices(value: nat, b: Base, c: Conversion)
    requires IsBase(b) && value < UINTMAX1
    ensures |Body(value, b, c)| <= BUFSIZE - 1 && |Digits(value, b, c.group, 0)| <= 44
  {
    hide IsBase, Digits;
    assert Pow8(4) == 0x1000;
    assert Pow8(8) == 0x1_00_0000;
    assert Pow8(12) == 0x10_0000_0000;
    assert Pow8(16) == 0x1_0000_0000_0000;
    assert Pow8(20) == 0x1000_0000_0000_0000;
    assert Pow8(22) == 0x4_0000_0000_0000_0000;
    DigitCount(value, b, c.group, 0, 22);
  }

  /** The characters come up to the precision exactly when that is at most 63, where the buffer ends. */
  lemma PrecisionMetIff(value: nat, b: Base, c: Conversion)
    requires IsBase(b) && value < UINTMAX1
    ensures |Body(value, b, c)| >= c.precision <==> c.precision <= BUFSIZE - 1
  {
    hide IsBase, Digits;
    BufferSuffices(value, b, c);
  }

  lemma {:induction false} CommasOut(s: string)
    ensures |WithoutCommas(s)| <= |s| && (|WithoutCommas(s)| == |s| <==> ',' !in s)
  {
    if s != "" {
      CommasOut(s[1..]);
      assert s == [s[0]] + s[1..];
    }
  }

  lemma {:induction false} CommasOutZeros(s: string, n: nat)
    ensures |WithoutCommas(s + Repeat('0', n))| == |WithoutCommas(s)| + n
  {
    if s == "" {
      assert "" + Repeat('0', n) == Repeat('0', n);
      CommasOut(Repeat('0', n));
    } else {
      assert (s + Repeat('0', n))[1..] == s[1..] + Repeat('0', n);
      CommasOutZeros(s[1..], n);
    }
  }

  function Pow(base: nat, n: nat): nat {
    if n == 0 then 1 else base * Pow(base, n - 1)
  }

  /** A value has at most N digits exactly when it is below base^N. */
  lemma {:induction false} DigitsIff(value: nat, b: Base, k: nat, n: nat)
    requires IsBase(b)
    ensures |Digits(value, b, false, k)| <= n <==> value < Pow(b.base, n)
  {
    hide IsBase, DropDigit, LastDigit, Full;
    BaseRange(b);
    PowPositive(b.base, n);
    if value > 0 && n > 0 {
      DigitsIff(DropDigit(value, b.base), b, k + 1, n - 1);
      DropBelow(value, b.base, Pow(b.base, n - 1));
    }
  }

  lemma PowPositive(base: nat, n: nat)
    requires base > 0
    ensures Pow(base, n) > 0
  {
  }

  lemma DropBelow(x: nat, n: nat, p: nat)
    requires n > 1
    ensures DropDigit(x, n) < p <==> x < n * p
  {
    DivMod(x, n);
    hide DropDigit, LastDigit;
    var q := DropDigit(x, n);
    Scaled(n, q + 1, p);
    Scaled(n, p, q);
  }

  lemma Scaled(n: nat, a: nat, b: nat)
    requires n > 0
    ensures a <= b ==> n * a <= n * b
  {
  }

  /** A grouped number has a comma exactly when it has more digits than fit in one group. */
  lemma {:induction false} CommaIff(value: nat, b: Base, k: nat)
    requires IsBase(b) && k <= b.group
    ensures ',' in Digits(value, b, true, k) <==> k + |Digits(value, b, false, k)| > b.group
    decreases value
  {
    hide IsBase, DropDigit, LastDigit;
    BaseRange(b);
    if value > 0 {
      DigitOk(b, LastDigit(value, b.base));
      assert Full(k, b.group) <==> k == b.group;
      if k < b.group {
        CommaIff(DropDigit(value, b.base), b, k + 1);
      }
    }
  }

  /** The zero that # puts in front of an octal number. */
  function Lead(b: Base, c: Conversion): nat { if c.pound && b.base == 8 then 1 else 0 }

  /** The commas count towards the precision, so the digits come up to it exactly when there is no
      grouping, or a single group, or enough digits without zeros (# gives one more in base 8). */
  lemma PrecisionDigitsIff(value: nat, b: Base, c: Conversion)
    requires IsBase(b) && value < UINTMAX1
    ensures |WithoutCommas(Body(value, b, c))| >= c.precision <==>
      && c.precision <= BUFSIZE - 1
      && (!c.group || value < Pow(b.base, b.group)
          || c.precision <= Lead(b, c) || value >= Pow(b.base, c.precision - 1 - Lead(b, c)))
  {
    hide IsBase, Digits, WithoutCommas, Pow, Repeat;
    BufferSuffices(value, b, c);
    var d, n := Digits(value, b, c.group, 0), |Digits(value, b, false, 0)|;
    var z := Zeros(|d|, c.precision);
    BodyParts(value, b, c);
    CommasOut(d);
    CommasOutZeros(d, z);
    CommasOutZeros(d, z + Lead(b, c));
    DigitsCount(value, b, c);
    if c.precision > Lead(b, c) { DigitsIff(value, b, 0, c.precision - 1 - Lead(b, c)); }
  }

  lemma DigitsCount(value: nat, b: Base, c: Conversion)
    requires IsBase(b)
    ensures var d, n := Digits(value, b, c.group, 0), |Digits(value, b, false, 0)|;
            && |WithoutCommas(d)| == n <= |d|
            && (|d| == n <==> !c.group || value < Pow(b.base, b.group))
  {
    hide IsBase, Digits, WithoutCommas, Pow;
    BaseRange(b);
    CommasOut(Digits(value, b, c.group, 0));
    GroupingKeepsDigits(value, b, 0);
    CommaIff(value, b, 0);
    DigitsIff(value, b, 0, b.group);
    if !c.group { NoCommas(value, b, 0); }
  }

  lemma {:induction false} NoCommas(value: nat, b: Base, k: nat)
    requires IsBase(b)
    ensures ',' !in Digits(value, b, false, k)
  {
    hide IsBase, DropDigit, LastDigit, Full;
    BaseRange(b);
    if value > 0 {
      DigitOk(b, LastDigit(value, b.base));
      NoCommas(DropDigit(value, b.base), b, k + 1);
    }
  }

  /** The extra zero is written exactly when no other zero is: the first digit is never 0. */
  lemma BodyParts(value: nat, b: Base, c: Conversion)
    requires IsBase(b)
    ensures var d := Digits(value, b, c.group, 0);
            var z := Zeros(|d|, c.precision);
            Body(value, b, c) == d + Repeat('0', if z > 0 then z else Lead(b, c))
  {
    hide IsBase, Digits;
    var d := Digits(value, b, c.group, 0);
    var z := Zeros(|d|, c.precision);
    TopDigit(value, b, c.group, 0);
    assert Repeat('0', 1) == "0" && Repeat('0', 0) == "" && d + "" == d;
    assert z > 0 ==> (d + Repeat('0', z))[|d| + z - 1] == '0';
  }

  lemma {:induction false} TopDigit(value: nat, b: Base, group: bool, k: nat)
    requires IsBase(b)
    ensures var d := Digits(value, b, group, k); d != "" ==> d[|d| - 1] != '0'
  {
    hide IsBase, DropDigit, LastDigit, Full;
    BaseRange(b);
    if value > 0 {
      var q, r := DropDigit(value, b.base), LastDigit(value, b.base);
      DigitOk(b, r);
      DivMod(value, b.base);
      TopDigit(q, b, group, k + 1);
      NotEmpty(q, b, group, k + 1);
      assert q == 0 ==> r == value > 0;
      assert b.digits[r] == '0' ==> DigitValue('0') == r;
    }
  }

  lemma NotEmpty(value: nat, b: Base, group: bool, k: nat)
    requires IsBase(b)
    ensures Digits(value, b, group, k) == "" <==> value == 0
  {
    hide IsBase, DropDigit, LastDigit, Full;
    BaseRange(b);
  }

  /** A precision of 0 prints nothing for 0, any other at least one digit. */
  lemma EmptyIff(value: nat, b: Base, c: Conversion)
    requires IsBase(b)
    ensures Body(value, b, c) == "" <==> value == 0 && c.precision == 0 && !(c.pound && b.base == 8)
  {
    hide IsBase, DropDigit, LastDigit, Full;
  }

  /** The field is as wide as asked for, or as the number needs, exactly unless a pad is due while both the
      - and the 0 flag are set, as a negative * width leaves them: then it is padded on both sides. */
  lemma FieldWidthIff(value: nat, signed: bool, negative: bool, b: Base, c: Conversion)
    requires IsBase(b)
    ensures var n := |Body(value, b, c)| + |Sign(signed, negative, c)| + |Prefix(value, b, c)|;
            |Field(value, signed, negative, b, c)| == (if n < c.width then c.width else n) <==>
            !(c.minus && c.zero && n < c.width)
  {
    hide IsBase, Body, Sign, Prefix;
  }

  /** The sign: - for every negative number, + or a blank for others only if asked, + before blank; none for
      unsigned conversions. */
  lemma SignShown(signed: bool, negative: bool, c: Conversion)
    ensures var s := Sign(signed, negative, c);
            && (s == "-" <==> signed && negative)
            && (s == "+" <==> signed && !negative && c.plus)
            && (s == " " <==> signed && !negative && !c.plus && c.space)
            && (s == "" <==> !signed || (!negative && !c.plus && !c.space))
  {
  }

  /** The prefix: 0x or 0X, in the case of the digits, for a nonzero number in base 16 with #. */
  lemma PrefixShown(value: nat, b: Base, c: Conversion)
    requires IsBase(b)
    ensures var x := Prefix(value, b, c);
            && (x == "0x" <==> c.pound && value != 0 && b.base == 16 && b.digits[10..] == "abcdef")
            && (x == "0X" <==> c.pound && value != 0 && b.base == 16 && b.digits[10..] == "ABCDEF")
            && (x == "" <==> !c.pound || value == 0 || b.base != 16)
  {
  }

  /** Where everything stands: blanks in front of the number without the - and 0 flags and behind it with the
      - flag, zeros between the prefix and the digits with the 0 flag. */
  lemma FieldLayout(value: nat, signed: bool, negative: bool, b: Base, c: Conversion)
    requires IsBase(b)
    ensures var f, front, digits := Field(value, signed, negative, b, c), Sign(signed, negative, c) + Prefix(value, b, c),
                                    Reverse(Body(value, b, c));
            var pad := if |front| + |digits| < c.width then c.width - |front| - |digits| else 0;
            var blanks, zeros := if !c.minus && !c.zero then pad else 0, if c.zero then pad else 0;
            var start := blanks + |front| + zeros;
            && |f| == start + |digits| + (if c.minus then pad else 0)
            && (forall i :: 0 <= i < blanks ==> f[i] == ' ')
            && f[blanks..blanks + |front|] == front
            && (forall i :: blanks + |front| <= i < start ==> f[i] == '0')
            && f[start..start + |digits|] == digits
            && (forall i :: start + |digits| <= i < |f| ==> f[i] == ' ')
  {
    hide IsBase, Body, Sign, Prefix, Reverse, Repeat, Field;
    var front, body := Sign(signed, negative, c) + Prefix(value, b, c), Body(value, b, c);
    var pad := if |front| + |body| < c.width then c.width - |front| - |body| else 0;
    assert pad == Padding(c, |body| + |front|);
    FieldParts(value, signed, negative, b, c, pad);
    var left, mid, right := if !c.minus && !c.zero then Repeat(' ', pad) else "",
                            if c.zero then Repeat('0', pad) else "", if c.minus then Repeat(' ', pad) else "";
    FiveParts(left, front, mid, Reverse(body), right);
  }

  lemma FiveParts(left: string, front: string, mid: string, digits: string, right: string)
    ensures var f, start := left + front + mid + digits + right, |left| + |front| + |mid|;
            && |f| == start + |digits| + |right|
            && (forall i :: 0 <= i < |left| ==> f[i] == left[i])
            && f[|left|..|left| + |front|] == front
            && (forall i :: |left| + |front| <= i < start ==> f[i] == mid[i - |left| - |front|])
            && f[start..start + |digits|] == digits
            && (forall i :: start + |digits| <= i < |f| ==> f[i] == right[i - start - |digits|])
  {
  }

  /** "%0*d" with the width -5 prints 7 as 00007 and four spaces. */
  lemma FieldTooWide()
    ensures Field(7, true, false, BaseD(), PLAIN.(minus := true, zero := true, width := 5)) == "00007    "
  {
    hide Body, Repeat;
    var c := PLAIN.(minus := true, zero := true, width := 5);
    SevenBody(c);
    Four('0');
    Four(' ');
  }

  lemma SevenBody(c: Conversion)
    requires !c.group && !c.pound && c.precision == -1
    ensures Body(7, BaseD(), c) == "7"
  {
    assert Digits(7, BaseD(), false, 0) == "7" by {
      NoDigits(BaseD(), false, 1);
      assert DropDigit(7, 10) == 0 && LastDigit(7, 10) == 7;
    }
  }

  lemma Four(ch: char)
    ensures Repeat(ch, 4) == [ch, ch, ch, ch]
  {
  }

  // ---------- printing ----------

  /** output_dup: the characters go to the end of OUT. */
  method OutputDup(ch: char, cnt: nat, out: string) returns (r: string)
    ensures r == out + Repeat(ch, cnt)
  {
    r := out;
    var n := cnt;
    assert Repeat(ch, 0) == "";
    RepeatTurns(ch, 0);
    while n > 0
      invariant 0 <= n <= cnt && r == out + Repeat(ch, cnt - n)
    {
      RepeatTurns(ch, cnt - n);
      n := n - 1;
      r := r + [ch];
    }
  }

  lemma RepeatTurns(ch: char, n: nat)
    ensures Repeat(ch, n + 1) == Repeat(ch, n) + [ch]
  {
    var r, t := Repeat(ch, n + 1), Repeat(ch, n) + [ch];
    assert forall i :: 0 <= i < n + 1 ==> r[i] == t[i];
    assert r == t;
  }

  /** The digit loop of format_integer, over the local 64-byte buffer. */
  method FillDigits(value: nat, b: Base, group: bool, buf: array<char>) returns (cp: nat)
    requires IsBase(b) && buf.Length == BUFSIZE && |Digits(value, b, group, 0)| <= 44
    modifies buf
    ensures cp <= 44 && buf[..cp] == Digits(value, b, group, 0)
  {
    hide IsBase, Digits, DropDigit, LastDigit, Full;
    BaseRange(b);
    cp := 0;
    var v, digitCnt := value, 0;
    ghost var all := Digits(value, b, group, 0);
    while v > 0
      invariant cp <= |all| && digitCnt >= 0 && buf[..cp] + Digits(v, b, group, digitCnt) == all
      decreases v
    {
      DigitsUnfold(v, b, group, digitCnt);
      ghost var before, rest := buf[..cp], Digits(v, b, group, digitCnt);
      if group && Full(digitCnt, b.group) {
        buf[cp] := ',';
        assert buf[..cp + 1] == before + ",";
        cp := cp + 1;
      }
      ghost var middle := buf[..cp];
      buf[cp] := b.digits[LastDigit(v, b.base)];
      assert buf[..cp + 1] == middle + [DigitChar(b, LastDigit(v, b.base))];
      cp := cp + 1;
      v := DropDigit(v, b.base);
      digitCnt := digitCnt + 1;
    }
    NoDigits(b, group, digitCnt);
    assert buf[..cp] + "" == buf[..cp];
  }

  lemma DigitsUnfold(v: nat, b: Base, group: bool, k: nat)
    requires IsBase(b) && v > 0 && b.base > 1 && b.group > 0
    ensures Digits(v, b, group, k) ==
      (if group && Full(k, b.group) then "," else "") + [DigitChar(b, LastDigit(v, b.base))] + Digits(DropDigit(v, b.base), b, group, k + 1)
  {
  }

  /** The rest of the buffer: zeros for the precision, and the leading zero of # in base 8. */
  method FillZeros(value: nat, b: Base, c: Conversion, buf: array<char>, used: nat) returns (cp: nat)
    requires IsBase(b) && buf.Length == BUFSIZE && value < UINTMAX1
    requires used <= 44 && buf[..used] == Digits(value, b, c.group, 0)
    modifies buf
    ensures cp <= BUFSIZE - 1 && buf[..cp] == Body(value, b, c)
  {
    hide IsBase, Digits, DropDigit, LastDigit, Full, Repeat;
    BufferSuffices(value, b, c);
    ghost var d := Digits(value, b, c.group, 0);
    cp := used;
    var precision := if c.precision < 0 then 1 else c.precision;
    ghost var n := Zeros(used, c.precision);
    NoRepeat('0');
    while cp < precision && cp < BUFSIZE - 1
      invariant used <= cp <= used + n && buf[..cp] == d + Repeat('0', cp - used)
    {
      buf[cp] := '0';
      assert buf[..cp + 1] == d + Repeat('0', cp - used) + "0";
      OneMoreZero(d, cp - used);
      cp := cp + 1;
    }
    assert cp == used + n;
    if c.pound && b.base == 8 && (cp == 0 || buf[cp - 1] != '0') {
      assert buf[..cp] == d + Repeat('0', n);
      buf[cp] := '0';
      assert buf[..cp + 1] == d + Repeat('0', n) + "0";
      cp := cp + 1;
    }
  }

  lemma OneMoreZero(d: string, n: nat)
    ensures d + Repeat('0', n) + "0" == d + Repeat('0', n + 1)
  {
    RepeatTurns('0', n);
  }

  /** format_integer. */
  method FormatInteger(value: nat, signed: bool, negative: bool, b: Base, c: Conversion) returns (out: string)
    requires IsBase(b) && value < UINTMAX1
    ensures out == Field(value, signed, negative, b, c)
  {
    hide IsBase, Digits, Body, DropDigit, LastDigit, Full, Repeat, Reverse, Sign, Prefix, Field, Padding;
    var buf := new char[BUFSIZE];
    var sign := SignChar(signed, negative, c);
    var x := PrefixChar(value, b, c);
    BufferSuffices(value, b, c);
    var cp := FillDigits(value, b, c.group, buf);
    cp := FillZeros(value, b, c, buf, cp);
    ghost var front := Sign(signed, negative, c) + Prefix(value, b, c);
    var padCnt := c.width - cp - (if x != '\0' then 2 else 0) - (if sign != '\0' then 1 else 0);
    if padCnt < 0 {
      padCnt := 0;
    }
    assert |Body(value, b, c)| == cp;
    PaddingIs(c, cp + |front|);
    assert padCnt == Padding(c, cp + |front|);
    FieldParts(value, signed, negative, b, c, padCnt);
    out := PadIf(!c.minus && !c.zero, ' ', padCnt, "");
    NothingBefore(if !c.minus && !c.zero then Repeat(' ', padCnt) else "");
    out := OutputFront(sign, x, out);
    assert front == (if sign == '\0' then "" else [sign]) + (if x == '\0' then "" else ['0', x]);
    out := PadIf(c.zero, '0', padCnt, out);
    out := OutputReverse(buf, cp, out);
    out := PadIf(c.minus, ' ', padCnt, out);
  }

  lemma NothingBefore(s: string)
    ensures "" + s == s
  {
  }

  lemma PaddingIs(c: Conversion, n: nat)
    ensures Padding(c, n) == if c.width - n < 0 then 0 else c.width - n
  {
  }

  /** The padding at one of its three places. */
  method PadIf(here: bool, ch: char, cnt: nat, out: string) returns (r: string)
    ensures r == out + (if here then Repeat(ch, cnt) else "")
  {
    r := out;
    if here {
      r := OutputDup(ch, cnt, out);
    }
  }

  lemma FieldParts(value: nat, signed: bool, negative: bool, b: Base, c: Conversion, pad: nat)
    requires IsBase(b)
    requires pad == Padding(c, |Body(value, b, c)| + |Sign(signed, negative, c) + Prefix(value, b, c)|)
    ensures Field(value, signed, negative, b, c) ==
      (if !c.minus && !c.zero then Repeat(' ', pad) else "") + (Sign(signed, negative, c) + Prefix(value, b, c))
      + (if c.zero then Repeat('0', pad) else "") + Reverse(Body(value, b, c)) + (if c.minus then Repeat(' ', pad) else "")
  {
    hide IsBase, Body, Sign, Prefix, Repeat, Reverse;
  }

  /** The sign character, '\0' for none. */
  method SignChar(signed: bool, negative: bool, c: Conversion) returns (ch: char)
    ensures Sign(signed, negative, c) == if ch == '\0' then "" else [ch]
  {
    ch := '\0';
    if signed {
      if c.plus {
        ch := if negative then '-' else '+';
      } else if c.space {
        ch := if negative then '-' else ' ';
      } else if negative {
        ch := '-';
      }
    }
  }

  method PrefixChar(value: nat, b: Base, c: Conversion) returns (ch: char)
    ensures Prefix(value, b, c) == if ch == '\0' then "" else ['0', ch]
  {
    ch := if c.pound && value != 0 then b.x else '\0';
  }

  method OutputFront(sign: char, x: char, out: string) returns (r: string)
    ensures r == out + ((if sign == '\0' then "" else [sign]) + (if x == '\0' then "" else ['0', x]))
  {
    r := out;
    if sign != '\0' {
      r := r + [sign];
    }
    if x != '\0' {
      r := r + ['0'];
      r := r + [x];
    }
  }

  /** The buffer's first CP characters go out from the last one to the first. */
  method OutputReverse(buf: array<char>, cp: nat, out: string) returns (r: string)
    requires cp <= buf.Length
    ensures r == out + Reverse(buf[..cp])
  {
    r := out;
    var n := cp;
    ghost var all := Reverse(buf[..cp]);
    while n > 0
      invariant 0 <= n <= cp == |all| && r == out + all[..cp - n]
    {
      n := n - 1;
      assert all[cp - n - 1] == buf[n] && all[..cp - n] == all[..cp - n - 1] + [buf[n]];
      r := r + [buf[n]];
    }
    assert all[..cp] == all;
  }

  // ---------- atoi ----------

  predicate IsSpace(ch: char) {
    ch == ' ' || ch == 12 as char || ch == '\n' || ch == '\r' || ch == '\t' || ch == 11 as char
  }

  predicate IsDigit(ch: char) { '0' <= ch <= '9' }

  function SkipSpace(s: string, k: nat): (r: nat)
    requires k <= |s|
    ensures k <= r <= |s| && (forall i :: k <= i < r ==> IsSpace(s[i])) && (r < |s| ==> !IsSpace(s[r]))
    decreases |s| - k
  {
    if k < |s| && IsSpace(s[k]) then SkipSpace(s, k + 1) else k
  }

  function DigitsEnd(s: string, k: nat): (r: nat)
    requires k <= |s|
    ensures k <= r <= |s| && (forall i :: k <= i < r ==> IsDigit(s[i])) && (r < |s| ==> !IsDigit(s[r]))
    decreases |s| - k
  {
    if k < |s| && IsDigit(s[k]) then DigitsEnd(s, k + 1) else k
  }

  /** The decimal number in s[lo..hi]. */
  function Number(s: string, lo: nat, hi: nat): nat
    requires lo <= hi <= |s| && forall i :: lo <= i < hi ==> IsDigit(s[i])
    decreases hi
  {
    if lo == hi then 0 else 10 * Number(s, lo, hi - 1) + DigitValue(s[hi - 1])
  }

  predicate SignAt(s: string, k: nat) { k < |s| && (s[k] == '+' || s[k] == '-') }

  /** The integer at the start of a string, as ISO C describes strtol in base 10. */
  function Parsed(s: string): int {
    var k := SkipSpace(s, 0);
    var lo := if SignAt(s, k) then k + 1 else k;
    var n: int := Number(s, lo, DigitsEnd(s, lo));
    if k < |s| && s[k] == '-' then -n else n
  }

  lemma {:induction false} NumberGrows(s: string, lo: nat, mid: nat, hi: nat)
    requires lo <= mid <= hi <= |s| && forall i :: lo <= i < hi ==> IsDigit(s[i])
    ensures Number(s, lo, mid) <= Number(s, lo, hi)
    decreases hi
  {
    if mid < hi { NumberGrows(s, lo, mid, hi - 1); }
  }

  /** The digit loop of atoi, on the negative side of 0, which reaches further. */
  method AtoiDigits(s: string, lo: nat) returns (value: int)
    requires lo <= |s|
    ensures INT_MIN <= value <= INT_MAX
    ensures Number(s, lo, DigitsEnd(s, lo)) <= -INT_MIN ==> value + Number(s, lo, DigitsEnd(s, lo)) == 0
  {
    hide IsDigit, I32, DigitValue;
    ghost var end := DigitsEnd(s, lo);
    value := 0;
    var k := lo;
    while k < |s| && IsDigit(s[k])
      invariant lo <= k <= end && DigitsEnd(s, k) == end && INT_MIN <= value <= INT_MAX
      invariant Number(s, lo, end) <= -INT_MIN ==> value + Number(s, lo, k) == 0
    {
      NumberGrows(s, lo, k + 1, end);
      FitsI32(value * 10);
      FitsI32(value * 10 - DigitValue(s[k]));
      value := I32(I32(value * 10) - DigitValue(s[k]));
      k := k + 1;
    }
  }

  /** atoi: exact whenever the number fits an int, the smallest one included. S ends before its NUL. */
  method Atoi(s: string) returns (value: int)
    ensures INT_MIN <= Parsed(s) <= INT_MAX ==> value == Parsed(s)
  {
    hide IsSpace, IsDigit, I32, DigitValue;
    var k := 0;
    while k < |s| && IsSpace(s[k])
      invariant 0 <= k <= |s| && SkipSpace(s, k) == SkipSpace(s, 0)
    {
      k := k + 1;
    }
    assert k == SkipSpace(s, 0);
    hide SkipSpace;
    var negative := false;
    if k < |s| && s[k] == '+' {
      k := k + 1;
    } else if k < |s| && s[k] == '-' {
      negative := true;
      k := k + 1;
    }
    value := AtoiDigits(s, k);
    if !negative {
      FitsI32(-value);
      value := I32(-value);
    }
  }

  // ---------- printing, then reading ----------

  predicate AllDigits(w: string) { forall i :: 0 <= i < |w| ==> IsDigit(w[i]) }

  lemma {:induction false} DecimalDigits(value: nat, k: nat)
    ensures AllDigits(Digits(value, BaseD(), false, k))
  {
    if value > 0 {
      var rest := Digits(DropDigit(value, 10), BaseD(), false, k + 1);
      DecimalDigits(DropDigit(value, 10), k + 1);
      DigitOk(BaseD(), LastDigit(value, 10));
      assert Digits(value, BaseD(), false, k) == [DigitChar(BaseD(), LastDigit(value, 10))] + rest;
    }
  }

  /** Reading reversed digits left to right gives their value. */
  lemma {:induction false} ReadReversed(s: string, lo: nat, w: string)
    requires AllDigits(w) && lo + |w| <= |s| && s[lo..lo + |w|] == Reverse(w)
    ensures forall i :: lo <= i < lo + |w| ==> s[i] == Reverse(w)[i - lo] && IsDigit(s[i])
    ensures Number(s, lo, lo + |w|) == Value(w, 10)
    decreases |w|
  {
    hide IsDigit, DigitValue;
    forall i | lo <= i < lo + |w| ensures s[i] == Reverse(w)[i - lo] && IsDigit(s[i]) {
      assert s[i] == s[lo..lo + |w|][i - lo];
    }
    if w != "" {
      assert s[lo..lo + |w| - 1] == Reverse(w[1..]);
      ReadReversed(s, lo, w[1..]);
      assert s[lo + |w| - 1] == w[0];
      assert w[0] != ',' by { NotComma(w[0]); }
    }
  }

  lemma NotComma(ch: char)
    requires IsDigit(ch)
    ensures ch != ','
  {
  }

  lemma SkipTo(s: string, k: nat, r: nat)
    requires k <= r <= |s| && (forall i :: k <= i < r ==> IsSpace(s[i])) && (r < |s| ==> !IsSpace(s[r]))
    ensures SkipSpace(s, k) == r
  {
  }

  lemma DigitsTo(s: string, k: nat, r: nat)
    requires k <= r <= |s| && (forall i :: k <= i < r ==> IsDigit(s[i])) && (r < |s| ==> !IsDigit(s[r]))
    ensures DigitsEnd(s, k) == r
  {
  }

  lemma ParsedIs(s: string, k: nat, lo: nat, hi: nat)
    requires k <= lo < hi <= |s| && (forall i :: 0 <= i < k ==> IsSpace(s[i])) && !IsSpace(s[k])
    requires lo == (if SignAt(s, k) then k + 1 else k) && forall i :: lo <= i < hi ==> IsDigit(s[i])
    requires hi < |s| ==> !IsDigit(s[hi])
    ensures Parsed(s) == if s[k] == '-' then 0 - Number(s, lo, hi) else Number(s, lo, hi)
  {
    hide Number, IsSpace, IsDigit, SkipSpace, DigitsEnd;
    SkipTo(s, 0, k);
    DigitsTo(s, lo, hi);
  }

  lemma FieldChars(lead: nat, sign: string, r: string, trail: nat)
    requires |sign| <= 1
    ensures var s := Repeat(' ', lead) + sign + r + Repeat(' ', trail); var lo := lead + |sign|;
            && s[lo..lo + |r|] == r && |s| == lo + |r| + trail
            && (forall i :: 0 <= i < lead ==> s[i] == ' ') && (sign != "" ==> s[lead] == sign[0])
            && (trail > 0 ==> s[lo + |r|] == ' ')
  {
    hide Repeat;
  }

  /** Spaces, a sign, digits and spaces read as the signed number. */
  lemma ReadField(lead: nat, sign: string, w: string, trail: nat)
    requires AllDigits(w) && w != "" && (sign == "" || sign == "+" || sign == "-")
    ensures Parsed(Repeat(' ', lead) + sign + Reverse(w) + Repeat(' ', trail)) ==
            if sign == "-" then 0 - Value(w, 10) else Value(w, 10)
  {
    hide Value, Number, AllDigits, Repeat, Reverse, Parsed, DigitValue;
    var s := Repeat(' ', lead) + sign + Reverse(w) + Repeat(' ', trail);
    var lo := lead + |sign|;
    FieldChars(lead, sign, Reverse(w), trail);
    ReadReversed(s, lo, w);
    assert IsDigit(s[lo]);
    ParsedIs(s, lead, lo, lo + |w|);
  }

  lemma NothingToRead(s: string, k: nat)
    requires k <= |s| && (forall i :: 0 <= i < k ==> IsSpace(s[i])) && (k < |s| ==> SignAt(s, k))
    requires k + 1 < |s| ==> !IsDigit(s[k + 1])
    ensures Parsed(s) == 0
  {
    SkipTo(s, 0, k);
    var lo := if SignAt(s, k) then k + 1 else k;
    DigitsTo(s, lo, lo);
  }

  lemma ReadBlank(lead: nat, sign: string, trail: nat)
    requires sign == "" || sign == "+" || sign == "-"
    ensures Parsed(Repeat(' ', lead) + sign + Repeat(' ', trail)) == 0
  {
    hide Parsed;
    var s := Repeat(' ', lead) + sign + Repeat(' ', trail);
    var k := if sign == "" then |s| else lead;
    assert forall i :: 0 <= i < k ==> s[i] == ' ';
    NothingToRead(s, k);
  }

  lemma ReverseZeros(w: string, n: nat)
    ensures Reverse(w + Repeat('0', n)) == Repeat('0', n) + Reverse(w)
  {
    hide Reverse, Repeat;
  }

  lemma BodyDigits(value: nat, c: Conversion)
    requires !c.group
    ensures AllDigits(Body(value, BaseD(), c))
  {
    hide Digits, Zeros, Repeat;
    DecimalDigits(value, 0);
  }

  lemma MoreZeros(w: string, n: nat)
    requires AllDigits(w)
    ensures AllDigits(w + Repeat('0', n))
  {
  }

  /** What %d prints for any int, whatever the flags (but grouping), width and precision, atoi reads back
      as the same int. */
  lemma PrintThenRead(v: int, c: Conversion)
    requires !c.group
    ensures Parsed(Field(if v < 0 then 0 - v else v, true, v < 0, BaseD(), c)) == v
  {
    hide Parsed, Body, Repeat, Reverse, AllDigits, Value;
    var value := if v < 0 then 0 - v else v;
    var front := Sign(true, v < 0, c);
    var body := Body(value, BaseD(), c);
    var pad := Padding(c, |body| + |front + Prefix(value, BaseD(), c)|);
    assert front + Prefix(value, BaseD(), c) == front;
    FieldParts(value, true, v < 0, BaseD(), c, pad);
    BodyValue(value, BaseD(), c);
    BodyDigits(value, c);
    var zeros := if c.zero then pad else 0;
    var w := body + Repeat('0', zeros);
    ReverseZeros(body, zeros);
    ValueZeros(body, zeros, 10);
    MoreZeros(body, zeros);
    var lead := (if !c.minus && !c.zero then pad else 0) + (if front == " " then 1 else 0);
    var sign := if front == " " then "" else front;
    var trail := if c.minus then pad else 0;
    Assembled(value, v < 0, c, pad, lead, sign, w, trail);
    if w == "" {
      EmptyValue(w);
      assert Repeat(' ', lead) + sign + Reverse(w) == Repeat(' ', lead) + sign;
      ReadBlank(lead, sign, trail);
    } else {
      ReadField(lead, sign, w, trail);
    }
  }

  lemma EmptyValue(w: string)
    requires w == ""
    ensures Value(w, 10) == 0 && Reverse(w) == ""
  {
  }

  lemma Assembled(value: nat, negative: bool, c: Conversion, pad: nat, lead: nat, sign: string, w: string, trail: nat)
    requires pad == Padding(c, |Body(value, BaseD(), c)| + |Sign(true, negative, c) + Prefix(value, BaseD(), c)|)
    requires var front := Sign(true, negative, c);
      && lead == (if !c.minus && !c.zero then pad else 0) + (if front == " " then 1 else 0)
      && sign == (if front == " " then "" else front)
    requires trail == if c.minus then pad else 0
    requires Reverse(w) == Repeat('0', if c.zero then pad else 0) + Reverse(Body(value, BaseD(), c))
    ensures Field(value, true, negative, BaseD(), c) == Repeat(' ', lead) + sign + Reverse(w) + Repeat(' ', trail)
  {
    hide Body, Reverse, Field, Sign, Repeat;
    FieldParts(value, true, negative, BaseD(), c, pad);
    assert Prefix(value, BaseD(), c) == "";
    var front, blank := Sign(true, negative, c), if !c.minus && !c.zero then pad else 0;
    assert front + "" == front;
    NoRepeat(' ');
    NoRepeat('0');
    if front == " " { RepeatTurns(' ', blank); }
    assert Repeat(' ', lead) + sign == Repeat(' ', blank) + front;
    Joined(Repeat(' ', blank) + front, Repeat('0', if c.zero then pad else 0), Reverse(Body(value, BaseD(), c)), Repeat(' ', trail));
  }

  lemma NoRepeat(ch: char)
    ensures Repeat(ch, 0) == ""
  {
  }

  lemma Joined(a: string, b: string, c: string, d: string)
    ensures a + b + c + d == a + (b + c) + d
  {
  }

  // ---------- vsnprintf ----------

  /** struct vsnprintf_aux. */
  class Aux {
    const buffer: array<char>
    const maxLength: nat
    var p: nat                  // the next position in the buffer
    var length: nat

    /** After the characters of TEXT. */
    ghost predicate Holds(text: string)
      reads this, buffer
    {
      && length == |text| && p == (if |text| < maxLength then |text| else maxLength)
      && p <= buffer.Length && buffer[..p] == text[..p]
    }

    constructor (buffer: array<char>, bufSize: nat)
      requires bufSize <= buffer.Length
      ensures Holds("") && this.buffer == buffer && maxLength == if bufSize > 0 then bufSize - 1 else 0
    {
      this.buffer, p, length := buffer, 0, 0;
      maxLength := if bufSize > 0 then bufSize - 1 else 0;
    }

    /** vsnprintf_helper. */
    method Helper(ch: char, ghost text: string)
      requires Holds(text) && maxLength <= buffer.Length && length < INT_MAX
      modifies this, buffer
      ensures Holds(text + [ch]) && forall i :: p <= i < buffer.Length ==> buffer[i] == old(buffer[i])
    {
      length := length + 1;
      if length - 1 < maxLength {
        buffer[p] := ch;
        assert buffer[..p + 1] == old(buffer[..p]) + [ch];
        p := p + 1;
      }
    }
  }

  /** vsnprintf, for the characters TEXT that __vprintf puts out: the buffer gets as many of them as leave
      room for the NUL, the caller learns how many there were. */
  method Vsnprintf(buffer: array<char>, bufSize: nat, text: string) returns (r: nat)
    requires bufSize <= buffer.Length && bufSize <= INT_MAX + 1 && |text| <= INT_MAX
    modifies buffer
    ensures r == |text|
    ensures bufSize == 0 ==> buffer[..] == old(buffer[..])
    ensures bufSize > 0 ==> var n := if |text| < bufSize - 1 then |text| else bufSize - 1;
      && buffer[..n] == text[..n] && buffer[n] == '\0'
      && forall i :: n < i < buffer.Length ==> buffer[i] == old(buffer[i])
  {
    var aux := new Aux(buffer, bufSize);
    var i := 0;
    assert text[..0] == "";
    while i < |text|
      invariant 0 <= i <= |text| && aux.Holds(text[..i])
      invariant forall j :: aux.p <= j < buffer.Length ==> buffer[j] == old(buffer[j])
    {
      assert text[..i + 1] == text[..i] + [text[i]];
      aux.Helper(text[i], text[..i]);
      i := i + 1;
    }
    assert text[..i] == text;
    if bufSize > 0 {
      buffer[aux.p] := '\0';
    }
    r := aux.length;
  }
  /** snprintf with one %d directive, then atoi on the buffer: the int comes back whenever its field fits. */
  method PrintAndRead(v: int, c: Conversion, buffer: array<char>, bufSize: nat) returns (n: nat, back: int)
    requires INT_MIN <= v <= INT_MAX && 0 < bufSize <= buffer.Length && bufSize <= INT_MAX + 1
    requires |Field(if v < 0 then 0 - v else v, true, v < 0, BaseD(), c)| <= INT_MAX
    modifies buffer
    ensures n == |Field(if v < 0 then 0 - v else v, true, v < 0, BaseD(), c)|
    ensures n < bufSize && !c.group ==> back == v
  {
    hide Field, Parsed;
    var text := FormatInteger(if v < 0 then 0 - v else v, true, v < 0, BaseD(), c);
    n := Vsnprintf(buffer, bufSize, text);
    var used := if n < bufSize then n else bufSize - 1;
    back := Atoi(buffer[..used]);
    if n < bufSize && !c.group {
      assert buffer[..used] == text;
      PrintThenRead(v, c);
    }
  }
}
