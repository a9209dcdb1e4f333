/** Pile labels: how `getStack` turns a label into a pile, including the `stoi` it relies on
    for column labels. */
module Labels {
  import opened Layouts

  /** The characters C's `isspace` accepts in the default locale. */
  predicate IsSpace(c: char) {
    c == ' ' || c == '\t' || c == '\n' || c == '\r' || c == '\U{000B}' || c == '\U{000C}'
  }

  predicate IsDigit(c: char) {
    '0' <= c <= '9'
  }

  predicate AllDigits(s: string) {
    forall i :: 0 <= i < |s| ==> IsDigit(s[i])
  }

  /** What is left of `s` once its leading white space is skipped. */
  function SkipSpaces(s: string): (r: string)
    ensures r != [] ==> !IsSpace(r[0])
  {
    if s != [] && IsSpace(s[0]) then SkipSpaces(s[1..]) else s
  }

  /** The length of the run of decimal digits `s` starts with. */
  function DigitRun(s: string): (n: nat)
    ensures n <= |s| && AllDigits(s[..n])
    ensures n < |s| ==> !IsDigit(s[n])
  {
    if s != [] && IsDigit(s[0]) then
      assert s[..1 + DigitRun(s[1..])] == [s[0]] + s[1..][..DigitRun(s[1..])];
      1 + DigitRun(s[1..])
    else 0
  }

  function DigitValue(c: char): nat
    requires IsDigit(c)
  {
    c as int - '0' as int
  }

  /** The number a string of decimal digits denotes. */
  function DigitsValue(ds: string): nat
    requires AllDigits(ds)
  {
    if ds == [] then 0 else 10 * DigitsValue(ds[..|ds| - 1]) + DigitValue(ds[|ds| - 1])
  }

  /** What `std::stoi` does with a string: it returns an `int`, or throws when no digits follow
      the white space and sign (`std::invalid_argument`) or when the number does not fit in an
      `int` (`std::out_of_range`). */
  datatype Conversion = Converted(value: int) | Throws

  /** `std::stoi(s)` in base 10: skip white space, read an optional sign and the longest run of
      digits, and ignore whatever follows. */
  function Stoi(s: string): Conversion {
    var t := SkipSpaces(s);
    if t != [] && (t[0] == '+' || t[0] == '-') then ReadNumber(t[0] == '-', t[1..])
    else ReadNumber(false, t)
  }

  /** The digits at the start of `u`, negated if a minus sign preceded them. */
  function ReadNumber(negative: bool, u: string): Conversion {
    var k := DigitRun(u);
    if k == 0 then Throws
    else FitInt(Signed(negative, DigitsValue(u[..k])))
  }

  function Signed(negative: bool, magnitude: nat): int {
    if negative then -(magnitude as int) else magnitude
  }

  /** The value when it is a 32-bit `int`, otherwise `std::out_of_range`. */
  function FitInt(v: int): Conversion {
    if -0x8000_0000 <= v < 0x8000_0000 then Converted(v) else Throws
  }

  function DigitChar(d: nat): (c: char)
    requires d < 10
    ensures IsDigit(c) && DigitValue(c) == d
  {
    ('0' as int + d) as char
  }

  /** The decimal numeral of n without sign or leading zeros. */
  function Decimal(n: nat): (s: string)
    ensures s != [] && AllDigits(s)
  {
    if n < 10 then [DigitChar(n)] else Decimal(n / 10) + [DigitChar(n % 10)]
  }

  lemma {:induction false} DecimalValue(n: nat)
    ensures DigitsValue(Decimal(n)) == n
  {
    if n >= 10 {
      DecimalValue(n / 10);
      var s := Decimal(n);
      assert s[..|s| - 1] == Decimal(n / 10);
    }
  }

  /** `stoi` on a plain run of digits reads their value when it fits in an `int`. */
  lemma StoiDigits(s: string)
    requires s != [] && AllDigits(s) && DigitsValue(s) < 0x8000_0000
    ensures Stoi(s) == Converted(DigitsValue(s))
  {
    assert IsDigit(s[0]) && !IsSpace(s[0]) && s[0] != '+' && s[0] != '-';
    assert SkipSpaces(s) == s;
    assert Stoi(s) == ReadNumber(false, s);
    ReadDigits(false, s);
  }

  lemma ReadDigits(negative: bool, s: string)
    requires s != [] && AllDigits(s)
    ensures ReadNumber(negative, s) == FitInt(Signed(negative, DigitsValue(s)))
  {
    DigitRunAll(s);
    assert s[..|s|] == s;
  }

  lemma DigitRunAll(s: string)
    requires AllDigits(s)
    ensures DigitRun(s) == |s|
  {
    if DigitRun(s) < |s| {
      assert false;
    }
  }

  /** `stoi` reads back every `int` numeral: `stoi(to_string(n)) == n` for n >= 0. */
  lemma StoiDecimal(n: nat)
    requires n < 0x8000_0000
    ensures Stoi(Decimal(n)) == Converted(n)
  {
    DecimalValue(n);
    StoiDigits(Decimal(n));
  }

  /** What `getStack` returns: a pile, a null pointer, or the exception `stoi` threw. */
  datatype Lookup = Found(id: PileId) | Missing | Thrown

  /** The label a player types for a pile. */
  function LabelOf(id: PileId): string {
    match id
    case Waste => "waste"
    case Stock => "stock"
    case Foundation(f) => if f == 0 then "f1" else if f == 1 then "f2" else if f == 2 then "f3" else "f4"
    case Column(c) => "c" + Decimal(c + 1)
  }

  /** True for the labels `getStack` compares literally. */
  predicate IsFixedLabel(name: string) {
    name in {"waste", "stock", "f1", "f2", "f3", "f4"}
  }

  /** True when the label starts with 'c', the test `getStack` makes before calling `stoi`.
      Reading the first character of an empty string gives the terminating NUL, so the empty
      name is not a column name. */
  predicate IsColumnLabel(name: string) {
    |name| > 0 && name[0] == 'c'
  }

  /** What a column label leads to once `stoi` has read its number v: column v - 1 when that
      is 0 to 6. The program's `v - 1` overflows for the least `int`; here it does not, and
      that label gives a null pointer like every other number out of range. */
  function ColumnLookup(n: Conversion): Lookup {
    match n
    case Throws => Thrown
    case Converted(v) => if 1 <= v <= 7 then Found(Column(v - 1)) else Missing
  }

  /** `getStack`: the waste, the stock and the four foundations by name, in that order; then a
      label starting with 'c' names the column whose number `stoi` reads after the 'c', if it
      is between 1 and 7; anything else is a null pointer. */
  function GetStack(name: string): Lookup {
    if name == "waste" then Found(Waste)
    else if name == "stock" then Found(Stock)
    else if name == "f1" then Found(Foundation(0))
    else if name == "f2" then Found(Foundation(1))
    else if name == "f3" then Found(Foundation(2))
    else if name == "f4" then Found(Foundation(3))
    else if IsColumnLabel(name) then ColumnLookup(Stoi(name[1..]))
    else Missing
  }

  /** No fixed label starts with 'c', so testing the fixed labels first decides nothing that the
      column test would have decided otherwise. */
  lemma FixedLabelsAreNotColumns(name: string)
    ensures IsFixedLabel(name) ==> !IsColumnLabel(name)
  {
  }

  /** The six fixed labels, and only they, name the waste, the stock and the foundations. */
  lemma GetStackFixed(name: string)
    ensures GetStack(name).Found? && !GetStack(name).id.Column? <==> IsFixedLabel(name)
    ensures GetStack(name).Found? && !GetStack(name).id.Column? ==> name == LabelOf(GetStack(name).id)
  {
    FixedLabelsAreNotColumns(name);
  }

  /** A label names column k exactly when it starts with 'c' and `stoi` reads k + 1 after it. */
  lemma GetStackColumn(name: string, k: ColumnIndex)
    ensures GetStack(name) == Found(Column(k)) <==>
      IsColumnLabel(name) && Stoi(name[1..]) == Converted(k + 1)
  {
    FixedLabelsAreNotColumns(name);
  }

  /** `getStack` lets the exception out exactly when the label starts with 'c' and `stoi`
      throws on the rest. */
  lemma GetStackThrows(name: string)
    ensures GetStack(name).Thrown? <==> IsColumnLabel(name) && Stoi(name[1..]).Throws?
  {
    FixedLabelsAreNotColumns(name);
  }

  /** Every other label gives a null pointer. */
  lemma GetStackMissing(name: string)
    ensures GetStack(name).Missing? <==>
      !IsFixedLabel(name) &&
      (IsColumnLabel(name) ==> Stoi(name[1..]).Converted? && !(1 <= Stoi(name[1..]).value <= 7))
  {
    FixedLabelsAreNotColumns(name);
  }

  /** Every pile is reached by its own label. */
  lemma LabelRoundTrip(id: PileId)
    ensures GetStack(LabelOf(id)) == Found(id)
  {
    if id.Column? {
      ColumnLabelRoundTrip(id.c);
    }
  }

  lemma ColumnLabelRoundTrip(c: ColumnIndex)
    ensures GetStack(LabelOf(Column(c))) == Found(Column(c))
  {
    var name := LabelOf(Column(c));
    assert name == "c" + Decimal(c + 1);
    assert IsColumnLabel(name) && name[1..] == Decimal(c + 1);
    FixedLabelsAreNotColumns(name);
    StoiDecimal(c + 1);
    assert Stoi(name[1..]) == Converted(c + 1);
  }

  /** Labels outside the thirteen give a null pointer. */
  lemma RejectedLabels()
    ensures GetStack("c0") == Missing && GetStack("c8") == Missing
    ensures GetStack("zz") == Missing && GetStack("") == Missing
  {
    assert "c0"[1..] == "0" && "c8"[1..] == "8";
    StoiDigits("0");
    StoiDigits("8");
  }

  /** A 'c' followed by no digits makes `stoi` throw. */
  lemma ThrowingLabels()
    ensures GetStack("c") == Thrown && GetStack("cx") == Thrown
  {
    assert "c"[1..] == "" && "cx"[1..] == "x";
    assert DigitRun("x") == 0;
  }

  /** `stoi` skips leading zeros, so "c01" names the first column. */
  lemma LeadingZeroLabel()
    ensures GetStack("c01") == Found(Column(0))
  {
    assert "c01"[1..] == "01";
    assert "01"[..1] == "0";
    assert DigitsValue("01") == 1;
    StoiDigits("01");
  }

  /** `stoi` accepts a plus sign, so "c+3" names the third column. */
  lemma SignedLabel()
    ensures GetStack("c+3") == Found(Column(2))
  {
    assert "c+3"[1..] == "+3" && "+3"[1..] == "3";
    assert SkipSpaces("+3") == "+3";
    ReadDigits(false, "3");
  }

  /** `stoi` stops at the first non-digit, so "c1abc" names the first column. */
  lemma TrailingTextLabel()
    ensures GetStack("c1abc") == Found(Column(0))
  {
    assert "c1abc"[1..] == "1abc" && "1abc"[1..] == "abc";
    assert SkipSpaces("1abc") == "1abc";
    assert DigitRun("abc") == 0;
    assert DigitRun("1abc") == 1;
    assert "1abc"[..1] == "1";
  }
}
