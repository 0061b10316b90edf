/** The log stream's integer and pointer output: digits are written backwards into the stream's buffer
    and reversed in place. */
module IntPrinters {
  import opened FixedBuffers

  const INT64_MIN := -0x8000_0000_0000_0000
  const UINT64_MAX := 0xffff_ffff_ffff_ffff
  const MAX_NUMERIC_SIZE := 48
  const SMALL_BUFFER := 4000

  // zero is the middle of DIGITS, so that negative remainders index it too
  const DIGITS := "9876543210123456789"
  const ZERO := 9
  const DIGITS_HEX := "0123456789ABCDEF"

  /** Division and remainder as the language has them: toward zero, with the dividend's sign. */
  function TruncDiv(a: int, b: int): int
    requires b > 0
  {
    if a >= 0 then a / b else -(-a / b)
  }

  function TruncMod(a: int, b: int): int
    requires b > 0
  {
    a - b * TruncDiv(a, b)
  }

  function Abs(n: int): nat {
    if n < 0 then -n else n
  }

  // ----- numerals -----

  /** The bases of the two printers. */
  type Base = b: int | b == 10 || b == 16 witness 10

  function Quot(n: nat, base: Base): (q: nat)
    ensures if n < base then q == 0 else 0 < q < n
  {
    if base == 10 then n / 10 else n / 16
  }

  function Rem(n: nat, base: Base): (r: nat)
    ensures r < base && (n < base ==> r == n)
  {
    if base == 10 then n % 10 else n % 16
  }

  lemma QuotRem(n: nat, base: Base)
    ensures n == Quot(n, base) * base + Rem(n, base)
  {
    assert base == 10 ==> n == n / 10 * 10 + n % 10;
  }

  /** The numeral of n, most significant digit first. */
  function Digits(n: nat, base: Base): string
  {
    var low := [DIGITS_HEX[Rem(n, base)]];
    if n < base then low else Digits(Quot(n, base), base) + low
  }

  function Text(value: int): string {
    if value < 0 then "-" + Digits(-value, 10) else Digits(value, 10)
  }

  function DigitValue(c: char): int {
    if '0' <= c <= '9' then c as int - '0' as int else c as int - 'A' as int + 10
  }

  function NumeralValue(s: string, base: Base): int {
    if s == "" then 0 else NumeralValue(s[..|s| - 1], base) * base + DigitValue(s[|s| - 1])
  }

  /** The number a text with an optional sign stands for. */
  function Value(s: string): int {
    if s != "" && s[0] == '-' then -NumeralValue(s[1..], 10) else NumeralValue(s, 10)
  }

  function Pow(base: Base, e: nat): nat {
    if e == 0 then 1 else base * Pow(base, e - 1)
  }

  lemma HexDigits(d: int)
    requires 0 <= d < 16
    ensures DigitValue(DIGITS_HEX[d]) == d && (DIGITS_HEX[d] == '0' <==> d == 0)
  {
  }

  lemma {:induction false} DigitsReadBack(n: nat, base: Base)
    ensures NumeralValue(Digits(n, base), base) == n
  {
    hide DigitValue, Quot, Rem;
    var s := Digits(n, base);
    HexDigits(Rem(n, base));
    if n < base {
      assert s[..0] == "";
      assert NumeralValue("", base) == 0;
    } else {
      DigitsReadBack(Quot(n, base), base);
      QuotRem(n, base);
      assert s[..|s| - 1] == Digits(Quot(n, base), base);
    }
  }

  lemma {:induction false} NoLeadingZero(n: nat, base: Base)
    ensures Digits(n, base) != "" && (Digits(n, base)[0] == '0' <==> n == 0)
    ensures n < base ==> |Digits(n, base)| == 1
  {
    hide Quot, Rem;
    HexDigits(Rem(n, base));
    if n >= base {
      NoLeadingZero(Quot(n, base), base);
    }
  }

  /** A numeral is as long as the number needs, and no longer. */
  lemma {:induction false} DigitsLength(n: nat, base: Base, len: nat)
    requires len > 0
    ensures |Digits(n, base)| <= len <==> n < Pow(base, len)
  {
    hide Quot, Rem;
    if n < base {
      PowPositive(base, len - 1);
      assert Pow(base, len) >= base;
    } else if len == 1 {
      NoLeadingZero(Quot(n, base), base);
      assert Pow(base, 0) == 1;
    } else {
      DigitsLength(Quot(n, base), base, len - 1);
      ScaledBelow(n, base, Pow(base, len - 1));
    }
  }

  lemma {:induction false} PowPositive(base: Base, e: nat)
    ensures Pow(base, e) >= 1
  {
    if e > 0 {
      PowPositive(base, e - 1);
    }
  }

  lemma ScaledBelow(n: nat, base: Base, bound: nat)
    ensures Quot(n, base) < bound <==> n < base * bound
  {
    if base == 10 {
      assert n / 10 < bound <==> n < 10 * bound;
    } else {
      assert n / 16 < bound <==> n < 16 * bound;
    }
  }

  lemma {:induction false} NoSign(n: nat)
    ensures Digits(n, 10) != "" && Digits(n, 10)[0] != '-'
  {
    if n >= 10 {
      NoSign(Quot(n, 10));
    }
  }

  /** What is printed reads back as the value, and has a leading zero only if it is zero itself. */
  lemma TextReadsBack(value: int)
    ensures Value(Text(value)) == value
    ensures '0' == Text(value)[if value < 0 then 1 else 0] <==> value == 0
  {
    DigitsReadBack(Abs(value), 10);
    NoLeadingZero(Abs(value), 10);
    NoSign(Abs(value));
    if value < 0 {
      assert Text(value)[1..] == Digits(-value, 10);
    }
  }

  /** Every 64-bit value, signed or unsigned, takes at most 20 characters, and some take all of them. */
  lemma TextLength(value: int)
    requires INT64_MIN <= value <= UINT64_MAX
    ensures 1 <= |Text(value)| <= 20
    ensures |Text(INT64_MIN)| == 20 && |Text(UINT64_MAX)| == 20
  {
    hide Pow, Digits;
    TenPowers();
    NoLeadingZero(Abs(value), 10);
    DigitsLength(Abs(value), 10, 20);
    DigitsLength(Abs(value), 10, 19);
    DigitsLength(UINT64_MAX, 10, 20);
    DigitsLength(UINT64_MAX, 10, 19);
    DigitsLength(-INT64_MIN, 10, 19);
    DigitsLength(-INT64_MIN, 10, 18);
  }

  lemma {:induction false} PowSum(base: Base, a: nat, b: nat)
    ensures Pow(base, a + b) == Pow(base, a) * Pow(base, b)
  {
    if a > 0 {
      PowSum(base, a - 1, b);
      Associates(base, Pow(base, a - 1), Pow(base, b));
    }
  }

  lemma Associates(x: int, y: int, z: int)
    ensures x * (y * z) == x * y * z
  {
  }

  lemma SmallPowers(base: Base)
    ensures Pow(base, 1) == base && Pow(base, 2) == base * base
    ensures Pow(base, 4) == base * base * (base * base)
  {
    assert Pow(base, 0) == 1;
    assert Pow(base, 1) == base;
    PowSum(base, 1, 1);
    PowSum(base, 2, 2);
  }

  lemma TenPowers()
    ensures Pow(10, 18) == 1_000_000_000_000_000_000
    ensures Pow(10, 19) == 10_000_000_000_000_000_000
    ensures Pow(10, 20) == 100_000_000_000_000_000_000
  {
    SmallPowers(10);
    PowSum(10, 4, 4);
    PowSum(10, 8, 8);
    PowSum(10, 16, 2);
    PowSum(10, 18, 1);
    PowSum(10, 18, 2);
  }

  lemma HexLength(value: nat)
    requires value <= UINT64_MAX
    ensures 1 <= |Digits(value, 16)| <= 16
  {
    hide Pow, Digits;
    SmallPowers(16);
    PowSum(16, 4, 4);
    PowSum(16, 8, 8);
    NoLeadingZero(value, 16);
    DigitsLength(value, 16, 16);
  }

  // ----- printing in place -----

  function Reversed(s: string): (r: string)
    ensures |r| == |s|
  {
    if s == "" then "" else Reversed(s[1..]) + [s[0]]
  }

  lemma {:induction false} ReversedAt(s: string, k: nat)
    requires k < |s|
    ensures Reversed(s)[k] == s[|s| - 1 - k]
  {
    if k < |s| - 1 {
      ReversedAt(s[1..], k);
    }
  }

  lemma {:induction false} ReversedSnoc(s: string, c: char)
    ensures Reversed(s + [c]) == [c] + Reversed(s)
  {
    if s != "" {
      assert (s + [c])[1..] == s[1..] + [c];
      ReversedSnoc(s[1..], c);
    }
  }

  /** std::reverse on buf[lo..hi]. */
  method Reverse(buf: array<char>, lo: nat, hi: nat)
    requires lo <= hi <= buf.Length
    modifies buf
    ensures forall k :: 0 <= k < lo || hi <= k < buf.Length ==> buf[k] == old(buf[k])
    ensures buf[lo..hi] == Reversed(old(buf[lo..hi]))
  {
    var first, last := lo, hi;
    while first < last - 1
      invariant lo <= first && last <= hi && first - lo == hi - last && first <= last + 1
      invariant forall k :: 0 <= k < lo || hi <= k < buf.Length ==> buf[k] == old(buf[k])
      invariant forall k :: first <= k < last ==> buf[k] == old(buf[k])
      invariant forall k :: lo <= k < first ==> buf[k] == old(buf[lo + hi - 1 - k])
      invariant forall k :: last <= k < hi ==> buf[k] == old(buf[lo + hi - 1 - k])
    {
      last := last - 1;
      buf[first], buf[last] := buf[last], buf[first];
      first := first + 1;
    }
    ghost var was := old(buf[lo..hi]);
    forall k | 0 <= k < hi - lo ensures buf[lo..hi][k] == Reversed(was)[k] {
      ReversedAt(was, k);
    }
  }

  lemma DecimalDigit(i: int)
    ensures -9 <= TruncMod(i, 10) <= 9 && Abs(TruncDiv(i, 10)) == Quot(Abs(i), 10)
    ensures DIGITS[ZERO + TruncMod(i, 10)] == DIGITS_HEX[Rem(Abs(i), 10)]
    ensures i != 0 ==> (i < 0 <==> TruncMod(i, 10) < 0 || TruncDiv(i, 10) < 0)
  {
  }

  /** One digit moves from the number to the front of what was written. */
  lemma DigitMoves(n: nat, base: Base, written: string)
    ensures Digits(n, base) + Reversed(written)
         == (if Quot(n, base) == 0 then "" else Digits(Quot(n, base), base))
            + Reversed(written + [DIGITS_HEX[Rem(n, base)]])
  {
    hide Reversed, Quot, Rem;
    ReversedSnoc(written, DIGITS_HEX[Rem(n, base)]);
  }

  /** The do-while loop of convert: the digits, backwards, by truncating division. */
  method WriteDigits(buf: array<char>, start: nat, value: int) returns (p: nat)
    requires start + |Digits(Abs(value), 10)| <= buf.Length
    modifies buf
    ensures start <= p <= buf.Length && Reversed(buf[start..p]) == Digits(Abs(value), 10)
    ensures forall k :: 0 <= k < start || p <= k < buf.Length ==> buf[k] == old(buf[k])
  {
    hide Digits, TruncMod, TruncDiv, Reversed, Quot, Rem;
    var i, more := value, true;
    p := start;
    ghost var all := Digits(Abs(value), 10);
    NothingReversed();
    while more
      invariant start <= p <= start + |all|
      invariant all == (if more then Digits(Abs(i), 10) else "") + Reversed(buf[start..p])
      invariant forall k :: 0 <= k < start || p <= k < buf.Length ==> buf[k] == old(buf[k])
      decreases Abs(i), more
    {
      var lsd := TruncMod(i, 10);
      DecimalDigit(i);
      DigitMoves(Abs(i), 10, buf[start..p]);
      NoLeadingZero(Abs(i), 10);
      i := TruncDiv(i, 10);
      buf[p] := DIGITS[ZERO + lsd];
      assert buf[start..p + 1] == buf[start..p] + [buf[p]];
      p := p + 1;
      more := i != 0;
    }
    assert all == Reversed(buf[start..p]);
  }

  method Convert(buf: array<char>, start: nat, value: int) returns (len: nat)
    requires start + |Text(value)| < buf.Length
    modifies buf
    ensures len == |Text(value)| && buf[start..start + len] == Text(value) && buf[start + len] == '\0'
    ensures forall k :: 0 <= k < start || start + len < k < buf.Length ==> buf[k] == old(buf[k])
  {
    hide Digits, Reversed;
    var p := WriteDigits(buf, start, value);
    if value < 0 {
      ReversedSnoc(buf[start..p], '-');
      buf[p] := '-';
      assert buf[start..p + 1] == buf[start..p] + ['-'];
      p := p + 1;
    }
    assert Reversed(buf[start..p]) == Text(value);
    buf[p] := '\0';
    Reverse(buf, start, p);
    len := p - start;
  }

  lemma NothingReversed()
    ensures Reversed("") == ""
  {
  }

  method ConvertHex(buf: array<char>, start: nat, value: nat) returns (len: nat)
    requires start + |Digits(value, 16)| < buf.Length
    modifies buf
    ensures len == |Digits(value, 16)| && buf[start..start + len] == Digits(value, 16) && buf[start + len] == '\0'
    ensures forall k :: 0 <= k < start || start + len < k < buf.Length ==> buf[k] == old(buf[k])
  {
    hide Digits, Reversed;
    var i, p, more := value, start, true;
    ghost var all := Digits(value, 16);
    NothingReversed();
    while more
      invariant start <= p <= start + |all|
      invariant all == (if more then Digits(i, 16) else "") + Reversed(buf[start..p])
      invariant forall k :: 0 <= k < start || p <= k < buf.Length ==> buf[k] == old(buf[k])
      decreases i, more
    {
      var lsd := i % 16;
      DigitMoves(i, 16, buf[start..p]);
      NoLeadingZero(i, 16);
      i := i / 16;
      buf[p] := DIGITS_HEX[lsd];
      assert buf[start..p + 1] == buf[start..p] + [buf[p]];
      p := p + 1;
      more := i != 0;
    }
    buf[p] := '\0';
    assert all == Reversed(buf[start..p]);
    Reverse(buf, start, p);
    len := p - start;
  }

  class LogStream {
    const buffer: FixedBuffer

    ghost predicate Valid()
      reads buffer, buffer.data
    {
      buffer.Valid() && buffer.data.Length == SMALL_BUFFER
    }

    constructor ()
      ensures Valid() && fresh(buffer) && fresh(buffer.data) && buffer.pieces == []
    {
      buffer := new FixedBuffer(SMALL_BUFFER);
    }

    /** Every integer type of at most 64 bits comes here.  Too little room, and nothing is printed. */
    method FormatInteger(v: int)
      requires Valid() && INT64_MIN <= v <= UINT64_MAX
      modifies buffer, buffer.data
      ensures Valid()
      ensures buffer.pieces == old(buffer.pieces) + if old(buffer.Avail()) >= MAX_NUMERIC_SIZE then [Text(v)] else []
    {
      hide Text;
      if buffer.Avail() >= MAX_NUMERIC_SIZE {
        TextLength(v);
        var len := Convert(buffer.data, buffer.cur, v);
        buffer.Add(len);
      }
    }

    /** A pointer, in hexadecimal. */
    method FormatPointer(v: nat)
      requires Valid() && v <= UINT64_MAX
      modifies buffer, buffer.data
      ensures Valid()
      ensures buffer.pieces == old(buffer.pieces)
                + if old(buffer.Avail()) >= MAX_NUMERIC_SIZE then ["0x" + Digits(v, 16)] else []
    {
      hide Digits;
      if buffer.Avail() >= MAX_NUMERIC_SIZE {
        HexLength(v);
        ghost var cur := buffer.cur;
        buffer.data[buffer.cur] := '0';
        buffer.data[buffer.cur + 1] := 'x';
        var len := ConvertHex(buffer.data, buffer.cur + 2, v);
        assert buffer.data[cur..cur + 2 + len] == "0x" + Digits(v, 16);
        buffer.Add(len + 2);
      }
    }
  }
}
