/** The number printers and parsers of libraries/libc/string.c, on buffers of characters and
    32-bit words. */
module Numbers {

  const WORD := 0x1_0000_0000
  const HALF := 0x8000_0000

  const NUL := '\0'

  // ---------------------------------------------------------------- what is printed

  function DigitChar(d: int): char
    requires 0 <= d < 16
  {
    if d >= 10 then (d - 10 + 'A' as int) as char else (d + '0' as int) as char
  }

  /** n in positional notation, without leading zeros. */
  function Digits(n: nat, base: int): (s: string)
    requires base in {10, 16}
    ensures |s| >= 1
    decreases n
  {
    if n < base then [DigitChar(n)] else Digits(n / base, base) + [DigitChar(n % base)]
  }

  /** Nothing for zero: what stands in front of the digits still to come. */
  function Leading(n: nat, base: int): string
    requires base in {10, 16}
  {
    if n == 0 then [] else Digits(n, base)
  }

  lemma LeadingMore(n: nat, d: int, base: int)
    requires base in {10, 16} && 0 <= d < base
    ensures Digits(n * base + d, base) == Leading(n, base) + [DigitChar(d)]
    ensures n * base + d > 0 ==> Leading(n * base + d, base) == Leading(n, base) + [DigitChar(d)]
  {
    assert (n * base + d) / base == n && (n * base + d) % base == d;
  }

  // ---------------------------------------------------------------- what is read

  predicate IsDigit(c: char) {
    '0' <= c <= '9'
  }

  predicate IsXDigit(c: char) {
    IsDigit(c) || 'a' <= c <= 'f' || 'A' <= c <= 'F'
  }

  function ToUpper(c: char): char {
    if 'a' <= c <= 'z' then (c as int - ('a' as int - 'A' as int)) as char else c
  }

  function DigitValue(c: char): (v: int)
    requires IsXDigit(c)
    ensures 0 <= v < 16
  {
    if IsDigit(c) then c as int - '0' as int else ToUpper(c) as int - 'A' as int + 10
  }

  predicate IsDigitOf(c: char, base: nat) {
    IsXDigit(c) && DigitValue(c) < base
  }

  /** The longest run of digits of a base at a position: where it ends. */
  ghost predicate DigitRun(s: string, at: nat, end: nat, base: nat) {
    && at <= end < |s|
    && (forall i :: at <= i < end ==> IsDigitOf(s[i], base))
    && !IsDigitOf(s[end], base)
  }

  /** The value of digits in positional notation. */
  function Value(s: string, base: nat): (v: nat)
    requires forall i :: 0 <= i < |s| ==> IsXDigit(s[i])
  {
    if s == [] then 0 else Value(s[..|s| - 1], base) * base + DigitValue(s[|s| - 1])
  }

  /** A C string starts at this position. */
  ghost predicate Terminated(s: string, at: nat) {
    exists e :: at <= e < |s| && s[e] == NUL
  }

  /** Where the digits start and in which base, for base 0: the prefixes 0 and 0x. */
  ghost function Prefix(s: string, at: nat, base: nat): (r: (nat, nat))
    requires Terminated(s, at)
    ensures at <= r.0 && Terminated(s, r.0)
  {
    if base != 0 then (at, base)
    else if s[at] != '0' then (at, 10)
    else if s[at + 1] == 'x' && IsXDigit(s[at + 2]) then (at + 2, 16)
    else (at + 1, 8)
  }

  // ---------------------------------------------------------------- printing and reading agree

  lemma DigitRoundTrip(d: int, base: nat)
    requires base in {10, 16} && 0 <= d < base
    ensures IsDigitOf(DigitChar(d), base) && DigitValue(DigitChar(d)) == d
  {
  }

  /** Digits is the inverse of Value on every number, in upper case and without leading zeros. */
  lemma {:induction false} ValueOfDigits(n: nat, base: int)
    requires base in {10, 16}
    ensures forall i :: 0 <= i < |Digits(n, base)| ==> IsXDigit(Digits(n, base)[i]) && IsDigitOf(Digits(n, base)[i], base)
    ensures Value(Digits(n, base), base) == n
    ensures forall i :: 0 <= i < |Digits(n, base)| ==> !('a' <= Digits(n, base)[i] <= 'f')
    ensures n > 0 ==> Digits(n, base)[0] != '0'
    decreases n
  {
    var s := Digits(n, base);
    DigitRoundTrip(n % base, base);
    if n < base {
      assert s[..0] == [];
    } else {
      ValueOfDigits(n / base, base);
      assert s[..|s| - 1] == Digits(n / base, base);
    }
  }

  /** One digit run has one end. */
  lemma OneEnd(s: string, at: nat, end: nat, other: nat, base: nat)
    requires DigitRun(s, at, end, base) && DigitRun(s, at, other, base)
    ensures end == other
  {
  }

  /** A printed number that ends before a NUL is one digit run with that value. */
  lemma PrintedRun(s: string, at: nat, n: nat, base: int)
    requires base in {10, 16} && at + |Digits(n, base)| < |s|
    requires s[at..at + |Digits(n, base)|] == Digits(n, base) && s[at + |Digits(n, base)|] == NUL
    ensures DigitRun(s, at, at + |Digits(n, base)|, base)
  {
    ValueOfDigits(n, base);
    forall i | at <= i < at + |Digits(n, base)| ensures IsDigitOf(s[i], base) {
      assert s[i] == s[at..at + |Digits(n, base)|][i - at];
    }
  }

  // ---------------------------------------------------------------- sputuint, sputint, sputhex

  predicate IsPowerOfTen(d: nat) {
    d in {1, 10, 100, 1000, 10000, 100000, 1000000, 10000000, 100000000, 1000000000}
  }

  function Power(k: nat): (d: nat)
    ensures d >= 1
  {
    if k == 0 then 1 else 10 * Power(k - 1)
  }

  lemma PowerIs(k: nat)
    requires k <= 9
    ensures IsPowerOfTen(Power(k)) && Power(9) == 1000000000
  {
    assert Power(1) == 10 && Power(2) == 100 && Power(3) == 1000 && Power(4) == 10000;
    assert Power(5) == 100000 && Power(6) == 1000000 && Power(7) == 10000000;
    assert Power(8) == 100000000 && Power(9) == 1000000000;
    assert k in {0, 1, 2, 3, 4, 5, 6, 7, 8, 9};
  }

  lemma NextDigit(u: nat, d: nat)
    requires u < WORD && IsPowerOfTen(d)
    ensures u / (10 * d) * 10 + u % (10 * d) / d == u / d && 0 <= u % (10 * d) / d < 10
    ensures u % (10 * d) % d == u % d
  {
  }

  /** The digits of u in front of the place d. */
  function Top(u: nat, d: nat): nat
    requires d > 0
  {
    u / d
  }

  /** The first loop of sputuint: the place of the first digit. */
  method FirstDivisor(u: nat) returns (divisor: nat, ghost k: nat)
    requires u < WORD
    ensures k <= 9 && divisor == Power(k) && u / (10 * divisor) == 0 && (u >= divisor || k == 0)
  {
    PowerIs(9);
    divisor, k := 1000000000, 9;
    while u / divisor == 0 && divisor >= 10
      invariant k <= 9 && divisor == Power(k) && u / (10 * divisor) == 0
    {
      divisor, k := divisor / 10, k - 1;
    }
  }

  /** The buffer with text printed at off. */
  ghost predicate Printed(before: seq<char>, after: seq<char>, off: nat, text: string) {
    && |after| == |before| && off + |text| <= |before|
    && after[..off] == before[..off] && after[off..off + |text|] == text
    && after[off + |text|..] == before[off + |text|..]
  }

  /** Storing the next character. */
  lemma PrintedMore(before: seq<char>, after: seq<char>, off: nat, text: string, c: char)
    requires Printed(before, after, off, text) && off + |text| < |before|
    ensures Printed(before, after[off + |text| := c], off, text + [c])
  {
    var more := after[off + |text| := c];
    assert more[off..off + |text| + 1] == after[off..off + |text|] + [c];
  }

  /** Store the character behind text. */
  method Store(str: array<char>, at: nat, c: char, ghost before: seq<char>, ghost off: nat, ghost text: string)
    requires Printed(before, str[..], off, text) && at == off + |text| < str.Length
    modifies str
    ensures Printed(before, str[..], off, text + [c])
  {
    PrintedMore(before, str[..], off, text, c);
    ghost var was := str[..];
    str[at] := c;
    assert str[..] == was[at := c];
  }

  /** One more digit of u, the one at Power(k), behind those in front of it. */
  lemma PrintsNext(u: nat, k: nat)
    requires u < WORD && k <= 9
    ensures var d := Power(k); var digit := u % (10 * d) / d;
            0 <= digit < 10 && Digits(Top(u, d), 10) == Leading(Top(u, 10 * d), 10) + [DigitChar(digit)]
            && u % (10 * d) % d == u % d && (u >= d ==> Top(u, d) > 0)
  {
    PowerIs(k);
    NextDigit(u, Power(k));
    LeadingMore(Top(u, 10 * Power(k)), u % (10 * Power(k)) / Power(k), 10);
  }

  /** The second loop of sputuint, down to the last digit. */
  method PutDigits(str: array<char>, off: nat, u: nat, first: nat, ghost k: nat) returns (index: nat, num: nat)
    requires u < WORD && off + 11 <= str.Length
    requires k <= 9 && first == Power(k) && u / (10 * first) == 0 && (u >= first || k == 0)
    modifies str
    ensures num == u % 10 && index == |Leading(Top(u, 10), 10)| <= 9
    ensures Printed(old(str[..]), str[..], off, Leading(Top(u, 10), 10))
  {
    var divisor := first;
    index, num := 0, u;
    ghost var before, j := str[..], k;
    assert u % (10 * first) == u;
    while divisor >= 10
      invariant j <= 9 && divisor == Power(j) && num == u % (10 * divisor) && (u >= divisor || j == 0)
      invariant index == |Leading(Top(u, 10 * divisor), 10)| && index + j <= 9
      invariant Printed(before, str[..], off, Leading(Top(u, 10 * divisor), 10))
    {
      PrintsNext(u, j);
      Store(str, off + index, DigitChar(num / divisor), before, off, Leading(Top(u, 10 * divisor), 10));
      index := index + 1;
      num := num % divisor;
      divisor, j := divisor / 10, j - 1;
    }
  }

  /** sputuint into str from off on: the decimal digits and a NUL behind them. */
  method PutUint(str: array<char>, off: nat, u: nat) returns (index: nat)
    requires u < WORD && off + 11 <= str.Length
    modifies str
    ensures index == |Digits(u, 10)| <= 10
    ensures Printed(old(str[..]), str[..], off, Digits(u, 10) + [NUL])
  {
    ghost var before := str[..];
    var divisor, k := FirstDivisor(u);
    var num;
    index, num := PutDigits(str, off, u, divisor, k);
    PrintsNext(u, 0);
    Store(str, off + index, DigitChar(num), before, off, Leading(Top(u, 10), 10));
    index := index + 1;
    Store(str, off + index, NUL, before, off, Digits(u, 10));
  }

  function Magnitude(n: int): nat {
    if n < 0 then -n else n
  }

  /** What sputint prints. */
  function IntText(n: int): string {
    if n >= 0 then Digits(n, 10) else ['-'] + Digits(-n, 10)
  }

  lemma PrintedBehind(before: seq<char>, mid: seq<char>, after: seq<char>, c: char, text: string)
    requires Printed(before, mid, 0, [c]) && Printed(mid, after, 1, text)
    ensures Printed(before, after, 0, [c] + text)
  {
    var n := 1 + |text|;
    assert after[..1] == mid[0..1] == [c];
    assert after[0..n] == after[..1] + after[1..n];
    assert mid[n..] == mid[1..][n - 1..] == before[1..][n - 1..] == before[n..];
  }

  lemma SignFirst(n: int)
    requires n < 0
    ensures ['-'] + (Digits(-n, 10) + [NUL]) == IntText(n) + [NUL]
  {
  }

  /** sputint; the negation is on 32 bits, so it holds for the least number too. */
  method PutInt(str: array<char>, num: int) returns (written: nat)
    requires -HALF <= num < HALF && str.Length >= 12
    modifies str
    ensures written == |IntText(num)| && Printed(old(str[..]), str[..], 0, IntText(num) + [NUL])
  {
    if num >= 0 {
      written := PutUint(str, 0, num);
    } else {
      written := PutNegative(str, num);
    }
  }

  method PutNegative(str: array<char>, num: int) returns (written: nat)
    requires -HALF <= num < 0 && str.Length >= 12
    modifies str
    ensures written == |IntText(num)| && Printed(old(str[..]), str[..], 0, IntText(num) + [NUL])
  {
    ghost var before := str[..];
    PrintedNone(before);
    Store(str, 0, '-', before, 0, []);
    ghost var mid := str[..];
    written := PutUint(str, 1, (-num) % WORD);
    written := written + 1;
    PrintedBehind(before, mid, str[..], '-', Digits(-num, 10) + [NUL]);
    SignFirst(num);
  }

  lemma PrintedNone(before: seq<char>)
    ensures Printed(before, before, 0, []) && [] + ['-'] == ['-']
  {
  }

  /** The shift operator on unsigned words. */
  function Shr(u: nat, i: nat): nat {
    if i == 0 then u else Shr(u, i - 1) / 2
  }

  function TwoTo(i: nat): (p: nat)
    ensures p >= 1
  {
    if i == 0 then 1 else 2 * TwoTo(i - 1)
  }

  lemma {:induction false} ShrLess(u: nat, i: nat, j: nat)
    requires u < TwoTo(i + j)
    ensures Shr(u, i) < TwoTo(j)
    decreases i
  {
    if i > 0 {
      ShrLess(u, i - 1, j + 1);
    }
  }

  lemma ShrAll(u: nat)
    requires u < WORD
    ensures Shr(u, 32) == 0
  {
    assert TwoTo(8) == 256;
    assert TwoTo(16) == 65536;
    assert TwoTo(24) == 16777216;
    assert TwoTo(32) == WORD;
    ShrLess(u, 32, 0);
  }

  lemma ShrNibble(u: nat, i: nat)
    ensures Shr(u, i) == Shr(u, i + 4) * 16 + Shr(u, i) % 16
  {
    assert Shr(u, i + 4) == Shr(u, i + 3) / 2 == Shr(u, i + 2) / 2 / 2 == Shr(u, i + 1) / 2 / 2 / 2;
  }

  function HexText(u: nat): string {
    ['0', 'x'] + Digits(u, 16)
  }

  /** The prefix and the digits in front of those still to come. */
  function HexFront(n: nat): string {
    ['0', 'x'] + Leading(n, 16)
  }

  lemma HexMore(n: nat, d: int)
    requires 0 <= d < 16
    ensures HexText(n * 16 + d) == HexFront(n) + [DigitChar(d)]
    ensures n * 16 + d > 0 ==> HexFront(n * 16 + d) == HexFront(n) + [DigitChar(d)]
    ensures n * 16 + d > 0 ==> |Leading(n * 16 + d, 16)| == |Leading(n, 16)| + 1
  {
    LeadingMore(n, d, 16);
    assert (['0', 'x'] + Leading(n, 16)) + [DigitChar(d)] == ['0', 'x'] + (Leading(n, 16) + [DigitChar(d)]);
  }

  /** The loop of sputhex over all but the last nibble. */
  method PutNibbles(str: array<char>, u: nat) returns (str_i: nat)
    requires u < WORD && str.Length >= 10
    modifies str
    ensures str_i == 1 + |Leading(Shr(u, 4), 16)| <= 8
    ensures Printed(old(str[..]), str[..], 0, HexFront(Shr(u, 4)))
  {
    ghost var before := str[..];
    Store(str, 0, '0', before, 0, []);
    Store(str, 1, 'x', before, 0, ['0']);
    assert ['0'] + ['x'] == HexFront(0);
    ShrAll(u);
    str_i := 1;
    var no_ze := true;
    var i := 28;
    while i > 0
      invariant 0 <= i <= 28 && i % 4 == 0
      invariant str_i == 1 + |Leading(Shr(u, i + 4), 16)| && 4 * str_i <= 32 - i
      invariant no_ze <==> Shr(u, i + 4) == 0
      invariant Printed(before, str[..], 0, HexFront(Shr(u, i + 4)))
    {
      var temp := Shr(u, i) % 16;
      ShrNibble(u, i);
      if !(temp == 0 && no_ze) {
        HexMore(Shr(u, i + 4), temp);
        no_ze := false;
        str_i := str_i + 1;
        Store(str, str_i, DigitChar(temp), before, 0, HexFront(Shr(u, i + 4)));
      }
      i := i - 4;
    }
  }

  /** sputhex: 0x and the digits, with no NUL behind them. */
  method PutHex(str: array<char>, u: nat) returns (str_i: nat)
    requires u < WORD && str.Length >= 10
    modifies str
    ensures str_i == |HexText(u)| <= 10 && Printed(old(str[..]), str[..], 0, HexText(u))
  {
    ghost var before := str[..];
    str_i := PutNibbles(str, u);
    var temp := u % 16;
    ShrNibble(u, 0);
    HexMore(Shr(u, 4), temp);
    str_i := str_i + 1;
    Store(str, str_i, DigitChar(temp), before, 0, HexFront(Shr(u, 4)));
    str_i := str_i + 1;
  }

  // ---------------------------------------------------------------- strtoul, strtol

  lemma ModStep(a: nat, base: nat, v: nat)
    ensures (a % WORD * base + v) % WORD == (a * base + v) % WORD
  {
    var q, r := a / WORD, a % WORD;
    assert a * base == (q * base) * WORD + r * base;
    ModAdd(q * base, r * base + v);
  }

  lemma ModAdd(k: nat, x: nat)
    ensures (k * WORD + x) % WORD == x % WORD
  {
  }

  method ReadPrefix(s: string, at: nat, base: nat) returns (cp: nat, b: nat)
    requires Terminated(s, at)
    ensures (cp, b) == Prefix(s, at, base) && Terminated(s, cp)
  {
    cp, b := at, base;
    if base == 0 {
      b := 10;
      if s[cp] == '0' {
        b := 8;
        cp := cp + 1;
        if s[cp] == 'x' && IsXDigit(s[cp + 1]) {
          cp := cp + 1;
          b := 16;
        }
      }
    }
  }

  lemma ValueMore(s: string, from: nat, cp: nat, b: nat)
    requires from <= cp < |s| && forall i :: from <= i <= cp ==> IsXDigit(s[i])
    ensures Value(s[from..cp + 1], b) == Value(s[from..cp], b) * b + DigitValue(s[cp])
  {
    assert s[from..cp + 1][..cp - from] == s[from..cp];
  }

  /** The digits of a base from a position on end at end, and have this value on 32 bits. */
  ghost predicate IsRead(s: string, from: nat, base: nat, end: nat, result: nat) {
    DigitRun(s, from, end, base) && result == Value(s[from..end], base) % WORD
  }

  /** strtoul from position at on: the digits behind the prefix, in the base given or read off it,
      on 32 bits, and where they end. */
  method Strtoul(s: string, at: nat, base: nat) returns (result: nat, end: nat)
    requires Terminated(s, at)
    ensures var (from, b) := Prefix(s, at, base);
            DigitRun(s, from, end, b) && result == Value(s[from..end], b) % WORD
    ensures base != 0 ==> IsRead(s, at, base, end, result)
    ensures base == 0 && s[at] != '0' ==> IsRead(s, at, 10, end, result)
    ensures base == 0 && s[at] == '0' ==>
              if s[at + 1] == 'x' && IsXDigit(s[at + 2]) then IsRead(s, at + 2, 16, end, result) else IsRead(s, at + 1, 8, end, result)
  {
    var cp, b := ReadPrefix(s, at, base);
    result, end := ReadDigits(s, cp, b);
  }

  method ReadDigits(s: string, from: nat, b: nat) returns (result: nat, cp: nat)
    requires Terminated(s, from)
    ensures DigitRun(s, from, cp, b) && result == Value(s[from..cp], b) % WORD
  {
    cp, result := from, 0;
    while IsXDigit(s[cp]) && DigitValue(s[cp]) < b
      invariant from <= cp < |s| && Terminated(s, cp)
      invariant forall i :: from <= i < cp ==> IsXDigit(s[i]) && IsDigitOf(s[i], b)
      invariant result == Value(s[from..cp], b) % WORD
      decreases |s| - cp
    {
      ModStep(Value(s[from..cp], b), b, DigitValue(s[cp]));
      ValueMore(s, from, cp, b);
      result := (result * b + DigitValue(s[cp])) % WORD;
      cp := cp + 1;
    }
  }

  function Signed(x: nat): int {
    if x < HALF then x else x - WORD
  }

  function Negated(x: nat, minus: bool): int {
    if minus then 0 - x else x
  }

  lemma NegatedMod(x: nat)
    ensures (0 - x % WORD) % WORD == (0 - x) % WORD
  {
  }

  /** strtol: the sign before the digits is undone on 32 bits. */
  method Strtol(s: string, at: nat, base: nat) returns (result: int, end: nat)
    requires Terminated(s, at)
    ensures var minus := s[at] == '-';
            && Terminated(s, if minus then at + 1 else at)
            && var (from, b) := Prefix(s, if minus then at + 1 else at, base);
               && DigitRun(s, from, end, b)
               && result == Signed(Negated(Value(s[from..end], b), minus) % WORD)
  {
    var r;
    if s[at] == '-' {
      assert Terminated(s, at + 1);
      r, end := Strtoul(s, at + 1, base);
      NegatedMod(Value(s[Prefix(s, at + 1, base).0..end], Prefix(s, at + 1, base).1));
      result := Signed((0 - r) % WORD);
    } else {
      r, end := Strtoul(s, at, base);
      result := Signed(r);
    }
  }

  // ---------------------------------------------------------------- round trips

  /** A printed number with a NUL behind it reads back as itself, and is consumed exactly. */
  lemma ReadsBack(s: string, at: nat, n: nat, base: int, end: nat)
    requires base in {10, 16} && n < WORD && at + |Digits(n, base)| < |s|
    requires s[at..at + |Digits(n, base)|] == Digits(n, base) && s[at + |Digits(n, base)|] == NUL
    requires DigitRun(s, at, end, base)
    ensures end == at + |Digits(n, base)| && Value(s[at..end], base) == n
  {
    PrintedRun(s, at, n, base);
    OneEnd(s, at, end, at + |Digits(n, base)|, base);
    ValueOfDigits(n, base);
  }

  lemma PrintedWithNul(before: seq<char>, after: seq<char>, off: nat, text: string)
    requires Printed(before, after, off, text + [NUL])
    ensures after[off..off + |text|] == text && after[off + |text|] == NUL && Terminated(after, off)
  {
    assert after[off..off + |text|] == after[off..off + |text| + 1][..|text|];
    assert after[off + |text|] == after[off..off + |text| + 1][|text|];
  }

  /** strtoul in base 10 after sputuint. */
  method UintRoundTrip(u: nat) returns (v: nat, printed: nat, consumed: nat)
    requires u < WORD
    ensures v == u && consumed == printed
  {
    var str := new char[11];
    ghost var before := str[..];
    printed := PutUint(str, 0, u);
    PrintedWithNul(before, str[..], 0, Digits(u, 10));
    v, consumed := Strtoul(str[..], 0, 10);
    ReadsBack(str[..], 0, u, 10, consumed);
  }

  /** strtol in base 10 after sputint. */
  method IntRoundTrip(n: int) returns (v: int, printed: nat, consumed: nat)
    requires -HALF <= n < HALF
    ensures v == n && consumed == printed
  {
    var str := new char[12];
    ghost var before := str[..];
    printed := PutInt(str, n);
    PrintedWithNul(before, str[..], 0, IntText(n));
    v, consumed := Strtol(str[..], 0, 10);
    IntReadsBack(str[..], n, consumed);
  }

  lemma IntReadsBack(s: string, n: int, end: nat)
    requires -HALF <= n < HALF && |IntText(n)| < |s| && s[0..|IntText(n)|] == IntText(n) && s[|IntText(n)|] == NUL
    requires var at := if s[0] == '-' then 1 else 0; DigitRun(s, at, end, 10)
    ensures end == |IntText(n)|
    ensures var minus := s[0] == '-'; var at := if minus then 1 else 0;
            Signed(Negated(Value(s[at..end], 10), minus) % WORD) == n
  {
    IntTextParts(s, n);
    ReadsBack(s, if n < 0 then 1 else 0, Magnitude(n), 10, end);
  }

  /** The sign, if any, and the digits behind it. */
  lemma IntTextParts(s: string, n: int)
    requires |IntText(n)| < |s| && s[0..|IntText(n)|] == IntText(n)
    ensures (s[0] == '-') <==> n < 0
    ensures var at, text := if n < 0 then 1 else 0, Digits(Magnitude(n), 10);
            at + |text| == |IntText(n)| && s[at..at + |text|] == text
  {
    var text := IntText(n);
    assert s[0] == s[0..|text|][0] == text[0];
    if n < 0 {
      assert s[1..|text|] == s[0..|text|][1..];
    } else {
      ValueOfDigits(n, 10);
    }
  }

  /** strtoul in base 0 after sputhex into a zeroed buffer. */
  method HexRoundTrip(u: nat) returns (v: nat, printed: nat, consumed: nat)
    requires u < WORD
    ensures v == u && consumed == printed
  {
    var str := new char[11](_ => NUL);
    ghost var before := str[..];
    printed := PutHex(str, u);
    HexParts(before, str[..], u);
    v, consumed := Strtoul(str[..], 0, 0);
    ReadsBack(str[..], 2, u, 16, consumed);
  }

  lemma HexParts(before: seq<char>, s: seq<char>, u: nat)
    requires |before| == 11 && (forall i :: 0 <= i < 11 ==> before[i] == NUL)
    requires |HexText(u)| <= 10 && Printed(before, s, 0, HexText(u))
    ensures Terminated(s, 0) && Prefix(s, 0, 0) == (2, 16)
    ensures 2 + |Digits(u, 16)| < |s| && s[2..2 + |Digits(u, 16)|] == Digits(u, 16) && s[2 + |Digits(u, 16)|] == NUL
  {
    var text := HexText(u);
    assert s[0] == s[0..|text|][0] && s[1] == s[0..|text|][1];
    assert s[2] == s[0..|text|][2] == Digits(u, 16)[0];
    assert s[2..|text|] == s[0..|text|][2..];
    assert s[|text|] == s[|text|..][0] == before[|text|..][0];
    ValueOfDigits(u, 16);
  }
}
