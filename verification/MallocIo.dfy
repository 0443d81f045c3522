// Printing and parsing numbers in jemalloc (3rd/jemalloc/src/malloc_io.c). A C string is
// a sequence of characters that ends with NUL.

module MallocIo {
  import opened Common

  const LIMIT: int := 0x1_0000_0000_0000_0000
  const NUL: char := '\0'
  // U2S_BUFSIZE for 8-byte integers.
  const BUFSIZE: nat := 65

  datatype Errno = NoError | InvalidArgument | OutOfRange

  // The value returned, where the end pointer points, and errno.
  datatype Parsed = Parsed(value: int, end: nat, errno: Errno)

  predicate IsString(s: seq<char>) {
    s != [] && s[|s| - 1] == NUL
  }

  // ----------------------------------------------------------------- digits

  // 36 for characters that are no digit in any base.
  function DigitValue(c: char): (d: nat)
    ensures d <= 36
  {
    if '0' <= c <= '9' then c as int - '0' as int
    else if 'A' <= c <= 'Z' then 10 + c as int - 'A' as int
    else if 'a' <= c <= 'z' then 10 + c as int - 'a' as int
    else 36
  }

  function Digit(d: nat, uppercase: bool): (c: char)
    requires d < 36
    ensures DigitValue(c) == d && c != NUL
  {
    if d < 10 then ('0' as int + d) as char
    else if uppercase then ('A' as int + d - 10) as char
    else ('a' as int + d - 10) as char
  }

  predicate AreDigits(ds: seq<char>, b: nat) {
    forall i :: 0 <= i < |ds| ==> DigitValue(ds[i]) < b
  }

  // What a string of digits stands for.
  function Value(ds: seq<char>, b: nat): nat {
    if ds == [] then 0 else Value(ds[..|ds| - 1], b) * b + DigitValue(ds[|ds| - 1])
  }

  function Quot(x: nat, b: nat): (q: nat)
    requires 2 <= b
    ensures (x < b <==> q == 0) && q <= x / 2
  {
    QuotRem(x, b);
    x / b
  }

  function Rem(x: nat, b: nat): (r: nat)
    requires 2 <= b
    ensures r < b
  {
    x % b
  }

  lemma QuotRem(x: nat, b: nat)
    requires 2 <= b
    ensures x / b * b + x % b == x && 0 <= x / b <= x / 2 && (x < b <==> x / b == 0)
  {
    var q := x / b;
    assert q * b + x % b == x;
    assert q * b >= q * 2;
  }

  // The digits of x, most significant first.
  function Digits(x: nat, b: nat, uppercase: bool): (ds: seq<char>)
    requires 2 <= b <= 36
    ensures ds != []
    decreases x
  {
    (if x < b then [] else Digits(Quot(x, b), b, uppercase)) + [Digit(Rem(x, b), uppercase)]
  }

  lemma {:induction false} DigitsStandFor(x: nat, b: nat, uppercase: bool)
    requires 2 <= b <= 36
    ensures AreDigits(Digits(x, b, uppercase), b) && Value(Digits(x, b, uppercase), b) == x
    ensures x > 0 ==> DigitValue(Digits(x, b, uppercase)[0]) > 0
    decreases x
  {
    var front := if x < b then [] else Digits(Quot(x, b), b, uppercase);
    var last := Digit(Rem(x, b), uppercase);
    QuotRem(x, b);
    hide Quot, Rem, Digit;
    if x >= b {
      DigitsStandFor(Quot(x, b), b, uppercase);
    }
    ValueOfLast(front, last, b);
  }

  lemma ValueOfLast(front: seq<char>, c: char, b: nat)
    ensures Value(front + [c], b) == Value(front, b) * b + DigitValue(c)
  {
    assert (front + [c])[..|front|] == front;
  }

  // --------------------------------------------------------------- printing

  lemma {:induction false} Pow2Is64()
    ensures Pow2(64) == LIMIT
  {
    assert Pow2(8) == 0x100;
    assert Pow2(16) == 0x1_0000;
    assert Pow2(24) == 0x100_0000;
    assert Pow2(32) == 0x1_0000_0000;
    assert Pow2(40) == 0x100_0000_0000;
    assert Pow2(48) == 0x1_0000_0000_0000;
    assert Pow2(56) == 0x100_0000_0000_0000;
  }

  // Writes the digits backwards from the end of the buffer; they never run past its start.
  method U2s(x: nat, base: nat, uppercase: bool, s: array<char>) returns (i: nat, slen: nat)
    requires x < LIMIT && 2 <= base <= 36 && s.Length >= BUFSIZE
    modifies s
    ensures i + slen == BUFSIZE - 1 && s[BUFSIZE - 1] == NUL
    ensures s[i..BUFSIZE - 1] == Digits(x, base, uppercase)
  {
    hide Pow2, Digit, Digits, Quot, Rem, Unwritten;
    Pow2Is64();
    NothingUnwritten(x, base, uppercase);
    i := BUFSIZE - 1;
    s[i] := NUL;
    var rest: nat, more := x, true;
    ghost var all, tail := Digits(x, base, uppercase), [];
    while more
      invariant 0 <= i < BUFSIZE && (more ==> 0 < i && rest < Pow2(i))
      invariant s[BUFSIZE - 1] == NUL
      invariant s[i..BUFSIZE - 1] == tail
      invariant all == Unwritten(rest, more, base, uppercase) + tail
      decreases i
    {
      NextDigit(rest, tail, base, uppercase);
      i := i - 1;
      s[i] := Digit(Rem(rest, base), uppercase);
      assert s[i..BUFSIZE - 1] == [s[i]] + tail;
      tail := [s[i]] + tail;
      HalfFits(rest, base, i);
      rest := Quot(rest, base);
      more := rest > 0;
    }
    NothingUnwritten(rest, base, uppercase);
    slen := BUFSIZE - 1 - i;
  }

  function Unwritten(x: nat, more: bool, b: nat, uppercase: bool): seq<char>
    requires 2 <= b <= 36
  {
    if more then Digits(x, b, uppercase) else []
  }

  lemma NothingUnwritten(x: nat, b: nat, uppercase: bool)
    requires 2 <= b <= 36
    ensures Unwritten(x, true, b, uppercase) + [] == Digits(x, b, uppercase)
    ensures forall s :: Unwritten(x, false, b, uppercase) + s == s
  {
  }

  lemma NextDigit(x: nat, tail: seq<char>, b: nat, uppercase: bool)
    requires 2 <= b <= 36
    ensures Unwritten(x, true, b, uppercase) + tail
         == Unwritten(Quot(x, b), Quot(x, b) > 0, b, uppercase) + ([Digit(Rem(x, b), uppercase)] + tail)
  {
    hide Rem, Digit;
    var front, d := Unwritten(Quot(x, b), Quot(x, b) > 0, b, uppercase), Digit(Rem(x, b), uppercase);
    QuotRem(x, b);
    assert Digits(x, b, uppercase) == front + [d];
    assert front + [d] + tail == front + ([d] + tail);
  }

  lemma HalfFits(x: nat, b: nat, i: nat)
    requires 2 <= b && x < Pow2(i + 1)
    ensures Quot(x, b) < Pow2(i) && (Quot(x, b) > 0 ==> i > 0)
  {
    hide Quot;
    assert Pow2(i + 1) == 2 * Pow2(i);
  }

  // With at most two bits less per digit, the buffer has room for a prefix or a sign.
  lemma {:induction false} FewDigits(x: nat, b: nat, uppercase: bool, k: nat)
    requires 4 <= b <= 36 && 0 < k && x < Pow2(2 * k)
    ensures |Digits(x, b, uppercase)| <= k
    decreases k
  {
    if x >= b {
      var q := x / b;
      QuotRem(x, b);
      assert q * b >= q * 4;
      assert Pow2(2 * k) == 2 * Pow2(2 * k - 1);
      assert 2 * k - 1 > 0 ==> Pow2(2 * k - 1) == 2 * Pow2(2 * k - 2);
      FewDigits(q, b, uppercase, k - 1);
    }
  }

  function OctalForm(x: nat, altForm: bool): seq<char> {
    var ds := Digits(x, 8, false);
    if altForm && ds[0] != '0' then ['0'] + ds else ds
  }

  method O2s(x: nat, altForm: bool, s: array<char>) returns (i: nat, slen: nat)
    requires x < LIMIT && s.Length >= BUFSIZE + 1
    modifies s
    ensures i + slen == BUFSIZE - 1 && s[BUFSIZE - 1] == NUL
    ensures s[i..BUFSIZE - 1] == OctalForm(x, altForm)
  {
    Pow2Is64();
    FewDigits(x, 8, false, 32);
    hide Digits, Pow2;
    i, slen := U2s(x, 8, false, s);
    ghost var ds := s[i..BUFSIZE - 1];
    assert s[i] == ds[0];
    if altForm && s[i] != '0' {
      i := i - 1;
      slen := slen + 1;
      s[i] := '0';
      assert s[i..BUFSIZE - 1] == ['0'] + ds;
    }
  }

  function HexForm(x: nat, altForm: bool, uppercase: bool): seq<char> {
    (if !altForm then [] else if uppercase then "0X" else "0x") + Digits(x, 16, uppercase)
  }

  method X2s(x: nat, altForm: bool, uppercase: bool, s: array<char>) returns (i: nat, slen: nat)
    requires x < LIMIT && s.Length >= BUFSIZE + 2
    modifies s
    ensures i + slen == BUFSIZE - 1 && s[BUFSIZE - 1] == NUL
    ensures s[i..BUFSIZE - 1] == HexForm(x, altForm, uppercase)
  {
    Pow2Is64();
    FewDigits(x, 16, uppercase, 32);
    hide Digits, Pow2;
    i, slen := U2s(x, 16, uppercase, s);
    ghost var ds := s[i..BUFSIZE - 1];
    if altForm {
      i := i - 2;
      slen := slen + 2;
      s[i] := '0';
      s[i + 1] := if uppercase then 'X' else 'x';
      assert s[i..BUFSIZE - 1] == [s[i], s[i + 1]] + ds;
    }
  }

  function Magnitude(x: int): nat {
    if x < 0 then -x else x
  }

  function SignedForm(x: int, sign: char): seq<char> {
    (if x < 0 then ['-'] else if sign == '-' then [] else [sign]) + Digits(Magnitude(x), 10, false)
  }

  // A 64-bit number as it is read without a sign, and as it is read with one.
  function Unsigned64(x: int): (u: nat)
    ensures u < LIMIT
  {
    x % LIMIT
  }

  function Signed64(u: nat): int
    requires u < LIMIT
  {
    if u < LIMIT / 2 then u else u - LIMIT
  }

  // The negation wraps around: the least number is its own negation, which the cast that
  // follows turns into its magnitude.
  function Negate64(x: int): int {
    Signed64(Unsigned64(-x))
  }

  lemma NegateIsMagnitude(x: int)
    requires -LIMIT / 2 <= x < LIMIT / 2
    ensures Unsigned64(if x < 0 then Negate64(x) else x) == Magnitude(x) <= LIMIT / 2
    ensures x < 0 ==> Negate64(x) == if x == -LIMIT / 2 then x else -x
  {
  }

  method D2s(x: int, sign: char, s: array<char>) returns (i: nat, slen: nat)
    requires -LIMIT / 2 <= x < LIMIT / 2 && sign in {'-', ' ', '+'} && s.Length >= BUFSIZE + 1
    modifies s
    ensures i + slen == BUFSIZE - 1 && s[BUFSIZE - 1] == NUL
    ensures s[i..BUFSIZE - 1] == SignedForm(x, sign)
  {
    hide Digits, Pow2, Unsigned64, Negate64, Magnitude;
    Pow2Is64();
    NegateIsMagnitude(x);
    var neg := x < 0;
    var magnitude := Unsigned64(if neg then Negate64(x) else x);
    FewDigits(magnitude, 10, false, 32);
    i, slen := U2s(magnitude, 10, false, s);
    ghost var ds := s[i..BUFSIZE - 1];
    var c := if neg then '-' else sign;
    if c != '-' || neg {
      i := i - 1;
      slen := slen + 1;
      s[i] := c;
      assert s[i..BUFSIZE - 1] == [c] + ds;
    }
  }

  // ---------------------------------------------------------------- parsing

  predicate IsSpace(c: char) {
    c == '\t' || c == '\n' || c == '\U{000B}' || c == '\U{000C}' || c == '\r' || c == ' '
  }

  function SkipSpace(s: seq<char>, p: nat): (q: nat)
    requires IsString(s) && p < |s|
    ensures p <= q < |s|
    decreases |s| - p
  {
    if IsSpace(s[p]) then SkipSpace(s, p + 1) else p
  }

  // Where the digits start, and in which base; or nothing but a zero.
  datatype Start = Start(base: nat, at: nat) | Zero

  // A zero in front of a character that is neither an octal digit nor an x ends the
  // number, whatever the base.
  function Prefix(s: seq<char>, p: nat, base: nat): (r: Start)
    requires IsString(s) && p < |s|
    ensures r.Start? ==> p <= r.at < |s| && (base <= 36 ==> r.base <= 36)
  {
    var b := if base == 0 then 10 else base;
    if s[p] != '0' then Start(b, p)
    else if '0' <= s[p + 1] <= '7' then (if base == 0 || base == 8 then Start(8, p + 1) else Start(b, p))
    else if s[p + 1] == 'X' || s[p + 1] == 'x' then
      (if DigitValue(s[p + 2]) < 16 && (base == 0 || base == 16) then Start(16, p + 2) else Start(b, p))
    else Zero
  }

  datatype Converted = Done(value: int, at: nat) | Overflow(at: nat)

  function Next(ret: int, b: nat, d: nat): int {
    (ret * b % LIMIT + d) % LIMIT
  }

  // Digits are taken in until one makes the 64-bit value smaller.
  function Convert(s: seq<char>, p: nat, b: nat, ret: int): (r: Converted)
    requires IsString(s) && p < |s| && b <= 36
    ensures p <= r.at < |s|
    decreases |s| - p
  {
    if DigitValue(s[p]) >= b then Done(ret, p)
    else if Next(ret, b, DigitValue(s[p])) < ret then Overflow(p)
    else Convert(s, p + 1, b, Next(ret, b, DigitValue(s[p])))
  }

  function Negated(ret: int, neg: bool): int {
    if neg then (LIMIT - ret) % LIMIT else ret
  }

  function Finish(c: Converted, neg: bool, ns: nat): Parsed {
    match c
    case Overflow(p) => Parsed(LIMIT - 1, if p == ns then 0 else p, OutOfRange)
    case Done(v, p) => if p == ns then Parsed(LIMIT - 1, 0, InvalidArgument) else Parsed(Negated(v, neg), p, NoError)
  }

  function Strtoumax(s: seq<char>, base: int): Parsed
    requires IsString(s)
  {
    if base < 0 || base == 1 || base > 36 then Parsed(LIMIT - 1, 0, InvalidArgument)
    else
      var p := SkipSpace(s, 0);
      var ns := if s[p] == '-' || s[p] == '+' then p + 1 else p;
      match Prefix(s, ns, base)
      case Zero => Parsed(0, ns + 1, NoError)
      case Start(b, at) => Finish(Convert(s, at, b, 0), s[p] == '-', ns)
  }

  method GetPrefix(s: seq<char>, ns: nat, base: nat) returns (r: Start)
    requires IsString(s) && ns < |s|
    ensures r == Prefix(s, ns, base)
  {
    var b, p := base, ns;
    if s[p] == '0' {
      if '0' <= s[p + 1] <= '7' {
        if b == 0 {
          b := 8;
        }
        if b == 8 {
          p := p + 1;
        }
      } else if s[p + 1] == 'X' || s[p + 1] == 'x' {
        if DigitValue(s[p + 2]) < 16 {
          if b == 0 {
            b := 16;
          }
          if b == 16 {
            p := p + 2;
          }
        }
      } else {
        return Zero;
      }
    }
    if b == 0 {
      b := 10;
    }
    r := Start(b, p);
  }

  method ConvertDigits(s: seq<char>, at: nat, b: nat) returns (r: Converted)
    requires IsString(s) && at < |s| && b <= 36
    ensures r == Convert(s, at, b, 0)
  {
    hide Next, DigitValue;
    var ret, p := 0, at;
    assert DigitValue(NUL) == 36 by { NulIsNoDigit(); }
    while DigitValue(s[p]) < b
      invariant at <= p < |s| && Convert(s, p, b, ret) == Convert(s, at, b, 0)
      decreases |s| - p
    {
      var pret := ret;
      ret := Next(ret, b, DigitValue(s[p]));
      if ret < pret {
        return Overflow(p);
      }
      p := p + 1;
    }
    r := Done(ret, p);
  }

  lemma NulIsNoDigit()
    ensures DigitValue(NUL) == 36
  {
  }

  method MallocStrtoumax(s: seq<char>, base: int) returns (r: Parsed)
    requires IsString(s)
    ensures r == Strtoumax(s, base)
  {
    if base < 0 || base == 1 || base > 36 {
      return Parsed(LIMIT - 1, 0, InvalidArgument);
    }
    hide Prefix, Convert;
    var p, neg := 0, false;
    while IsSpace(s[p])
      invariant p < |s| && SkipSpace(s, p) == SkipSpace(s, 0)
      decreases |s| - p
    {
      p := p + 1;
    }
    if s[p] == '-' {
      neg := true;
      p := p + 1;
    } else if s[p] == '+' {
      p := p + 1;
    }
    var start := GetPrefix(s, p, base);
    match start {
      case Zero => r := Parsed(0, p + 1, NoError);
      case Start(b, at) =>
        var c := ConvertDigits(s, at, b);
        r := Finish(c, neg, p);
    }
  }
}
