// What jemalloc's number parser makes of digit strings, and in particular of the strings
// its printers produce (3rd/jemalloc/src/malloc_io.c).

module MallocIoRoundTrip {
  import opened MallocIo

  // The 64-bit accumulator after k digits holds the true value modulo 2^64; digit k is
  // noticed as an overflow when it makes the accumulator smaller.
  predicate Caught(ds: seq<char>, b: nat, k: nat)
    requires k < |ds|
  {
    Value(ds[..k + 1], b) % LIMIT < Value(ds[..k], b) % LIMIT
  }

  function FirstCaught(ds: seq<char>, b: nat, k: nat): (j: nat)
    requires k <= |ds|
    ensures k <= j <= |ds| && (j < |ds| ==> Caught(ds, b, j))
    ensures forall i :: k <= i < j ==> !Caught(ds, b, i)
    decreases |ds| - k
  {
    if k == |ds| || Caught(ds, b, k) then k else FirstCaught(ds, b, k + 1)
  }

  function Expected(ds: seq<char>, b: nat, at: nat): Converted {
    var k := FirstCaught(ds, b, 0);
    if k < |ds| then Overflow(at + k) else Done(Value(ds, b) % LIMIT, at + |ds|)
  }

  lemma WrapNext(v: nat, b: nat, d: nat)
    ensures Next(v % LIMIT, b, d) == (v * b + d) % LIMIT
  {
    var q, r := v / LIMIT, v % LIMIT;
    assert v * b == LIMIT * (q * b) + r * b;
  }

  lemma ValueNext(ds: seq<char>, b: nat, k: nat)
    requires k < |ds|
    ensures Value(ds[..k + 1], b) == Value(ds[..k], b) * b + DigitValue(ds[k])
  {
    assert ds[..k + 1] == ds[..k] + [ds[k]];
    ValueOfLast(ds[..k], ds[k], b);
  }

  lemma {:induction false} ConvertFrom(s: seq<char>, at: nat, ds: seq<char>, b: nat, k: nat)
    requires IsString(s) && b <= 36 && k <= |ds| && at + |ds| < |s| && s[at..at + |ds|] == ds
    requires AreDigits(ds, b) && DigitValue(s[at + |ds|]) >= b
    requires FirstCaught(ds, b, 0) == FirstCaught(ds, b, k)
    ensures Convert(s, at + k, b, Value(ds[..k], b) % LIMIT) == Expected(ds, b, at)
    decreases |ds| - k
  {
    hide Next, Value;
    if k == |ds| {
      assert ds[..k] == ds;
    } else {
      assert s[at + k] == ds[k] && DigitValue(ds[k]) < b;
      ValueNext(ds, b, k);
      WrapNext(Value(ds[..k], b), b, DigitValue(ds[k]));
      if !Caught(ds, b, k) {
        ConvertFrom(s, at, ds, b, k + 1);
      }
    }
  }

  lemma ConvertIs(s: seq<char>, at: nat, ds: seq<char>, b: nat)
    requires IsString(s) && b <= 36 && at + |ds| < |s| && s[at..at + |ds|] == ds
    requires AreDigits(ds, b) && DigitValue(s[at + |ds|]) >= b
    ensures Convert(s, at, b, 0) == Expected(ds, b, at)
  {
    ConvertFrom(s, at, ds, b, 0);
  }

  // A zero in front changes nothing.
  lemma {:induction false} LeadingZero(ds: seq<char>, b: nat)
    ensures Value(['0'] + ds, b) == Value(ds, b)
  {
    if ds == [] {
      assert ['0'] + ds == ['0'];
      ValueOfLast([], '0', b);
    } else {
      var front, c := ds[..|ds| - 1], ds[|ds| - 1];
      LeadingZero(front, b);
      assert ['0'] + ds == (['0'] + front) + [c] && ds == front + [c];
      ValueOfLast(['0'] + front, c, b);
      ValueOfLast(front, c, b);
    }
  }

  lemma CaughtBehindZero(ds: seq<char>, b: nat, k: nat)
    requires k < |ds|
    ensures Caught(['0'] + ds, b, k + 1) <==> Caught(ds, b, k)
    ensures !Caught(['0'] + ds, b, 0)
  {
    var zs := ['0'] + ds;
    assert zs[..k + 2] == ['0'] + ds[..k + 1] && zs[..k + 1] == ['0'] + ds[..k];
    LeadingZero(ds[..k + 1], b);
    LeadingZero(ds[..k], b);
    assert zs[..1] == ['0'] + [] && zs[..0] == [];
    LeadingZero([], b);
  }

  lemma ExpectedBehindZero(ds: seq<char>, b: nat)
    requires ds != []
    ensures Expected(['0'] + ds, b, 0) == Expected(ds, b, 1)
  {
    var zs := ['0'] + ds;
    forall k | 0 <= k < |ds| ensures (Caught(zs, b, k + 1) <==> Caught(ds, b, k)) && !Caught(zs, b, 0) {
      CaughtBehindZero(ds, b, k);
    }
    LeadingZero(ds, b);
    var i, j := FirstCaught(ds, b, 0), FirstCaught(zs, b, 0);
    assert i < |ds| ==> Caught(zs, b, i + 1);
    assert 0 < j < |zs| ==> Caught(ds, b, j - 1);
  }

  // The digits behind such a zero are not read.
  predicate HiddenByZero(ds: seq<char>) {
    |ds| > 1 && ds[0] == '0' && !('0' <= ds[1] <= '7') && ds[1] != 'x' && ds[1] != 'X'
  }

  // What the parser returns for any string of digits of its base.
  lemma ParseDigits(ds: seq<char>, b: nat)
    requires 2 <= b <= 36 && ds != [] && AreDigits(ds, b)
    ensures Strtoumax(ds + [NUL], b)
         == if HiddenByZero(ds) then Parsed(0, 1, NoError)
            else match Expected(ds, b, 0)
              case Overflow(k) => Parsed(LIMIT - 1, k, OutOfRange)
              case Done(v, n) => Parsed(v, n, NoError)
  {
    hide Convert, Expected, Value;
    var s := ds + [NUL];
    assert DigitValue(s[0]) < b && (|ds| > 1 ==> DigitValue(s[1]) < b);
    FirstIsRight(ds, b);
    if b == 8 && |ds| > 1 && s[0] == '0' && '0' <= s[1] <= '7' {
      assert ds == ['0'] + ds[1..];
      ConvertIs(s, 1, ds[1..], b);
      ExpectedBehindZero(ds[1..], b);
    } else if !(s[0] == '0' && (|ds| == 1 || HiddenByZero(ds))) {
      ConvertIs(s, 0, ds, b);
    }
  }

  lemma FirstIsRight(ds: seq<char>, b: nat)
    requires 2 <= b <= 36 && ds != [] && AreDigits(ds, b)
    ensures Expected(ds, b, 0) != Overflow(0)
    ensures ds == ['0'] ==> Expected(ds, b, 0) == Done(0, 1)
    ensures Expected(ds, b, 0).Done? ==> Expected(ds, b, 0).at == |ds|
  {
    NotAtOnce(ds, b);
    ValueOfLast([], '0', b);
    assert [] + ['0'] == ['0'];
  }

  // The first digit cannot overflow.
  lemma NotAtOnce(ds: seq<char>, b: nat)
    requires ds != [] && 2 <= b
    ensures !Caught(ds, b, 0)
  {
    assert ds[..0] == [];
    assert Value(ds[..0], b) == 0;
  }

  lemma {:induction false} PrefixIsSmaller(ds: seq<char>, b: nat, k: nat)
    requires 2 <= b && k <= |ds|
    ensures Value(ds[..k], b) <= Value(ds, b)
    decreases |ds| - k
  {
    if k == |ds| {
      assert ds[..k] == ds;
    } else {
      PrefixIsSmaller(ds, b, k + 1);
      ValueNext(ds, b, k);
      TimesGrows(Value(ds[..k], b), b);
    }
  }

  lemma TimesGrows(v: nat, b: nat)
    requires 2 <= b
    ensures v <= v * b
  {
  }

  // Numbers that fit never trip the overflow test.
  lemma FitsIsNotCaught(ds: seq<char>, b: nat, k: nat)
    requires 2 <= b && k < |ds| && Value(ds, b) < LIMIT
    ensures !Caught(ds, b, k)
  {
    PrefixIsSmaller(ds, b, k + 1);
    PrefixIsSmaller(ds[..k + 1], b, k);
    assert ds[..k + 1][..k] == ds[..k];
  }

  // The exact value and the end of the digits, or the range error if it does not fit.
  predicate Correct(r: Parsed, ds: seq<char>, b: nat) {
    if Value(ds, b) < LIMIT then r == Parsed(Value(ds, b), |ds|, NoError) else r.errno == OutOfRange
  }

  // The parser is right about a digit string exactly if the number is not hidden behind a
  // zero and, should it not fit, some digit makes the accumulator smaller.
  lemma CorrectIff(ds: seq<char>, b: nat)
    requires 2 <= b <= 36 && ds != [] && AreDigits(ds, b)
    ensures Correct(Strtoumax(ds + [NUL], b), ds, b)
       <==> !HiddenByZero(ds) && (Value(ds, b) < LIMIT || exists k :: 0 <= k < |ds| && Caught(ds, b, k))
  {
    ParseDigits(ds, b);
    hide Strtoumax, Caught, Value, HiddenByZero;
    if Value(ds, b) < LIMIT {
      forall k | 0 <= k < |ds| ensures !Caught(ds, b, k) {
        FitsIsNotCaught(ds, b, k);
      }
    }
  }

  // ------------------------------------------------------------ round trips

  // Every number parses back from its digits, in every base and either case; the whole
  // string is consumed and no error is raised.
  lemma PrintedParses(x: nat, b: nat, uppercase: bool)
    requires x < LIMIT && 2 <= b <= 36
    ensures Strtoumax(Digits(x, b, uppercase) + [NUL], b) == Parsed(x, |Digits(x, b, uppercase)|, NoError)
  {
    DigitsStandFor(x, b, uppercase);
    NoLeadingZero(x, b, uppercase);
    CorrectIff(Digits(x, b, uppercase), b);
  }

  lemma NoLeadingZero(x: nat, b: nat, uppercase: bool)
    requires 2 <= b <= 36
    ensures Digits(x, b, uppercase)[0] == '0' ==> x == 0 && Digits(x, b, uppercase) == ['0']
  {
    DigitsStandFor(x, b, uppercase);
    if x == 0 {
      assert Rem(0, b) == 0;
    }
  }

  lemma ExpectedFits(ds: seq<char>, b: nat, at: nat)
    requires 2 <= b && Value(ds, b) < LIMIT
    ensures Expected(ds, b, at) == Done(Value(ds, b), at + |ds|)
  {
    hide Value, Caught;
    forall k | 0 <= k < |ds| ensures !Caught(ds, b, k) {
      FitsIsNotCaught(ds, b, k);
    }
  }

  // Behind any prefix the digits of x read as x.
  lemma ConvertPrinted(front: seq<char>, x: nat, b: nat, uppercase: bool)
    requires x < LIMIT && 2 <= b <= 36
    ensures
      var ds := Digits(x, b, uppercase);
      Convert(front + ds + [NUL], |front|, b, 0) == Done(x, |front| + |ds|)
  {
    hide Digits, Convert, Value, Expected, AreDigits;
    var ds := Digits(x, b, uppercase);
    DigitsStandFor(x, b, uppercase);
    ExpectedFits(ds, b, |front|);
    var s := front + ds + [NUL];
    assert s[|front|..|front| + |ds|] == ds;
    NulIsNoDigit();
    assert s[|front| + |ds|] == NUL;
    ConvertIs(s, |front|, ds, b);
  }

  lemma FirstDigit(x: nat, b: nat, uppercase: bool)
    requires 2 <= b <= 36
    ensures DigitValue(Digits(x, b, uppercase)[0]) < b
    ensures Digits(x, b, uppercase)[0] == '0' ==> x == 0 && Digits(x, b, uppercase) == ['0']
  {
    hide Digits, DigitValue;
    DigitsStandFor(x, b, uppercase);
    NoLeadingZero(x, b, uppercase);
  }

  lemma OctalStart(s: seq<char>)
    requires IsString(s) && |s| > 1 && s[0] == '0' && '0' <= s[1] <= '7'
    ensures Strtoumax(s, 0) == Finish(Convert(s, 1, 8, 0), false, 0)
  {
    hide Convert, Finish;
  }

  // The alternate octal form names its own base.
  lemma OctalParses(x: nat)
    requires x < LIMIT
    ensures Strtoumax(OctalForm(x, true) + [NUL], 0) == Parsed(x, |OctalForm(x, true)|, NoError)
  {
    hide Digits, Convert, Strtoumax;
    var ds := Digits(x, 8, false);
    FirstDigit(x, 8, false);
    ConvertPrinted(['0'], x, 8, false);
    if ds[0] == '0' {
      ZeroStart("", 0);
      assert "" + ['0'] + [NUL] == ds + [NUL];
    } else {
      var s := ['0'] + ds + [NUL];
      assert s[1] == ds[0];
      OctalStart(s);
    }
  }

  lemma HexStart(s: seq<char>, base: nat)
    requires IsString(s) && |s| > 2 && s[0] == '0' && (s[1] == 'x' || s[1] == 'X') && DigitValue(s[2]) < 16
    requires base == 0 || base == 16
    ensures Strtoumax(s, base) == Finish(Convert(s, 2, 16, 0), false, 0)
  {
    hide Convert, Finish;
  }

  // So does the alternate hexadecimal form, which base 16 takes as well.
  lemma HexParses(x: nat, uppercase: bool, base: nat)
    requires x < LIMIT && (base == 0 || base == 16)
    ensures Strtoumax(HexForm(x, true, uppercase) + [NUL], base)
         == Parsed(x, |HexForm(x, true, uppercase)|, NoError)
  {
    hide Digits, Convert, Strtoumax, DigitValue;
    var ds, front := Digits(x, 16, uppercase), if uppercase then "0X" else "0x";
    FirstDigit(x, 16, uppercase);
    ConvertPrinted(front, x, 16, uppercase);
    var s := front + ds + [NUL];
    assert s[0] == '0' && s[1] == front[1] && s[2] == ds[0];
    HexStart(s, base);
  }

  // What a decimal number may have in front.
  predicate Lead(front: seq<char>) {
    front == [] || front == ['-'] || front == ['+'] || front == [' ']
  }

  // A signed number, the least one included, comes back as its 64-bit two's complement.
  lemma SignedParses(x: int, sign: char)
    requires -LIMIT / 2 <= x < LIMIT / 2 && sign in {'-', ' ', '+'}
    ensures Strtoumax(SignedForm(x, sign) + [NUL], 10) == Parsed(x % LIMIT, |SignedForm(x, sign)|, NoError)
  {
    hide Digits, Convert, Strtoumax, DigitValue;
    var m := Magnitude(x);
    var ds := Digits(m, 10, false);
    var front := if x < 0 then ['-'] else if sign == '-' then [] else [sign];
    FirstDigit(m, 10, false);
    ConvertPrinted(front, m, 10, false);
    if ds[0] == '0' {
      ZeroStart(front, 10);
    } else {
      DecimalStart(front, ds);
    }
  }

  // A sign, or a space, is skipped in front of the digits.
  lemma DecimalStart(front: seq<char>, ds: seq<char>)
    requires Lead(front) && ds != [] && DigitValue(ds[0]) < 10 && ds[0] != '0'
    ensures Strtoumax(front + ds + [NUL], 10)
         == Finish(Convert(front + ds + [NUL], |front|, 10, 0), front == ['-'], |front|)
  {
    hide Convert, Finish;
    var s := front + ds + [NUL];
    assert s[|front|] == ds[0];
    if front != [] {
      assert s[0] == front[0];
    }
    assert SkipSpace(s, |front|) == |front|;
  }

  lemma ZeroStart(front: seq<char>, base: nat)
    requires Lead(front) && (base == 0 || base == 10)
    ensures Strtoumax(front + ['0'] + [NUL], base) == Parsed(0, |front| + 1, NoError)
  {
    hide Convert, Finish;
    var s := front + ['0'] + [NUL];
    assert s[|front|] == '0' && s[|front| + 1] == NUL;
    if front != [] {
      assert s[0] == front[0];
    }
    assert SkipSpace(s, |front|) == |front|;
  }

  // ------------------------------------------------------- what goes wrong

  // A zero hides a digit that is not octal: "09" in base 10 is read as 0, up to the 9.
  lemma HiddenNine()
    ensures Strtoumax("09" + [NUL], 10) == Parsed(0, 1, NoError) && Value("09", 10) == 9
  {
    ParseDigits("09", 10);
    ValueOfLast("0", '9', 10);
    ValueOfLast("", '0', 10);
    assert "" + ['0'] == "0" && "0" + ['9'] == "09";
  }

  function Zeros(n: nat): seq<char> {
    seq(n, _ => '0')
  }

  function Pow10(n: nat): nat {
    if n == 0 then 1 else 10 * Pow10(n - 1)
  }

  lemma {:induction false} ThreeAndZeros(n: nat)
    ensures Value(['3'] + Zeros(n), 10) == 3 * Pow10(n)
  {
    if n == 0 {
      assert ['3'] + Zeros(0) == [] + ['3'];
      ValueOfLast([], '3', 10);
    } else {
      ThreeAndZeros(n - 1);
      assert ['3'] + Zeros(n) == (['3'] + Zeros(n - 1)) + ['0'];
      ValueOfLast(['3'] + Zeros(n - 1), '0', 10);
    }
  }

  lemma {:induction false} Pow10Values(n: nat)
    requires n <= 19
    ensures Pow10(n) <= 10_000_000_000_000_000_000 && Pow10(19) == 10_000_000_000_000_000_000
    ensures n < 19 ==> Pow10(n) <= 1_000_000_000_000_000_000
  {
    assert Pow10(5) == 100_000;
    assert Pow10(10) == 10_000_000_000;
    assert Pow10(15) == 1_000_000_000_000_000;
    assert Pow10(18) == 1_000_000_000_000_000_000;
    PowGrows(n, 18);
  }

  lemma {:induction false} PowGrows(m: nat, n: nat)
    ensures m <= n ==> Pow10(m) <= Pow10(n)
    decreases n
  {
    if m < n {
      PowGrows(m, n - 1);
    }
  }

  // An overflow that no digit shows: thirty quintillion is returned without an error.
  lemma OverflowMissed()
    ensures
      var ds := ['3'] + Zeros(19);
      && Value(ds, 10) == 30_000_000_000_000_000_000 > LIMIT
      && Strtoumax(ds + [NUL], 10) == Parsed(11_553_255_926_290_448_384, 20, NoError)
  {
    var ds := ['3'] + Zeros(19);
    ThreeAndZeros(19);
    Pow10Values(19);
    hide Value, Digits, Convert;
    forall k | 0 <= k < |ds| ensures !Caught(ds, 10, k) {
      NothingCaught(k);
    }
    ParseDigits(ds, 10);
  }

  lemma NothingCaught(k: nat)
    requires k < 20
    ensures !Caught(['3'] + Zeros(19), 10, k)
  {
    hide Value;
    var ds := ['3'] + Zeros(19);
    assert ds[..k + 1] == ['3'] + Zeros(k);
    ThreeAndZeros(k);
    Pow10Values(k);
    if k > 0 {
      assert ds[..k] == ['3'] + Zeros(k - 1);
      ThreeAndZeros(k - 1);
      Pow10Values(k - 1);
    } else {
      NotAtOnce(ds, 10);
    }
  }
}
