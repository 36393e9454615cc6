/**
 The library's conversions between integers and strings, with the 32-bit arithmetic they run on:
 `int.to_s`, `string.reverse` and `string.to_i`, and exactly when going there and back is the
 identity.
 */
module IntStrings {
  import opened Wrappers
  import opened Fixnums

  predicate IsDigit(c: char) { '0' <= c <= '9' }

  function DigitOf(c: char): (d: int)
    requires IsDigit(c)
    ensures 0 <= d < 10
  {
    c as int - '0' as int
  }

  function CharOf(d: nat): (c: char)
    requires d < 10
    ensures IsDigit(c) && DigitOf(c) == d
  {
    ('0' as int + d) as char
  }

  /** The decimal digits of `m`, the lowest first; none for zero. */
  function LowFirst(m: nat): seq<char> { if m == 0 then [] else [CharOf(m % 10)] + LowFirst(m / 10) }

  function Reversed(s: seq<char>): seq<char> { if s == [] then [] else Reversed(s[1..]) + [s[0]] }

  lemma {:induction false} ReversedAt(s: seq<char>, k: nat)
    requires k < |s|
    ensures |Reversed(s)| == |s| && Reversed(s)[k] == s[|s| - 1 - k]
  {
    if |s| > 1 { ReversedAt(s[1..], if k < |s| - 1 then k else 0); }
  }

  lemma {:induction false} ReversedAppend(a: seq<char>, b: seq<char>)
    ensures Reversed(a + b) == Reversed(b) + Reversed(a)
    decreases |a|
  {
    if a == [] {
      assert a + b == b;
    } else {
      assert (a + b)[1..] == a[1..] + b;
      ReversedAppend(a[1..], b);
    }
  }

  /** The decimal form, with a sign if negative; none for the least integer, which has no positive counterpart. */
  function ToS(n: Fixnum): Option<seq<char>> {
    if n == 0 then Some("0")
    else if n == -HALF then None
    else if n < 0 then Some(Reversed(LowFirst(Abs(n)) + ['-']))
    else Some(Reversed(LowFirst(n)))
  }

  /** The number that the digits at the start of `s` continue `acc` to. */
  function Value(s: seq<char>, acc: nat): nat {
    if s == [] || !IsDigit(s[0]) then acc else Value(s[1..], 10 * acc + DigitOf(s[0]))
  }

  function Signed(s: seq<char>): bool { s != [] && (s[0] == '+' || s[0] == '-') }

  /** The value of the digits behind an optional sign, computed through ten times itself. */
  function ToI(s: seq<char>): Fixnum {
    var m := Value(if Signed(s) then s[1..] else s, 0);
    var q := Quotient(Wrap(10 * m), 10);
    Wrap(if s != [] && s[0] == '-' then -q else q)
  }

  method Reverse(self: seq<char>) returns (s: seq<char>)
    ensures s == Reversed(self)
  {
    var tmp := new char[|self|];
    var i := 0;
    while i < |self|
      invariant i <= |self| && forall k | 0 <= k < i :: tmp[k] == self[|self| - k - 1]
    {
      tmp[i] := self[|self| - i - 1];
      i := i + 1;
    }
    s := tmp[..i];
    if self != [] { ReversedAt(self, 0); }
    forall k | 0 <= k < |self| ensures |Reversed(self)| == |self| && Reversed(self)[k] == s[k] { ReversedAt(self, k); }
  }

  lemma {:induction false} FewDigits(m: nat, k: nat)
    requires m < Pow10(k)
    ensures |LowFirst(m)| <= k
    decreases k
  {
    if m > 0 { FewDigits(m / 10, k - 1); }
  }

  function Pow10(k: nat): nat { if k == 0 then 1 else 10 * Pow10(k - 1) }

  /** The digits are written lowest first into a buffer of 32 characters, then reversed. */
  method IntToS(self: Fixnum) returns (s: Option<seq<char>>)
    ensures s == ToS(self)
    ensures if self == -HALF then s == None else s.Some? && Writes(self, s.value)
  {
    hide LowFirst, Writes;
    if self != -HALF { ToSWrites(self); }
    if self == 0 {
      return Some("0");
    }
    var tmp := new char[32];
    var negative := self < 0;
    var n: Fixnum := if negative then Unary(Negate, self) else self;
    ghost var m: nat := Abs(self);
    TenDigits(self);
    var i := 0;
    while n != 0
      invariant i <= |LowFirst(m)| && (self == -HALF ==> n == -HALF && i == 0)
      invariant self != -HALF ==> n >= 0 && LowFirst(m) == tmp[..i] + LowFirst(n)
      decreases Abs(n)
    {
      var d := Remainder(n, 10);
      if d < 0 {
        return None;
      }
      if self != -HALF { LowFirstStep(tmp[..i], n); }
      tmp[i] := CharOf(d);
      n := Quotient(n, 10);
      i := i + 1;
      assert self != -HALF ==> LowFirst(m) == tmp[..i] + LowFirst(n);
    }
    assert tmp[..i] + [] == tmp[..i];
    NoDigits();
    if negative {
      tmp[i] := '-';
      i := i + 1;
      assert tmp[..i] == LowFirst(m) + ['-'];
    }
    var text := Reverse(tmp[..i]);
    s := Some(text);
  }

  lemma TenDigits(self: Fixnum)
    ensures |LowFirst(Abs(self))| <= 10
    ensures self != -HALF && self < 0 ==> Unary(Negate, self) == Abs(self)
    ensures Unary(Negate, -HALF) == -HALF
  {
    assert Pow10(10) == 10_000_000_000;
    FewDigits(Abs(self), 10);
  }

  lemma NoDigits()
    ensures LowFirst(0) == []
  {
  }

  lemma LowFirstStep(done: seq<char>, n: nat)
    ensures n > 0 ==> done + LowFirst(n) == (done + [CharOf(n % 10)]) + LowFirst(n / 10)
    ensures n > 0 ==> |done + LowFirst(n)| > |done| && Remainder(n, 10) == n % 10 && Quotient(n, 10) == n / 10
  {
  }

  lemma WrapStep(a: int, d: int)
    ensures Wrap(Wrap(Wrap(10 * a) + d) * 10) == Wrap(10 * (10 * a + d))
  {
    WrapCongruent(10 * a);
    WrapCongruent(Wrap(10 * a) + d);
    var k :| Wrap(10 * a) == 10 * a + k * MODULUS;
    var j :| Wrap(Wrap(10 * a) + d) == Wrap(10 * a) + d + j * MODULUS;
    assert Wrap(Wrap(10 * a) + d) * 10 == 10 * (10 * a + d) + (10 * k + 10 * j) * MODULUS;
    WrapShift(10 * (10 * a + d), 10 * k + 10 * j);
  }

  lemma WrapCongruent(n: int)
    ensures exists k :: Wrap(n) == n + k * MODULUS
  {
    var u := n % MODULUS;
    assert n == n / MODULUS * MODULUS + u;
    if u < HALF {
      assert Wrap(n) == n + (-(n / MODULUS)) * MODULUS;
    } else {
      assert Wrap(n) == n + (-(n / MODULUS) - 1) * MODULUS;
    }
  }

  lemma WrapShift(n: int, k: int)
    ensures Wrap(n + k * MODULUS) == Wrap(n)
  {
    assert (n + k * MODULUS) % MODULUS == n % MODULUS;
  }

  /** Holds ten times the value while it reads digits. */
  method StringToI(self: seq<char>) returns (r: Fixnum)
    ensures r == ToI(self)
    ensures Reads(self, r)
  {
    hide Reads, Wrap, Quotient;
    ToIReads(self);
    WrapSmall(0);
    NothingRead();
    if |self| == 0 {
      return 0;
    }
    var n: Fixnum := 0;
    var i := 0;
    var sign: Fixnum := 1;
    if self[i] == '+' || self[i] == '-' {
      sign := if self[i] == '-' then -1 else 1;
      i := i + 1;
    }
    ghost var digits, acc: nat := self[i..], 0;
    while i < |self|
      invariant i <= |self| && n == Wrap(10 * acc)
      invariant Value(self[i..], acc) == Value(digits, 0)
    {
      if self[i] < '0' || self[i] > '9' {
        break;
      }
      WrapStep(acc, DigitOf(self[i]));
      n := Wrap(n + DigitOf(self[i]));
      n := Wrap(n * 10);
      assert self[i..][1..] == self[i + 1..];
      acc := 10 * acc + DigitOf(self[i]);
      i := i + 1;
    }
    r := Wrap(Quotient(n, 10) * sign);
  }

  lemma NothingRead()
    ensures ToI([]) == 0
  {
  }

  // ----- there and back -----

  lemma {:induction false} ValueAppend(a: seq<char>, c: char, acc: nat)
    requires IsDigit(c) && forall k | 0 <= k < |a| :: IsDigit(a[k])
    ensures Value(a + [c], acc) == 10 * Value(a, acc) + DigitOf(c)
    decreases |a|
  {
    if a == [] {
      assert a + [c] == [c] && [c][1..] == [];
    } else {
      assert (a + [c])[1..] == a[1..] + [c];
      ValueAppend(a[1..], c, 10 * acc + DigitOf(a[0]));
    }
  }

  lemma {:induction false} DigitsValue(m: nat)
    ensures Value(Reversed(LowFirst(m)), 0) == m
    ensures forall k | 0 <= k < |Reversed(LowFirst(m))| :: IsDigit(Reversed(LowFirst(m))[k])
  {
    if m > 0 {
      DigitsValue(m / 10);
      var low := LowFirst(m);
      assert low[1..] == LowFirst(m / 10);
      ValueAppend(Reversed(LowFirst(m / 10)), CharOf(m % 10), 0);
    }
  }

  lemma SignedDigits(n: Fixnum)
    requires n != 0 && n != -HALF
    ensures var s := ToS(n).value;
            && s != [] && (s[0] == '-' <==> n < 0) && s[0] != '+'
            && Value(if Signed(s) then s[1..] else s, 0) == Abs(n)
  {
    var digits := Reversed(LowFirst(Abs(n)));
    DigitsValue(Abs(n));
    if n < 0 {
      ReversedAppend(LowFirst(Abs(n)), ['-']);
      assert ['-'][1..] == [] && Reversed(['-']) == ['-'];
      assert ToS(n).value == ['-'] + digits;
    } else {
      ReversedAt(LowFirst(n), 0);
    }
  }

  /** Ten times the number must fit: the bound is a tenth of the greatest integer. */
  const LIMIT := 214748364

  /**
   Every integer but the least has a string form, and reading it back gives the integer exactly
   if its magnitude is at most a tenth of the greatest integer.
   */
  lemma RoundTrip(n: Fixnum)
    ensures ToS(n).None? <==> n == -HALF
    ensures n != -HALF ==> (ToI(ToS(n).value) == n <==> -LIMIT <= n <= LIMIT)
  {
    hide Value, LowFirst, Reversed, Wrap;
    if n == 0 {
      ReadZero();
    } else if n != -HALF {
      SignedDigits(n);
      ReadBack(n, ToS(n).value);
    }
  }

  lemma ReadZero()
    ensures ToI("0") == 0
  {
    assert "0"[1..] == [];
  }

  lemma ReadBack(n: Fixnum, s: seq<char>)
    requires s != [] && (s[0] == '-' <==> n < 0) && Value(if Signed(s) then s[1..] else s, 0) == Abs(n)
    ensures ToI(s) == n <==> -LIMIT <= n <= LIMIT
  {
    hide Value, Wrap, Quotient;
    QuotientOfTenfold(Abs(n));
    var q := Quotient(Wrap(10 * Abs(n)), 10);
    WrapSmall(q);
    WrapSmall(-q);
  }

  lemma QuotientOfTenfold(m: nat)
    ensures m <= LIMIT ==> Wrap(10 * m) == 10 * m && Quotient(Wrap(10 * m), 10) == m
    ensures -LIMIT <= Quotient(Wrap(10 * m), 10) <= LIMIT
  {
  }

  /** While the digits of such a number are read, no intermediate value leaves 32 bits. */
  lemma {:induction false} NoOverflow(digits: seq<char>, acc: nat, k: nat)
    requires k < |digits| && Value(digits, acc) <= LIMIT
    requires forall j | 0 <= j < |digits| :: IsDigit(digits[j])
    ensures var before := Value(digits[..k], acc);
            10 * before + DigitOf(digits[k]) < HALF && 10 * (10 * before + DigitOf(digits[k])) < HALF
    decreases k
  {
    if k == 0 {
      assert digits[..0] == [];
      ValueGrows(digits[1..], 10 * acc + DigitOf(digits[0]));
    } else {
      assert digits[..k][1..] == digits[1..][..k - 1];
      NoOverflow(digits[1..], 10 * acc + DigitOf(digits[0]), k - 1);
    }
  }

  lemma {:induction false} ValueGrows(s: seq<char>, acc: nat)
    ensures Value(s, acc) >= acc
    decreases |s|
  {
    if s != [] && IsDigit(s[0]) { ValueGrows(s[1..], 10 * acc + DigitOf(s[0])); }
  }

  // ----- what is read and written, digit by digit -----

  /** Where the digits start: behind an optional sign. */
  function Start(s: seq<char>): nat { if s != [] && (s[0] == '+' || s[0] == '-') then 1 else 0 }

  /** The digits from the start go on up to `k` and no further. */
  ghost predicate DigitsEnd(s: seq<char>, k: nat) {
    && Start(s) <= k <= |s|
    && (forall j | Start(s) <= j < k :: '0' <= s[j] <= '9')
    && (k < |s| ==> s[k] < '0' || '9' < s[k])
  }

  /** The positional sum: each digit times ten to the number of digits behind it. */
  function Positional(digits: seq<char>): int {
    if digits == [] then 0
    else (digits[0] as int - '0' as int) * Pow10(|digits| - 1) + Positional(digits[1..])
  }

  lemma {:induction false} ValueIsPositional(digits: seq<char>, acc: nat)
    requires forall j | 0 <= j < |digits| :: '0' <= digits[j] <= '9'
    ensures Value(digits, acc) == acc * Pow10(|digits|) + Positional(digits)
    decreases |digits|
  {
    if digits != [] {
      var d := DigitOf(digits[0]);
      ValueIsPositional(digits[1..], 10 * acc + d);
      var p := Pow10(|digits| - 1);
      assert (10 * acc + d) * p == acc * (10 * p) + d * p;
    }
  }

  lemma {:induction false} ValueStops(s: seq<char>, k: nat, acc: nat)
    requires k <= |s| && (forall j | 0 <= j < k :: IsDigit(s[j])) && (k < |s| ==> !IsDigit(s[k]))
    ensures Value(s, acc) == Value(s[..k], acc)
    decreases k
  {
    if k > 0 {
      assert s[..k][1..] == s[1..][..k - 1];
      ValueStops(s[1..], k - 1, 10 * acc + DigitOf(s[0]));
    }
  }

  /** Only the sign and the digits right behind it count, whatever follows them. */
  lemma OnlyDigitsCount(s: seq<char>, k: nat)
    requires DigitsEnd(s, k)
    ensures ToI(s) == ToI(s[..k])
  {
    hide Value, Wrap, Quotient;
    var a := Start(s);
    ValueStops(s[a..], k - a, 0);
    assert s[a..][..k - a] == s[..k][a..];
    assert s[0..] == s && s[..k][0..] == s[..k];
    if k == 0 && s != [] { assert !Signed(s); }
  }

  lemma ReadsPositional(s: seq<char>, k: nat)
    requires DigitsEnd(s, k)
    ensures var sum := Positional(s[Start(s)..k]);
            && 0 <= sum && (ToI(s) as int == (if s != [] && s[0] == '-' then -sum else sum) <==> sum <= LIMIT)
            && (k == Start(s) ==> ToI(s) == 0)
  {
    hide Wrap, Quotient;
    var a := Start(s);
    var digits, m := s[a..k], Value(s[a..], 0);
    ValueStops(s[a..], k - a, 0);
    assert s[a..][..k - a] == digits;
    ValueIsPositional(digits, 0);
    assert s[0..] == s;
    QuotientOfTenfold(m);
    WrapSmall(Quotient(Wrap(10 * m), 10));
    WrapSmall(-Quotient(Wrap(10 * m), 10));
  }

  /**
   `r` is the signed positional sum of the digits right behind the sign exactly if that is at most
   a tenth of the greatest integer; zero if there are none.
   */
  ghost predicate Reads(s: seq<char>, r: int) {
    forall k: nat | DigitsEnd(s, k) ::
      var sum := Positional(s[Start(s)..k]);
      && (r == (if s != [] && s[0] == '-' then -sum else sum) <==> sum <= LIMIT)
      && (k == Start(s) ==> r == 0)
  }

  lemma ToIReads(s: seq<char>)
    ensures Reads(s, ToI(s))
  {
    hide ToI, Positional;
    forall k: nat | DigitsEnd(s, k)
      ensures var sum := Positional(s[Start(s)..k]);
              && (ToI(s) as int == (if s != [] && s[0] == '-' then -sum else sum) <==> sum <= LIMIT)
              && (k == Start(s) ==> ToI(s) == 0)
    {
      ReadsPositional(s, k);
    }
  }

  /** The digits end somewhere, and at one place. */
  lemma {:induction false} EndOfDigits(s: seq<char>, from: nat) returns (k: nat)
    requires Start(s) <= from <= |s| && forall j | Start(s) <= j < from :: '0' <= s[j] <= '9'
    ensures DigitsEnd(s, k) && forall j: nat | DigitsEnd(s, j) :: j == k
    decreases |s| - from
  {
    if from < |s| && '0' <= s[from] <= '9' {
      k := EndOfDigits(s, from + 1);
    } else {
      k := from;
      forall j: nat | DigitsEnd(s, j) ensures j == k { assert !(k < j) && !(j < k); }
    }
  }

  /** A string form has a sign only if negative, no needless zero in front, and the number as its positional sum. */
  ghost predicate Writes(n: int, s: seq<char>) {
    var digits := if n < 0 then s[(if s == [] then 0 else 1)..] else s;
    && s != [] && (n < 0 ==> s[0] == '-') && digits != []
    && (forall j | 0 <= j < |digits| :: '0' <= digits[j] <= '9')
    && (digits[0] == '0' ==> |digits| == 1 && n == 0)
    && Positional(digits) == if n < 0 then -n else n
  }

  lemma {:induction false} TopDigit(m: nat)
    requires m > 0
    ensures LowFirst(m) != [] && LowFirst(m)[|LowFirst(m)| - 1] != '0'
  {
    if m >= 10 { TopDigit(m / 10); }
  }

  lemma ToSWrites(n: Fixnum)
    requires n != -HALF
    ensures Writes(n, ToS(n).value)
  {
    hide LowFirst, Reversed, Positional;
    if n == 0 {
      ZeroPositional();
    } else {
      var low := LowFirst(Abs(n));
      var digits := Reversed(low);
      DigitsValue(Abs(n));
      TopDigit(Abs(n));
      ReversedAt(low, 0);
      ValueIsPositional(digits, 0);
      if n < 0 {
        ReversedAppend(low, ['-']);
        OneReversed('-');
        assert ToS(n).value == ['-'] + digits && (['-'] + digits)[1..] == digits;
      }
    }
  }

  lemma ZeroPositional()
    ensures Positional("0") == 0
  {
    assert "0"[1..] == [];
  }

  lemma OneReversed(c: char)
    ensures Reversed([c]) == [c]
  {
    assert [c][1..] == [];
  }
}
