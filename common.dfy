/** Small value types shared by every module of the model. */
module Common {

  datatype Option<+T> = None | Some(value: T)

  /** A millisecond timestamp; the clock is always a parameter of the model. */
  type Timestamp = int

  /** JavaScript truthiness of a possibly-undefined string: defined and not empty. */
  predicate Truthy(o: Option<string>)
  {
    o.Some? && o.value != ""
  }

  /** `a || b` on possibly-undefined strings, as JavaScript evaluates it. */
  function OrElse(a: Option<string>, b: Option<string>): (r: Option<string>)
    ensures Truthy(a) ==> r == a
    ensures !Truthy(a) ==> r == b
    ensures Truthy(r) <==> Truthy(a) || Truthy(b)
  {
    if Truthy(a) then a else b
  }

  /** `s.includes(sub)`. */
  predicate Contains(s: string, sub: string)
  {
    exists i :: 0 <= i <= |s| - |sub| && OccursAt(s, sub, i)
  }

  predicate OccursAt(s: string, sub: string, i: int)
    requires 0 <= i <= |s| - |sub|
  {
    s[i..i + |sub|] == sub
  }

  /** `s.startsWith(p)`. */
  predicate StartsWith(s: string, p: string)
  {
    |p| <= |s| && s[..|p|] == p
  }

  predicate IsDigit(c: char)
  {
    '0' <= c <= '9'
  }

  /** `[a-zA-Z0-9]`, the alphabet of Joi's `alphanum()` rule. */
  predicate IsAlnum(c: char)
  {
    IsDigit(c) || 'a' <= c <= 'z' || 'A' <= c <= 'Z'
  }

  /** Decimal rendering of a number, as `n.toString()` gives it. */
  function NatToString(n: nat): (r: string)
    ensures |r| > 0
    ensures forall i :: 0 <= i < |r| ==> IsDigit(r[i])
    ensures (r[0] == '0') <==> n == 0
    decreases n
  {
    if n < 10 then [Digit(n)] else NatToString(n / 10) + [Digit(n % 10)]
  }

  /** `n.toString()` for any integer. */
  function IntToString(n: int): string
  {
    if n < 0 then "-" + NatToString(-n) else NatToString(n)
  }

  function Digit(d: nat): (c: char)
    requires d < 10
    ensures IsDigit(c) && (c == '0' <==> d == 0)
  {
    ['0', '1', '2', '3', '4', '5', '6', '7', '8', '9'][d]
  }

  lemma DigitInjective(a: nat, b: nat)
    requires a < 10 && b < 10 && Digit(a) == Digit(b)
    ensures a == b
  {
  }

  /** Distinct numbers render to distinct decimal strings. */
  lemma {:induction false} NatToStringInjective(a: nat, b: nat)
    requires NatToString(a) == NatToString(b)
    ensures a == b
    decreases a
  {
    var ra, rb := NatToString(a), NatToString(b);
    if a < 10 && b < 10 {
      DigitInjective(a, b);
    } else if a >= 10 && b >= 10 {
      var pa, pb := NatToString(a / 10), NatToString(b / 10);
      assert ra == pa + [Digit(a % 10)];
      assert rb == pb + [Digit(b % 10)];
      assert pa == ra[..|ra| - 1] && pb == rb[..|rb| - 1];
      NatToStringInjective(a / 10, b / 10);
      DigitInjective(a % 10, b % 10);
    }
  }

  lemma IntToStringInjective(a: int, b: int)
    requires IntToString(a) == IntToString(b)
    ensures a == b
  {
    IntToStringSign(a);
    IntToStringSign(b);
    if a < 0 && b < 0 {
      NegativeToStringInjective(a, b);
    } else if a >= 0 && b >= 0 {
      NatToStringInjective(a, b);
    }
  }

  lemma NegativeToStringInjective(a: int, b: int)
    requires a < 0 && b < 0 && IntToString(a) == IntToString(b)
    ensures a == b
  {
    var x, y := NatToString(-a), NatToString(-b);
    assert "-" + x == "-" + y;
    DropSign(x);
    DropSign(y);
    NatToStringInjective(-a, -b);
  }

  lemma DropSign(x: string)
    ensures ("-" + x)[1..] == x
  {
  }

  /** Only a negative number's text starts with a minus sign. */
  lemma IntToStringSign(n: int)
    ensures |IntToString(n)| > 0 && (IntToString(n)[0] == '-' <==> n < 0)
  {
    if n >= 0 {
      assert IsDigit(NatToString(n)[0]);
    }
  }
}
