/** Vocabulary shared by every part of the model: C# nullable references, the
    two ways a call can end (it returns or it throws), instants of time, and
    the few `System.String` helpers the code relies on. */
module Common {

  /** A C# reference (or `Nullable<T>` value) that may be null. */
  datatype Option<+T> = None | Some(value: T)

  /** How a call that produces a value ends: it returns one, or it throws. */
  datatype Outcome<+T> = Returned(value: T) | Threw

  /** How an awaited `Task` without a result ends. */
  datatype Status = Succeeded | Faulted

  /** A `DateTime` (UTC), counted in ticks of 100 nanoseconds. */
  type Instant = int

  const TicksPerDay: int := 864_000_000_000

  /** String interpolation (`$"...{s}..."`) renders a null string as "". */
  function Interpolate(s: Option<string>): string
  {
    if s.Some? then s.value else ""
  }

  /** `char.IsWhiteSpace`: the Unicode space, line and paragraph separators
      and the control characters U+0009..U+000D and U+0085. */
  predicate IsWhiteSpace(c: char)
  {
    var n := c as int;
    || n == 0x20 || 0x09 <= n <= 0x0D || n == 0x85 || n == 0xA0 || n == 0x1680
    || 0x2000 <= n <= 0x200A || n == 0x2028 || n == 0x2029 || n == 0x202F
    || n == 0x205F || n == 0x3000
  }

  /** True when every character of `s` is white space (scanning left to right). */
  function AllWhiteSpace(s: string): (r: bool)
    ensures r <==> forall i :: 0 <= i < |s| ==> IsWhiteSpace(s[i])
  {
    if s == [] then true
    else if !IsWhiteSpace(s[0]) then false
    else AllWhiteSpace(s[1..])
  }

  /** `string.IsNullOrWhiteSpace`. */
  function IsNullOrWhiteSpace(s: Option<string>): (r: bool)
    ensures r <==> (s.None? || forall i :: 0 <= i < |s.value| ==> IsWhiteSpace(s.value[i]))
  {
    s.None? || AllWhiteSpace(s.value)
  }

  function DigitChar(d: int): (c: char)
    requires 0 <= d < 10
    ensures '0' <= c <= '9' && DigitValue(c) == d
  {
    ('0' as int + d) as char
  }

  /** Decimal digits of a natural number, most significant first. */
  function NatToString(n: nat): (r: string)
    ensures |r| >= 1
    ensures forall i :: 0 <= i < |r| ==> '0' <= r[i] <= '9'
    ensures |r| > 1 ==> r[0] != '0'
  {
    if n < 10 then [DigitChar(n)] else NatToString(n / 10) + [DigitChar(n % 10)]
  }

  /** `int.ToString()`: a leading '-' for negative numbers, then the digits. */
  function IntToString(n: int): string
  {
    if n < 0 then "-" + NatToString(-n) else NatToString(n)
  }

  function DigitValue(c: char): int
  {
    if '0' <= c <= '9' then c as int - '0' as int else 0
  }

  /** Reads back a string of decimal digits: the inverse of `NatToString`. */
  function ParseDigits(s: string): int
  {
    if s == [] then 0 else ParseDigits(s[..|s| - 1]) * 10 + DigitValue(s[|s| - 1])
  }

  /** Reads back the text `IntToString` produces. */
  function ParseInt(s: string): int
  {
    if |s| > 0 && s[0] == '-' then - ParseDigits(s[1..]) else ParseDigits(s)
  }

  lemma {:induction false} NatToStringRoundTrip(n: nat)
    ensures ParseDigits(NatToString(n)) == n
  {
    if n >= 10 {
      NatToStringRoundTrip(n / 10);
      var prefix, last := NatToString(n / 10), DigitChar(n % 10);
      var s := prefix + [last];
      assert s[..|s| - 1] == prefix && s[|s| - 1] == last;
      assert NatToString(n) == s;
    }
  }

  /** Decimal rendering is injective: the text names the number. */
  lemma {:induction false} IntToStringRoundTrip(n: int)
    ensures ParseInt(IntToString(n)) == n
  {
    if n < 0 {
      var digits := NatToString(-n);
      NatToStringRoundTrip(-n);
      var s := "-" + digits;
      assert s[0] == '-' && s[1..] == digits;
      assert IntToString(n) == s;
    } else {
      var digits := NatToString(n);
      NatToStringRoundTrip(n);
      assert '0' <= digits[0] <= '9';
      assert IntToString(n) == digits;
    }
  }
}
