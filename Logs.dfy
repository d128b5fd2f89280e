/** The captured log record and the decimal formatting its time stamp uses. */
module DebugLogs {

  datatype Option<+T> = None | Some(value: T)

  /** Unity's LogType. A C# enum variable can also hold a value outside the
      five named members; `Undefined` stands for every such value alike,
      since the console treats them all the same way. */
  datatype LogType = Error | Assert | Warning | Log | Exception | Undefined

  /** The part of a DateTime that the console shows. */
  datatype TimeOfDay = TimeOfDay(hour: nat, minute: nat, second: nat)

  /** One captured log message; immutable once built. */
  datatype DebugLog = DebugLog(dateTime: TimeOfDay, condition: string, stackTrace: string, logType: LogType)

  predicate IsDigit(c: char) {
    '0' <= c <= '9'
  }

  predicate AllDigits(s: string) {
    forall i :: 0 <= i < |s| ==> IsDigit(s[i])
  }

  function DigitChar(d: nat): (c: char)
    requires d < 10
    ensures IsDigit(c) && c as int - '0' as int == d
  {
    ('0' as int + d) as char
  }

  /** Decimal rendering of a number as C# string interpolation writes an int:
      no sign, no zero padding. */
  function NatToString(n: nat): (s: string)
    ensures |s| >= 1 && AllDigits(s)
    ensures s[0] == '0' <==> n == 0
    ensures n < 10 <==> |s| == 1
  {
    if n < 10 then [DigitChar(n)] else NatToString(n / 10) + [DigitChar(n % 10)]
  }

  /** The number a string of decimal digits denotes. */
  function ParseNat(s: string): nat
    requires AllDigits(s)
  {
    if s == [] then 0 else ParseNat(s[..|s| - 1]) * 10 + (s[|s| - 1] as int - '0' as int)
  }

  /** Reading back the digits NatToString writes gives the number again. */
  lemma {:induction false} NatToStringRoundTrip(n: nat)
    ensures ParseNat(NatToString(n)) == n
  {
    if n >= 10 {
      var s := NatToString(n);
      assert s[..|s| - 1] == NatToString(n / 10);
      NatToStringRoundTrip(n / 10);
    }
  }

  /** Distinct numbers are written as distinct strings. */
  lemma NatToStringInjective(m: nat, n: nat)
    ensures NatToString(m) == NatToString(n) <==> m == n
  {
    NatToStringRoundTrip(m);
    NatToStringRoundTrip(n);
  }
}
