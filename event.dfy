/**
 * A single trace event and its one-line JSON serialisation
 * (`struct TraceEvent` in base/tracing.h, its constructor and `ToString`
 * in base/tracing.cc).
 */
module TraceEvents {

  /** C++ `int`, the type of `pid` and `tid`. */
  newtype Int32 = x: int | -0x8000_0000 <= x < 0x8000_0000

  /** C++ `int64_t`, the type of `ts`. */
  newtype Int64 = x: int | -0x8000_0000_0000_0000 <= x < 0x8000_0000_0000_0000

  /** The five fields of an event, in declaration order. */
  datatype TraceEvent = TraceEvent(name: string, ph: char, ts: Int64, pid: Int32, tid: Int32)

  /** The characters of a C string: everything before the first NUL. */
  function CString(buffer: seq<char>): (s: string)
    requires '\0' in buffer
    ensures '\0' !in s
    ensures s + ['\0'] <= buffer
  {
    if buffer[0] == '\0' then [] else [buffer[0]] + CString(buffer[1..])
  }

  /**
   * The event constructor. The clock reading, the process id and the
   * thread id are what the constructor reads at that instant; they are
   * parameters here and are captured once, in the value returned.
   */
  function MakeEvent(name: seq<char>, phase: char, now: Int64, pid: Int32, tid: Int32): (e: TraceEvent)
    requires '\0' in name
    ensures '\0' !in e.name && e.name + ['\0'] <= name
    ensures e.ph == phase && e.ts == now && e.pid == pid && e.tid == tid
  {
    TraceEvent(CString(name), phase, now, pid, tid)
  }

  predicate IsDigit(c: char) {
    '0' <= c <= '9'
  }

  predicate AllDigits(s: string) {
    forall i :: 0 <= i < |s| ==> IsDigit(s[i])
  }

  function DigitChar(d: nat): (c: char)
    requires d < 10
    ensures IsDigit(c) && c as int - '0' as int == d
  {
    ('0' as int + d) as char
  }

  /** The value of a string of decimal digits, most significant first. */
  function DecimalValue(s: string): nat
    requires AllDigits(s)
  {
    if s == [] then 0
    else DecimalValue(s[..|s| - 1]) * 10 + (s[|s| - 1] as int - '0' as int)
  }

  /** `%u`/`%lld` digits of a non-negative number. */
  function NatToDecimal(n: nat): (s: string)
    ensures |s| >= 1
  {
    if n < 10 then [DigitChar(n)] else NatToDecimal(n / 10) + [DigitChar(n % 10)]
  }

  /** The digits carry no sign and no leading zero: `0` is the only numeral that starts with `0`. */
  lemma {:induction false} DecimalCanonical(n: nat)
    ensures AllDigits(NatToDecimal(n))
    ensures NatToDecimal(n)[0] == '0' <==> n == 0
  {
    if n >= 10 {
      DecimalCanonical(n / 10);
      var s := NatToDecimal(n);
      assert s[..|s| - 1] == NatToDecimal(n / 10);
    }
  }

  /** Reading the digits back gives the number that was formatted. */
  lemma {:induction false} DecimalRoundTrip(n: nat)
    ensures AllDigits(NatToDecimal(n))
    ensures DecimalValue(NatToDecimal(n)) == n
  {
    DecimalCanonical(n);
    if n >= 10 {
      var s := NatToDecimal(n);
      assert s[..|s| - 1] == NatToDecimal(n / 10);
      DecimalRoundTrip(n / 10);
    }
  }

  /** `%lld`: a minus sign before the digits of a negative value. */
  function IntToDecimal(x: int): string {
    if x < 0 then "-" + NatToDecimal(-x) else NatToDecimal(x)
  }

  /** The sign shows exactly when the value is negative. */
  lemma IntToDecimalSign(x: int)
    ensures |IntToDecimal(x)| >= 1
    ensures IntToDecimal(x)[0] == '-' <==> x < 0
  {
    DecimalCanonical(if x < 0 then -x else x);
  }

  /** `%u` applied to an `int`: the value reinterpreted as a 32-bit unsigned number. */
  function Unsigned32(x: Int32): nat {
    if x < 0 then x as int + 0x1_0000_0000 else x as int
  }

  /** The unsigned rendering is the value modulo 2^32, unchanged when non-negative. */
  lemma Unsigned32Range(x: Int32)
    ensures Unsigned32(x) < 0x1_0000_0000
    ensures (Unsigned32(x) - x as int) % 0x1_0000_0000 == 0
    ensures x >= 0 ==> Unsigned32(x) == x as int
  {
  }

  const NameKey: string := "{\"name\": \""
  const PhKey: string := "\", \"ph\": \""
  const TsKey: string := "\", \"ts\": "
  const PidKey: string := ", \"pid\": "
  const TidKey: string := ", \"tid\": "
  const Close: string := "}"

  /** Strings written one after another. */
  function Concat(parts: seq<string>): string {
    if parts == [] then "" else parts[0] + Concat(parts[1..])
  }

  /** The literal pieces of the format string and the formatted fields, in output order. */
  function Pieces(e: TraceEvent): seq<string> {
    [NameKey, e.name, PhKey, [e.ph], TsKey, IntToDecimal(e.ts as int),
     PidKey, NatToDecimal(Unsigned32(e.pid)), TidKey, NatToDecimal(Unsigned32(e.tid)), Close]
  }

  /**
   * The JSON object for one event: keys `name, ph, ts, pid, tid` in that
   * order, the name inserted verbatim (no escaping), `ph` a one-character
   * string, `ts` signed, `pid` and `tid` unsigned.
   */
  function ToString(e: TraceEvent): string {
    Concat(Pieces(e))
  }
}
