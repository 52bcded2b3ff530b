/**
 * A reader for the text the serialiser writes. It is not part of the
 * recorder; it is the inverse against which the serialiser and the trace
 * writer are stated: whatever they write can be read back as the events
 * that were recorded, in order, each exactly once. The reader spells the
 * keys of the event object itself, so reading back a serialisation also
 * checks the writer's key text and key order.
 */
module TraceParsing {
  import opened Options
  import opened TraceEvents

  /** Consumes `lit` at the front of `s`, character by character. */
  function Expect(lit: string, s: string): (r: Option<string>)
    ensures r.Some? ==> |r.value| == |s| - |lit|
  {
    if lit == [] then Some(s)
    else if s != [] && s[0] == lit[0] then Expect(lit[1..], s[1..])
    else None
  }

  /** Position of the first `c` in `s`, or `|s|` when there is none. */
  function IndexOf(s: string, c: char): (k: nat)
    ensures k <= |s|
  {
    if s == [] then 0
    else if s[0] == c then 0
    else 1 + IndexOf(s[1..], c)
  }

  /** Length of the run of digits at the front of `s`. */
  function DigitRun(s: string): (k: nat)
    ensures k <= |s|
    ensures AllDigits(s[..k])
  {
    if s == [] || !IsDigit(s[0]) then 0
    else
      var k := 1 + DigitRun(s[1..]);
      assert s[..k] == [s[0]] + s[1..][..k - 1];
      k
  }

  /** An unsigned decimal at the front of `s`, and what follows it. */
  function ParseNat(s: string): (r: Option<(nat, string)>)
    ensures r.Some? ==> |r.value.1| < |s|
  {
    var k := DigitRun(s);
    if k == 0 then None else Some((DecimalValue(s[..k]), s[k..]))
  }

  /** A signed decimal as `%lld` writes it. */
  function ParseInt(s: string): (r: Option<(int, string)>)
    ensures r.Some? ==> |r.value.1| < |s|
  {
    if s != [] && s[0] == '-' then
      var p :- ParseNat(s[1..]);
      var magnitude: int := p.0;
      Some((-magnitude, p.1))
    else
      var p :- ParseNat(s);
      Some((p.0 as int, p.1))
  }

  /** The `int` whose `%u` rendering is `u`. */
  function FromUnsigned32(u: nat): (x: Int32)
    requires u < 0x1_0000_0000
    ensures Unsigned32(x) == u
  {
    if u >= 0x8000_0000 then (u - 0x1_0000_0000) as Int32 else u as Int32
  }

  /** The name: everything up to the next double quote, which stays in the rest. */
  function ParseName(s: string): (r: Option<(string, string)>)
    ensures r.Some? ==> |r.value.1| <= |s|
  {
    var k := IndexOf(s, '"');
    if k == |s| then None else Some((s[..k], s[k..]))
  }

  /** The phase: the `ph` key and the one character after it. */
  function ParsePhase(s: string): (r: Option<(char, string)>)
    ensures r.Some? ==> |r.value.1| < |s|
  {
    var s1 :- Expect("\", \"ph\": \"", s);
    if s1 == [] then None else Some((s1[0], s1[1..]))
  }

  /** The timestamp: the `ts` key and a signed 64-bit decimal. */
  function ParseTimestamp(s: string): (r: Option<(Int64, string)>)
    ensures r.Some? ==> |r.value.1| < |s|
  {
    var s1 :- Expect("\", \"ts\": ", s);
    var ts :- ParseInt(s1);
    if -0x8000_0000_0000_0000 <= ts.0 < 0x8000_0000_0000_0000 then Some((ts.0 as Int64, ts.1)) else None
  }

  /** A process or thread id: `key` and an unsigned 32-bit decimal. */
  function ParseId(key: string, s: string): (r: Option<(Int32, string)>)
    ensures r.Some? ==> |r.value.1| < |s|
  {
    var s1 :- Expect(key, s);
    var id :- ParseNat(s1);
    if id.0 < 0x1_0000_0000 then Some((FromUnsigned32(id.0), id.1)) else None
  }

  /** One event object at the front of `s`, and what follows it. */
  function ParseEvent(s: string): (r: Option<(TraceEvent, string)>)
    ensures r.Some? ==> |r.value.1| < |s|
  {
    var s1 :- Expect("{\"name\": \"", s);
    var name :- ParseName(s1);
    var ph :- ParsePhase(name.1);
    var ts :- ParseTimestamp(ph.1);
    var pid :- ParseId(", \"pid\": ", ts.1);
    var tid :- ParseId(", \"tid\": ", pid.1);
    var s2 :- Expect("}", tid.1);
    Some((TraceEvent(name.0, ph.0, ts.0, pid.0, tid.0), s2))
  }

  /** What may follow an element of the array: `]` ends it, `,` continues it. */
  function ParseRest(s: string): Option<seq<TraceEvent>>
    decreases |s|, 0
  {
    if s == "]" then Some([])
    else if s != [] && s[0] == ',' then ParseElements(s[1..])
    else None
  }

  /** One or more comma-separated event objects followed by `]`. */
  function ParseElements(s: string): Option<seq<TraceEvent>>
    decreases |s|, 1
  {
    var p :- ParseEvent(s);
    var tail :- ParseRest(p.1);
    Some([p.0] + tail)
  }

  /** A whole trace file: `[` followed by `]` or by elements. */
  function ParseTrace(s: string): Option<seq<TraceEvent>> {
    if s == "[]" then Some([])
    else if s != [] && s[0] == '[' then ParseElements(s[1..])
    else None
  }

  lemma DigitRunOf(d: string, rest: string)
    requires AllDigits(d)
    requires rest == [] || !IsDigit(rest[0])
    ensures DigitRun(d + rest) == |d|
  {
    if d != [] {
      assert (d + rest)[1..] == d[1..] + rest;
      DigitRunOf(d[1..], rest);
    }
  }

  /** `%u` digits followed by a non-digit are read back as the same number. */
  lemma ParseNatRoundTrip(n: nat, rest: string)
    requires rest == [] || !IsDigit(rest[0])
    ensures ParseNat(NatToDecimal(n) + rest) == Some((n, rest))
  {
    var d := NatToDecimal(n);
    DecimalRoundTrip(n);
    DigitRunOf(d, rest);
    assert (d + rest)[..|d|] == d;
    assert (d + rest)[|d|..] == rest;
  }

  /** `%lld` output followed by a non-digit is read back as the same number. */
  lemma ParseIntRoundTrip(x: int, rest: string)
    requires rest == [] || !IsDigit(rest[0])
    ensures ParseInt(IntToDecimal(x) + rest) == Some((x, rest))
  {
    var s := IntToDecimal(x) + rest;
    if x < 0 {
      var d := NatToDecimal(-x);
      assert s[0] == '-' && s[1..] == d + rest by {
        assert s == "-" + (d + rest);
      }
      assert ParseNat(s[1..]) == Some((-x, rest)) by {
        ParseNatRoundTrip(-x, rest);
      }
    } else {
      var d := NatToDecimal(x);
      assert s == d + rest;
      assert !(s[0] == '-') by {
        DecimalCanonical(x);
        assert IsDigit(d[0]);
      }
      assert ParseNat(s) == Some((x, rest)) by {
        ParseNatRoundTrip(x, rest);
      }
    }
  }

  lemma IndexOfName(name: string, rest: string)
    requires '"' !in name
    requires rest != [] && rest[0] == '"'
    ensures IndexOf(name + rest, '"') == |name|
  {
    if name != [] {
      assert (name + rest)[1..] == name[1..] + rest;
      IndexOfName(name[1..], rest);
    }
  }

  lemma ParseIdRoundTrip(key: string, x: Int32, rest: string)
    requires rest == [] || !IsDigit(rest[0])
    ensures ParseId(key, key + (NatToDecimal(Unsigned32(x)) + rest)) == Some((x, rest))
  {
    Unsigned32Range(x);
    ExpectRoundTrip(key, NatToDecimal(Unsigned32(x)) + rest);
    ParseNatRoundTrip(Unsigned32(x), rest);
    var y := FromUnsigned32(Unsigned32(x));
    assert Unsigned32(y) == Unsigned32(x);
  }

  lemma ConcatOnto(parts: seq<string>, rest: string)
    requires parts != []
    ensures Concat(parts) + rest == parts[0] + (Concat(parts[1..]) + rest)
  {
  }

  /** The serialisation from piece `k` on, followed by `rest`, peeled one piece at a time. */
  lemma Peel(p: seq<string>, k: nat, rest: string)
    requires k < |p|
    ensures Concat(p[k..]) + rest == p[k] + (Concat(p[k + 1..]) + rest)
  {
    ConcatOnto(p[k..], rest);
    assert p[k..][1..] == p[k + 1..];
  }

  lemma ParseNameRoundTrip(name: string, rest: string)
    requires '"' !in name
    requires rest != [] && rest[0] == '"'
    ensures ParseName(name + rest) == Some((name, rest))
  {
    IndexOfName(name, rest);
    assert (name + rest)[..|name|] == name && (name + rest)[|name|..] == rest;
  }

  lemma ExpectRoundTrip(lit: string, rest: string)
    ensures Expect(lit, lit + rest) == Some(rest)
  {
    if lit != [] {
      assert (lit + rest)[0] == lit[0];
      assert (lit + rest)[1..] == lit[1..] + rest;
      ExpectRoundTrip(lit[1..], rest);
    } else {
      assert lit + rest == rest;
    }
  }

  lemma ParsePhaseRoundTrip(ph: char, rest: string)
    ensures ParsePhase(PhKey + ([ph] + rest)) == Some((ph, rest))
  {
    ExpectRoundTrip(PhKey, [ph] + rest);
    assert ([ph] + rest)[1..] == rest;
  }

  lemma ParseTimestampRoundTrip(ts: Int64, rest: string)
    requires rest == [] || !IsDigit(rest[0])
    ensures ParseTimestamp(TsKey + (IntToDecimal(ts as int) + rest)) == Some((ts, rest))
  {
    ExpectRoundTrip(TsKey, IntToDecimal(ts as int) + rest);
    ParseIntRoundTrip(ts as int, rest);
  }

  /** Eleven concatenated pieces followed by `rest`, cut after the first, second, fourth, sixth, eighth and tenth piece. */
  lemma Split(p: seq<string>, rest: string) returns (s1: string, s2: string, s4: string, s6: string, s8: string, s10: string)
    requires |p| == 11
    ensures Concat(p) + rest == p[0] + s1
    ensures s1 == p[1] + s2
    ensures s2 == p[2] + (p[3] + s4)
    ensures s4 == p[4] + (p[5] + s6)
    ensures s6 == p[6] + (p[7] + s8)
    ensures s8 == p[8] + (p[9] + s10)
    ensures s10 == p[10] + rest
  {
    s1, s2, s4 := Concat(p[1..]) + rest, Concat(p[2..]) + rest, Concat(p[4..]) + rest;
    s6, s8, s10 := Concat(p[6..]) + rest, Concat(p[8..]) + rest, Concat(p[10..]) + rest;
    assert Concat(p) + rest == p[0] + s1 by {
      ConcatOnto(p, rest);
    }
    assert s1 == p[1] + s2 by { Peel(p, 1, rest); }
    assert s2 == p[2] + (p[3] + s4) by { Peel(p, 2, rest); Peel(p, 3, rest); }
    assert s4 == p[4] + (p[5] + s6) by { Peel(p, 4, rest); Peel(p, 5, rest); }
    assert s6 == p[6] + (p[7] + s8) by { Peel(p, 6, rest); Peel(p, 7, rest); }
    assert s8 == p[8] + (p[9] + s10) by { Peel(p, 8, rest); Peel(p, 9, rest); }
    assert s10 == p[10] + rest by {
      Peel(p, 10, rest);
      assert p[11..] == [];
    }
  }

  /** The serialisation followed by `rest`, cut where the reader cuts it. */
  lemma Layout(e: TraceEvent, rest: string) returns (s1: string, s2: string, s4: string, s6: string, s8: string, s10: string)
    ensures ToString(e) + rest == NameKey + s1
    ensures s1 == e.name + s2
    ensures s2 == PhKey + ([e.ph] + s4)
    ensures s4 == TsKey + (IntToDecimal(e.ts as int) + s6)
    ensures s6 == PidKey + (NatToDecimal(Unsigned32(e.pid)) + s8)
    ensures s8 == TidKey + (NatToDecimal(Unsigned32(e.tid)) + s10)
    ensures s10 == Close + rest
  {
    s1, s2, s4, s6, s8, s10 := Split(Pieces(e), rest);
  }

  /**
   * An event whose name holds no double quote is read back exactly from
   * its serialisation, whatever text follows it: the serialisation loses
   * no field and no two such events serialise alike.
   */
  lemma EventRoundTrip(e: TraceEvent, rest: string)
    requires '"' !in e.name
    ensures ParseEvent(ToString(e) + rest) == Some((e, rest))
  {
    var s1, s2, s4, s6, s8, s10 := Layout(e, rest);
    ExpectRoundTrip(NameKey, s1);
    ParseNameRoundTrip(e.name, s2);
    ParsePhaseRoundTrip(e.ph, s4);
    ParseTimestampRoundTrip(e.ts, s6);
    ParseIdRoundTrip(PidKey, e.pid, s8);
    ParseIdRoundTrip(TidKey, e.tid, s10);
    ExpectRoundTrip(Close, rest);
    ParseEventFields(e, ToString(e) + rest, s1, s2, s4, s6, s8, s10, rest);
  }

  /** `ParseEvent` chains its field readers: when each reads its field, the event is read. */
  lemma ParseEventFields(e: TraceEvent, s0: string, s1: string, s2: string, s4: string,
                         s6: string, s8: string, s10: string, rest: string)
    requires Expect("{\"name\": \"", s0) == Some(s1)
    requires ParseName(s1) == Some((e.name, s2))
    requires ParsePhase(s2) == Some((e.ph, s4))
    requires ParseTimestamp(s4) == Some((e.ts, s6))
    requires ParseId(", \"pid\": ", s6) == Some((e.pid, s8))
    requires ParseId(", \"tid\": ", s8) == Some((e.tid, s10))
    requires Expect("}", s10) == Some(rest)
    ensures ParseEvent(s0) == Some((e, rest))
  {
  }

  function Prepend(es: seq<TraceEvent>, o: Option<seq<TraceEvent>>): Option<seq<TraceEvent>> {
    if o.None? then None else Some(es + o.value)
  }

  /** One serialised event at the front of an element list. */
  lemma ElementsStep(e: TraceEvent, rest: string)
    requires '"' !in e.name
    ensures ParseElements(ToString(e) + rest) == Prepend([e], ParseRest(rest))
  {
    EventRoundTrip(e, rest);
  }

  lemma RestAfterComma(s: string)
    ensures ParseRest("," + s) == ParseElements(s)
  {
    assert ("," + s)[1..] == s;
  }

  lemma TraceAfterBracket(s: string)
    requires s != "]"
    ensures ParseTrace("[" + s) == ParseElements(s)
  {
    assert ("[" + s)[1..] == s;
    assert "[]"[1..] == "]";
  }

  lemma RestAtEnd()
    ensures ParseRest("]") == Some([])
  {
  }

  lemma EndRejected()
    ensures ParseElements("]") == None
  {
    assert "]"[0] != NameKey[0];
  }
}
