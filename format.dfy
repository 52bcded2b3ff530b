/**
 * The text of the trace file: serialised events joined by commas, the
 * prefix the sink holds between flushes, and what teardown leaves behind
 * (base/tracing.cc, `WriteRecords` and `~Tracer`).
 */
module TraceFormat {
  import opened Options
  import opened TraceEvents
  import opened TraceParsing

  /** The strings `parts` separated by `,`, with no comma after the last one. */
  function Join(parts: seq<string>): string {
    if |parts| == 0 then ""
    else if |parts| == 1 then parts[0]
    else Join(parts[..|parts| - 1]) + "," + parts[|parts| - 1]
  }

  /** The serialisation of each event, in order. */
  function Serialized(es: seq<TraceEvent>): (r: seq<string>)
    ensures |r| == |es|
  {
    seq(|es|, i requires 0 <= i < |es| => ToString(es[i]))
  }

  /** Serialised events separated by `,`. */
  function Records(es: seq<TraceEvent>): string {
    Join(Serialized(es))
  }

  /** What a flush writes first: `[` while nothing has been written, `,` afterwards. */
  function Separator(written: nat): (r: string)
    ensures |r| == 1
    ensures r == "[" <==> written == 0
    ensures written > 0 ==> r == ","
  {
    if written == 0 then "[" else ","
  }

  /** The sink's contents once exactly the events `flushed` have been written. */
  function Opened(flushed: seq<TraceEvent>): string {
    if flushed == [] then "" else "[" + Records(flushed)
  }

  /** The JSON array of all the events, as a well-formed trace file holds it. */
  function Array(es: seq<TraceEvent>): (r: string)
    ensures |r| >= 2 && r[0] == '[' && r[|r| - 1] == ']'
  {
    "[" + Records(es) + "]"
  }

  /**
   * The file as the destructor leaves it, given all events added and how
   * many of them earlier flushes wrote: `[]` when nothing was added, a
   * closed array when the last buffer was not empty, and the array with a
   * dangling `,` before `]` when an earlier flush had emptied the buffer.
   */
  function TeardownOutput(added: seq<TraceEvent>, written: nat): (r: string)
    requires written <= |added|
    ensures added == [] ==> r == "[]"
    ensures 0 < written == |added| ==> r == "[" + Records(added) + ",]"
    ensures written < |added| ==> r == Array(added)
  {
    if 0 < written == |added| then "[" + Records(added) + ",]" else Array(added)
  }

  /** No event name holds a double quote, the one character the serialiser would need to escape. */
  predicate QuoteFree(es: seq<TraceEvent>) {
    forall i :: 0 <= i < |es| ==> '"' !in es[i].name
  }

  /** Two non-empty runs joined one after the other read as one comma-joined run. */
  lemma {:induction false} JoinConcat(a: seq<string>, b: seq<string>)
    requires a != [] && b != []
    ensures Join(a + b) == Join(a) + "," + Join(b)
    decreases |b|
  {
    var ab := a + b;
    assert ab[..|ab| - 1] == a + b[..|b| - 1];
    if |b| > 1 {
      JoinConcat(a, b[..|b| - 1]);
    } else {
      assert a + b[..|b| - 1] == a;
    }
  }

  /** Two non-empty batches of events written one after the other. */
  lemma {:induction false} RecordsConcat(a: seq<TraceEvent>, b: seq<TraceEvent>)
    requires a != [] && b != []
    ensures Records(a + b) == Records(a) + "," + Records(b)
  {
    assert Serialized(a + b) == Serialized(a) + Serialized(b);
    JoinConcat(Serialized(a), Serialized(b));
  }

  /** A run of one event is that event's serialisation. */
  lemma RecordsSingle(e: TraceEvent)
    ensures Records([e]) == ToString(e)
  {
    assert Serialized([e]) == [ToString(e)];
  }

  /** One more event at the end of a non-empty run adds a comma and its serialisation. */
  lemma RecordsSnoc(es: seq<TraceEvent>, e: TraceEvent)
    requires es != []
    ensures Records(es + [e]) == Records(es) + "," + ToString(e)
  {
    RecordsConcat(es, [e]);
    RecordsSingle(e);
  }

  /** The run of the first `i + 1` events extends the run of the first `i`. */
  lemma RecordsStep(es: seq<TraceEvent>, i: nat)
    requires i < |es|
    ensures Records(es[..i + 1]) == Records(es[..i]) + (if i == 0 then "" else ",") + ToString(es[i])
  {
    assert es[..i + 1] == es[..i] + [es[i]];
    if i == 0 {
      assert es[..i + 1] == [es[i]];
      RecordsSingle(es[i]);
      assert Records(es[..i]) == "";
    } else {
      RecordsSnoc(es[..i], es[i]);
    }
  }

  /** The first event of a run, then the rest of the run. */
  lemma {:induction false} RecordsFirst(es: seq<TraceEvent>)
    requires |es| >= 2
    ensures Records(es) == ToString(es[0]) + "," + Records(es[1..])
  {
    assert [es[0]] + es[1..] == es;
    RecordsConcat([es[0]], es[1..]);
    assert Serialized([es[0]]) == [ToString(es[0])];
  }

  /** The separator rule makes later flushes continue the array the first one opened. */
  lemma {:induction false} OpenedExtend(flushed: seq<TraceEvent>, batch: seq<TraceEvent>)
    requires batch != []
    ensures Opened(flushed + batch) == Opened(flushed) + Separator(|flushed|) + Records(batch)
  {
    if flushed == [] {
      assert flushed + batch == batch;
      assert Opened(flushed) == "";
      assert Separator(|flushed|) == "[";
    } else {
      var a, b := Records(flushed), Records(batch);
      assert Records(flushed + batch) == a + "," + b by {
        RecordsConcat(flushed, batch);
      }
      assert Opened(flushed + batch) == "[" + (a + "," + b);
      assert Opened(flushed) == "[" + a;
      assert Separator(|flushed|) == ",";
      assert "[" + (a + "," + b) == "[" + a + "," + b;
    }
  }

  /** A flush of every event past the first `written` leaves the opened array of all of them. */
  lemma FlushAll(added: seq<TraceEvent>, written: nat)
    requires written < |added|
    ensures Opened(added[..written]) + Separator(written) + Records(added[written..]) == Opened(added)
  {
    assert added[..written] + added[written..] == added;
    OpenedExtend(added[..written], added[written..]);
  }

  /** The destructor's last flush and closing bracket, in closed form. */
  lemma {:induction false} TeardownShape(added: seq<TraceEvent>, written: nat)
    requires written <= |added|
    ensures Opened(added[..written]) + Separator(written) + Records(added[written..]) + "]"
         == TeardownOutput(added, written)
  {
    var flushed, buffered := added[..written], added[written..];
    assert flushed + buffered == added;
    if written < |added| {
      OpenedExtend(flushed, buffered);
      assert Opened(added) == "[" + Records(added);
    } else {
      assert buffered == [] && flushed == added;
      assert Records(buffered) == "";
      if written > 0 {
        assert Opened(flushed) == "[" + Records(added);
        assert "[" + Records(added) + "," + "" + "]" == "[" + Records(added) + ",]";
      } else {
        assert added == [];
      }
    }
  }

  lemma PrependTwice(a: seq<TraceEvent>, b: seq<TraceEvent>, o: Option<seq<TraceEvent>>)
    ensures Prepend(a, Prepend(b, o)) == Prepend(a + b, o)
  {
    if o.Some? {
      assert a + (b + o.value) == (a + b) + o.value;
    }
  }

  /** Reading a comma-joined run of events back, followed by whatever `tail` continues it with. */
  lemma {:induction false} RecordsReadBack(es: seq<TraceEvent>, tail: string)
    requires es != [] && QuoteFree(es)
    ensures ParseElements(Records(es) + tail) == Prepend(es, ParseRest(tail))
    decreases |es|
  {
    if |es| == 1 {
      assert [es[0]] == es;
      RecordsSingle(es[0]);
      ElementsStep(es[0], tail);
    } else {
      var rest := es[1..];
      QuoteFreeTail(es);
      RecordsReadBack(rest, tail);
      ReadBackStep(es[0], rest, tail);
      assert [es[0]] + rest == es;
    }
  }

  lemma QuoteFreeTail(es: seq<TraceEvent>)
    requires es != [] && QuoteFree(es)
    ensures '"' !in es[0].name && QuoteFree(es[1..])
  {
    forall i | 0 <= i < |es| - 1 ensures '"' !in es[1..][i].name {
      assert es[1..][i] == es[i + 1];
    }
  }

  /** Reading a run of two or more events: the first event, then the comma and the rest of the run. */
  lemma ReadBackStep(e: TraceEvent, rest: seq<TraceEvent>, tail: string)
    requires rest != [] && '"' !in e.name
    requires ParseElements(Records(rest) + tail) == Prepend(rest, ParseRest(tail))
    ensures ParseElements(Records([e] + rest) + tail) == Prepend([e] + rest, ParseRest(tail))
  {
    var after := "," + (Records(rest) + tail);
    assert Records([e] + rest) + tail == ToString(e) + after by {
      RecordsFirst([e] + rest);
      assert ([e] + rest)[1..] == rest;
    }
    ElementsStep(e, after);
    RestAfterComma(Records(rest) + tail);
    PrependTwice([e], rest, ParseRest(tail));
  }

  lemma {:induction false} RecordsNonEmpty(es: seq<TraceEvent>)
    requires es != []
    ensures |Records(es)| > 0
  {
    if |es| > 1 {
      RecordsFirst(es);
    } else {
      assert Records(es) == ToString(es[0]);
    }
  }

  /**
   * A closed array reads back as exactly the events it was written from,
   * in order: nothing lost, nothing duplicated, nothing reordered.
   */
  lemma {:induction false} ArrayReadBack(es: seq<TraceEvent>)
    requires QuoteFree(es)
    ensures ParseTrace(Array(es)) == Some(es)
  {
    if es != [] {
      var body := Records(es) + "]";
      assert ParseElements(body) == Some(es) by {
        RecordsReadBack(es, "]");
        RestAtEnd();
        assert es + [] == es;
      }
      assert body != "]" by {
        RecordsNonEmpty(es);
      }
      TraceAfterBracket(body);
      assert Array(es) == "[" + body;
    } else {
      assert Array(es) == "[]";
    }
  }

  /** A `,` before the closing bracket makes the file unreadable as an array. */
  lemma {:induction false} TrailingCommaRejected(es: seq<TraceEvent>)
    requires es != [] && QuoteFree(es)
    ensures ParseTrace("[" + Records(es) + ",]") == None
  {
    var body := Records(es) + ",]";
    assert ParseElements(body) == None by {
      RecordsReadBack(es, ",]");
      assert ",]" == "," + "]";
      RestAfterComma("]");
      EndRejected();
    }
    assert body != "]" by {
      RecordsNonEmpty(es);
    }
    TraceAfterBracket(body);
    assert "[" + Records(es) + ",]" == "[" + body;
  }

  /**
   * The destructor's file reads back as every added event, in order,
   * exactly when the buffer it flushes is not empty or nothing was ever
   * added; otherwise it does not read as an array at all.
   */
  lemma {:induction false} TeardownReadBack(added: seq<TraceEvent>, written: nat)
    requires written <= |added| && QuoteFree(added)
    ensures ParseTrace(TeardownOutput(added, written))
         == if 0 < written == |added| then None else Some(added)
  {
    if 0 < written == |added| {
      TrailingCommaRejected(added);
    } else {
      ArrayReadBack(added);
    }
  }
}
