/**
 * The annotation macros of base/tracing.h: `TRACE_EVENT`, which records
 * one event when the enable flag is set, and `ScopedTraceEvent`, which
 * records a begin event when a scope opens and an end event under the
 * same name when it closes. The flag, the clock, the process id and the
 * thread id are read at each call; here they are one `Moment` per call.
 * The process-wide singleton is the `Tracer` passed in.
 */
module TraceMacros {
  import opened TraceEvents
  import opened Tracing

  /** What a macro call reads from its surroundings at the instant it runs. */
  datatype Moment = Moment(enabled: bool, now: Int64, pid: Int32, tid: Int32)

  /** The events one `TRACE_EVENT(name, phase)` call adds: one event when enabled, none otherwise. */
  function Emission(name: seq<char>, phase: char, at: Moment): (r: seq<TraceEvent>)
    requires '\0' in name
    ensures |r| == (if at.enabled then 1 else 0)
    ensures at.enabled ==> r[0].name + ['\0'] <= name && '\0' !in r[0].name
    ensures at.enabled ==> r[0].ph == phase && r[0].ts == at.now && r[0].pid == at.pid && r[0].tid == at.tid
  {
    if at.enabled then [MakeEvent(name, phase, at.now, at.pid, at.tid)] else []
  }

  /**
   * `TRACE_EVENT(name, phase)`: when the flag is set, builds the event and
   * hands it to the recorder; when it is not, touches nothing.
   */
  method Trace(tracer: Tracer, name: seq<char>, phase: char, at: Moment)
    requires tracer.Valid() && '\0' in name
    modifies tracer
    ensures tracer.Valid()
    ensures tracer.added == old(tracer.added) + Emission(name, phase, at)
    ensures !at.enabled ==> unchanged(tracer)
  {
    if at.enabled {
      tracer.AddEvent(MakeEvent(name, phase, at.now, at.pid, at.tid));
    }
  }

  /**
   * The caller's character buffer that a `const char *` points into. Its
   * contents can change while a pointer to it is held.
   */
  class CharBuffer {
    var chars: seq<char>

    constructor (chars: seq<char>)
      ensures this.chars == chars
    {
      this.chars := chars;
    }
  }

  /**
   * `ScopedTraceEvent`: keeps the pointer it was given, records `B` under
   * the name the buffer holds when built, and `E` under the name the same
   * buffer holds when the scope ends.
   */
  class ScopedTraceEvent {
    const name: CharBuffer

    constructor (tracer: Tracer, name: CharBuffer, at: Moment)
      requires tracer.Valid() && '\0' in name.chars
      modifies tracer
      ensures this.name == name
      ensures tracer.Valid()
      ensures tracer.added == old(tracer.added) + Emission(name.chars, 'B', at)
    {
      this.name := name;
      new;
      Trace(tracer, name.chars, 'B', at);
    }

    /** The destructor, run when the enclosing scope is left; it reads the buffer again. */
    method End(tracer: Tracer, at: Moment)
      requires tracer.Valid() && '\0' in name.chars
      modifies tracer
      ensures tracer.Valid()
      ensures tracer.added == old(tracer.added) + Emission(name.chars, 'E', at)
    {
      Trace(tracer, name.chars, 'E', at);
    }
  }

  /**
   * With the flag set at both ends, a scope whose body added `inner`
   * leaves the begin event, then `inner`, then an end event. The begin
   * event carries the name the buffer held at construction (`opening`) and
   * the end event the name it holds at scope exit (`closing`): the two
   * names agree exactly when those C strings agree, and so always when the
   * buffer was left alone, as with the string literals `SCOPED_TRACE` takes.
   */
  lemma ScopeBracketed(before: seq<TraceEvent>, opening: seq<char>, enter: Moment, inner: seq<TraceEvent>,
                       closing: seq<char>, leave: Moment)
    requires '\0' in opening && '\0' in closing && enter.enabled && leave.enabled
    ensures var all := before + Emission(opening, 'B', enter) + inner + Emission(closing, 'E', leave);
      && |all| == |before| + |inner| + 2
      && all[|before|].ph == 'B' && all[|all| - 1].ph == 'E'
      && all[|before|].name == CString(opening) && all[|all| - 1].name == CString(closing)
      && (all[|before|].name == all[|all| - 1].name <==> CString(opening) == CString(closing))
      && (opening == closing ==> all[|before|].name == all[|all| - 1].name)
      && all[|before| + 1..|all| - 1] == inner
  {
    var b, e := Emission(opening, 'B', enter), Emission(closing, 'E', leave);
    var all := before + b + inner + e;
    assert all[|before|] == b[0];
    assert all[|all| - 1] == e[0];
    assert all[|before| + 1..|all| - 1] == inner;
  }
}
