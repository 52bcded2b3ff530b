/**
 * The buffered recorder (`class Tracer` in base/tracing.h and its members
 * in base/tracing.cc). Every `AddEvent` runs under one lock, so a run with
 * many threads is some sequence of whole `AddEvent` calls; the class below
 * is that sequential object. The output file is the string `out`, which
 * the recorder only ever appends to.
 */
module Tracing {
  import opened TraceEvents
  import opened TraceFormat

  /**
   * The buffer size at which `AddEvent` flushes. The source compares the
   * buffer size after the push with `capacity` using `>=`, so a capacity
   * of 0 flushes on every event, exactly like a capacity of 1.
   */
  function Threshold(capacity: nat): nat {
    if capacity == 0 then 1 else capacity
  }

  /**
   * After `n` events, `flushes` full buffers of `t` events each and a
   * partial buffer of fewer than `t`: there have been `n / t` flushes and
   * `n % t` events wait in the buffer.
   */
  lemma BufferLevel(n: nat, flushes: nat, buffered: nat, t: nat)
    requires t >= 1 && buffered < t && n == flushes * t + buffered
    ensures flushes == n / t && buffered == n % t
  {
    var q, r := n / t, n % t;
    assert n == q * t + r;
    assert (flushes - q) * t == r - buffered;
    if flushes > q {
      MultipleAtLeast(flushes - q, t);
    } else if flushes < q {
      MultipleAtLeast(q - flushes, t);
    }
  }

  /** A positive multiple of `t` is at least `t`; kept apart so the solver's nonlinear step stays small. */
  lemma MultipleAtLeast(k: int, t: nat)
    requires k >= 1
    ensures k * t >= t
  {
  }

  /** One more flush adds one more threshold; kept apart for the same reason. */
  lemma NextMultiple(k: nat, t: nat)
    ensures (k + 1) * t == k * t + t
  {
  }

  /** The comma the write loop has put after its last event, if another follows. */
  function Gap(i: nat, n: nat): string {
    if 0 < i < n then "," else ""
  }

  /** One turn of the write loop: the next event, then a comma unless it is the last. */
  lemma WriteStep(es: seq<TraceEvent>, i: nat, start: string, out: string)
    requires i < |es|
    requires out == start + Records(es[..i]) + Gap(i, |es|)
    ensures out + ToString(es[i]) + (if i != |es| - 1 then "," else "")
         == start + Records(es[..i + 1]) + Gap(i + 1, |es|)
  {
    RecordsStep(es, i);
    assert Gap(i, |es|) == (if i == 0 then "" else ",");
    assert out + ToString(es[i]) == start + (Records(es[..i]) + Gap(i, |es|) + ToString(es[i]));
  }

  /**
   * The recorder's state between calls, on plain values: the written
   * events followed by the buffered ones are exactly the events added, in
   * order; the file holds the opened array of the written ones; the buffer
   * is below the flush threshold; and every flush wrote one full buffer.
   */
  ghost predicate Consistent(events: seq<TraceEvent>, capacity: nat, written: nat, out: string,
                             added: seq<TraceEvent>, flushes: nat)
  {
    && written + |events| == |added|
    && events == added[written..]
    && out == Opened(added[..written])
    && |events| < Threshold(capacity)
    && written == flushes * Threshold(capacity)
  }

  /** Pushing an event that leaves the buffer below capacity keeps the state consistent. */
  lemma PushKeeps(events: seq<TraceEvent>, capacity: nat, written: nat, out: string,
                  added: seq<TraceEvent>, flushes: nat, e: TraceEvent)
    requires Consistent(events, capacity, written, out, added, flushes)
    requires |events| + 1 < capacity
    ensures Consistent(events + [e], capacity, written, out, added + [e], flushes)
  {
    assert (added + [e])[..written] == added[..written];
    assert (added + [e])[written..] == added[written..] + [e];
  }

  /**
   * Pushing an event that fills the buffer, writing the whole buffer and
   * emptying it keeps the state consistent: everything added is now written.
   */
  lemma FlushKeeps(events: seq<TraceEvent>, capacity: nat, written: nat, out: string,
                   added: seq<TraceEvent>, flushes: nat, e: TraceEvent)
    requires Consistent(events, capacity, written, out, added, flushes)
    requires |events| + 1 >= capacity
    ensures Consistent([], capacity, written + |events| + 1, out + Separator(written) + Records(events + [e]),
                       added + [e], flushes + 1)
  {
    var t, all := Threshold(capacity), added + [e];
    assert |events| + 1 == t;
    assert all[..written] == added[..written] && all[written..] == events + [e];
    FlushAll(all, written);
    assert all[..written + |events| + 1] == all;
    NextMultiple(flushes, t);
  }

  /**
   * Between calls, the number of flushes so far and the buffer level are
   * fixed by the number of events added: every flush took exactly one
   * threshold's worth of events, and the remainder waits in the buffer.
   */
  lemma FlushCount(t: Tracer)
    requires t.Valid()
    ensures t.flushes == |t.added| / Threshold(t.capacity)
    ensures |t.events| == |t.added| % Threshold(t.capacity)
  {
    BufferLevel(|t.added|, t.flushes, |t.events|, Threshold(t.capacity));
  }

  class Tracer {
    /** `events_`: the buffered events, oldest first. */
    var events: seq<TraceEvent>
    /** `tracing_buffer_size_`, fixed at construction. */
    const capacity: nat
    /** `num_events_written_`: how many events flushes have written so far. */
    var written: nat
    /** Everything written to the output file so far. */
    var out: string
    /** Whether the output file is still open. */
    var open: bool

    /** Every event ever handed to `AddEvent`, in call order. */
    ghost var added: seq<TraceEvent>
    /** How many times `AddEvent` has flushed the buffer. */
    ghost var flushes: nat

    /**
     * Between calls: the written events followed by the buffered ones are
     * exactly the events added, in order; the file holds the opened array
     * of the written ones; the buffer is below the flush threshold; and
     * every flush wrote one full buffer.
     */
    ghost predicate Valid()
      reads this
    {
      open && Consistent(events, capacity, written, out, added, flushes)
    }

    /** The file is open and empty, the buffer empty, nothing written. */
    constructor (bufferSize: Int32)
      requires bufferSize >= 0
      ensures Valid()
      ensures capacity == bufferSize as nat
      ensures events == [] && written == 0 && out == "" && added == [] && flushes == 0
    {
      capacity := bufferSize as nat;
      events := [];
      written := 0;
      out := "";
      open := true;
      added := [];
      flushes := 0;
    }

    /**
     * Writes the buffer: `[` if nothing has been written yet and `,`
     * otherwise, then the buffered events separated by commas, with no
     * comma after the last one. The buffer itself is left as it is.
     */
    method WriteRecords()
      modifies this`out, this`written
      ensures written == old(written) + |events|
      ensures out == old(out) + Separator(old(written)) + Records(events)
    {
      out := out + Separator(written);
      ghost var start := out;
      for i := 0 to |events|
        invariant written == old(written) + i
        invariant out == start + Records(events[..i]) + Gap(i, |events|)
      {
        WriteStep(events, i, start, out);
        out := out + ToString(events[i]);
        written := written + 1;
        if i != |events| - 1 {
          out := out + ",";
        }
      }
      assert events[..|events|] == events;
    }

    /**
     * Appends `event` to the buffer; when the buffer has reached the
     * capacity, writes it all out and empties it.
     */
    method AddEvent(event: TraceEvent)
      requires Valid()
      modifies this
      ensures Valid()
      ensures added == old(added) + [event]
      ensures |old(events)| + 1 < capacity ==>
        && events == old(events) + [event]
        && written == old(written) && out == old(out) && flushes == old(flushes)
      ensures |old(events)| + 1 >= capacity ==>
        && events == []
        && written == old(written) + |old(events)| + 1
        && out == old(out) + Separator(old(written)) + Records(old(events) + [event])
        && flushes == old(flushes) + 1
    {
      ghost var e0, w0, out0, a0, f0 := events, written, out, added, flushes;
      events := events + [event];
      added := added + [event];
      if |events| >= capacity {
        WriteRecords();
        events := [];
        flushes := flushes + 1;
        FlushKeeps(e0, capacity, w0, out0, a0, f0, event);
      } else {
        PushKeeps(e0, capacity, w0, out0, a0, f0, event);
      }
    }

    /**
     * Teardown as the destructor does it: one last flush of the buffer,
     * even an empty one, then `]`, then the file is closed.
     */
    method Destroy()
      requires Valid()
      modifies this
      ensures !open
      ensures events == old(events) && written == |added| && added == old(added) && flushes == old(flushes)
      ensures out == TeardownOutput(added, old(written))
    {
      ghost var w := written;
      WriteRecords();
      out := out + "]";
      open := false;
      TeardownShape(added, w);
    }

    /**
     * Teardown as it was evidently meant: the last flush is skipped when an
     * earlier flush has already opened the array and the buffer is empty,
     * so the file always holds a closed array of every event added.
     */
    method DestroyCorrected()
      requires Valid()
      modifies this
      ensures !open && added == old(added)
      ensures out == Array(added)
    {
      ghost var w := written;
      if written == 0 || events != [] {
        WriteRecords();
        TeardownShape(added, w);
      } else {
        assert added[..w] == added;
      }
      out := out + "]";
      open := false;
    }
  }
}
