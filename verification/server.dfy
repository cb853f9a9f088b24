/**
 * The per-call relay as the handler runs it: state updated in place, the
 * shared table mutated through its methods, and the buffer drained by the
 * `while` loop of the Twilio handler. Every method is proved to do what the
 * Session function for the same step says, so every theorem proved there
 * holds for this code.
 */
module Server {
  import opened Wrappers
  import opened Bytes
  import opened Connections
  import opened Chunker
  import opened Relay
  import opened Session

  class Call {
    /** The process-wide `active_connections`. */
    const table: ConnectionTable
    const id: ConnectionId
    /** `audio_buffer` of the Twilio handler. */
    var buffer: seq<Byte>
    /** The binary frames sent on the agent websocket, in order. */
    var toAgent: seq<seq<Byte>>
    /** The JSON messages sent on the Twilio websocket, in order. */
    var toCaller: seq<CallerMessage>
    var twilio: Loop
    var agent: Loop
    var closed: bool

    function State(): CallState
      reads this, table
    {
      CallState(table.entries, buffer, toAgent, toCaller, twilio, agent, closed)
    }

    /** The call once the agent connection is up and its entry is stored. */
    constructor Open(t: ConnectionTable, connectionId: ConnectionId)
      modifies t
      ensures table == t && id == connectionId
      ensures State() == Opened(old(t.entries), connectionId)
    {
      table := t;
      id := connectionId;
      buffer := [];
      toAgent := [];
      toCaller := [];
      twilio := Running;
      agent := Running;
      closed := false;
      new;
      t.Register(connectionId);
    }

    /** Appends decoded caller audio and sends every full frame, first to
        last, keeping the rest. */
    method PushAudio(chunk: seq<Byte>)
      modifies this`buffer, this`toAgent
      ensures toAgent == old(toAgent) + Frames(old(buffer) + chunk)
      ensures buffer == Remainder(old(buffer) + chunk)
    {
      ghost var full := buffer + chunk;
      buffer := buffer + chunk;
      while |buffer| >= BufferSize
        invariant toAgent + Frames(buffer) == old(toAgent) + Frames(full)
        invariant Remainder(buffer) == Remainder(full)
        decreases |buffer|
      {
        var frame := buffer[..BufferSize];
        assert Frames(buffer) == [frame] + Frames(buffer[BufferSize..]);
        toAgent := toAgent + [frame];
        buffer := buffer[BufferSize..];
      }
      assert toAgent + [] == toAgent;
    }

    /** One iteration of the Twilio handler's `async for`. */
    method OnCallerFrame(f: TwilioFrame)
      modifies this`buffer, this`toAgent, this`twilio, table
      ensures State() == HandleTwilio(old(State()), id, f)
    {
      if closed || twilio != Running {
        return;
      }
      match Classify(f)
      case Fail => twilio := Failed;
      case Stop => twilio := Stopped;
      case Ignore =>
      case Start(sid) => table.SetStreamSid(id, sid);
      case Audio(chunk) => PushAudio(chunk);
    }

    /** One iteration of the agent handler's `async for`. */
    method OnAgentMessage(m: AgentMessage)
      modifies this`toCaller, this`agent
      ensures State() == HandleAgent(old(State()), id, m)
    {
      if closed || agent != Running {
        return;
      }
      match Translate(Lookup(table.entries, id), m)
      case Send(out) => toCaller := toCaller + [out];
      case Drop =>
      case Abort => agent := Failed;
    }

    /** The `finally` block of the connection handler. */
    method Cleanup()
      modifies this`closed, table
      ensures State() == Deliver(old(State()), id, TearDown)
    {
      if !closed {
        table.Discard(id);
        closed := true;
      }
    }

    /** The call under one interleaving of its two handlers and its
        teardown. */
    method Serve(steps: seq<Step>)
      modifies this`buffer, this`toAgent, this`toCaller, this`twilio, this`agent, this`closed, table
      ensures State() == Run(old(State()), id, steps)
    {
      var i := 0;
      while i < |steps|
        invariant 0 <= i <= |steps|
        invariant State() == Run(old(State()), id, steps[..i])
      {
        assert steps[..i + 1][..i] == steps[..i];
        match steps[i] {
          case FromCaller(f) => OnCallerFrame(f);
          case FromAgent(m) => OnAgentMessage(m);
          case TearDown => Cleanup();
        }
        i := i + 1;
      }
      assert steps[..i] == steps;
    }
  }
}
