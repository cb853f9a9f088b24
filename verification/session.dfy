/**
 * One call, from the moment its entry is stored to its cleanup, as a state
 * machine over the messages its two handlers receive.
 *
 * The Twilio handler and the agent handler run as two asyncio tasks. Each
 * handles one message at a time with no suspension point between reading
 * the table and acting on it, so a call is a sequence of steps, each being
 * one message handled by one of them, or the teardown in the `finally`
 * block. Which interleaving occurs is up to the network and the event loop:
 * it is a parameter here, and every theorem holds for every one of them.
 */
module Session {
  import opened Wrappers
  import opened Bytes
  import opened Connections
  import opened Chunker
  import opened Relay

  /** A handler's loop: still reading, left by `break`, or left by an
      exception. */
  datatype Loop = Running | Stopped | Failed

  /**
   * What one call has done so far: the shared table, the audio buffer of
   * the Twilio handler, the frames sent to the agent, the messages sent to
   * Twilio, the two loops, and whether the call has been torn down.
   */
  datatype CallState = CallState(
    entries: Table,
    buffer: seq<Byte>,
    toAgent: seq<seq<Byte>>,
    toCaller: seq<CallerMessage>,
    twilio: Loop,
    agent: Loop,
    closed: bool)

  datatype Step = FromCaller(frame: TwilioFrame) | FromAgent(message: AgentMessage) | TearDown

  /** The call right after its entry is stored (the stream id not yet known). */
  function Opened(m: Table, id: ConnectionId): CallState {
    CallState(Registered(m, id), [], [], [], Running, Running, false)
  }

  /** One Twilio frame handled by the Twilio handler, if it still runs. It
      sends nothing to Twilio, leaves the agent handler alone, and only a
      `start` event touches the table. */
  function HandleTwilio(s: CallState, id: ConnectionId, f: TwilioFrame): (r: CallState)
    ensures r.toCaller == s.toCaller && r.agent == s.agent && r.closed == s.closed
    ensures !Classify(f).Start? ==> r.entries == s.entries
    ensures s.toAgent <= r.toAgent
  {
    if s.closed || s.twilio != Running then s
    else
      match Classify(f)
      case Fail => s.(twilio := Failed)
      case Stop => s.(twilio := Stopped)
      case Ignore => s
      case Start(sid) => s.(entries := WithStreamSid(s.entries, id, sid))
      case Audio(chunk) =>
        var full := s.buffer + chunk;
        s.(buffer := Remainder(full), toAgent := s.toAgent + Frames(full))
  }

  /** One agent message handled by the agent handler, if it still runs. It
      only reads the table, touches nothing of the Twilio side, and sends at
      most one message to Twilio, after those already sent. */
  function HandleAgent(s: CallState, id: ConnectionId, m: AgentMessage): (r: CallState)
    ensures r.entries == s.entries && r.buffer == s.buffer && r.toAgent == s.toAgent
    ensures r.twilio == s.twilio && r.closed == s.closed
    ensures r.toCaller == s.toCaller || (|r.toCaller| == |s.toCaller| + 1 && s.toCaller <= r.toCaller)
  {
    if s.closed || s.agent != Running then s
    else
      match Translate(Lookup(s.entries, id), m)
      case Send(out) => s.(toCaller := s.toCaller + [out])
      case Drop => s
      case Abort => s.(agent := Failed)
  }

  /** The `finally` block: the entry is removed if present, and both tasks are
      over (finished or cancelled). */
  function Cleanup(s: CallState, id: ConnectionId): (r: CallState)
    ensures r.closed && id !in r.entries
    ensures forall k | k in s.entries && k != id :: k in r.entries && r.entries[k] == s.entries[k]
    ensures r.(entries := s.entries, closed := s.closed) == s
  {
    s.(entries := Released(s.entries, id), closed := true)
  }

  function Deliver(s: CallState, id: ConnectionId, step: Step): CallState {
    match step
    case FromCaller(f) => HandleTwilio(s, id, f)
    case FromAgent(m) => HandleAgent(s, id, m)
    case TearDown => if s.closed then s else Cleanup(s, id)
  }

  /** The call after the steps, in order. What was sent is never taken
      back, and a call torn down stays as it is. */
  function Run(s: CallState, id: ConnectionId, steps: seq<Step>): (r: CallState)
    ensures s.toAgent <= r.toAgent && s.toCaller <= r.toCaller
    ensures s.closed ==> r == s
    decreases |steps|
  {
    if |steps| == 0 then s
    else Deliver(Run(s, id, steps[..|steps| - 1]), id, steps[|steps| - 1])
  }

  // ----- The Twilio side, over the frames alone -----

  /** The Twilio frames delivered before the call is torn down, in order. */
  function CallerFrames(steps: seq<Step>): seq<TwilioFrame>
    decreases |steps|
  {
    if |steps| == 0 then []
    else
      var init, last := steps[..|steps| - 1], steps[|steps| - 1];
      if TearDown in init || !last.FromCaller? then CallerFrames(init)
      else CallerFrames(init) + [last.frame]
  }

  /** The state of the Twilio loop after reading frames: it runs until the
      first `stop` or the first frame that raises. */
  function LoopAfter(frames: seq<TwilioFrame>): Loop
    decreases |frames|
  {
    if |frames| == 0 then Running
    else
      var before := LoopAfter(frames[..|frames| - 1]);
      if before != Running then before else Outcome(frames[|frames| - 1])
  }

  /** The Twilio loop after reading one frame while running. */
  function Outcome(f: TwilioFrame): Loop {
    match Classify(f)
    case Fail => Failed
    case Stop => Stopped
    case _ => Running
  }

  /** The caller audio the Twilio loop takes in: the decoded payloads of the
      inbound media frames it reads while it runs, one after the other. */
  function Inbound(frames: seq<TwilioFrame>): seq<Byte>
    decreases |frames|
  {
    if |frames| == 0 then []
    else
      var init := frames[..|frames| - 1];
      var intake := Classify(frames[|frames| - 1]);
      if LoopAfter(init) == Running && intake.Audio? then Inbound(init) + intake.chunk
      else Inbound(init)
  }

  /** The stream ids of the `start` events the Twilio loop reads while it
      runs, in order. */
  function ReadStarts(frames: seq<TwilioFrame>): seq<string>
    decreases |frames|
  {
    if |frames| == 0 then []
    else
      var init := frames[..|frames| - 1];
      var intake := Classify(frames[|frames| - 1]);
      if LoopAfter(init) == Running && intake.Start? then ReadStarts(init) + [intake.streamSid]
      else ReadStarts(init)
  }

  /** The last element, if any. */
  function Last(xs: seq<string>): Option<string> {
    if |xs| == 0 then None else Some(xs[|xs| - 1])
  }

  /** The agent messages among the steps, in order. */
  function AgentMessages(steps: seq<Step>): seq<AgentMessage>
    decreases |steps|
  {
    if |steps| == 0 then []
    else
      var last := steps[|steps| - 1];
      AgentMessages(steps[..|steps| - 1]) + (if last.FromAgent? then [last.message] else [])
  }
}
