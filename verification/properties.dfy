/**
 * What holds of every call, whatever the interleaving of its two handlers:
 * how caller audio reaches the agent, when the Twilio loop stops, what the
 * agent's audio becomes on the way to Twilio, and what the call leaves in
 * the shared table.
 */
module CallProperties {
  import opened Wrappers
  import opened Bytes
  import opened Connections
  import opened Chunker
  import opened Relay
  import opened Session

  // ----- The Twilio loop -----

  /** The Twilio loop is still running exactly when none of the frames it
      has read was a `stop` or raised. */
  lemma {:induction false} LoopRunsUntilEnd(frames: seq<TwilioFrame>)
    ensures LoopAfter(frames) == Running <==> forall i | 0 <= i < |frames| :: !Ends(frames[i])
    decreases |frames|
  {
    if |frames| > 0 {
      var init := frames[..|frames| - 1];
      LoopRunsUntilEnd(init);
      assert forall i | 0 <= i < |init| :: init[i] == frames[i];
    }
  }

  /** Once the Twilio loop has ended, later frames are never read: they add
      no audio and do not restart it. */
  lemma {:induction false} EndedLoopIgnoresFrames(frames: seq<TwilioFrame>, more: seq<TwilioFrame>)
    requires LoopAfter(frames) != Running
    ensures LoopAfter(frames + more) == LoopAfter(frames)
    ensures Inbound(frames + more) == Inbound(frames)
    decreases |more|
  {
    if |more| == 0 {
      assert frames + more == frames;
    } else {
      var init := more[..|more| - 1];
      EndedLoopIgnoresFrames(frames, init);
      assert (frames + more)[..|frames + more| - 1] == frames + init;
    }
  }

  /** A frame that is read and dropped changes nothing at all. */
  lemma IgnorableFrameChangesNothing(s: CallState, id: ConnectionId, f: TwilioFrame)
    requires Ignorable(f)
    ensures HandleTwilio(s, id, f) == s
  {
    ClassifyIgnorable(f);
  }

  /** A `start` event touches neither the audio nor what was sent; it makes
      the stream id known exactly when the call still has its entry and the
      id is not empty, and without an entry it changes nothing. */
  lemma StartRecordsStreamSid(s: CallState, id: ConnectionId, f: TwilioFrame, sid: string)
    requires !s.closed && s.twilio == Running
    requires f.Frame? && f.event == Some("start") && f.start == Some(StartBody(Some(sid)))
    ensures var t := HandleTwilio(s, id, f);
      && t.buffer == s.buffer && t.toAgent == s.toAgent && t.toCaller == s.toCaller
      && t.twilio == Running
      && (KnownSid(Lookup(t.entries, id)) == Some(sid) <==> id in s.entries && sid != "")
      && (id !in s.entries ==> t == s)
  {
    StartMakesSidKnown(s.entries, id, sid, id);
  }

  /** The bytes a step adds to the caller audio read by the Twilio loop. */
  function Heard(s: CallState, step: Step): seq<Byte> {
    if !s.closed && step.FromCaller? && s.twilio == Running && Classify(step.frame).Audio?
    then Classify(step.frame).chunk
    else []
  }

  /** One step keeps the framing invariant and adds to the audio sent or
      kept exactly the audio it brings; only a Twilio frame that ends the
      loop changes the loop, and only the teardown closes the call. A Twilio
      frame sends nothing to Twilio, leaves the agent loop alone, and only a
      `start` event touches the table. */
  lemma AudioStep(s: CallState, id: ConnectionId, step: Step)
    requires AllFull(s.toAgent) && |s.buffer| < BufferSize
    ensures var t := Deliver(s, id, step);
      && AllFull(t.toAgent) && |t.buffer| < BufferSize
      && Flatten(t.toAgent) + t.buffer == Flatten(s.toAgent) + s.buffer + Heard(s, step)
      && t.twilio == (if !s.closed && step.FromCaller? && s.twilio == Running
                      then Outcome(step.frame) else s.twilio)
      && (t.closed <==> s.closed || step == TearDown)
      && (step.FromCaller? ==> && t.toCaller == s.toCaller && t.agent == s.agent
                               && (!Classify(step.frame).Start? ==> t.entries == s.entries))
  {
    if !(!s.closed && step.FromCaller? && s.twilio == Running && Classify(step.frame).Audio?) {
      assert Flatten(s.toAgent) + s.buffer + [] == Flatten(s.toAgent) + s.buffer;
    } else {
      var full := s.buffer + Heard(s, step);
      assert Deliver(s, id, step).toAgent == s.toAgent + Frames(full);
      assert Deliver(s, id, step).buffer == Remainder(full);
      Feed(s.toAgent, s.buffer, Heard(s, step));
    }
  }

  /**
   * Conservation of caller audio: after any interleaving, the frames sent
   * to the agent followed by the bytes still buffered are exactly the
   * decoded inbound audio the Twilio loop read; every frame holds exactly
   * BufferSize bytes and less than one frame stays buffered.
   */
  lemma {:induction false} AudioConserved(m: Table, id: ConnectionId, steps: seq<Step>)
    ensures var s := Run(Opened(m, id), id, steps);
      && Flatten(s.toAgent) + s.buffer == Inbound(CallerFrames(steps))
      && AllFull(s.toAgent) && |s.buffer| < BufferSize
      && s.twilio == LoopAfter(CallerFrames(steps))
      && (s.closed <==> TearDown in steps)
    decreases |steps|
  {
    if |steps| > 0 {
      var init, last := steps[..|steps| - 1], steps[|steps| - 1];
      AudioConserved(m, id, init);
      var s0 := Run(Opened(m, id), id, init);
      assert Run(Opened(m, id), id, steps) == Deliver(s0, id, last);
      var frames := CallerFrames(init);
      AudioStep(s0, id, last);
      assert TearDown in steps <==> TearDown in init || last == TearDown by {
        assert steps == init + [last];
      }
      if !s0.closed && last.FromCaller? {
        var f := last.frame;
        assert CallerFrames(steps) == frames + [f];
        assert (frames + [f])[..|frames|] == frames;
      } else {
        assert Heard(s0, last) == [];
      }
    }
  }

  /** The frames sent to the agent and the audio kept depend only on the
      caller audio read, not on how it was cut into payloads nor on when
      the agent's messages arrived in between. */
  lemma FramesDependOnAudioOnly(m: Table, id: ConnectionId, steps: seq<Step>)
    ensures var s := Run(Opened(m, id), id, steps);
      && s.toAgent == Frames(Inbound(CallerFrames(steps)))
      && s.buffer == Remainder(Inbound(CallerFrames(steps)))
  {
    AudioConserved(m, id, steps);
    var s := Run(Opened(m, id), id, steps);
    FramesUnique(s.toAgent, s.buffer, Inbound(CallerFrames(steps)));
  }

  /** Once the Twilio loop has ended, or the call is torn down, a Twilio
      frame changes nothing at all. */
  lemma EndedLoopChangesNothing(s: CallState, id: ConnectionId, f: TwilioFrame)
    requires s.closed || s.twilio != Running
    ensures HandleTwilio(s, id, f) == s
  {
  }

  /** Once the Twilio loop has ended, any number of later Twilio frames
      leave the whole call as it is: no audio, no stream id, no restart. */
  lemma {:induction false} EndedLoopIgnoresCallerSteps(s: CallState, id: ConnectionId, steps: seq<Step>)
    requires s.closed || s.twilio != Running
    requires forall i | 0 <= i < |steps| :: steps[i].FromCaller?
    ensures Run(s, id, steps) == s
    decreases |steps|
  {
    if |steps| > 0 {
      var init := steps[..|steps| - 1];
      EndedLoopIgnoresCallerSteps(s, id, init);
      EndedLoopChangesNothing(s, id, steps[|steps| - 1].frame);
    }
  }

  /** The stream ids the Twilio loop has recorded, in order. */
  function Starts(steps: seq<Step>): seq<string> {
    ReadStarts(CallerFrames(steps))
  }

  /** The ids recorded before a step are the first ids recorded after it. */
  lemma StartsStep(steps: seq<Step>)
    requires |steps| > 0
    ensures Starts(steps[..|steps| - 1]) <= Starts(steps)
  {
    var init, last := steps[..|steps| - 1], steps[|steps| - 1];
    var frames := CallerFrames(init);
    if !(TearDown in init || !last.FromCaller?) {
      assert CallerFrames(steps) == frames + [last.frame];
      assert (frames + [last.frame])[..|frames|] == frames;
    }
  }

  /**
   * Until the teardown, the call's entry holds the stream id of the last
   * `start` event the Twilio loop read, or none if it read none; after the
   * teardown the call has no entry.
   */
  lemma {:induction false} StreamSidIsLastStart(m: Table, id: ConnectionId, steps: seq<Step>)
    ensures Lookup(Run(Opened(m, id), id, steps).entries, id)
      == if TearDown in steps then None else Some(Entry(Last(Starts(steps))))
    decreases |steps|
  {
    if |steps| > 0 {
      var init, last := steps[..|steps| - 1], steps[|steps| - 1];
      StreamSidIsLastStart(m, id, init);
      AudioConserved(m, id, init);
      var s0 := Run(Opened(m, id), id, init);
      assert Run(Opened(m, id), id, steps) == Deliver(s0, id, last);
      assert TearDown in steps <==> TearDown in init || last == TearDown by {
        assert steps == init + [last];
      }
      if !s0.closed && last.FromCaller? {
        var frames, f := CallerFrames(init), last.frame;
        assert CallerFrames(steps) == frames + [f];
        assert (frames + [f])[..|frames|] == frames;
        if s0.twilio == Running && Classify(f).Start? {
          StartMakesSidKnown(s0.entries, id, Classify(f).streamSid, id);
        }
      }
    }
  }

  /** Every message sent to Twilio carries a stream id that a `start` event
      read by the Twilio loop named; if it read none, nothing is sent. */
  lemma {:induction false} SentOnlyAfterStart(m: Table, id: ConnectionId, steps: seq<Step>)
    ensures forall i | 0 <= i < |Run(Opened(m, id), id, steps).toCaller| ::
      Run(Opened(m, id), id, steps).toCaller[i].streamSid in Starts(steps)
    ensures |Starts(steps)| == 0 ==> Run(Opened(m, id), id, steps).toCaller == []
    decreases |steps|
  {
    if |steps| > 0 {
      var init, last := steps[..|steps| - 1], steps[|steps| - 1];
      SentOnlyAfterStart(m, id, init);
      StartsStep(steps);
      var before, after := Starts(init), Starts(steps);
      assert after == before + after[|before|..];
      var s0 := Run(Opened(m, id), id, init);
      assert forall i | 0 <= i < |s0.toCaller| :: s0.toCaller[i].streamSid in before;
      var s := Run(Opened(m, id), id, steps);
      assert s == Deliver(s0, id, last);
      if |s.toCaller| != |s0.toCaller| {
        StreamSidIsLastStart(m, id, init);
        var e := Lookup(s0.entries, id);
        assert e == Some(Entry(Last(before)));
        assert Translate(e, last.message).Send?;
        assert s.toCaller == s0.toCaller + [Translate(e, last.message).message];
        assert s.toCaller[|s0.toCaller|].streamSid == before[|before| - 1];
      }
    }
  }

  // ----- The agent loop -----

  /** A step that leaves the agent relay to itself: neither the teardown, nor
      a `start` event, nor an agent message that ends the agent loop. */
  predicate Quiet(step: Step) {
    && step != TearDown
    && (step.FromCaller? ==> !Classify(step.frame).Start?)
    && step != FromAgent(Text(Unreadable))
  }

  /** A quiet step keeps the table and both the call and the agent loop
      open; only an agent message can send, and it sends its reply. */
  lemma QuietStep(s: CallState, id: ConnectionId, step: Step)
    requires !s.closed && s.agent == Running && Quiet(step)
    ensures var t := Deliver(s, id, step);
      && t.entries == s.entries && !t.closed && t.agent == Running
      && t.toCaller == s.toCaller + (if step.FromAgent? then Replies(Lookup(s.entries, id), [step.message]) else [])
  {
    if step.FromAgent? {
      assert [step.message][..0] == [];
    } else {
      assert s.toCaller + [] == s.toCaller;
    }
  }

  /**
   * Agent messages, whatever Twilio frames arrive between them, send to
   * Twilio the replies to each of them in the order they came; combined
   * with the lemmas on Replies: every frame of agent audio, whole and in
   * order, once the stream id is known, and nothing before.
   */
  lemma {:induction false} AgentRelayInOrder(s: CallState, id: ConnectionId, steps: seq<Step>)
    requires !s.closed && s.agent == Running
    requires forall i | 0 <= i < |steps| :: Quiet(steps[i])
    ensures var r := Run(s, id, steps);
      && r.toCaller == s.toCaller + Replies(Lookup(s.entries, id), AgentMessages(steps))
      && r.entries == s.entries && !r.closed && r.agent == Running
    decreases |steps|
  {
    if |steps| == 0 {
      assert s.toCaller + [] == s.toCaller;
    } else {
      var init, last := steps[..|steps| - 1], steps[|steps| - 1];
      AgentRelayInOrder(s, id, init);
      var r0 := Run(s, id, init);
      assert Run(s, id, steps) == Deliver(r0, id, last);
      QuietStep(r0, id, last);
      RepliesStep(Lookup(s.entries, id), steps);
    }
  }

  /** The replies to the agent messages among some steps, split before the
      last step. */
  lemma RepliesStep(e: Option<Entry>, steps: seq<Step>)
    requires |steps| > 0
    ensures var last := steps[|steps| - 1];
      Replies(e, AgentMessages(steps))
      == Replies(e, AgentMessages(steps[..|steps| - 1])) + (if last.FromAgent? then Replies(e, [last.message]) else [])
  {
    var ms, last := AgentMessages(steps[..|steps| - 1]), steps[|steps| - 1];
    if last.FromAgent? {
      assert AgentMessages(steps) == ms + [last.message];
      RepliesAppend(e, ms, last.message);
    } else {
      assert AgentMessages(steps) == ms + [];
      assert ms + [] == ms;
      assert Replies(e, ms) + [] == Replies(e, ms);
    }
  }

  /** After an unreadable agent message the agent loop is over: whatever
      happens next, nothing more is sent to Twilio. */
  lemma {:induction false} FailedAgentLoopIsSilent(s: CallState, id: ConnectionId, steps: seq<Step>)
    requires s.agent != Running
    ensures Run(s, id, steps).toCaller == s.toCaller
    ensures Run(s, id, steps).agent == s.agent
    decreases |steps|
  {
    if |steps| > 0 {
      FailedAgentLoopIsSilent(s, id, steps[..|steps| - 1]);
    }
  }

  // ----- The shared table -----

  /** The table as a call leaves it: other calls' entries untouched, its
      own present until it is closed and absent after. */
  predicate OwnEntryOnly(m: Table, id: ConnectionId, s: CallState) {
    && s.entries.Keys == (if s.closed then m.Keys - {id} else m.Keys + {id})
    && forall k | k in m && k != id :: s.entries[k] == m[k]
  }

  lemma EntryStep(m: Table, id: ConnectionId, s: CallState, step: Step)
    requires OwnEntryOnly(m, id, s)
    ensures OwnEntryOnly(m, id, Deliver(s, id, step))
    ensures Deliver(s, id, step).closed <==> s.closed || step == TearDown
  {
    if !s.closed && step.FromCaller? && s.twilio == Running && Classify(step.frame).Start? {
      StartMakesSidKnown(s.entries, id, Classify(step.frame).streamSid, id);
    }
  }

  /**
   * A call touches only its own entry: other calls' entries are as they
   * were, and its own is there from the start until the teardown removes
   * it. A call whose id was new leaves the table exactly as it found it.
   */
  lemma {:induction false} OnlyOwnEntry(m: Table, id: ConnectionId, steps: seq<Step>)
    ensures var s := Run(Opened(m, id), id, steps);
      && s.entries.Keys == (if TearDown in steps then m.Keys - {id} else m.Keys + {id})
      && (forall k | k in m && k != id :: s.entries[k] == m[k])
    ensures id !in m && TearDown in steps ==> Run(Opened(m, id), id, steps).entries == m
    decreases |steps|
  {
    OwnEntryKept(m, id, steps);
  }

  lemma {:induction false} OwnEntryKept(m: Table, id: ConnectionId, steps: seq<Step>)
    ensures OwnEntryOnly(m, id, Run(Opened(m, id), id, steps))
    ensures Run(Opened(m, id), id, steps).closed <==> TearDown in steps
    decreases |steps|
  {
    if |steps| > 0 {
      var init, last := steps[..|steps| - 1], steps[|steps| - 1];
      OwnEntryKept(m, id, init);
      EntryStep(m, id, Run(Opened(m, id), id, init), last);
      assert steps == init + [last];
    }
  }

  /** The teardown is final: after it no message changes anything and a
      second cleanup finds nothing to remove. */
  lemma TornDownIsFinal(s: CallState, id: ConnectionId, steps: seq<Step>)
    requires s.closed
    ensures Run(s, id, steps) == s
    ensures Cleanup(Cleanup(s, id), id) == Cleanup(s, id)
  {
    ReleaseIdempotent(s.entries, id);
  }
}
