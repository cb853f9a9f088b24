/**
 * What crosses the two websockets of one call, and how each handler reads
 * what it receives.
 *
 * A Twilio frame is a JSON text; only the keys the handler reads are kept,
 * an absent key (or a value that is not an object where one is indexed)
 * being None. The agent sends JSON texts, of which only the `type` key is
 * read, and binary frames of mu-law audio.
 */
module Relay {
  import opened Wrappers
  import opened Bytes
  import opened Connections
  import Base64

  /** The `start` object of a `start` event. */
  datatype StartBody = StartBody(streamSid: Option<string>)

  /** The `media` object of a `media` event. */
  datatype MediaBody = MediaBody(track: Option<string>, payload: Option<string>)

  /** A frame from Twilio: text that is not a JSON object, or an object. */
  datatype TwilioFrame =
    | Unparsable
    | Frame(event: Option<string>, start: Option<StartBody>, media: Option<MediaBody>)

  /** A text frame from the agent: not a JSON object, or its `type` (None when
      absent or not a string, which compare unequal to every event name). */
  datatype AgentEvent = Unreadable | Event(kind: Option<string>)

  datatype AgentMessage = Text(event: AgentEvent) | Binary(audio: seq<Byte>)

  /** What the relay sends to Twilio: a barge-in `clear`, or a `media` event
      whose payload is base64 text. */
  datatype CallerMessage =
    | Clear(streamSid: string)
    | Media(streamSid: string, payload: string)

  /** What the Twilio handler makes of one frame. Fail is an exception that
      ends the handler: bad JSON, a missing key, a payload that is not base64. */
  datatype Intake = Fail | Stop | Start(streamSid: string) | Audio(chunk: seq<Byte>) | Ignore

  /** What the agent handler makes of one message: a message to Twilio,
      nothing, or an exception that ends the handler. */
  datatype Reaction = Send(message: CallerMessage) | Drop | Abort

  const UserStartedSpeaking: string := "UserStartedSpeaking"

  /** The `if`/`elif` chain of the Twilio handler over the `event` key. */
  function Classify(f: TwilioFrame): (r: Intake)
    ensures r.Start? <==> f.Frame? && f.event == Some("start") && f.start.Some? && f.start.value.streamSid.Some?
    ensures r.Start? ==> f.start.value.streamSid == Some(r.streamSid)
    ensures r == Stop <==> f.Frame? && f.event == Some("stop")
  {
    match f
    case Unparsable => Fail
    case Frame(event, start, media) =>
      if event.None? then Fail
      else if event.value == "start" then
        if start.None? || start.value.streamSid.None? then Fail
        else Start(start.value.streamSid.value)
      else if event.value == "connected" then Ignore
      else if event.value == "media" then
        if media.None? || media.value.track.None? then Fail
        else if media.value.track.value != "inbound" then Ignore
        else if media.value.payload.None? then Fail
        else
          match Base64.Decode(media.value.payload.value)
          case None => Fail
          case Some(chunk) => Audio(chunk)
      else if event.value == "stop" then Stop
      else Ignore
  }

  /** The frames the Twilio handler reads and drops: `connected`, media of a
      track other than the caller's, and any event it does not know. */
  predicate Ignorable(f: TwilioFrame) {
    && f.Frame? && f.event.Some?
    && (|| f.event.value == "connected"
        || (&& f.event.value == "media" && f.media.Some? && f.media.value.track.Some?
            && f.media.value.track.value != "inbound")
        || f.event.value !in {"start", "connected", "media", "stop"})
  }

  /** The frames that end the Twilio handler: `stop`, and every frame whose
      handling raises. */
  predicate Ends(f: TwilioFrame) {
    Classify(f) == Stop || Classify(f) == Fail
  }

  lemma ClassifyIgnorable(f: TwilioFrame)
    ensures Classify(f) == Ignore <==> Ignorable(f)
  {
  }

  /** A frame raises exactly when it is not a JSON object, when a key read
      on the branch it takes is missing, or when it is inbound media whose
      payload `b64decode` rejects. */
  lemma ClassifyFail(f: TwilioFrame)
    ensures Classify(f) == Fail <==>
      || f.Unparsable?
      || f.event.None?
      || (f.event == Some("start") && (f.start.None? || f.start.value.streamSid.None?))
      || (&& f.event == Some("media")
          && (|| f.media.None? || f.media.value.track.None?
              || (&& f.media.value.track == Some("inbound")
                  && (f.media.value.payload.None? || Base64.Decode(f.media.value.payload.value).None?))))
  {
  }

  /** Only an inbound `media` frame whose payload decodes brings audio, and
      the audio is the decoded payload. */
  lemma ClassifyAudio(f: TwilioFrame)
    ensures Classify(f).Audio? <==>
      && f.Frame? && f.event == Some("media") && f.media.Some?
      && f.media.value.track == Some("inbound") && f.media.value.payload.Some?
      && Base64.Decode(f.media.value.payload.value).Some?
    ensures Classify(f).Audio? ==> Some(Classify(f).chunk) == Base64.Decode(f.media.value.payload.value)
  {
  }

  /**
   * One agent message, given the call's entry as `.get` returns it. A
   * barge-in event becomes `clear` and a binary frame becomes a base64
   * `media` event, both tagged with the stream id, and only once that id is
   * known; other text events are dropped, and unreadable text raises.
   */
  function Translate(entry: Option<Entry>, m: AgentMessage): (r: Reaction)
    ensures r.Abort? <==> m == Text(Unreadable)
    ensures r.Send? <==> KnownSid(entry).Some? && (m.Binary? || m == Text(Event(Some(UserStartedSpeaking))))
    ensures r.Send? ==> Some(r.message.streamSid) == KnownSid(entry)
    ensures r.Send? ==> (r.message.Clear? <==> m.Text?)
    ensures r.Send? && m.Binary? ==> r.message.payload == Base64.Encode(m.audio)
    ensures r.Send? && m.Binary? ==> Base64.Decode(r.message.payload) == Some(m.audio)
  {
    match m
    case Text(Unreadable) => Abort
    case Text(Event(kind)) =>
      if kind == Some(UserStartedSpeaking) && KnownSid(entry).Some? then Send(Clear(KnownSid(entry).value))
      else Drop
    case Binary(audio) =>
      if KnownSid(entry).Some? then
        Base64.DecodeEncode(audio);
        Send(Media(KnownSid(entry).value, Base64.Encode(audio)))
      else Drop
  }

  /** The messages sent to Twilio for a run of agent messages handled while
      the entry stays as it is, in the order they were received. */
  function Replies(entry: Option<Entry>, ms: seq<AgentMessage>): seq<CallerMessage> {
    if |ms| == 0 then []
    else
      var last := Translate(entry, ms[|ms| - 1]);
      Replies(entry, ms[..|ms| - 1]) + (if last.Send? then [last.message] else [])
  }

  /** The replies to messages received one after the other follow one
      another. */
  lemma RepliesAppend(entry: Option<Entry>, ms: seq<AgentMessage>, m: AgentMessage)
    ensures Replies(entry, ms + [m]) == Replies(entry, ms) + Replies(entry, [m])
  {
    assert (ms + [m])[..|ms|] == ms;
    assert [m][..0] == [];
  }

  /** The audio of the agent's binary frames, frame by frame, in order. */
  function Spoken(ms: seq<AgentMessage>): seq<seq<Byte>> {
    if |ms| == 0 then []
    else Spoken(ms[..|ms| - 1]) + (if ms[|ms| - 1].Binary? then [ms[|ms| - 1].audio] else [])
  }

  /** What Twilio decodes from each `media` event it is sent, in order. */
  function Played(rs: seq<CallerMessage>): seq<Option<seq<Byte>>> {
    if |rs| == 0 then []
    else Played(rs[..|rs| - 1]) + (if rs[|rs| - 1].Media? then [Base64.Decode(rs[|rs| - 1].payload)] else [])
  }

  /** The number of barge-in events among the agent's messages. */
  function BargeIns(ms: seq<AgentMessage>): nat {
    if |ms| == 0 then 0
    else BargeIns(ms[..|ms| - 1]) + (if ms[|ms| - 1] == Text(Event(Some(UserStartedSpeaking))) then 1 else 0)
  }

  /** The number of `clear` messages. */
  function Clears(rs: seq<CallerMessage>): nat {
    if |rs| == 0 then 0 else Clears(rs[..|rs| - 1]) + (if rs[|rs| - 1].Clear? then 1 else 0)
  }

  function Somes(fs: seq<seq<Byte>>): (r: seq<Option<seq<Byte>>>)
    ensures |r| == |fs| && forall i | 0 <= i < |fs| :: r[i] == Some(fs[i])
  {
    if |fs| == 0 then [] else Somes(fs[..|fs| - 1]) + [Some(fs[|fs| - 1])]
  }

  /** Before the stream id is known nothing is sent to Twilio. */
  lemma {:induction false} RepliesNeedSid(entry: Option<Entry>, ms: seq<AgentMessage>)
    requires KnownSid(entry).None?
    ensures Replies(entry, ms) == []
    decreases |ms|
  {
    if |ms| > 0 {
      RepliesNeedSid(entry, ms[..|ms| - 1]);
    }
  }

  /** Every message sent to Twilio carries the call's stream id. */
  lemma {:induction false} RepliesTagged(entry: Option<Entry>, ms: seq<AgentMessage>)
    ensures forall i | 0 <= i < |Replies(entry, ms)| :: Some(Replies(entry, ms)[i].streamSid) == KnownSid(entry)
    decreases |ms|
  {
    if |ms| > 0 {
      RepliesTagged(entry, ms[..|ms| - 1]);
    }
  }

  /** Once the stream id is known, every agent frame reaches Twilio whole
      and in the order the agent sent it. */
  lemma {:induction false} RepliesPlayInOrder(entry: Option<Entry>, ms: seq<AgentMessage>)
    requires KnownSid(entry).Some?
    ensures Played(Replies(entry, ms)) == Somes(Spoken(ms))
    decreases |ms|
  {
    if |ms| > 0 {
      var init, m := ms[..|ms| - 1], ms[|ms| - 1];
      RepliesPlayInOrder(entry, init);
      var before, after := Replies(entry, init), Replies(entry, ms);
      var r := Translate(entry, m);
      if m.Binary? {
        assert after == before + [r.message];
        assert after[..|after| - 1] == before;
        assert Spoken(ms) == Spoken(init) + [m.audio];
        assert Somes(Spoken(ms)) == Somes(Spoken(init)) + [Some(m.audio)];
      } else {
        assert Spoken(ms) == Spoken(init);
        if r.Send? {
          assert after == before + [r.message];
          assert after[..|after| - 1] == before;
        } else {
          assert after == before;
        }
      }
    }
  }

  /** Once the stream id is known, every barge-in event becomes exactly one
      `clear`. */
  lemma {:induction false} RepliesClearOnBargeIn(entry: Option<Entry>, ms: seq<AgentMessage>)
    requires KnownSid(entry).Some?
    ensures Clears(Replies(entry, ms)) == BargeIns(ms)
    decreases |ms|
  {
    if |ms| > 0 {
      var init := ms[..|ms| - 1];
      RepliesClearOnBargeIn(entry, init);
      var before, after := Replies(entry, init), Replies(entry, ms);
      var r := Translate(entry, ms[|ms| - 1]);
      if r.Send? {
        assert after == before + [r.message];
        assert after[..|after| - 1] == before;
      } else {
        assert after == before;
      }
    }
  }
}
