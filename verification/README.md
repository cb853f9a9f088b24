# Per-call relay of the Twilio–Deepgram voice bridge, in Dafny

`server.py` bridges a phone call to a voice agent. Twilio streams the
caller's audio over one websocket, as JSON events holding base64 mu-law
payloads. The Deepgram voice agent is reached over a second websocket,
which takes raw binary audio and answers with binary audio and JSON events.
For each call the server runs two handlers side by side:

- `handle_twilio_messages` decodes the caller's inbound audio and gathers
  it in a byte buffer. It sends the buffer to the agent in frames of
  exactly `20 * 160 = 3200` bytes. It also records the Twilio stream id
  that the `start` event names.
- `handle_deepgram_messages` turns agent audio into Twilio `media` events
  and a barge-in event (`UserStartedSpeaking`) into a Twilio `clear`. Both
  are tagged with the recorded stream id, and only once that id is known.

The calls share a process-wide table, `active_connections`. A call stores
its entry when it opens and deletes the entry in a `finally` block.

The project models this core:

- `Base64`: standard base64. The decoder is the lenient one Python uses for
  `b64decode` of a `str`. Decoding an encoding gives the bytes back.
- `Chunker`: the buffer-and-slice loop, as the functions `Frames` and
  `Remainder`, with their conservation and split-independence lemmas.
- `Connections`: the table, as pure map operations plus a
  `ConnectionTable` class that mutates it in place.
- `Relay`: the Twilio frame and agent message shapes, the Twilio handler's
  `if`/`elif` dispatch (`Classify`) and the agent handler's translation
  (`Translate`).
- `Session`: one call as a state machine over steps. A step is one Twilio
  frame, one agent message or the teardown. The interleaving of the two
  asyncio tasks is a parameter.
- `CallProperties`: theorems that hold for every interleaving.
- `Server`: a class `Call` with the handler's state as fields. Its methods
  run the steps in place, including the `while` loop that drains the
  buffer, and each is proved equal to the matching `Session` function.

A bad frame ends the Twilio handler's loop. This covers a frame that is
not JSON, a frame that lacks a key the handler reads, and a payload that
is not base64. The alternative would be to skip such a frame and read the
next one. The handler does not do that, because its `try` encloses the
whole `async for` loop, so the exception leaves the loop.

## Model

| member | source | states |
|---|---|---|
| Base64.Encode | server.py:267 | the encoding of n bytes is 4·⌈n/3⌉ characters |
| Base64.EncodeIsAscii | server.py:267 | every character of an encoding is in the base64 alphabet or is `=`, so `.decode("ascii")` cannot fail |
| Base64.Decode | server.py:221 | `b64decode` of a `str` holding a non-ASCII character raises |
| Base64.DecodeWithoutPadding | server.py:221 | with no `=`, characters outside the alphabet are skipped; decoding succeeds iff the alphabet characters form whole groups of four, and each group gives three bytes |
| Base64.DecodeEncode | server.py:267 | decoding the payload the relay builds gives back exactly the agent's bytes (round trip) |
| Chunker.Frames | server.py:225-228 | every frame sent to the agent is exactly `BUFFER_SIZE` (3200) bytes |
| Chunker.Remainder | server.py:225-228 | after the loop fewer than 3200 bytes stay in the buffer |
| Chunker.FramesRemainder | server.py:222-228 | the frames sent, followed by the bytes kept, are exactly the buffer's content: nothing lost, duplicated or reordered |
| Chunker.FramesAppend | server.py:222-228 | feeding audio in two pieces gives the frames of the first, then the frames of its leftover followed by the second piece |
| Chunker.FramesUnique | server.py:222-228 | full frames and a short remainder that make up the audio can only be its frames and remainder |
| Chunker.Feed | server.py:221-228 | extending the buffer with a decoded chunk and draining it keeps every frame full and adds exactly the chunk to what was sent and kept |
| Connections.Registered | server.py:111-115 | the call's entry is stored with no stream id; other entries are unchanged |
| Connections.WithStreamSid | server.py:210-211 | the stream id is recorded only if the call's entry exists; the keys and the other entries are unchanged |
| Connections.Released | server.py:194-195 | the guarded delete removes the call's key and nothing else |
| Connections.KnownSid | server.py:250-251 | the test `conn and conn['stream_sid']` passes exactly for an existing entry with a set, non-empty stream id |
| Connections.StartMakesSidKnown | server.py:209-211 | after a `start` event the stream id is known iff the entry exists and the id is not empty; other calls see no change |
| Connections.ReleaseIdempotent | server.py:194-195 | a second cleanup, or one for a call with no entry, removes nothing |
| Connections.RegisterRelease | server.py:111-115 | storing a new id and then cleaning it up restores the table |
| Connections.ConnectionTable.Register | server.py:111-115 | the in-place insert is `Registered` |
| Connections.ConnectionTable.SetStreamSid | server.py:210-211 | the in-place update is `WithStreamSid` |
| Connections.ConnectionTable.Discard | server.py:194-195 | the in-place delete is `Released` |
| Relay.Classify | server.py:205-232 | a frame records a stream id iff it is a `start` event whose `start` object names one, and that id is the one named; a frame ends the loop by `break` iff its event is `stop` |
| Relay.ClassifyFail | server.py:204-237 | a frame raises iff it is not a JSON object, lacks `event`, is a `start` without `start.streamSid`, is a `media` without `media` or `media.track`, or is inbound media whose payload is absent or rejected by `b64decode` |
| Relay.ClassifyIgnorable | server.py:213-219 | exactly `connected`, media of a track other than `inbound`, and unknown events are read and dropped |
| Relay.ClassifyAudio | server.py:217-222 | a frame brings audio iff it is a `media` event of the `inbound` track whose payload decodes; the audio is the decoded payload |
| Relay.Translate | server.py:243-270 | unreadable text raises; a message goes to Twilio iff the stream id is known and the message is binary audio or `UserStartedSpeaking`; it is tagged with that id; text becomes `clear`, and audio becomes `media` whose payload is the standard base64 encoding of the frame, which decodes to the same bytes |
| Relay.RepliesAppend | server.py:242-270 | the replies to messages received one after another are the replies to each, in order |
| Relay.RepliesNeedSid | server.py:249-251 | before the stream id is known the agent's messages send nothing to Twilio |
| Relay.RepliesTagged | server.py:252-265 | every message sent to Twilio carries the call's stream id |
| Relay.RepliesPlayInOrder | server.py:259-270 | once the stream id is known, every agent audio frame reaches Twilio whole and in the order received |
| Relay.RepliesClearOnBargeIn | server.py:249-256 | once the stream id is known, each `UserStartedSpeaking` yields exactly one `clear` |
| Connections.Lookup | server.py:250 | `.get` finds an entry iff the id is in the table, and it is that id's entry |
| Session.HandleTwilio | server.py:204-232 | a Twilio frame sends nothing to Twilio, leaves the agent loop and the teardown alone, only extends what was sent to the agent, and changes the table only on `start` |
| Session.HandleAgent | server.py:242-270 | an agent message changes neither the table nor anything of the Twilio side, and sends at most one message to Twilio, after those already sent |
| Session.Cleanup | server.py:192-195 | the `finally` block removes the call's entry, keeps every other entry, closes the call and changes nothing else |
| Session.Run | server.py:178-195 | over any steps, what was sent to the agent and to Twilio is only ever extended, and a torn-down call stays as it is |
| CallProperties.LoopRunsUntilEnd | server.py:204-237 | the Twilio loop is still running iff no frame read so far was `stop` or raised |
| CallProperties.EndedLoopIgnoresFrames | server.py:230-232 | after `stop` or an exception no later frame is read: no more audio, no restart |
| CallProperties.EndedLoopChangesNothing | server.py:204-237 | once the Twilio loop has ended or the call is torn down, a Twilio frame leaves the whole call state unchanged |
| CallProperties.EndedLoopIgnoresCallerSteps | server.py:204-237 | once the Twilio loop has ended, any run of later Twilio frames leaves the whole call state unchanged |
| CallProperties.IgnorableFrameChangesNothing | server.py:213-219 | `connected`, non-inbound media and unknown events leave the whole call state unchanged |
| CallProperties.StartRecordsStreamSid | server.py:207-211 | a `start` event leaves the audio and the messages untouched; the stream id becomes known iff the entry exists and the id is not empty |
| CallProperties.AudioStep | server.py:204-232 | one step adds to the audio sent and kept exactly the inbound audio it brings, keeps frames full and the buffer short, and changes the loop only on `stop` or an exception; a Twilio frame sends nothing to Twilio, leaves the agent loop alone and changes the table only on `start` |
| CallProperties.AudioConserved | server.py:204-228 | under any interleaving, the frames sent followed by the buffer are exactly the inbound audio read before the loop ended |
| CallProperties.FramesDependOnAudioOnly | server.py:217-228 | the frames sent depend only on the inbound audio, not on how it was split into payloads or interleaved with agent messages |
| CallProperties.StartsStep | server.py:207-211 | the stream ids recorded before a step are the first ones recorded after it |
| CallProperties.StreamSidIsLastStart | server.py:207-211 | until teardown, the call's entry holds the stream id of the last `start` the Twilio loop read, or none if it read none; after teardown the entry is gone |
| CallProperties.SentOnlyAfterStart | server.py:249-265 | every message sent to Twilio carries a stream id named by a `start` event the Twilio loop read; if it read none, nothing is sent |
| CallProperties.QuietStep | server.py:242-270 | a step that is neither teardown, `start`, nor an unreadable agent message keeps the table and both loops open, and sends exactly the reply to the agent message it carries |
| CallProperties.RepliesStep | server.py:242-270 | the replies to the agent messages of some steps are those of all but the last step, then the reply to the last one |
| CallProperties.AgentRelayInOrder | server.py:242-270 | with Twilio frames interleaved, but no teardown, `start` or unreadable agent message, Twilio is sent exactly the replies to the agent messages, in the order received, and the table is unchanged |
| CallProperties.FailedAgentLoopIsSilent | server.py:241-275 | once the agent handler has raised, nothing more is sent to Twilio, whatever steps follow |
| CallProperties.OnlyOwnEntry | server.py:111-115 | a call touches only its own entry; it is present until teardown and absent after; a new id leaves the table as it was |
| CallProperties.TornDownIsFinal | server.py:192-195 | after teardown nothing changes, and cleanup is idempotent |
| Server.Call.Open | server.py:111-115 | opening a call stores its entry |
| Server.Call.PushAudio | server.py:222-228 | the `while` loop sends `Frames` of the extended buffer in order and keeps its `Remainder` |
| Server.Call.OnCallerFrame | server.py:204-232 | one Twilio frame handled in place is `Session.HandleTwilio` |
| Server.Call.OnAgentMessage | server.py:242-270 | one agent message handled in place is `Session.HandleAgent` |
| Server.Call.Cleanup | server.py:192-195 | the `finally` block is the teardown step |
| Server.Call.Serve | server.py:178-188 | running a sequence of steps in place gives `Session.Run` |

## Left out

- Transport I/O is not modelled: the websockets, `async for`, `await send`, and creating the Deepgram connection. What is sent is recorded in sequences.
- A `send` that raises `ConnectionClosed` partway through the drain loop is not modelled. Every send succeeds, and the loop ends only by `stop`, an exception while reading a frame, or teardown.
- `asyncio.wait(..., FIRST_COMPLETED)` and task cancellation are modelled only between handled messages. Teardown is a step the environment may take between two steps; after it, both handlers are over. A cancellation at `await deepgram_ws.send` (server.py:227) can stop the drain loop after only some of a step's frames were sent; the model cannot represent that state.
- Operations of other calls on the shared table between this call's steps are not modelled. Every theorem about a call assumes that no other call uses its id.
- Two calls opened in the same millisecond get the same id (server.py:99). This collision is not modelled. In the code, the second call's insert (server.py:111-115) resets the stream id to None. The first call's cleanup (server.py:194-195) then deletes the shared entry, and the other call stops sending to Twilio (server.py:250-251 and 261-262).
- The keep-alive task is left out. It only sends the constant `{"type": "KeepAlive"}` to the agent every five seconds and touches no state of the call.
- The Settings configuration message is left out. It is a constant sent once before the handlers start.
- Connection ids built from the clock are not modelled; the id is a parameter. `Registered` replaces an entry already stored under the same id, as the dictionary does. `OnlyOwnEntry` promises the table is restored only for a new id.
- Logging, the Flask HTTP endpoints, the websocket server start-up and the unused queues are not part of this model.
- JSON parsing is not modelled as text. A frame is already either not a JSON object or the keys the handler reads. An absent key is None, and reading it raises.
- Non-string JSON values are not modelled for `event`, `track`, `streamSid` and `payload`, nor for the agent's `type`. A non-string agent `type` behaves like an absent one and is modelled that way.
- Base64.Decode models the non-validating CPython decoder for `str` input. It does not model bytes-like payloads.
- The two websocket handles stored in each table entry are not modelled. The relay logic never reads them.
