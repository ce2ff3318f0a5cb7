/**
 * One Generate or Chat stream: the engine, the chat parser and the wire, under a client that may be
 * gone at any write or poll.
 */
module Service {
  import opened ByteStrings
  import opened StreamFilters
  import opened KvCache
  import opened Generation
  import opened ChatStreams
  import opened Wire
  import opened EngineObject

  /** Whether each write reaches the client, and what each poll for cancellation answers. */
  datatype Client = Client(accepts: nat -> bool, cancelled: nat -> bool)

  /** `chat` is the parser of a Chat stream, `None` for Generate. */
  datatype Endpoint = Endpoint(client: Client, chat: Option<Parser>, json: Json)

  /** Every write attempted, whether the client is known to be gone, the polls made, the chat state. */
  datatype Session = Session(attempts: seq<Chunk>, gone: bool, polls: nat, chat: Chat)

  const NEW_SESSION := Session([], false, 0, NEW_CHAT)

  function WriteText(ep: Endpoint, s: Session, text: Bytes): (Session, bool)
  {
    var ok := ep.client.accepts(|s.attempts|);
    (s.(attempts := s.attempts + [Text(text)], gone := s.gone || !ok), ok)
  }

  function Poll(ep: Endpoint, s: Session): Session
  {
    s.(polls := s.polls + 1, gone := s.gone || ep.client.cancelled(s.polls))
  }

  /** The chunk callback; its answer is false when the client is found to be gone. */
  function OnChunk(ep: Endpoint, s: Session, text: Bytes): (Session, bool)
  {
    var polled := Poll(ep, s);
    if ep.client.cancelled(s.polls) then (polled, false)
    else if ep.chat.None? then WriteText(ep, polled, text)
    else
      var (chat, visible) := PushText(ep.chat.value, s.chat, text);
      var pushed := polled.(chat := chat);
      if visible == [] then (pushed, true) else WriteText(ep, pushed, visible)
  }

  /** The session after the engine has handed these chunks to the callback. */
  function Handled(ep: Endpoint, offered: seq<Bytes>): Session
  {
    if offered == [] then NEW_SESSION
    else OnChunk(ep, Handled(ep, offered[..|offered| - 1]), offered[|offered| - 1]).0
  }

  /** The callback as the engine sees it. */
  function Callback(ep: Endpoint): Receiver
  {
    (offered: seq<Bytes>) =>
      if offered == [] || OnChunk(ep, Handled(ep, offered[..|offered| - 1]), offered[|offered| - 1]).1
      then Accept else Decline
  }

  /** Everything after the engine returned: the last poll, the chat tail, the finish chunk. */
  function Complete(ep: Endpoint, s: Session, reason: FinishReason, stats: Stats): Session
  {
    var (closed, calls) := CloseChat(ep, Poll(ep, s));
    if closed.gone then closed
    else
      closed.(attempts := closed.attempts + [FinishChunk(reason, stats, calls)],
              gone := !ep.client.accepts(|closed.attempts|))
  }

  function CloseChat(ep: Endpoint, s: Session): (Session, seq<ToolCall>)
  {
    if s.gone || ep.chat.None? then (s, [])
    else
      var (chat, tail, calls) := FinishChat(ep.chat.value, ep.json, s.chat);
      var finished := s.(chat := chat);
      (if tail == [] then finished else WriteText(ep, finished, tail).0, calls)
  }

  function StatsOf(q: Request, o: Outcome): Stats
  {
    Stats(if q.prompt.Some? then |q.prompt.value| else 0, |o.tokens|, o.kept)
  }

  /** The session a stream leaves; after an engine error nothing more is written. */
  function Stream(m: Model, b: Backend, ep: Endpoint, q: Request, e: Engine): Session
    requires m.nBatch > 0
  {
    var o := Generate(m, b, q, Callback(ep), e);
    var s := Handled(ep, o.filter.offered);
    if o.ending.Finished? then Complete(ep, s, o.ending.reason, StatsOf(q, o)) else s
  }

  /** One stream's locals and closures, as an object. */
  class StreamObject {
    const ep: Endpoint
    var attempts: seq<Chunk>
    var clientGone: bool
    var polls: nat
    const chat: ChatStream?

    function State(): Session
      reads this, chat
    {
      Session(attempts, clientGone, polls, if chat == null then NEW_CHAT else chat.State())
    }

    ghost predicate Valid()
    {
      && (ep.chat.Some? <==> chat != null)
      && (chat != null ==> chat.parser == ep.chat.value && chat.json == ep.json)
    }

    constructor (ep: Endpoint)
      ensures Valid() && this.ep == ep && State() == NEW_SESSION
      ensures chat == null || fresh(chat)
    {
      this.ep, attempts, clientGone, polls := ep, [], false, 0;
      if ep.chat.Some? {
        var parser := new ChatStream(ep.chat.value, ep.json);
        chat := parser;
      } else {
        chat := null;
      }
    }

    method DoPoll() returns (cancelled: bool)
      modifies this`clientGone, this`polls
      ensures State() == Poll(ep, old(State())) && cancelled == ep.client.cancelled(old(polls))
    {
      cancelled := ep.client.cancelled(polls);
      polls := polls + 1;
      if cancelled {
        clientGone := true;
      }
    }

    method DoWriteText(text: Bytes) returns (ok: bool)
      modifies this`attempts, this`clientGone
      ensures (State(), ok) == WriteText(ep, old(State()), text)
    {
      ok := ep.client.accepts(|attempts|);
      attempts := attempts + [Text(text)];
      if !ok {
        clientGone := true;
      }
    }

    method HandleChunk(text: Bytes) returns (ok: bool)
      requires Valid()
      modifies this`attempts, this`clientGone, this`polls, chat
      ensures Valid() && (State(), ok) == OnChunk(ep, old(State()), text)
    {
      var cancelled := DoPoll();
      if cancelled {
        return false;
      }
      if chat == null {
        ok := DoWriteText(text);
        return;
      }
      var visible := chat.Push(text);
      if visible == [] {
        return true;
      }
      ok := DoWriteText(visible);
    }

    /** The callback's calls, in the order the engine made them. */
    method HandleAll(offered: seq<Bytes>)
      requires Valid() && State() == NEW_SESSION
      modifies this`attempts, this`clientGone, this`polls, chat
      ensures State() == Handled(ep, offered)
    {
      hide OnChunk;
      for i := 0 to |offered|
        invariant State() == Handled(ep, offered[..i])
      {
        assert offered[..i + 1][..i] == offered[..i];
        var _ := HandleChunk(offered[i]);
      }
      assert offered[..|offered|] == offered;
    }

    method Close(reason: FinishReason, stats: Stats)
      requires Valid()
      modifies this`attempts, this`clientGone, this`polls, chat
      ensures State() == Complete(ep, old(State()), reason, stats)
    {
      hide FinishChat; hide FinishChunk;
      var _ := DoPoll();
      var calls: seq<ToolCall> := [];
      if !clientGone && chat != null {
        var tail;
        tail, calls := chat.Finish();
        if tail != [] {
          var _ := DoWriteText(tail);
        }
      }
      var finish := MakeFinishChunk(reason, stats, calls);
      if !clientGone {
        var written := ep.client.accepts(|attempts|);
        attempts := attempts + [finish];
        if !written {
          clientGone := true;
        }
      }
    }

    /**
     * The stream. The engine is given the callback as a function of the chunks it has been handed;
     * the calls are then made on this object, in the same order and with the same answers.
     */
    method Run(engine: LlamaEngine, q: Request) returns (ok: bool)
      requires Valid() && State() == NEW_SESSION && engine.model.nBatch > 0
      modifies this`attempts, this`clientGone, this`polls, chat, engine
      ensures State() == Stream(engine.model, engine.backend, ep, q, old(engine.State()))
      ensures engine.State() == Generate(engine.model, engine.backend, q, Callback(ep), old(engine.State())).engine
      ensures ok == Generate(engine.model, engine.backend, q, Callback(ep), old(engine.State())).ending.Finished?
    {
      hide Generate; hide Complete; hide Handled;
      var o := engine.RunGenerate(q, Callback(ep));
      HandleAll(o.filter.offered);
      if !o.ending.Finished? {
        return false;
      }
      Close(o.ending.reason, StatsOf(q, o));
      return true;
    }
  }
}
