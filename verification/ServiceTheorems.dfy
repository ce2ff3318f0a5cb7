/**
 * What a client can rely on, over every stream: the shape of the wire, no word after it is gone,
 * tool calls only as the reason, text that the request alone determines.
 */
module ServiceTheorems {
  import opened ByteStrings
  import opened Utf8
  import opened Logits
  import opened Stops
  import opened StreamFilters
  import opened FilterTheorems
  import opened KvCache
  import opened Generation
  import opened GenerationTheorems
  import opened RunTheorems
  import opened ChatStreams
  import opened ChatUtf8
  import opened Wire
  import opened Service

  // ---- The callback's side ----

  /** Only non-empty text so far, and nothing written after a write that failed. */
  ghost predicate TextOnly(ep: Endpoint, attempts: seq<Chunk>)
  {
    && (forall i | 0 <= i < |attempts| :: attempts[i].Text? && attempts[i].text != [])
    && (forall i | 0 <= i < |attempts| - 1 :: ep.client.accepts(i))
  }

  /** The client is known to be gone exactly when a poll has said so or a write has failed. */
  ghost predicate GoneIsKnown(ep: Endpoint, s: Session)
  {
    s.gone <==> (exists k | 0 <= k < s.polls :: ep.client.cancelled(k))
                || (exists i | 0 <= i < |s.attempts| :: !ep.client.accepts(i))
  }

  ghost predicate InProgress(ep: Endpoint, s: Session)
  {
    TextOnly(ep, s.attempts) && GoneIsKnown(ep, s)
  }

  lemma WriteKeepsShape(ep: Endpoint, s: Session, text: Bytes)
    requires InProgress(ep, s) && !s.gone && text != []
    ensures InProgress(ep, WriteText(ep, s, text).0)
    ensures WriteText(ep, s, text).0.gone <==> !WriteText(ep, s, text).1
  {
    var s' := WriteText(ep, s, text).0;
    var n := |s.attempts|;
    assert !ep.client.accepts(n) ==> exists i | 0 <= i < |s'.attempts| :: !ep.client.accepts(i);
  }

  lemma PollKeepsShape(ep: Endpoint, s: Session)
    requires InProgress(ep, s)
    ensures InProgress(ep, Poll(ep, s))
  {
    var s' := Poll(ep, s);
    assert ep.client.cancelled(s.polls) ==> exists k | 0 <= k < s'.polls :: ep.client.cancelled(k);
  }

  lemma ChunkKeepsShape(ep: Endpoint, s: Session, text: Bytes)
    requires InProgress(ep, s) && !s.gone && text != []
    ensures var (s', ok) := OnChunk(ep, s, text); InProgress(ep, s') && (ok <==> !s'.gone)
  {
    hide InProgress; hide PushText;
    PollKeepsShape(ep, s);
    var polled := Poll(ep, s);
    if !polled.gone {
      if ep.chat.None? {
        WriteKeepsShape(ep, polled, text);
      } else {
        var (chat, visible) := PushText(ep.chat.value, s.chat, text);
        ChatStateIsPrivate(ep, polled, chat);
        if visible != [] {
          WriteKeepsShape(ep, polled.(chat := chat), visible);
        }
      }
    }
  }

  lemma ChatStateIsPrivate(ep: Endpoint, s: Session, chat: Chat)
    requires InProgress(ep, s)
    ensures InProgress(ep, s.(chat := chat))
  {
  }

  /** The client is gone exactly when the callback has declined; it never throws. */
  lemma {:induction false} HandledShape(ep: Endpoint, offered: seq<Bytes>)
    requires AcceptedSoFar(Callback(ep), offered)
    ensures var s := Handled(ep, offered);
            && InProgress(ep, s)
            && LastVerdict(Callback(ep), offered) == if s.gone then Decline else Accept
  {
    hide OnChunk; hide InProgress;
    if offered == [] {
      assert InProgress(ep, NEW_SESSION) by { NewSessionShape(ep); }
    } else {
      var n := |offered|;
      var init := offered[..n - 1];
      InitAccepted(Callback(ep), offered);
      HandledShape(ep, init);
      ChunkKeepsShape(ep, Handled(ep, init), offered[n - 1]);
    }
  }

  lemma NewSessionShape(ep: Endpoint)
    ensures InProgress(ep, NEW_SESSION)
  {
  }

  lemma InitAccepted(recv: Receiver, offered: seq<Bytes>)
    requires AcceptedSoFar(recv, offered) && offered != []
    ensures var init := offered[..|offered| - 1];
            AcceptedSoFar(recv, init) && LastVerdict(recv, init) == Accept && offered[|offered| - 1] != []
  {
    var init := offered[..|offered| - 1];
    forall i | 0 < i < |init| ensures recv(init[..i]) == Accept {
      assert init[..i] == offered[..i];
    }
  }

  // ---- The whole stream ----

  /** The chunk a stream ended with, if it got that far. */
  function FinishOf(attempts: seq<Chunk>): Option<Chunk>
  {
    if attempts != [] && attempts[|attempts| - 1].Last? then Some(attempts[|attempts| - 1]) else None
  }

  function TextPart(attempts: seq<Chunk>): seq<Chunk>
  {
    if FinishOf(attempts).Some? then attempts[..|attempts| - 1] else attempts
  }

  /** All the text of the text chunks. */
  function AllText(attempts: seq<Chunk>): Bytes
  {
    if attempts == [] then []
    else
      var last := attempts[|attempts| - 1];
      AllText(attempts[..|attempts| - 1]) + if last.Text? then last.text else []
  }

  lemma CloseKeepsShape(ep: Endpoint, s: Session)
    requires InProgress(ep, s)
    ensures InProgress(ep, CloseChat(ep, s).0)
  {
    hide InProgress; hide FinishChat;
    if !s.gone && ep.chat.Some? {
      var (chat, tail, _) := FinishChat(ep.chat.value, ep.json, s.chat);
      ChatStateIsPrivate(ep, s, chat);
      if tail != [] {
        WriteKeepsShape(ep, s.(chat := chat), tail);
      }
    }
  }

  /**
   * A stream that returns normally: non-empty text chunks, then one finish chunk, attempted exactly
   * when no poll has reported the client gone and no text write has failed; nothing follows a write
   * that failed. It has tool calls exactly when they are its reason, and is never CANCELLED.
   */
  lemma WireShape(m: Model, b: Backend, ep: Endpoint, q: Request, e: Engine)
    requires m.nBatch > 0 && Generate(m, b, q, Callback(ep), e).ending.Finished?
    ensures var s := Stream(m, b, ep, q, e);
            var texts, finish := TextPart(s.attempts), FinishOf(s.attempts);
            && (forall i | 0 <= i < |texts| :: texts[i].Text? && texts[i].text != [])
            && (forall i | 0 <= i < |s.attempts| - 1 :: ep.client.accepts(i))
            && s.polls == |Generate(m, b, q, Callback(ep), e).filter.offered| + 1
            && (finish.Some? <==>
                  && (forall k | 0 <= k < s.polls :: !ep.client.cancelled(k))
                  && (forall i | 0 <= i < |texts| :: ep.client.accepts(i)))
            && (finish.Some? ==>
                  && (finish.value.calls != [] <==> finish.value.reason == WireToolCalls)
                  && finish.value.reason != WireCancelled)
            && (Generate(m, b, q, Callback(ep), e).ending.reason == Cancel ==> s.gone && finish.None?)
  {
    hide Generate; hide OnChunk; hide Handled; hide FinishChunk; hide CloseChat; hide Callback; hide AcceptedSoFar;
    GenerateAsksWhileAccepted(m, b, q, Callback(ep), e);
    var o := Generate(m, b, q, Callback(ep), e);
    HandledShape(ep, o.filter.offered);
    var s := Handled(ep, o.filter.offered);
    PollKeepsShape(ep, s);
    CloseKeepsShape(ep, Poll(ep, s));
    GoneStays(ep, s);
    PollsPerChunk(ep, o.filter.offered);
    ClosePollsNot(ep, Poll(ep, s));
  }

  lemma ClosePollsNot(ep: Endpoint, s: Session)
    ensures CloseChat(ep, s).0.polls == s.polls
  {
  }

  lemma GoneStays(ep: Endpoint, s: Session)
    ensures s.gone ==> CloseChat(ep, Poll(ep, s)).0.gone
  {
  }

  /** An engine error: text chunks only, and nothing after a write that failed. */
  lemma ErrorShape(m: Model, b: Backend, ep: Endpoint, q: Request, e: Engine)
    requires m.nBatch > 0 && Generate(m, b, q, Callback(ep), e).ending == Thrown
    ensures TextOnly(ep, Stream(m, b, ep, q, e).attempts)
  {
    hide Generate; hide Callback; hide AcceptedSoFar; hide Handled;
    GenerateAsksWhileAccepted(m, b, q, Callback(ep), e);
    HandledShape(ep, Generate(m, b, q, Callback(ep), e).filter.offered);
  }

  // ---- Every write, and what the finish chunk says ----

  /** The callback polls once for every chunk it is given. */
  lemma {:induction false} PollsPerChunk(ep: Endpoint, offered: seq<Bytes>)
    ensures Handled(ep, offered).polls == |offered|
  {
    hide PushText;
    if offered != [] {
      PollsPerChunk(ep, offered[..|offered| - 1]);
    }
  }

  /** What the stream has for the client of the chunks it was given: themselves, or what the parser makes of them. */
  function Visible(ep: Endpoint, offered: seq<Bytes>): seq<Bytes>
  {
    match ep.chat case None => offered case Some(p) => PushAll(p, offered).1
  }

  /** One text chunk for each of these that is not empty. */
  function TextsOf(parts: seq<Bytes>): seq<Chunk>
  {
    if parts == [] then []
    else
      var last := parts[|parts| - 1];
      TextsOf(parts[..|parts| - 1]) + if last == [] then [] else [Text(last)]
  }

  lemma TextsSnoc(parts: seq<Bytes>, last: Bytes)
    ensures TextsOf(parts + [last]) == TextsOf(parts) + if last == [] then [] else [Text(last)]
  {
    assert (parts + [last])[..|parts|] == parts;
  }

  /** The session holds what is visible of these chunks, and so does the parser. */
  ghost predicate HasWritten(ep: Endpoint, s: Session, chunks: seq<Bytes>)
  {
    && s.attempts == TextsOf(Visible(ep, chunks))
    && (ep.chat.Some? ==> s.chat == PushAll(ep.chat.value, chunks).0)
  }

  lemma OneMoreWritten(ep: Endpoint, s: Session, chunks: seq<Bytes>, last: Bytes)
    requires HasWritten(ep, s, chunks) && last != []
    ensures HasWritten(ep, OnChunk(ep, s, last).0, if ep.client.cancelled(s.polls) then chunks else chunks + [last])
  {
    hide PushText; hide TextsOf;
    if !ep.client.cancelled(s.polls) {
      if ep.chat.None? {
        TextsSnoc(chunks, last);
      } else {
        var all := chunks + [last];
        assert all[..|all| - 1] == chunks && all[|all| - 1] == last;
        PushAllSnoc(ep.chat.value, all);
        TextsSnoc(PushAll(ep.chat.value, chunks).1, PushText(ep.chat.value, s.chat, last).1);
      }
    }
  }

  /** A chunk that was accepted was not polled away. */
  lemma AcceptedIsPolled(ep: Endpoint, offered: seq<Bytes>)
    requires offered != [] && LastVerdict(Callback(ep), offered) == Accept
    ensures !ep.client.cancelled(|offered| - 1)
  {
    hide Handled; hide PushText;
    PollsPerChunk(ep, offered[..|offered| - 1]);
  }

  lemma {:induction false} AcceptedWrites(ep: Endpoint, offered: seq<Bytes>)
    requires AcceptedSoFar(Callback(ep), offered) && LastVerdict(Callback(ep), offered) == Accept
    ensures HasWritten(ep, Handled(ep, offered), offered)
  {
    hide OnChunk; hide AcceptedSoFar; hide Callback; hide HasWritten;
    if offered == [] {
      NothingHandled(ep);
    } else {
      var n := |offered|;
      var init, last := offered[..n - 1], offered[n - 1];
      InitAccepted(Callback(ep), offered);
      AcceptedWrites(ep, init);
      AcceptedIsPolled(ep, offered);
      PollsPerChunk(ep, init);
      OneMoreWritten(ep, Handled(ep, init), init, last);
      assert offered == init + [last];
    }
  }

  /** The chunks that reached the parser or the wire: all, or all but the last if its poll found the client gone. */
  function Read(ep: Endpoint, offered: seq<Bytes>): seq<Bytes>
  {
    if offered != [] && ep.client.cancelled(|offered| - 1) then offered[..|offered| - 1] else offered
  }

  /** Whatever the client's last answer: the writes attempted are exactly those texts, in order. */
  lemma HandledWrites(ep: Endpoint, offered: seq<Bytes>)
    requires AcceptedSoFar(Callback(ep), offered)
    ensures HasWritten(ep, Handled(ep, offered), Read(ep, offered))
  {
    hide OnChunk; hide AcceptedSoFar; hide Callback; hide HasWritten;
    if offered == [] {
      NothingHandled(ep);
    } else {
      var n := |offered|;
      var init, last := offered[..n - 1], offered[n - 1];
      InitAccepted(Callback(ep), offered);
      AcceptedWrites(ep, init);
      PollsPerChunk(ep, init);
      OneMoreWritten(ep, Handled(ep, init), init, last);
      assert offered == init + [last];
    }
  }

  lemma NothingHandled(ep: Endpoint)
    ensures HasWritten(ep, Handled(ep, []), [])
  {
  }

  /** A poll among the first `polls` found the client gone, or one of the first `writes` writes failed. */
  ghost predicate KnownGone(client: Client, polls: nat, writes: nat)
  {
    (exists k | 0 <= k < polls :: client.cancelled(k)) || (exists i | 0 <= i < writes :: !client.accepts(i))
  }

  /**
   * Every write a stream attempts, in every ending, to every client: the texts of the chunks read, and
   * unless the client is then known to be gone, by one more poll too, the parser's tail and the finish
   * chunk, which a failed write of the tail prevents. After an engine error there is no more poll.
   */
  lemma StreamWrites(m: Model, b: Backend, ep: Endpoint, q: Request, e: Engine)
    requires m.nBatch > 0
    ensures var o, s := Generate(m, b, q, Callback(ep), e), Stream(m, b, ep, q, e);
            var n, read := |o.filter.offered|, Read(ep, o.filter.offered);
            var texts := TextsOf(Visible(ep, read));
            if o.ending == Thrown then s.attempts == texts && s.polls == n
            else
              && s.polls == n + 1
              && if KnownGone(ep.client, n + 1, |texts|) then s.attempts == texts
                 else
                   var tail := if ep.chat.None? then [] else FinishChat(ep.chat.value, ep.json, PushAll(ep.chat.value, read).0).1;
                   var all := texts + if tail == [] then [] else [Text(tail)];
                   if tail != [] && !ep.client.accepts(|texts|) then s.attempts == all
                   else |s.attempts| == |all| + 1 && s.attempts[..|all|] == all && s.attempts[|all|].Last?
  {
    hide Generate; hide Callback; hide Handled; hide AcceptedSoFar; hide Visible; hide Read; hide TextsOf; hide FinishChat;
    hide PushAll; hide FinishChunk; hide TextOnly;
    GenerateAsksWhileAccepted(m, b, q, Callback(ep), e);
    var o := Generate(m, b, q, Callback(ep), e);
    var s := Handled(ep, o.filter.offered);
    HandledShape(ep, o.filter.offered);
    HandledWrites(ep, o.filter.offered);
    PollsPerChunk(ep, o.filter.offered);
    PollKeepsShape(ep, s);
    assert Poll(ep, s).gone <==> KnownGone(ep.client, s.polls + 1, |s.attempts|);
  }

  /**
   * What the finish chunk says: TOOL_CALLS exactly with calls, which only a Chat stream has and only
   * one that was completed; otherwise the engine's own reason, which is not CANCELLED; and the counts
   * of prompt tokens, completion tokens and cached prompt tokens.
   */
  lemma FinishSays(m: Model, b: Backend, ep: Endpoint, q: Request, e: Engine)
    requires m.nBatch > 0 && Generate(m, b, q, Callback(ep), e).ending.Finished?
    requires FinishOf(Stream(m, b, ep, q, e).attempts).Some?
    ensures var o, finish := Generate(m, b, q, Callback(ep), e), FinishOf(Stream(m, b, ep, q, e).attempts).value;
            && (finish.reason == WireToolCalls <==> finish.calls != [])
            && (finish.calls != [] ==> ep.chat.Some? && o.ending.reason in {Eog, Stop})
            && o.ending.reason != Cancel
            && (finish.calls == [] ==>
                  match o.ending.reason
                  case Eog => finish.reason == WireEog
                  case Length => finish.reason == WireLength
                  case Stop => finish.reason == WireStop
                  case Cancel => finish.reason == WireCancelled)
            && q.prompt.Some?
            && finish.stats.promptTokens == |q.prompt.value|
            && finish.stats.completionTokens == |o.tokens|
            && finish.stats.cachedPromptTokens == o.kept
  {
    hide Generate; hide Callback; hide Handled; hide AcceptedSoFar; hide InProgress; hide FinishChat; hide WriteText; hide FinishChunk;
    GenerateAsksWhileAccepted(m, b, q, Callback(ep), e);
    WireShape(m, b, ep, q, e);
    FinishedHasPrompt(m, b, q, Callback(ep), e);
    var o := Generate(m, b, q, Callback(ep), e);
    HandledShape(ep, o.filter.offered);
    var s := Handled(ep, o.filter.offered);
    PollKeepsShape(ep, s);
    CloseKeepsShape(ep, Poll(ep, s));
    NoFinishInProgress(ep, CloseChat(ep, Poll(ep, s)).0);
  }

  lemma FinishedHasPrompt(m: Model, b: Backend, q: Request, recv: Receiver, e: Engine)
    requires m.nBatch > 0 && Generate(m, b, q, recv, e).ending.Finished?
    ensures q.prompt.Some?
  {
  }

  // ---- The text on the wire ----

  lemma AllTextSnoc(attempts: seq<Chunk>, chunk: Chunk)
    ensures AllText(attempts + [chunk]) == AllText(attempts) + if chunk.Text? then chunk.text else []
  {
    assert (attempts + [chunk])[..|attempts|] == attempts;
  }

  /** What the callback has made of the chunks: for Generate they are the text, for Chat the parser's pushes. */
  lemma {:induction false} HandledText(ep: Endpoint, offered: seq<Bytes>)
    requires AcceptedSoFar(Callback(ep), offered) && LastVerdict(Callback(ep), offered) == Accept
    ensures var s := Handled(ep, offered);
            match ep.chat
            case None => AllText(s.attempts) == Concat(offered)
            case Some(p) => s.chat == PushAll(p, offered).0 && AllText(s.attempts) == Concat(PushAll(p, offered).1)
  {
    hide PushText; hide AcceptedSoFar;
    if offered != [] {
      var n := |offered|;
      var init := offered[..n - 1];
      InitAccepted(Callback(ep), offered);
      HandledText(ep, init);
      var s := Handled(ep, init);
      if ep.chat.None? {
        AllTextSnoc(s.attempts, Text(offered[n - 1]));
      } else {
        var (_, visible) := PushText(ep.chat.value, s.chat, offered[n - 1]);
        AllTextSnoc(s.attempts, Text(visible));
        ConcatSnoc(PushAll(ep.chat.value, init).1, visible);
      }
    }
  }

  /** What a client that was sent a finish chunk has been sent before it. */
  lemma FinishedText(ep: Endpoint, offered: seq<Bytes>, reason: FinishReason, stats: Stats)
    requires AcceptedSoFar(Callback(ep), offered)
    requires LastVerdict(Callback(ep), offered) == Accept
    requires FinishOf(Complete(ep, Handled(ep, offered), reason, stats).attempts).Some?
    ensures var s := Complete(ep, Handled(ep, offered), reason, stats);
            AllText(s.attempts) ==
            match ep.chat
            case None => Concat(offered)
            case Some(p) => Shown(p, ep.json, offered)
  {
    hide Callback; hide Handled; hide AcceptedSoFar; hide FinishChat; hide FinishChunk; hide AllText; hide PushAll; hide InProgress;
    HandledText(ep, offered);
    HandledShape(ep, offered);
    var s := Handled(ep, offered);
    PollKeepsShape(ep, s);
    CloseKeepsShape(ep, Poll(ep, s));
    var (closed, calls) := CloseChat(ep, Poll(ep, s));
    NoFinishInProgress(ep, closed);
    AllTextSnoc(closed.attempts, FinishChunk(reason, stats, calls));
    if ep.chat.Some? {
      AllTextSnoc(s.attempts, Text(FinishChat(ep.chat.value, ep.json, s.chat).1));
    }
  }

  lemma NoFinishInProgress(ep: Endpoint, s: Session)
    requires InProgress(ep, s)
    ensures FinishOf(s.attempts).None?
  {
  }

  /** The text of a generation, cut offline. */
  function CutText(m: Model, q: Request, tokens: seq<Token>): Bytes
  {
    match Pieces(m, q, tokens)
    case None => []
    case Some(pieces) => Offline(Concat(pieces), q.stops)
  }

  /** No stop splits a character, and the model's output is UTF-8 so far. */
  ghost predicate CleanText(m: Model, q: Request, tokens: seq<Token>)
  {
    CharacterSafe(q.stops) && ValidPrefix(Concat(Rendered(m, q, tokens)))
  }

  /**
   * End to end. A stream that reached its finish chunk has carried, for Generate, exactly the text of
   * its tokens up to the first stop; for Chat, if the final parse of that text extends every partial
   * one, exactly its content. Nothing of how the text was cut into pieces or chunks is left in it.
   */
  lemma StreamCarriesText(m: Model, b: Backend, ep: Endpoint, q: Request, e: Engine)
    requires m.nBatch > 0 && Generate(m, b, q, Callback(ep), e).ending.Finished?
    requires FinishOf(Stream(m, b, ep, q, e).attempts).Some?
    requires CleanText(m, q, Generate(m, b, q, Callback(ep), e).tokens)
    ensures var o := Generate(m, b, q, Callback(ep), e);
            var text := CutText(m, q, o.tokens);
            && Pieces(m, q, o.tokens).Some?
            && (o.ending.reason == Stop <==> HasStop(Concat(Pieces(m, q, o.tokens).value), q.stops))
            && match ep.chat
               case None => AllText(Stream(m, b, ep, q, e).attempts) == text
               case Some(p) =>
                 p(text, false).Some? && FinalExtends(p, text) ==>
                   AllText(Stream(m, b, ep, q, e).attempts) == p(text, false).value.content
  {
    hide Generate; hide Callback; hide Handled; hide AcceptedSoFar; hide Pieces; hide Rendered; hide Offline; hide FinalExtends;
    hide CharacterSafe; hide Shown; hide AllText; hide OnChunk; hide HasStop; hide Complete; hide ValidPrefix;
    var recv := Callback(ep);
    var o := Generate(m, b, q, recv, e);
    GenerateAsksWhileAccepted(m, b, q, recv, e);
    HandledShape(ep, o.filter.offered);
    FinishMeansAccepted(ep, Handled(ep, o.filter.offered), o.ending.reason, StatsOf(q, o));
    GenerateIsOffline(m, b, q, recv, e);
    FinishedText(ep, o.filter.offered, o.ending.reason, StatsOf(q, o));
    var text := CutText(m, q, o.tokens);
    if ep.chat.Some? && ep.chat.value(text, false).Some? && FinalExtends(ep.chat.value, text) {
      VisibleIsFinalContentIff(ep.chat.value, ep.json, text);
      assert Shown(ep.chat.value, ep.json, o.filter.offered) == ep.chat.value(text, false).value.content;
    }
  }

  /**
   * What a Chat stream that reached its finish chunk has carried, for every parser and any bytes. If
   * the final parse is rejected: the raw output from the first occurrence in it of what the pushes
   * showed, or no more than that. If it is accepted: its content, exactly when that extends it.
   */
  lemma ChatStreamCarries(m: Model, b: Backend, ep: Endpoint, q: Request, e: Engine)
    requires m.nBatch > 0 && ep.chat.Some? && Generate(m, b, q, Callback(ep), e).ending.Finished?
    requires FinishOf(Stream(m, b, ep, q, e).attempts).Some?
    ensures var p, texts := ep.chat.value, Generate(m, b, q, Callback(ep), e).filter.offered;
            var text, shown, sent := Concat(texts), PushAll(p, texts).0.emitted, AllText(Stream(m, b, ep, q, e).attempts);
            match p(text, false)
            case None => sent == (match Find(text, shown) case Some(pos) => text[pos..] case None => shown)
            case Some(final) => sent == final.content <==> shown <= final.content
  {
    hide Generate; hide Callback; hide Handled; hide AcceptedSoFar; hide Shown; hide PushAll; hide AllText;
    hide Complete; hide Find; hide InProgress; hide Concat;
    var recv := Callback(ep);
    var o := Generate(m, b, q, recv, e);
    GenerateAsksWhileAccepted(m, b, q, recv, e);
    HandledShape(ep, o.filter.offered);
    FinishMeansAccepted(ep, Handled(ep, o.filter.offered), o.ending.reason, StatsOf(q, o));
    FinishedText(ep, o.filter.offered, o.ending.reason, StatsOf(q, o));
    if ep.chat.value(Concat(o.filter.offered), false).Some? {
      AcceptedFinishIff(ep.chat.value, ep.json, o.filter.offered);
    } else {
      RejectedFinish(ep.chat.value, ep.json, o.filter.offered);
    }
  }

  /** What Generate has attempted to write, the last chunk refused or not, begins what it was given. */
  lemma HandledIsPrefix(ep: Endpoint, offered: seq<Bytes>)
    requires ep.chat.None? && AcceptedSoFar(Callback(ep), offered)
    ensures AllText(Handled(ep, offered).attempts) <= Concat(offered)
  {
    hide AcceptedSoFar; hide AllText; hide Callback;
    if offered == [] {
      assert AllText([]) == [] by { NothingWritten(); }
    } else {
      var n := |offered|;
      var init := offered[..n - 1];
      InitAccepted(Callback(ep), offered);
      HandledText(ep, init);
      AllTextSnoc(Handled(ep, init).attempts, Text(offered[n - 1]));
    }
  }

  lemma NothingWritten()
    ensures AllText([]) == []
  {
  }

  /**
   * No text of a Generate stream is ever part of a stop: for any bytes, stops and client, in a stream
   * that finishes, is cancelled or ends in an engine error.
   */
  lemma NoStopIsWritten(m: Model, b: Backend, ep: Endpoint, q: Request, e: Engine)
    requires m.nBatch > 0 && ep.chat.None?
    ensures !HasStop(AllText(Stream(m, b, ep, q, e).attempts), q.stops)
  {
    hide Generate; hide Callback; hide Handled; hide AcceptedSoFar; hide AllText; hide HasStop; hide Leftmost; hide StatsOf;
    var recv := Callback(ep);
    GenerateAsksWhileAccepted(m, b, q, recv, e);
    NoStopIsGenerated(m, b, q, recv, e);
    var o := Generate(m, b, q, recv, e);
    HandledIsPrefix(ep, o.filter.offered);
    var s := Handled(ep, o.filter.offered);
    var text, sent := Concat(o.filter.offered), AllText(s.attempts);
    assert sent == text[..|sent|];
    NoStopInPrefix(sent, text, q.stops);
    if o.ending.Finished? {
      AllTextSnoc(s.attempts, FinishChunk(o.ending.reason, StatsOf(q, o), []));
      assert AllText(Complete(ep, s, o.ending.reason, StatsOf(q, o)).attempts) == sent;
    }
  }

  lemma NoStopInPrefix(text: Bytes, more: Bytes, stops: seq<Bytes>)
    requires text <= more && !HasStop(more, stops)
    ensures !HasStop(text, stops)
  {
    hide HasStop; hide Leftmost;
    if HasStop(text, stops) {
      HasStopGrows(text, more, stops);
    }
  }

  // ---- When a cancelled call is noticed ----

  /**
   * A cancelled call is noticed at the next chunk, not the next token: a stream goes on for at most
   * three tokens with text, or for fewer than some stop has bytes, without asking whether to go on.
   */
  lemma PollsAreSoon(ep: Endpoint, stops: seq<Bytes>, pieces: seq<Bytes>, more: seq<Bytes>)
    requires Pushes(stops, Callback(ep), pieces + more).status == Continue
    requires Handled(ep, Pushes(stops, Callback(ep), pieces + more).filter.offered).polls ==
             Handled(ep, Pushes(stops, Callback(ep), pieces).filter.offered).polls
    requires forall i | 0 <= i < |more| :: more[i] != []
    ensures |more| <= 3 || exists i :: 0 <= i < |stops| && |more| < |stops[i]|
  {
    hide Pushes; hide Handled; hide Callback;
    PollsPerChunk(ep, Pushes(stops, Callback(ep), pieces).filter.offered);
    PollsPerChunk(ep, Pushes(stops, Callback(ep), pieces + more).filter.offered);
    QuietPieces(stops, Callback(ep), pieces, more);
  }

  lemma FinishMeansAccepted(ep: Endpoint, s: Session, reason: FinishReason, stats: Stats)
    requires InProgress(ep, s)
    requires FinishOf(Complete(ep, s, reason, stats).attempts).Some?
    ensures !s.gone
  {
    hide InProgress; hide FinishChunk; hide CloseChat;
    PollKeepsShape(ep, s);
    CloseKeepsShape(ep, Poll(ep, s));
    NoFinishInProgress(ep, CloseChat(ep, Poll(ep, s)).0);
    GoneStays(ep, s);
  }

  /** Every text written is valid UTF-8, and what the parser has been given and has shown is too. */
  ghost predicate SessionIsUtf8(s: Session)
  {
    && (forall i | 0 <= i < |s.attempts| :: s.attempts[i].Text? ==> Valid(s.attempts[i].text))
    && ChatIsUtf8(s.chat)
  }

  /** For Chat, the parser makes valid UTF-8 of valid UTF-8; for Generate nothing is asked. */
  ghost predicate EndpointKeepsUtf8(ep: Endpoint)
  {
    ep.chat.Some? ==> ParserKeepsUtf8(ep.chat.value)
  }

  lemma WriteIsUtf8(ep: Endpoint, s: Session, text: Bytes)
    requires SessionIsUtf8(s) && Valid(text)
    ensures SessionIsUtf8(WriteText(ep, s, text).0)
  {
    hide Valid;
  }

  lemma ChatChangesOnly(s: Session, chat: Chat)
    requires SessionIsUtf8(s) && ChatIsUtf8(chat)
    ensures SessionIsUtf8(s.(chat := chat))
  {
    hide Valid; hide ChatIsUtf8;
  }

  lemma PollIsUtf8(ep: Endpoint, s: Session)
    requires SessionIsUtf8(s)
    ensures SessionIsUtf8(Poll(ep, s))
  {
    hide Valid; hide ChatIsUtf8;
  }

  lemma ChunkIsUtf8(ep: Endpoint, s: Session, text: Bytes)
    requires EndpointKeepsUtf8(ep) && SessionIsUtf8(s) && Valid(text)
    ensures SessionIsUtf8(OnChunk(ep, s, text).0)
  {
    hide Valid; hide PushText; hide ParserKeepsUtf8; hide WriteText; hide Poll;
    PollIsUtf8(ep, s);
    var polled := Poll(ep, s);
    if ep.chat.None? {
      WriteIsUtf8(ep, polled, text);
    } else {
      assert ChatIsUtf8(s.chat);
      PushIsUtf8(ep.chat.value, s.chat, text);
      var (chat, visible) := PushText(ep.chat.value, s.chat, text);
      ChatChangesOnly(polled, chat);
      WriteIsUtf8(ep, polled.(chat := chat), visible);
    }
  }

  lemma {:induction false} HandledIsUtf8(ep: Endpoint, offered: seq<Bytes>)
    requires EndpointKeepsUtf8(ep) && AllValid(offered)
    ensures SessionIsUtf8(Handled(ep, offered))
  {
    hide OnChunk; hide Valid; hide EndpointKeepsUtf8;
    if offered == [] {
      NothingIsValid();
    } else {
      var n := |offered|;
      HandledIsUtf8(ep, offered[..n - 1]);
      ChunkIsUtf8(ep, Handled(ep, offered[..n - 1]), offered[n - 1]);
    }
  }

  lemma CompleteIsUtf8(ep: Endpoint, s: Session, reason: FinishReason, stats: Stats)
    requires EndpointKeepsUtf8(ep) && SessionIsUtf8(s)
    ensures SessionIsUtf8(Complete(ep, s, reason, stats))
  {
    hide Valid; hide FinishChat; hide ParserKeepsUtf8; hide FinishChunk; hide Poll;
    PollIsUtf8(ep, s);
    CloseIsUtf8(ep, Poll(ep, s));
  }

  lemma CloseIsUtf8(ep: Endpoint, s: Session)
    requires EndpointKeepsUtf8(ep) && SessionIsUtf8(s)
    ensures SessionIsUtf8(CloseChat(ep, s).0)
  {
    hide Valid; hide FinishChat; hide ParserKeepsUtf8; hide WriteText; hide ChatIsUtf8;
    if !s.gone && ep.chat.Some? {
      var (chat, tail, _) := FinishChat(ep.chat.value, ep.json, s.chat);
      FinishIsUtf8(ep.chat.value, ep.json, s.chat);
      ChatChangesOnly(s, chat);
      WriteIsUtf8(ep, s.(chat := chat), tail);
    }
  }

  /**
   * Every text chunk ever written is valid UTF-8 by itself: for Generate and Chat, to a client that
   * stays or goes, in a stream that finishes, is cancelled or ends in an engine error.
   */
  lemma WrittenTextIsUtf8(m: Model, b: Backend, ep: Endpoint, q: Request, e: Engine)
    requires m.nBatch > 0 && EndpointKeepsUtf8(ep)
    requires CleanText(m, q, Generate(m, b, q, Callback(ep), e).tokens)
    ensures forall i | 0 <= i < |Stream(m, b, ep, q, e).attempts| ::
              Stream(m, b, ep, q, e).attempts[i].Text? ==> Valid(Stream(m, b, ep, q, e).attempts[i].text)
  {
    hide Generate; hide Callback; hide Handled; hide Complete; hide Rendered; hide CharacterSafe; hide Valid;
    hide EndpointKeepsUtf8; hide ChatIsUtf8; hide AllValid; hide ValidPrefix;
    GeneratedChunksAreUtf8(m, b, q, Callback(ep), e);
    var o := Generate(m, b, q, Callback(ep), e);
    HandledIsUtf8(ep, o.filter.offered);
    if o.ending.Finished? {
      CompleteIsUtf8(ep, Handled(ep, o.filter.offered), o.ending.reason, StatsOf(q, o));
    }
    assert SessionIsUtf8(Stream(m, b, ep, q, e));
  }

  /** Every call a finish chunk carries is whole: it has a name, and valid JSON for its arguments. */
  lemma FinishCarriesWholeCalls(m: Model, b: Backend, ep: Endpoint, q: Request, e: Engine)
    requires m.nBatch > 0 && ep.json(EMPTY_OBJECT) && Generate(m, b, q, Callback(ep), e).ending.Finished?
    ensures var finish := FinishOf(Stream(m, b, ep, q, e).attempts);
            finish.Some? ==>
              forall i | 0 <= i < |finish.value.calls| ::
                finish.value.calls[i].name != [] && ep.json(finish.value.calls[i].arguments)
  {
    hide Generate; hide Callback; hide Handled; hide AcceptedSoFar; hide InProgress; hide FinishChat; hide WriteText;
    GenerateAsksWhileAccepted(m, b, q, Callback(ep), e);
    var o := Generate(m, b, q, Callback(ep), e);
    HandledShape(ep, o.filter.offered);
    var polled := Poll(ep, Handled(ep, o.filter.offered));
    PollKeepsShape(ep, Handled(ep, o.filter.offered));
    CloseKeepsShape(ep, polled);
    NoFinishInProgress(ep, CloseChat(ep, polled).0);
    if ep.chat.Some? {
      CallsAreWhole(ep.chat.value, ep.json, polled.chat);
    }
  }

  /** The calls in a finish chunk, told by the parser and the chunks it was given: none unless the turn was completed. */
  lemma FinishCarriesFinalCalls(m: Model, b: Backend, ep: Endpoint, q: Request, e: Engine)
    requires m.nBatch > 0 && ep.chat.Some? && Generate(m, b, q, Callback(ep), e).ending.Finished?
    requires FinishOf(Stream(m, b, ep, q, e).attempts).Some?
    ensures var o := Generate(m, b, q, Callback(ep), e);
            var p, texts := ep.chat.value, o.filter.offered;
            FinishOf(Stream(m, b, ep, q, e).attempts).value.calls ==
            if o.ending.reason in {Eog, Stop} && p(Concat(texts), false).Some?
            then AllOrNone(ep.json, FinalCalls(p, texts)) else []
  {
    hide Generate; hide Callback; hide Handled; hide AcceptedSoFar; hide InProgress; hide FinishChat; hide WriteText; hide AllText;
    hide PushAll; hide AllOrNone; hide FinalCalls; hide Concat;
    GenerateAsksWhileAccepted(m, b, q, Callback(ep), e);
    var o := Generate(m, b, q, Callback(ep), e);
    var offered := o.filter.offered;
    HandledShape(ep, offered);
    var s := Handled(ep, offered);
    FinishMeansAccepted(ep, s, o.ending.reason, StatsOf(q, o));
    HandledText(ep, offered);
    PollKeepsShape(ep, s);
    CloseKeepsShape(ep, Poll(ep, s));
    NoFinishInProgress(ep, CloseChat(ep, Poll(ep, s)).0);
    FinishReports(ep.chat.value, ep.json, offered);
  }

  /** The contract's JSON objects on the wire: the calls sent are objects exactly when the calls up for reporting are. */
  lemma FinishSendsObjectsIff(m: Model, b: Backend, ep: Endpoint, q: Request, e: Engine, isObject: Json)
    requires m.nBatch > 0 && ep.chat.Some? && Generate(m, b, q, Callback(ep), e).ending.Finished?
    requires FinishOf(Stream(m, b, ep, q, e).attempts).Some? && isObject(EMPTY_OBJECT)
    ensures var o := Generate(m, b, q, Callback(ep), e);
            var p, texts := ep.chat.value, o.filter.offered;
            var calls := FinishOf(Stream(m, b, ep, q, e).attempts).value.calls;
            (forall i | 0 <= i < |calls| :: isObject(calls[i].arguments)) <==>
            || o.ending.reason !in {Eog, Stop}
            || p(Concat(texts), false).None?
            || AllOrNone(ep.json, FinalCalls(p, texts)) == []
            || ArgumentsAreObjects(isObject, FinalCalls(p, texts))
  {
    hide Generate; hide Callback; hide Stream; hide FinalCalls; hide AllOrNone; hide Concat; hide ArgumentsAreObjects;
    FinishCarriesFinalCalls(m, b, ep, q, e);
    var o := Generate(m, b, q, Callback(ep), e);
    var calls := FinishOf(Stream(m, b, ep, q, e).attempts).value.calls;
    if ep.chat.value(Concat(o.filter.offered), false).Some? {
      var final := FinalCalls(ep.chat.value, o.filter.offered);
      AllOrNoneObjects(ep.json, isObject, final);
      if o.ending.reason in {Eog, Stop} {
        assert calls == AllOrNone(ep.json, final);
      } else {
        assert calls == [];
      }
    } else {
      assert calls == [];
    }
  }

  // ---- The daemon is stateless ----

  /** A chunk without the one field that may tell a warm cache from a cold one. */
  function WithoutCacheCount(chunk: Chunk): Chunk
  {
    if chunk.Last? then chunk.(stats := chunk.stats.(cachedPromptTokens := 0)) else chunk
  }

  function Normalised(attempts: seq<Chunk>): seq<Chunk>
  {
    seq(|attempts|, i requires 0 <= i < |attempts| => WithoutCacheCount(attempts[i]))
  }

  /**
   * Whatever requests either engine has served before, and on whatever backends: two streams of the
   * same request to equally behaving clients, with no failed decode of their own, attempt the same
   * writes, up to the count of cached prompt tokens.
   */
  lemma StreamsAreStateless(m: Model, b: Backend, b': Backend, ep: Endpoint, q: Request, e: Engine, e': Engine,
                            calls: seq<Call>, calls': seq<Call>)
    requires m.nBatch > 0 && Agrees(e) && Agrees(e')
    requires Unfailing(m, b, q, Callback(ep), Serve(m, b, e, calls))
    requires Unfailing(m, b', q, Callback(ep), Serve(m, b', e', calls'))
    ensures Normalised(Stream(m, b, ep, q, Serve(m, b, e, calls)).attempts) ==
            Normalised(Stream(m, b', ep, q, Serve(m, b', e', calls')).attempts)
  {
    hide Generate; hide Unfailing; hide PureGenerate; hide Serve; hide Handled; hide Complete; hide Agrees; hide Callback;
    RecordAlwaysAgrees(m, b, e, calls);
    RecordAlwaysAgrees(m, b', e', calls');
    var warm, cold := Serve(m, b, e, calls), Serve(m, b', e', calls');
    GenerateRefinesPure(m, b, q, Callback(ep), warm);
    GenerateRefinesPure(m, b', q, Callback(ep), cold);
    var o, o' := Generate(m, b, q, Callback(ep), warm), Generate(m, b', q, Callback(ep), cold);
    if o.ending.Finished? {
      CompleteNormalised(ep, Handled(ep, o.filter.offered), o.ending.reason, StatsOf(q, o), StatsOf(q, o'));
    }
  }

  lemma CompleteNormalised(ep: Endpoint, s: Session, reason: FinishReason, stats: Stats, stats': Stats)
    requires stats.(cachedPromptTokens := 0) == stats'.(cachedPromptTokens := 0)
    ensures Normalised(Complete(ep, s, reason, stats).attempts) == Normalised(Complete(ep, s, reason, stats').attempts)
  {
    hide CloseChat;
    var (closed, calls) := CloseChat(ep, Poll(ep, s));
    if !closed.gone {
      var a, a' := FinishChunk(reason, stats, calls), FinishChunk(reason, stats', calls);
      assert WithoutCacheCount(a) == WithoutCacheCount(a');
    }
  }
}
