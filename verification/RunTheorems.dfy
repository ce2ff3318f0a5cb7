/**
 * What a generation means, told without its loop: which tokens it samples, why it ends, how long it
 * can be, what text it delivers; and what holds over any sequence of requests.
 */
module RunTheorems {
  import opened ByteStrings
  import opened Utf8
  import opened Logits
  import opened Stops
  import opened StreamFilters
  import opened FilterTheorems
  import opened KvCache
  import opened Sampling
  import opened Generation
  import opened GenerationTheorems

  /** The text of each token; `None` when one of them cannot be rendered. */
  function Pieces(m: Model, q: Request, tokens: seq<Token>): Option<seq<Bytes>>
  {
    if tokens == [] then Some([])
    else
      var init, last := Pieces(m, q, tokens[..|tokens| - 1]), tokens[|tokens| - 1];
      var piece := m.piece(last, last in q.preserved);
      if init.None? || piece.None? then None else Some(init.value + [piece.value])
  }

  lemma {:induction false} PiecesLength(m: Model, q: Request, tokens: seq<Token>)
    ensures Pieces(m, q, tokens).Some? ==> |Pieces(m, q, tokens).value| == |tokens|
  {
    if tokens != [] {
      PiecesLength(m, q, tokens[..|tokens| - 1]);
    }
  }

  /** The filter has been fed exactly the pieces of these tokens, and ended as `status` says. */
  ghost predicate Fed(m: Model, q: Request, recv: Receiver, tokens: seq<Token>, f: Filter, status: Status)
  {
    && Pieces(m, q, tokens).Some?
    && Pushes(q.stops, recv, Pieces(m, q, tokens).value) == Run(f, status, |tokens|)
  }

  lemma PiecesSnoc(m: Model, q: Request, tokens: seq<Token>, token: Token)
    requires Pieces(m, q, tokens).Some? && m.piece(token, token in q.preserved).Some?
    ensures Pieces(m, q, tokens + [token]) ==
            Some(Pieces(m, q, tokens).value + [m.piece(token, token in q.preserved).value])
  {
    assert (tokens + [token])[..|tokens|] == tokens;
  }

  lemma FeedOne(m: Model, q: Request, recv: Receiver, tokens: seq<Token>, f: Filter, token: Token)
    requires Fed(m, q, recv, tokens, f, Continue)
    requires m.piece(token, token in q.preserved).Some?
    ensures var (f', status) := Push(q.stops, recv, f, m.piece(token, token in q.preserved).value);
            Fed(m, q, recv, tokens + [token], f', status)
  {
    hide Push; hide Pieces; hide Pushes;
    PiecesSnoc(m, q, tokens, token);
    PushesSnoc(q.stops, recv, Pieces(m, q, tokens).value, m.piece(token, token in q.preserved).value);
  }

  /** The text of the tokens that can be rendered; the one whose rendering throws has none. */
  function Rendered(m: Model, q: Request, tokens: seq<Token>): seq<Bytes>
  {
    if tokens == [] then []
    else
      var last := tokens[|tokens| - 1];
      var piece := m.piece(last, last in q.preserved);
      Rendered(m, q, tokens[..|tokens| - 1]) + if piece.Some? then [piece.value] else []
  }

  lemma {:induction false} RenderedPieces(m: Model, q: Request, tokens: seq<Token>)
    ensures Pieces(m, q, tokens).Some? ==> Rendered(m, q, tokens) == Pieces(m, q, tokens).value
  {
    if tokens != [] {
      RenderedPieces(m, q, tokens[..|tokens| - 1]);
    }
  }

  lemma RenderedUnrenderable(m: Model, q: Request, tokens: seq<Token>, token: Token)
    requires m.piece(token, token in q.preserved).None?
    ensures Rendered(m, q, tokens + [token]) == Rendered(m, q, tokens)
  {
    assert (tokens + [token])[..|tokens|] == tokens;
  }

  /**
   * How a loop left its filter: with a reason, fed exactly its tokens' text, and the reason says how
   * that ended; with an exception, fed what could be rendered of it.
   */
  ghost predicate FilterExplains(m: Model, q: Request, recv: Receiver, tokens: seq<Token>, f: Filter, ending: Ending, flush: bool)
  {
    match ending
    case Finished(Stop) => !flush && Fed(m, q, recv, tokens, f, Stopped)
    case Finished(Cancel) => !flush && Fed(m, q, recv, tokens, f, Cancelled)
    case Finished(_) => flush && Fed(m, q, recv, tokens, f, Continue)
    case Thrown => !flush && f == Pushes(q.stops, recv, Rendered(m, q, tokens)).filter
  }

  lemma FedIsRendered(m: Model, q: Request, recv: Receiver, tokens: seq<Token>, f: Filter, status: Status)
    requires Fed(m, q, recv, tokens, f, status)
    ensures f == Pushes(q.stops, recv, Rendered(m, q, tokens)).filter
  {
    hide Pushes; hide Pieces;
    RenderedPieces(m, q, tokens);
  }

  lemma PassFeeds(m: Model, q: Request, recv: Receiver, row: LogitRow, held: nat, f: Filter, tokens: seq<Token>)
    requires q.sampler.Some? && Fed(m, q, recv, tokens, f, Continue)
    ensures var r := SamplePass(m, q, recv, row, held, f, tokens);
            match r
            case Ends(f', tokens', ending, flush) => FilterExplains(m, q, recv, tokens', f', ending, flush)
            case Goes(f', tokens', _) => Fed(m, q, recv, tokens', f', Continue)
  {
    hide Push; hide Fed; hide Pushes; hide Rendered;
    FedIsRendered(m, q, recv, tokens, f, Continue);
    var sampled := q.sampler.value(row, tokens);
    if sampled.Some? {
      var piece := m.piece(sampled.value, sampled.value in q.preserved);
      if piece.Some? {
        FeedOne(m, q, recv, tokens, f, sampled.value);
        var (f', status) := Push(q.stops, recv, f, piece.value);
        FedIsRendered(m, q, recv, tokens + [sampled.value], f', status);
      } else {
        RenderedUnrenderable(m, q, tokens, sampled.value);
      }
    }
  }

  /** Every loop, failed decodes and exceptions included, fed its filter its tokens' text. */
  lemma {:induction false} LoopFeeds(m: Model, b: Backend, q: Request, recv: Receiver, e: Engine, f: Filter, tokens: seq<Token>)
    requires q.sampler.Some? && |e.cached| <= m.nCtx && Fed(m, q, recv, tokens, f, Continue)
    ensures var end := Loop(m, b, q, recv, e, f, tokens);
            FilterExplains(m, q, recv, end.tokens, end.filter, end.ending, end.flush)
    decreases m.nCtx - |e.cached|
  {
    hide SamplePass; hide Decode; hide Fed; hide Pushes; hide Rendered;
    PassFeeds(m, q, recv, e.memory.logits, |e.cached|, f, tokens);
    match SamplePass(m, q, recv, e.memory.logits, |e.cached|, f, tokens) {
      case Ends(_, _, _, _) =>
      case Goes(f', tokens', next) =>
        var (e', r) := Decode(m, b, e, [next]);
        if r.Ok? {
          LoopFeeds(m, b, q, recv, e', f', tokens');
        } else {
          FedIsRendered(m, q, recv, tokens', f', Continue);
        }
    }
  }

  /** However a generation ends, its chunks are those of its rendered text, flushed or not. */
  lemma GenerateChunks(m: Model, b: Backend, q: Request, recv: Receiver, e: Engine)
    requires m.nBatch > 0
    ensures var o := Generate(m, b, q, recv, e);
            var pieces := Rendered(m, q, o.tokens);
            || o.filter == Pushes(q.stops, recv, pieces).filter
            || o.filter == FilterAll(q.stops, recv, pieces).0
  {
    hide Loop; hide Prefill; hide KeepPrefix; hide Push; hide Flush;
    if !TurnedAway(m, q) {
      var (e1, kept) := KeepPrefix(b, e, q.prompt.value);
      var (e2, ok) := Prefill(m, b, e1, q.prompt.value, kept);
      if ok {
        NothingFed(m, q, recv);
        LoopFeeds(m, b, q, recv, e2, FRESH, []);
        var end := Loop(m, b, q, recv, e2, FRESH, []);
        if end.flush {
          RenderedPieces(m, q, end.tokens);
        } else if end.ending.Finished? {
          FedIsRendered(m, q, recv, end.tokens, end.filter, if end.ending.reason == Stop then Stopped else Cancelled);
        }
      }
    }
  }

  /** However a generation ends, what it offered never contains a stop. */
  lemma NoStopIsGenerated(m: Model, b: Backend, q: Request, recv: Receiver, e: Engine)
    requires m.nBatch > 0
    ensures !HasStop(Concat(Generate(m, b, q, recv, e).filter.offered), q.stops)
  {
    hide Generate; hide Pushes; hide FilterAll; hide Rendered; hide HasStop;
    GenerateChunks(m, b, q, recv, e);
    NoStopIsOffered(q.stops, recv, Rendered(m, q, Generate(m, b, q, recv, e).tokens));
  }

  /** However a generation ends, every chunk it offered is valid UTF-8 by itself. */
  lemma GeneratedChunksAreUtf8(m: Model, b: Backend, q: Request, recv: Receiver, e: Engine)
    requires m.nBatch > 0 && CharacterSafe(q.stops)
    requires ValidPrefix(Concat(Rendered(m, q, Generate(m, b, q, recv, e).tokens)))
    ensures AllValid(Generate(m, b, q, recv, e).filter.offered)
  {
    hide Generate; hide CharacterSafe; hide AllValid; hide Pushes; hide FilterAll; hide Rendered; hide Valid;
    GenerateChunks(m, b, q, recv, e);
    var pieces := Rendered(m, q, Generate(m, b, q, recv, e).tokens);
    ChunksAreUtf8(q.stops, recv, pieces);
    var rest: Bytes :| Valid(Concat(pieces) + rest);
    PushedChunksAreUtf8(q.stops, recv, pieces, Concat(pieces) + rest);
  }

  /**
   * The text of a generation that returned: its chunks are what the stream filter makes of its
   * tokens' text, the reason is Stop or Cancel exactly when the filter stopped or was refused.
   */
  lemma GenerateFeeds(m: Model, b: Backend, q: Request, recv: Receiver, e: Engine)
    requires m.nBatch > 0 && Generate(m, b, q, recv, e).ending.Finished?
    ensures var o := Generate(m, b, q, recv, e);
            && Pieces(m, q, o.tokens).Some?
            && var pieces := Pieces(m, q, o.tokens).value;
            && var r := Pushes(q.stops, recv, pieces);
            && r.used == |o.tokens| == |pieces| && r.status != Threw
            && o.filter == FilterAll(q.stops, recv, pieces).0
            && (o.ending.reason == Stop <==> r.status == Stopped)
            && (o.ending.reason == Cancel <==> r.status == Cancelled)
  {
    hide Loop; hide Prefill; hide KeepPrefix; hide Pushes;
    var (e1, kept) := KeepPrefix(b, e, q.prompt.value);
    var (e2, ok) := Prefill(m, b, e1, q.prompt.value, kept);
    NothingFed(m, q, recv);
    LoopFeeds(m, b, q, recv, e2, FRESH, []);
    PiecesLength(m, q, Generate(m, b, q, recv, e).tokens);
  }

  lemma NothingFed(m: Model, q: Request, recv: Receiver)
    ensures Fed(m, q, recv, [], FRESH, Continue)
  {
  }

  // ---- What the receiver is asked ----

  lemma PassAccepted(m: Model, q: Request, recv: Receiver, row: LogitRow, held: nat, f: Filter, tokens: seq<Token>)
    requires q.sampler.Some? && AcceptedSoFar(recv, f.offered) && LastVerdict(recv, f.offered) == Accept
    ensures var r := SamplePass(m, q, recv, row, held, f, tokens);
            && AcceptedSoFar(recv, r.filter.offered)
            && (r.Goes? || r.flush ==> LastVerdict(recv, r.filter.offered) == Accept)
            && (r.Ends? && r.ending.Finished? ==>
                  if r.ending.reason == Cancel then LastVerdict(recv, r.filter.offered) == Decline
                  else LastVerdict(recv, r.filter.offered) == Accept)
  {
    hide Push; hide AcceptedSoFar;
    var sampled := q.sampler.value(row, tokens);
    if sampled.Some? && m.piece(sampled.value, sampled.value in q.preserved).Some? {
      PushAccepted(q.stops, recv, f, m.piece(sampled.value, sampled.value in q.preserved).value);
    }
  }

  lemma {:induction false} LoopAccepted(m: Model, b: Backend, q: Request, recv: Receiver, e: Engine, f: Filter, tokens: seq<Token>)
    requires q.sampler.Some? && |e.cached| <= m.nCtx
    requires AcceptedSoFar(recv, f.offered) && LastVerdict(recv, f.offered) == Accept
    ensures var end := Loop(m, b, q, recv, e, f, tokens);
            && AcceptedSoFar(recv, end.filter.offered)
            && (end.flush ==> LastVerdict(recv, end.filter.offered) == Accept)
            && (end.ending.Finished? ==>
                  if end.ending.reason == Cancel then !end.flush && LastVerdict(recv, end.filter.offered) == Decline
                  else LastVerdict(recv, end.filter.offered) == Accept)
    decreases m.nCtx - |e.cached|
  {
    hide SamplePass; hide Decode; hide AcceptedSoFar;
    PassAccepted(m, q, recv, e.memory.logits, |e.cached|, f, tokens);
    CancelDoesNotFlush(m, q, recv, e.memory.logits, |e.cached|, f, tokens);
    match SamplePass(m, q, recv, e.memory.logits, |e.cached|, f, tokens) {
      case Ends(_, _, _, _) =>
      case Goes(f', tokens', next) =>
        var (e', r) := Decode(m, b, e, [next]);
        if r.Ok? {
          LoopAccepted(m, b, q, recv, e', f', tokens');
        }
    }
  }

  lemma CancelDoesNotFlush(m: Model, q: Request, recv: Receiver, row: LogitRow, held: nat, f: Filter, tokens: seq<Token>)
    requires q.sampler.Some?
    ensures var r := SamplePass(m, q, recv, row, held, f, tokens);
            r.Ends? && r.ending == Finished(Cancel) ==> !r.flush
  {
    hide Push;
  }

  /**
   * In every generation, however it ends: the callback gets only non-empty chunks and is never called
   * again after it has declined or thrown; the reason is Cancel only if it declined, and an exception
   * of its own is never lost.
   */
  lemma GenerateAsksWhileAccepted(m: Model, b: Backend, q: Request, recv: Receiver, e: Engine)
    requires m.nBatch > 0
    ensures var o := Generate(m, b, q, recv, e);
            && AcceptedSoFar(recv, o.filter.offered)
            && (o.ending == Finished(Cancel) ==> LastVerdict(recv, o.filter.offered) == Decline)
            && (o.ending.Finished? ==> LastVerdict(recv, o.filter.offered) != Throw)
  {
    hide Loop; hide Prefill; hide KeepPrefix; hide Flush; hide AcceptedSoFar;
    Empty(recv);
    if !TurnedAway(m, q) {
      var (e1, kept) := KeepPrefix(b, e, q.prompt.value);
      var (e2, ok) := Prefill(m, b, e1, q.prompt.value, kept);
      if ok {
        LoopAccepted(m, b, q, recv, e2, FRESH, []);
        var end := Loop(m, b, q, recv, e2, FRESH, []);
        if end.flush {
          FlushAccepted(recv, end.filter);
        }
      }
    }
  }

  // ---- Which tokens, and why it ends ----

  /** Each token is what the sampler chooses after the prompt and the tokens before it; none ends the turn. */
  ghost predicate Sampled(m: Model, q: Request, prompt: seq<Token>, tokens: seq<Token>)
    requires q.sampler.Some?
  {
    forall i | 0 <= i < |tokens| ::
      q.sampler.value(m.logits(prompt + tokens[..i]), tokens[..i]) == Some(tokens[i]) && !m.isEog(tokens[i])
  }

  /** After `n` tokens neither the budget nor the context is exhausted. */
  predicate Room(m: Model, q: Request, prompt: seq<Token>, n: nat)
  {
    (q.maxTokens < 0 || n < q.maxTokens) && |prompt| + n <= m.nCtx
  }

  /** There was room before the last token; and the reason, when it is not the filter's, is right. */
  ghost predicate Explained(m: Model, q: Request, prompt: seq<Token>, tokens: seq<Token>, ending: Ending)
    requires q.sampler.Some?
  {
    && Sampled(m, q, prompt, tokens)
    && (tokens == [] || Room(m, q, prompt, |tokens| - 1))
    && (ending == Finished(Length) ==> !Room(m, q, prompt, |tokens|))
    && (ending == Finished(Eog) ==>
          && Room(m, q, prompt, |tokens|)
          && var next := q.sampler.value(m.logits(prompt + tokens), tokens);
          && next.Some? && m.isEog(next.value))
  }

  lemma SampledOneMore(m: Model, q: Request, prompt: seq<Token>, tokens: seq<Token>, token: Token)
    requires q.sampler.Some? && Sampled(m, q, prompt, tokens)
    requires q.sampler.value(m.logits(prompt + tokens), tokens) == Some(token) && !m.isEog(token)
    ensures Sampled(m, q, prompt, tokens + [token])
  {
    var all := tokens + [token];
    forall i | 0 <= i < |all|
      ensures q.sampler.value(m.logits(prompt + all[..i]), all[..i]) == Some(all[i]) && !m.isEog(all[i])
    {
      assert i < |tokens| ==> all[..i] == tokens[..i];
      assert i == |tokens| ==> all[..i] == tokens;
    }
  }

  lemma PassExplained(m: Model, q: Request, recv: Receiver, prompt: seq<Token>, f: Filter, tokens: seq<Token>)
    requires q.sampler.Some? && Sampled(m, q, prompt, tokens) && |prompt| + |tokens| <= m.nCtx
    requires tokens == [] || Room(m, q, prompt, |tokens|)
    ensures match SamplePass(m, q, recv, m.logits(prompt + tokens), |prompt| + |tokens|, f, tokens)
            case Ends(_, tokens', ending, _) => Explained(m, q, prompt, tokens', ending)
            case Goes(_, tokens', _) => Sampled(m, q, prompt, tokens') && Room(m, q, prompt, |tokens'|)
  {
    hide Push; hide Sampled;
    var sampled := q.sampler.value(m.logits(prompt + tokens), tokens);
    if sampled.Some? && !m.isEog(sampled.value) {
      SampledOneMore(m, q, prompt, tokens, sampled.value);
    }
  }

  lemma {:induction false} PureLoopExplained(m: Model, q: Request, recv: Receiver, prompt: seq<Token>, f: Filter, tokens: seq<Token>)
    requires q.sampler.Some? && Sampled(m, q, prompt, tokens) && |prompt| + |tokens| <= m.nCtx
    requires tokens == [] || Room(m, q, prompt, |tokens|)
    ensures var end := PureLoop(m, q, recv, prompt, f, tokens); Explained(m, q, prompt, end.tokens, end.ending)
    decreases m.nCtx - |tokens|
  {
    hide SamplePass; hide Explained; hide Sampled;
    PassExplained(m, q, recv, prompt, f, tokens);
    match SamplePass(m, q, recv, m.logits(prompt + tokens), |prompt| + |tokens|, f, tokens) {
      case Ends(_, _, _, _) =>
      case Goes(f', tokens', _) => PureLoopExplained(m, q, recv, prompt, f', tokens');
    }
  }

  lemma SampledPrefix(m: Model, q: Request, prompt: seq<Token>, tokens: seq<Token>, more: seq<Token>)
    requires q.sampler.Some? && tokens <= more && Sampled(m, q, prompt, more)
    ensures Sampled(m, q, prompt, tokens)
  {
    forall i | 0 <= i < |tokens|
      ensures q.sampler.value(m.logits(prompt + tokens[..i]), tokens[..i]) == Some(tokens[i]) && !m.isEog(tokens[i])
    {
      assert tokens[..i] == more[..i];
    }
  }

  // ---- How it ends, exactly ----

  /** The last token cannot be rendered; those before it could, and the filter went on after them. */
  ghost predicate CutShort(m: Model, q: Request, recv: Receiver, tokens: seq<Token>, f: Filter)
  {
    && tokens != []
    && var last := tokens[|tokens| - 1];
    && m.piece(last, last in q.preserved).None?
    && Fed(m, q, recv, tokens[..|tokens| - 1], f, Continue)
  }

  function NextSampled(m: Model, q: Request, prompt: seq<Token>, tokens: seq<Token>): Option<Token>
    requires q.sampler.Some?
  {
    q.sampler.value(m.logits(prompt + tokens), tokens)
  }

  /** Why a loop with no failed decode ended: an ending, and what must have been so. */
  ghost predicate EndedFor(m: Model, q: Request, recv: Receiver, prompt: seq<Token>, f: Filter,
                           tokens: seq<Token>, ending: Ending, flush: bool)
    requires q.sampler.Some?
  {
    var next := NextSampled(m, q, prompt, tokens);
    match ending
    case Finished(Stop) => !flush && Fed(m, q, recv, tokens, f, Stopped)
    case Finished(Cancel) => !flush && Fed(m, q, recv, tokens, f, Cancelled)
    case Finished(Length) => flush && Fed(m, q, recv, tokens, f, Continue) && !Room(m, q, prompt, |tokens|)
    case Finished(Eog) =>
      && flush && Fed(m, q, recv, tokens, f, Continue)
      && Room(m, q, prompt, |tokens|) && next.Some? && m.isEog(next.value)
    case Thrown =>
      && !flush
      && (|| Fed(m, q, recv, tokens, f, Threw)
          || CutShort(m, q, recv, tokens, f)
          || (Fed(m, q, recv, tokens, f, Continue) && Room(m, q, prompt, |tokens|) && next.None?))
  }

  lemma PassEndedFor(m: Model, q: Request, recv: Receiver, prompt: seq<Token>, f: Filter, tokens: seq<Token>)
    requires q.sampler.Some? && Fed(m, q, recv, tokens, f, Continue) && |prompt| + |tokens| <= m.nCtx
    requires tokens == [] || Room(m, q, prompt, |tokens|)
    ensures match SamplePass(m, q, recv, m.logits(prompt + tokens), |prompt| + |tokens|, f, tokens)
            case Ends(f', tokens', ending, flush) => EndedFor(m, q, recv, prompt, f', tokens', ending, flush)
            case Goes(f', tokens', _) => Fed(m, q, recv, tokens', f', Continue) && Room(m, q, prompt, |tokens'|)
  {
    hide Push; hide Fed;
    var sampled := NextSampled(m, q, prompt, tokens);
    if sampled.Some? {
      var all := tokens + [sampled.value];
      assert all[..|all| - 1] == tokens;
      if m.piece(sampled.value, sampled.value in q.preserved).Some? {
        FeedOne(m, q, recv, tokens, f, sampled.value);
        var (f', status) := Push(q.stops, recv, f, m.piece(sampled.value, sampled.value in q.preserved).value);
        assert Fed(m, q, recv, all, f', status);
      } else {
        assert CutShort(m, q, recv, all, f);
      }
    }
  }

  lemma {:induction false} PureLoopEndedFor(m: Model, q: Request, recv: Receiver, prompt: seq<Token>, f: Filter, tokens: seq<Token>)
    requires q.sampler.Some? && Fed(m, q, recv, tokens, f, Continue) && |prompt| + |tokens| <= m.nCtx
    requires tokens == [] || Room(m, q, prompt, |tokens|)
    ensures var end := PureLoop(m, q, recv, prompt, f, tokens);
            EndedFor(m, q, recv, prompt, end.filter, end.tokens, end.ending, end.flush)
    decreases m.nCtx - |tokens|
  {
    hide SamplePass; hide EndedFor; hide Fed;
    PassEndedFor(m, q, recv, prompt, f, tokens);
    match SamplePass(m, q, recv, m.logits(prompt + tokens), |prompt| + |tokens|, f, tokens) {
      case Ends(_, _, _, _) =>
      case Goes(f', tokens', _) => PureLoopEndedFor(m, q, recv, prompt, f', tokens');
    }
  }

  /** The last of the tokens cannot be rendered. */
  predicate LastUnrendered(m: Model, q: Request, tokens: seq<Token>)
  {
    tokens != [] && var last := tokens[|tokens| - 1]; m.piece(last, last in q.preserved).None?
  }

  /**
   * How a generation ends, told by its tokens, the sampler, the pieces, the receiver, the budget and
   * the context alone, every ending both ways. The filter has read the tokens' pieces and is flushed
   * exactly when it went on after the last and the sampler did not throw then.
   */
  ghost predicate EndsExactly(m: Model, q: Request, recv: Receiver, prompt: seq<Token>,
                              tokens: seq<Token>, f: Filter, ending: Ending)
    requires q.sampler.Some?
  {
    var run := Pushes(q.stops, recv, Rendered(m, q, tokens));
    var cut := LastUnrendered(m, q, tokens);
    var open := !cut && run.status == Continue;
    var room := (q.maxTokens < 0 || |tokens| < q.maxTokens) && |prompt| + |tokens| <= m.nCtx;
    var next := q.sampler.value(m.logits(prompt + tokens), tokens);
    var threw := LastVerdict(recv, f.offered) == Throw;
    && (ending == Finished(Stop) <==> !cut && run.status == Stopped)
    && (ending == Finished(Cancel) <==> !cut && run.status == Cancelled)
    && (ending == Finished(Length) <==> open && !room && !threw)
    && (ending == Finished(Eog) <==> open && room && next.Some? && m.isEog(next.value) && !threw)
    && (ending == Thrown <==> cut || threw || (open && room && next.None?))
    && f == if open && !(room && next.None?) then Flush(recv, run.filter).0 else run.filter
  }

  lemma FinishEndsExactly(m: Model, q: Request, recv: Receiver, prompt: seq<Token>, f: Filter,
                          tokens: seq<Token>, ending: Ending, flush: bool)
    requires q.sampler.Some? && EndedFor(m, q, recv, prompt, f, tokens, ending, flush)
    ensures var (f', v) := Flush(recv, f);
            EndsExactly(m, q, recv, prompt, tokens, if flush then f' else f, if flush && v.Throw? then Thrown else ending)
  {
    hide Flush; hide Pushes; hide AcceptedSoFar;
    EndedForReads(m, q, recv, prompt, f, tokens, ending, flush);
    NothingAfterRefusal(q.stops, recv, Rendered(m, q, tokens));
    if flush {
      FlushAccepted(recv, f);
    }
  }

  /** What the filter had read, and how it had left it, whichever way the loop ended. */
  lemma EndedForReads(m: Model, q: Request, recv: Receiver, prompt: seq<Token>, f: Filter,
                      tokens: seq<Token>, ending: Ending, flush: bool)
    requires q.sampler.Some? && EndedFor(m, q, recv, prompt, f, tokens, ending, flush)
    ensures var run := Pushes(q.stops, recv, Rendered(m, q, tokens));
            && f == run.filter
            && (LastUnrendered(m, q, tokens) ==> ending == Thrown && run.status == Continue)
            && (!LastUnrendered(m, q, tokens) ==>
                  match ending
                  case Finished(Stop) => run.status == Stopped
                  case Finished(Cancel) => run.status == Cancelled
                  case Finished(_) => run.status == Continue
                  case Thrown =>
                    || run.status == Threw
                    || (run.status == Continue && Room(m, q, prompt, |tokens|) && NextSampled(m, q, prompt, tokens).None?))
  {
    hide Pushes;
    RenderedPieces(m, q, tokens);
    if CutShort(m, q, recv, tokens, f) {
      var init, last := tokens[..|tokens| - 1], tokens[|tokens| - 1];
      RenderedPieces(m, q, init);
      assert tokens == init + [last];
      RenderedUnrenderable(m, q, init, last);
    }
  }

  /**
   * A request the engine can serve, with no failed decode, ends exactly so: in particular it throws
   * only if the sampler, the rendering of a token or the receiver does.
   */
  lemma GenerateEndsIff(m: Model, b: Backend, q: Request, recv: Receiver, e: Engine)
    requires m.nBatch > 0 && Agrees(e) && Unfailing(m, b, q, recv, e)
    requires !m.embeddings && q.prompt.Some? && q.prompt.value != [] && |q.prompt.value| < m.nCtx && q.sampler.Some?
    ensures var o := Generate(m, b, q, recv, e);
            EndsExactly(m, q, recv, q.prompt.value, o.tokens, o.filter, o.ending)
  {
    hide Generate; hide PureLoop; hide Unfailing; hide EndsExactly; hide EndedFor; hide Fed; hide Flush;
    var prompt := q.prompt.value;
    GenerateRefinesPure(m, b, q, recv, e);
    NothingFed(m, q, recv);
    PureLoopEndedFor(m, q, recv, prompt, FRESH, []);
    var end := PureLoop(m, q, recv, prompt, FRESH, []);
    FinishEndsExactly(m, q, recv, prompt, end.filter, end.tokens, end.ending, end.flush);
  }

  /** Any other request throws before anything is decoded, trimmed, sampled or offered. */
  lemma OthersAreRefused(m: Model, b: Backend, q: Request, recv: Receiver, e: Engine)
    requires m.nBatch > 0
    requires m.embeddings || q.prompt.None? || q.prompt.value == [] || |q.prompt.value| >= m.nCtx || q.sampler.None?
    ensures var o := Generate(m, b, q, recv, e);
            o.engine == e && o.ending == Thrown && o.tokens == [] && o.filter.offered == [] && o.kept == 0
  {
  }

  /**
   * What is known of a loop ended by its last decode: all its tokens were read and there was room for
   * another, and each but the first `base` ticks of the clock was one of them.
   */
  ghost predicate FailedAfter(m: Model, b: Backend, q: Request, recv: Receiver, prompt: seq<Token>, base: nat, end: LoopEnd)
  {
    var at := base + |end.tokens| - 1;
    && end.engine.clock == at + 1 && base <= at && FailsAt(b, base, at)
    && Fed(m, q, recv, end.tokens, end.filter, Continue)
    && Room(m, q, prompt, |end.tokens|)
    && end.flush == (b.decode(at).Failed? && b.decode(at).code > 0)
    && end.ending == if end.flush then Finished(Length) else Thrown
  }

  lemma {:induction false} LoopFails(m: Model, b: Backend, q: Request, recv: Receiver, prompt: seq<Token>, base: nat,
                                     e: Engine, f: Filter, tokens: seq<Token>)
    requires q.sampler.Some? && |e.cached| == |prompt| + |tokens| <= m.nCtx
    requires Fed(m, q, recv, tokens, f, Continue)
    requires e.clock == base + |tokens| && NoFailure(b, base, e.clock)
    ensures var end := Loop(m, b, q, recv, e, f, tokens);
            !NoFailure(b, base, end.engine.clock) ==> FailedAfter(m, b, q, recv, prompt, base, end)
    decreases m.nCtx - |tokens|
  {
    hide SamplePass; hide Decode; hide Fed; hide FailedAfter;
    PassFeeds(m, q, recv, e.memory.logits, |e.cached|, f, tokens);
    PassGoes(m, q, recv, e.memory.logits, |e.cached|, f, tokens);
    match SamplePass(m, q, recv, e.memory.logits, |e.cached|, f, tokens) {
      case Ends(_, _, _, _) =>
      case Goes(f', tokens', next) =>
        DecodeTick(m, b, e, [next]);
        var (e', r) := Decode(m, b, e, [next]);
        if r.Ok? {
          LoopFails(m, b, q, recv, prompt, base, e', f', tokens');
        } else {
          DecodeFailsLoop(m, b, q, recv, prompt, base, e, f, tokens);
        }
    }
  }

  lemma DecodeFailsLoop(m: Model, b: Backend, q: Request, recv: Receiver, prompt: seq<Token>, base: nat,
                        e: Engine, f: Filter, tokens: seq<Token>)
    requires q.sampler.Some? && |e.cached| == |prompt| + |tokens| <= m.nCtx
    requires e.clock == base + |tokens| && NoFailure(b, base, e.clock)
    requires var r := SamplePass(m, q, recv, e.memory.logits, |e.cached|, f, tokens);
             && r.Goes? && r.tokens == tokens + [r.next] && !BudgetSpent(q, r.tokens)
             && Fed(m, q, recv, r.tokens, r.filter, Continue)
             && !Decode(m, b, e, [r.next]).1.Ok?
    ensures FailedAfter(m, b, q, recv, prompt, base, Loop(m, b, q, recv, e, f, tokens))
  {
    hide SamplePass; hide Fed;
  }

  /**
   * A generation some decode of which failed. If it was one of the prompt's batches, whatever its code,
   * an exception, and nothing was sampled; otherwise it was that of the last token, all of which had
   * been read with room for more, and a positive code ends it by Length, any other by an exception.
   */
  lemma GenerateFails(m: Model, b: Backend, q: Request, recv: Receiver, e: Engine)
    requires m.nBatch > 0 && Agrees(e) && !Unfailing(m, b, q, recv, e)
    requires !m.embeddings && q.prompt.Some? && q.prompt.value != [] && |q.prompt.value| < m.nCtx && q.sampler.Some?
    ensures var o := Generate(m, b, q, recv, e);
            var batches, at := |Batches(m, q.prompt.value, o.kept)|, o.engine.clock - 1;
            && at >= 0 && FailsAt(b, e.clock, at)
            && if at < e.clock + batches then o.ending == Thrown && o.tokens == [] && o.filter == FRESH
               else
                 var run := Pushes(q.stops, recv, Rendered(m, q, o.tokens));
                 var full := b.decode(at).Failed? && b.decode(at).code > 0;
                 var (flushed, v) := Flush(recv, run.filter);
                 && at == e.clock + batches + |o.tokens| - 1
                 && run.status == Continue && Room(m, q, q.prompt.value, |o.tokens|)
                 && o.filter == (if full then flushed else run.filter)
                 && o.ending == if full && !v.Throw? then Finished(Length) else Thrown
  {
    hide Loop; hide Prefill; hide KeepPrefix; hide Decode; hide Fed; hide Pushes; hide Batches; hide Rendered; hide Flush;
    var prompt := q.prompt.value;
    KeepPrefixAgrees(b, e, prompt);
    var (e1, kept) := KeepPrefix(b, e, prompt);
    PrefillTicks(m, b, e1, prompt, kept);
    var (e2, ok) := Prefill(m, b, e1, prompt, kept);
    if ok {
      assert prompt[..kept] + prompt[kept..] == prompt;
      NothingFed(m, q, recv);
      LoopFails(m, b, q, recv, prompt, e2.clock, e2, FRESH, []);
      var end := Loop(m, b, q, recv, e2, FRESH, []);
      assert FailedAfter(m, b, q, recv, prompt, e2.clock, end);
      FedStatus(m, q, recv, end.tokens, end.filter, Continue);
    }
  }

  lemma FedStatus(m: Model, q: Request, recv: Receiver, tokens: seq<Token>, f: Filter, status: Status)
    requires Fed(m, q, recv, tokens, f, status)
    ensures Pushes(q.stops, recv, Rendered(m, q, tokens)) == Run(f, status, |tokens|)
  {
    hide Pushes; hide Pieces;
    RenderedPieces(m, q, tokens);
  }

  /** What a generation keeps of the cache is the longest it could. */
  lemma GenerateKeeps(m: Model, b: Backend, q: Request, recv: Receiver, e: Engine)
    requires m.nBatch > 0
    requires !m.embeddings && q.prompt.Some? && q.prompt.value != [] && |q.prompt.value| < m.nCtx && q.sampler.Some?
    ensures KeepsLongest(b, e, q.prompt.value, Generate(m, b, q, recv, e).kept)
  {
    hide KeepPrefix; hide Prefill; hide Loop; hide KeepsLongest;
    KeptIff(b, e, q.prompt.value);
  }

  // ---- How long it can be ----

  /**
   * Every generation, failed decodes and exceptions included, samples the tokens the sequence alone
   * determines. Length means that the budget or the context is exhausted, or that the last decode found
   * no slot; Eog that there was room and the sampler ended the turn.
   */
  lemma GenerateExplained(m: Model, b: Backend, q: Request, recv: Receiver, e: Engine)
    requires m.nBatch > 0 && Agrees(e) && !TurnedAway(m, q)
    ensures var o := Generate(m, b, q, recv, e);
            var prompt := q.prompt.value;
            && Sampled(m, q, prompt, o.tokens)
            && (o.tokens == [] || Room(m, q, prompt, |o.tokens| - 1))
            && (o.ending == Finished(Length) ==>
                  !Room(m, q, prompt, |o.tokens|) || (!Unfailing(m, b, q, recv, e) && NoSlot(b, o.engine)))
            && (o.ending == Finished(Eog) ==>
                  && Room(m, q, prompt, |o.tokens|)
                  && var next := q.sampler.value(m.logits(prompt + o.tokens), o.tokens);
                  && next.Some? && m.isEog(next.value))
  {
    hide Generate; hide PureLoop; hide Unfailing; hide Sampled;
    var prompt := q.prompt.value;
    GenerateRefinesPure(m, b, q, recv, e);
    NothingSampled(m, q, prompt);
    PureLoopExplained(m, q, recv, prompt, FRESH, []);
    SampledPrefix(m, q, prompt, Generate(m, b, q, recv, e).tokens, PureLoop(m, q, recv, prompt, FRESH, []).tokens);
  }

  /**
   * Every generation is short enough, whatever the backend, the receiver and the outcome: it never
   * outgrows its budget, nor the context by more than the one token that is never decoded.
   */
  lemma CompletionBounds(m: Model, b: Backend, q: Request, recv: Receiver, e: Engine)
    requires m.nBatch > 0 && Agrees(e) && !TurnedAway(m, q)
    ensures var n := |Generate(m, b, q, recv, e).tokens|;
            && |q.prompt.value| + n <= m.nCtx + 1
            && (q.maxTokens >= 0 ==> n <= q.maxTokens)
  {
    hide Generate; hide Unfailing; hide Sampled;
    GenerateExplained(m, b, q, recv, e);
  }

  lemma NothingSampled(m: Model, q: Request, prompt: seq<Token>)
    requires q.sampler.Some?
    ensures Sampled(m, q, prompt, [])
  {
  }

  /** The bound is exact: nothing else ending it, a generation runs the context full and one token over. */
  lemma ContextBoundIsReached(m: Model, b: Backend, q: Request, recv: Receiver, e: Engine)
    requires m.nBatch > 0 && Agrees(e) && !TurnedAway(m, q) && Unfailing(m, b, q, recv, e)
    requires Generate(m, b, q, recv, e).ending == Finished(Length) && q.maxTokens < 0
    ensures |q.prompt.value| + |Generate(m, b, q, recv, e).tokens| == m.nCtx + 1
  {
    hide Generate; hide Unfailing; hide Sampled;
    GenerateExplained(m, b, q, recv, e);
    CompletionBounds(m, b, q, recv, e);
  }

  /** The cache never outgrows the context. */
  lemma CacheFits(m: Model, b: Backend, q: Request, recv: Receiver, e: Engine)
    requires m.nBatch > 0 && |e.cached| <= m.nCtx
    ensures |Generate(m, b, q, recv, e).engine.cached| <= m.nCtx
  {
    hide Loop; hide Prefill;
    if !TurnedAway(m, q) {
      var prompt := q.prompt.value;
      var (e1, kept) := KeepPrefix(b, e, prompt);
      var (e2, ok) := Prefill(m, b, e1, prompt, kept);
      if ok {
        LoopFits(m, b, q, recv, e2, FRESH, []);
      } else {
        PrefillFailureEmpties(m, b, e1, prompt, kept);
      }
    }
  }

  lemma {:induction false} LoopFits(m: Model, b: Backend, q: Request, recv: Receiver, e: Engine, f: Filter, tokens: seq<Token>)
    requires q.sampler.Some? && |e.cached| <= m.nCtx
    ensures |Loop(m, b, q, recv, e, f, tokens).engine.cached| <= m.nCtx
    decreases m.nCtx - |e.cached|
  {
    hide SamplePass; hide Decode;
    match SamplePass(m, q, recv, e.memory.logits, |e.cached|, f, tokens) {
      case Ends(_, _, _, _) =>
      case Goes(f', tokens', next) =>
        var (e', r) := Decode(m, b, e, [next]);
        if r.Ok? {
          LoopFits(m, b, q, recv, e', f', tokens');
        }
    }
  }

  lemma {:induction false} PrefillFailureEmpties(m: Model, b: Backend, e: Engine, prompt: seq<Token>, off: nat)
    requires off <= |prompt| && m.nBatch > 0
    ensures !Prefill(m, b, e, prompt, off).1 ==> Prefill(m, b, e, prompt, off).0.cached == []
    decreases |prompt| - off
  {
    hide Decode;
    if off < |prompt| {
      var n := BatchSize(m, prompt, off);
      PrefillFailureEmpties(m, b, Decode(m, b, e, prompt[off..off + n]).0, prompt, off + n);
    }
  }

  // ---- Greedy generation under a grammar ----

  /** The sampler of a request: where its grammar stands is a function of the tokens accepted so far. */
  function ChainSampler(lib: Library, chain: Chain, grammar: seq<Token> -> Grammar): Sampler
  {
    (row: LogitRow, tokens: seq<Token>) =>
      if row == [] then None else Sample(lib, chain, row, Some(grammar(tokens)))
  }

  /** Accepting throws on a token the grammar refuses. */
  ghost predicate TakesOnlyAllowed(grammar: seq<Token> -> Grammar)
  {
    forall tokens: seq<Token> :: RefusesOthers(grammar(tokens))
  }

  ghost predicate RefusesOthers(g: Grammar)
  {
    forall t: Token | g.accepts(t) :: g.allowed(t)
  }

  /**
   * Every reply satisfies the grammar: for every chain, sampled or greedy, and however the reply ends,
   * each of its tokens is allowed after the ones before it.
   */
  lemma ReplyObeysGrammar(m: Model, b: Backend, q: Request, recv: Receiver, e: Engine,
                          lib: Library, chain: Chain, grammar: seq<Token> -> Grammar, i: nat)
    requires m.nBatch > 0 && Agrees(e) && !TurnedAway(m, q)
    requires q.sampler.value == ChainSampler(lib, chain, grammar) && TakesOnlyAllowed(grammar)
    requires i < |Generate(m, b, q, recv, e).tokens|
    ensures var tokens := Generate(m, b, q, recv, e).tokens; grammar(tokens[..i]).allowed(tokens[i])
  {
    hide Generate; hide Unfailing; hide Pick;
    GenerateExplained(m, b, q, recv, e);
    var tokens := Generate(m, b, q, recv, e).tokens;
    var row, g := m.logits(q.prompt.value + tokens[..i]), grammar(tokens[..i]);
    assert g.accepts(tokens[i]);
    OnlyAllowed(g, tokens[i]);
  }

  lemma OnlyAllowed(g: Grammar, t: Token)
    requires RefusesOthers(g) && g.accepts(t)
    ensures g.allowed(t)
  {
  }

  /** And a greedy reply takes, at every place, a token none allowed there is more likely than. */
  lemma GreedyReplyIsBestAllowed(m: Model, b: Backend, q: Request, recv: Receiver, e: Engine,
                                 lib: Library, grammar: seq<Token> -> Grammar, i: nat)
    requires m.nBatch > 0 && Agrees(e) && !TurnedAway(m, q)
    requires q.sampler.value == ChainSampler(lib, Greedy, grammar) && TakesOnlyAllowed(grammar)
    requires i < |Generate(m, b, q, recv, e).tokens|
    ensures var tokens := Generate(m, b, q, recv, e).tokens;
            var row, allowed := m.logits(q.prompt.value + tokens[..i]), grammar(tokens[..i]).allowed;
            && 0 <= tokens[i] < |row| && allowed(tokens[i])
            && (forall t | 0 <= t < |row| && allowed(t) :: !Less(row[tokens[i]], row[t]))
  {
    hide Generate; hide Unfailing; hide FirstMax; hide Mask; hide Pick;
    GenerateExplained(m, b, q, recv, e);
    var tokens := Generate(m, b, q, recv, e).tokens;
    var row, g := m.logits(q.prompt.value + tokens[..i]), grammar(tokens[..i]);
    GreedyAgrees(lib, row, Some(g.allowed));
    AllowedChoiceIsBest(row, g.allowed);
  }

  // ---- Any sequence of requests ----

  datatype Call = Call(request: Request, recv: Receiver)

  /** The engine after the calls, one at a time: the lock is held for the whole of each. */
  function Serve(m: Model, b: Backend, e: Engine, calls: seq<Call>): Engine
    requires m.nBatch > 0
  {
    if calls == [] then e
    else
      var last := calls[|calls| - 1];
      Generate(m, b, last.request, last.recv, Serve(m, b, e, calls[..|calls| - 1])).engine
  }

  /** The record agrees with the memory after any calls: refused, failed, cancelled, thrown or finished. */
  lemma {:induction false} RecordAlwaysAgrees(m: Model, b: Backend, e: Engine, calls: seq<Call>)
    requires m.nBatch > 0 && Agrees(e)
    ensures Agrees(Serve(m, b, e, calls))
  {
    hide Generate; hide Agrees; hide Unfailing; hide PureGenerate;
    if calls != [] {
      var before := calls[..|calls| - 1];
      RecordAlwaysAgrees(m, b, e, before);
      var last := calls[|calls| - 1];
      GenerateRefinesPure(m, b, last.request, last.recv, Serve(m, b, e, before));
    }
  }

  /**
   * Warm equals cold: after any calls, on any backend, a request none of whose own decodes fails
   * shows its client what it would show after clearing the cache, on any other backend.
   */
  lemma WarmEqualsCold(m: Model, b: Backend, b': Backend, e: Engine, calls: seq<Call>, q: Request, recv: Receiver)
    requires m.nBatch > 0 && Agrees(e)
    requires Unfailing(m, b, q, recv, Serve(m, b, e, calls))
    requires Unfailing(m, b', q, recv, ClearCache(Serve(m, b, e, calls)))
    ensures var warm := Serve(m, b, e, calls);
            && Seen(Generate(m, b, q, recv, warm)) == Seen(Generate(m, b', q, recv, ClearCache(warm)))
            && Seen(Generate(m, b, q, recv, warm)) == PureGenerate(m, q, recv)
  {
    hide Generate; hide Unfailing; hide PureGenerate; hide Serve;
    RecordAlwaysAgrees(m, b, e, calls);
    var warm := Serve(m, b, e, calls);
    GenerateRefinesPure(m, b, q, recv, warm);
    GenerateRefinesPure(m, b', q, recv, ClearCache(warm));
  }

  /** What the cache holds after a finished generation with no failed decode. */
  function HeldAfter(q: Request, o: Outcome): seq<Token>
    requires q.prompt.Some?
  {
    q.prompt.value + if o.ending == Finished(Eog) then o.tokens else ButLast(o.tokens)
  }

  /**
   * The next turn of a conversation: whatever the reason the previous generation ended for, a prompt
   * that repeats what it left and goes on keeps all of that, if the memory still vouches for position
   * 0, and the batches it decodes are exactly the rest.
   */
  lemma NextTurnDecodesOnlyNewTokens(m: Model, b: Backend, q: Request, recv: Receiver, e: Engine, q': Request, recv': Receiver)
    requires m.nBatch > 0 && Agrees(e) && !TurnedAway(m, q) && Unfailing(m, b, q, recv, e)
    requires var o := Generate(m, b, q, recv, e);
             && o.ending.Finished?
             && !TurnedAway(m, q') && HeldAfter(q, o) < q'.prompt.value
             && Vouches(b, o.engine)
    ensures var o := Generate(m, b, q, recv, e);
            var next := q'.prompt.value;
            && Generate(m, b, q', recv', o.engine).kept == |HeldAfter(q, o)|
            && Concat(Batches(m, next, |HeldAfter(q, o)|)) == next[|HeldAfter(q, o)|..]
  {
    hide Loop; hide Prefill; hide Unfailing; hide PureGenerate; hide KeepPrefix; hide Concat; hide Batches;
    GenerateRefinesPure(m, b, q, recv, e);
    var o := Generate(m, b, q, recv, e);
    assert o.engine.cached == HeldAfter(q, o);
    ExtensionKeepsAll(b, o.engine, q'.prompt.value);
    BatchesCover(m, q'.prompt.value, |HeldAfter(q, o)|);
  }

  // ---- The text ----

  /**
   * The whole engine against one line: for UTF-8 output and stops that split no character, a finished
   * generation nobody refused has delivered the text of its tokens up to the first stop, less a
   * truncated last character; and it reports Stop exactly when that text has a stop.
   */
  lemma GenerateIsOffline(m: Model, b: Backend, q: Request, recv: Receiver, e: Engine)
    requires m.nBatch > 0 && Generate(m, b, q, recv, e).ending.Finished?
    requires CharacterSafe(q.stops)
    requires var o := Generate(m, b, q, recv, e);
             LastVerdict(recv, o.filter.offered) == Accept && ValidPrefix(Concat(Rendered(m, q, o.tokens)))
    ensures var o := Generate(m, b, q, recv, e);
            && Pieces(m, q, o.tokens).Some?
            && var text := Concat(Pieces(m, q, o.tokens).value);
            && Concat(o.filter.offered) == Offline(text, q.stops)
            && (o.ending.reason == Stop <==> HasStop(text, q.stops))
  {
    hide Generate; hide CharacterSafe; hide Valid; hide Pieces; hide Rendered; hide Push; hide Offline; hide HasStop;
    GenerateFeeds(m, b, q, recv, e);
    var o := Generate(m, b, q, recv, e);
    var pieces := Pieces(m, q, o.tokens).value;
    RenderedPieces(m, q, o.tokens);
    AcceptedThroughout(q.stops, recv, pieces);
    if Pushes(q.stops, recv, pieces).status == Continue {
      FlushIsOffline(q.stops, recv, pieces);
    } else {
      assert pieces[..|pieces|] == pieces;
      StopIsOffline(q.stops, recv, pieces);
    }
  }

  /** If the last chunk was accepted, or there was none, the run was never cut short. */
  lemma AcceptedThroughout(stops: seq<Bytes>, recv: Receiver, pieces: seq<Bytes>)
    requires LastVerdict(recv, FilterAll(stops, recv, pieces).0.offered) == Accept
    ensures FilterAll(stops, recv, pieces).1 == Pushes(stops, recv, pieces).status
    ensures FilterAll(stops, recv, pieces).1 in {Continue, Stopped}
  {
    hide Push; hide Tail; hide AcceptedSoFar;
    NothingAfterRefusal(stops, recv, pieces);
    var r := Pushes(stops, recv, pieces);
    if r.status == Continue {
      FlushAccepted(recv, r.filter);
    }
  }
}
