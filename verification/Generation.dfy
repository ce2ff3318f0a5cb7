/** One generation: prompt, cache, sampling loop and stream filter, as `Engine::generate` runs them. */
module Generation {
  import opened ByteStrings
  import opened Logits
  import opened StreamFilters
  import opened KvCache

  /** The next token, from the logits and the tokens already sampled; `None` when sampling throws. */
  type Sampler = (LogitRow, seq<Token>) -> Option<Token>

  /** A request. `prompt` is `None` when tokenizing throws, `sampler` when building the chain does. */
  datatype Request = Request(
    prompt: Option<seq<Token>>,
    sampler: Option<Sampler>,
    stops: seq<Bytes>,
    maxTokens: int,
    preserved: set<Token>)

  datatype FinishReason = Eog | Length | Stop | Cancel

  /** How a generation, or its loop, ends: with a reason, or by an exception. */
  datatype Ending = Finished(reason: FinishReason) | Thrown

  datatype Outcome = Outcome(engine: Engine, filter: Filter, tokens: seq<Token>, ending: Ending, kept: nat)

  datatype LoopEnd = LoopEnd(engine: Engine, filter: Filter, tokens: seq<Token>, ending: Ending, flush: bool)

  /** Whether a request is turned away before the cache is touched. */
  predicate TurnedAway(m: Model, q: Request)
  {
    m.embeddings || q.prompt.None? || q.prompt.value == [] || |q.prompt.value| >= m.nCtx || q.sampler.None?
  }

  predicate BudgetSpent(q: Request, tokens: seq<Token>)
  {
    q.maxTokens >= 0 && |tokens| >= q.maxTokens
  }

  /** One pass of the loop up to the decode: it ends the loop, or leaves a token to decode. */
  datatype Pass = Ends(filter: Filter, tokens: seq<Token>, ending: Ending, flush: bool)
                | Goes(filter: Filter, tokens: seq<Token>, next: Token)

  /** `held` is how many tokens the cache holds, `row` the logits of the last of them. */
  function SamplePass(m: Model, q: Request, recv: Receiver, row: LogitRow, held: nat, f: Filter, tokens: seq<Token>): (r: Pass)
    requires q.sampler.Some?
    ensures r.Goes? ==> held + 1 <= m.nCtx && |r.tokens| == |tokens| + 1
  {
    if BudgetSpent(q, tokens) then Ends(f, tokens, Finished(Length), true)
    else
      var sampled := q.sampler.value(row, tokens);
      if sampled.None? then Ends(f, tokens, Thrown, false)
      else
        var token := sampled.value;
        if m.isEog(token) then Ends(f, tokens, Finished(Eog), true)
        else
          var tokens' := tokens + [token];
          var piece := m.piece(token, token in q.preserved);
          if piece.None? then Ends(f, tokens', Thrown, false)
          else
            var (f', status) := Push(q.stops, recv, f, piece.value);
            match status
            case Stopped => Ends(f', tokens', Finished(Stop), false)
            case Cancelled => Ends(f', tokens', Finished(Cancel), false)
            case Threw => Ends(f', tokens', Thrown, false)
            case Continue =>
              if BudgetSpent(q, tokens') || held + 1 > m.nCtx then Ends(f', tokens', Finished(Length), true)
              else Goes(f', tokens', token)
  }

  function Loop(m: Model, b: Backend, q: Request, recv: Receiver, e: Engine, f: Filter, tokens: seq<Token>): LoopEnd
    requires q.sampler.Some? && |e.cached| <= m.nCtx
    decreases m.nCtx - |e.cached|
  {
    match SamplePass(m, q, recv, e.memory.logits, |e.cached|, f, tokens)
    case Ends(f', tokens', ending, flush) => LoopEnd(e, f', tokens', ending, flush)
    case Goes(f', tokens', next) =>
      var (e', r) := Decode(m, b, e, [next]);
      match r
      case Ok => Loop(m, b, q, recv, e', f', tokens')
      case Code(code) => AfterFailure(e', f', tokens', code)
      case Exception => LoopEnd(e', f', tokens', Thrown, false)
  }

  /** A positive code means there was no room for the token; any other is an error. */
  function AfterFailure(e: Engine, f: Filter, tokens: seq<Token>, code: ErrorCode): LoopEnd
  {
    if code > 0 then LoopEnd(e, f, tokens, Finished(Length), true) else LoopEnd(e, f, tokens, Thrown, false)
  }

  /** Decodes the prompt from `off` on, in batches; false when a decode fails or throws. */
  function Prefill(m: Model, b: Backend, e: Engine, prompt: seq<Token>, off: nat): (r: (Engine, bool))
    requires off <= |prompt| && m.nBatch > 0
    ensures r.1 ==> r.0.cached == e.cached + prompt[off..]
    decreases |prompt| - off
  {
    if off == |prompt| then (e, true)
    else
      var n := BatchSize(m, prompt, off);
      var (e', r) := Decode(m, b, e, prompt[off..off + n]);
      assert prompt[off..] == prompt[off..off + n] + prompt[off + n..];
      if r.Ok? then Prefill(m, b, e', prompt, off + n) else (e', false)
  }

  function BatchSize(m: Model, prompt: seq<Token>, off: nat): nat
    requires off <= |prompt|
  {
    if m.nBatch < |prompt| - off then m.nBatch else |prompt| - off
  }

  /** The batches the prompt from `off` on is decoded in. */
  function Batches(m: Model, prompt: seq<Token>, off: nat): seq<seq<Token>>
    requires off <= |prompt| && m.nBatch > 0
    decreases |prompt| - off
  {
    if off == |prompt| then []
    else
      var n := BatchSize(m, prompt, off);
      [prompt[off..off + n]] + Batches(m, prompt, off + n)
  }

  function Generate(m: Model, b: Backend, q: Request, recv: Receiver, e: Engine): Outcome
    requires m.nBatch > 0
  {
    if TurnedAway(m, q) then Outcome(e, FRESH, [], Thrown, 0)
    else
      var prompt := q.prompt.value;
      var (e1, kept) := KeepPrefix(b, e, prompt);
      var (e2, ok) := Prefill(m, b, e1, prompt, kept);
      if !ok then Outcome(e2, FRESH, [], Thrown, kept)
      else Finish(recv, Loop(m, b, q, recv, e2, FRESH, []), kept)
  }

  /** The flush after the loop; an exception of the receiver replaces the result. */
  function Finish(recv: Receiver, end: LoopEnd, kept: nat): Outcome
  {
    if !end.flush then Outcome(end.engine, end.filter, end.tokens, end.ending, kept)
    else
      var (f, v) := Flush(recv, end.filter);
      Outcome(end.engine, f, end.tokens, if v.Throw? then Thrown else end.ending, kept)
  }
}
