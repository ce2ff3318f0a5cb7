/**
 * What holds of every generation: the record stays true to the memory, the cache never shows in the
 * outcome, the loop ends within tight bounds, and the text is the offline cut of the tokens' text.
 */
module GenerationTheorems {
  import opened ByteStrings
  import opened Logits
  import opened StreamFilters
  import opened KvCache
  import opened Generation

  // ---- The prompt ----

  /** Decodes the batches in order until one does not succeed. */
  function DecodeInOrder(m: Model, b: Backend, e: Engine, batches: seq<seq<Token>>): (Engine, bool)
    decreases |batches|
  {
    if batches == [] then (e, true)
    else
      var (e', r) := Decode(m, b, e, batches[0]);
      if r.Ok? then DecodeInOrder(m, b, e', batches[1..]) else (e', false)
  }

  /**
   * Prefill decodes non-empty batches that, laid end to end, are exactly the prompt from the kept
   * prefix on: all of `nBatch` tokens, but for the last, which may have fewer.
   */
  lemma PrefillCoversPrompt(m: Model, b: Backend, e: Engine, prompt: seq<Token>, off: nat)
    requires off <= |prompt| && m.nBatch > 0
    ensures var batches := Batches(m, prompt, off);
            && Prefill(m, b, e, prompt, off) == DecodeInOrder(m, b, e, batches)
            && Concat(batches) == prompt[off..]
            && (forall i | 0 <= i < |batches| :: 0 < |batches[i]| <= m.nBatch)
            && (forall i | 0 <= i < |batches| - 1 :: |batches[i]| == m.nBatch)
  {
    PrefillDecodesBatches(m, b, e, prompt, off);
    BatchesCover(m, prompt, off);
  }

  lemma {:induction false} PrefillDecodesBatches(m: Model, b: Backend, e: Engine, prompt: seq<Token>, off: nat)
    requires off <= |prompt| && m.nBatch > 0
    ensures Prefill(m, b, e, prompt, off) == DecodeInOrder(m, b, e, Batches(m, prompt, off))
    decreases |prompt| - off
  {
    hide Decode; hide DecodeInOrder;
    if off == |prompt| {
      assert DecodeInOrder(m, b, e, []) == (e, true) by { InOrderNone(m, b, e); }
    } else {
      var n := BatchSize(m, prompt, off);
      var batch, rest := prompt[off..off + n], Batches(m, prompt, off + n);
      PrefillDecodesBatches(m, b, Decode(m, b, e, batch).0, prompt, off + n);
      InOrderStep(m, b, e, batch, rest);
    }
  }

  lemma InOrderNone(m: Model, b: Backend, e: Engine)
    ensures DecodeInOrder(m, b, e, []) == (e, true)
  {
  }

  lemma InOrderStep(m: Model, b: Backend, e: Engine, batch: seq<Token>, rest: seq<seq<Token>>)
    ensures var (e', r) := Decode(m, b, e, batch);
            DecodeInOrder(m, b, e, [batch] + rest) == if r.Ok? then DecodeInOrder(m, b, e', rest) else (e', false)
  {
    hide Decode;
    assert ([batch] + rest)[1..] == rest;
  }

  lemma {:induction false} BatchesCover(m: Model, prompt: seq<Token>, off: nat)
    requires off <= |prompt| && m.nBatch > 0
    ensures var batches := Batches(m, prompt, off);
            && Concat(batches) == prompt[off..]
            && (forall i | 0 <= i < |batches| :: 0 < |batches[i]| <= m.nBatch)
            && (forall i | 0 <= i < |batches| - 1 :: |batches[i]| == m.nBatch)
    decreases |prompt| - off
  {
    if off < |prompt| {
      var n := BatchSize(m, prompt, off);
      var batch, rest := prompt[off..off + n], Batches(m, prompt, off + n);
      BatchesCover(m, prompt, off + n);
      ConcatPlus([batch], rest);
      ConcatOne(batch);
      assert prompt[off..] == batch + prompt[off + n..];
    }
  }

  lemma {:induction false} PrefillAgrees(m: Model, b: Backend, e: Engine, prompt: seq<Token>, off: nat)
    requires off <= |prompt| && m.nBatch > 0 && Agrees(e)
    ensures var (e', ok) := Prefill(m, b, e, prompt, off);
            && Agrees(e') && e.clock <= e'.clock
            && (ok && off < |prompt| ==> e'.memory.logits == m.logits(e'.cached))
            && (NoFailure(b, e.clock, e'.clock) <==> ok)
            && (!ok ==> e'.cached == [])
    decreases |prompt| - off
  {
    if off < |prompt| {
      var n := BatchSize(m, prompt, off);
      var batch := prompt[off..off + n];
      DecodeAgrees(m, b, e, batch);
      var (e', r) := Decode(m, b, e, batch);
      if r.Ok? {
        PrefillAgrees(m, b, e', prompt, off + n);
      }
    }
  }

  /** Prefill asks for one decode a batch, up to the first that does not succeed. */
  lemma {:induction false} PrefillTicks(m: Model, b: Backend, e: Engine, prompt: seq<Token>, off: nat)
    requires off <= |prompt| && m.nBatch > 0
    ensures var (e', ok) := Prefill(m, b, e, prompt, off);
            if ok then e'.clock == e.clock + |Batches(m, prompt, off)| && NoFailure(b, e.clock, e'.clock)
            else e.clock < e'.clock <= e.clock + |Batches(m, prompt, off)| && FailsAt(b, e.clock, e'.clock - 1)
    decreases |prompt| - off
  {
    hide Decode;
    if off < |prompt| {
      var n := BatchSize(m, prompt, off);
      var batch := prompt[off..off + n];
      DecodeTick(m, b, e, batch);
      var (e', r) := Decode(m, b, e, batch);
      if r.Ok? {
        PrefillTicks(m, b, e', prompt, off + n);
      }
    }
  }

  /** The first decode from this tick on that did not succeed. */
  ghost predicate FailsAt(b: Backend, from: nat, at: nat)
  {
    from <= at && NoFailure(b, from, at) && !b.decode(at).Decoded?
  }

  /** Every decode the backend answered in this stretch of ticks succeeded. */
  ghost predicate NoFailure(b: Backend, from: nat, to: nat)
  {
    forall t: nat | from <= t < to :: b.decode(t).Decoded?
  }

  // ---- The simple form: generation with no cache at all ----

  /** What a client can see of a generation, and the tokens behind it. */
  datatype Visible = Visible(filter: Filter, tokens: seq<Token>, ending: Ending)

  datatype PureEnd = PureEnd(filter: Filter, tokens: seq<Token>, ending: Ending, flush: bool)

  /** The loop with the logits of the whole sequence recomputed at every pass. */
  function PureLoop(m: Model, q: Request, recv: Receiver, prompt: seq<Token>, f: Filter, tokens: seq<Token>): PureEnd
    requires q.sampler.Some? && |prompt| + |tokens| <= m.nCtx
    decreases m.nCtx - |tokens|
  {
    match SamplePass(m, q, recv, m.logits(prompt + tokens), |prompt| + |tokens|, f, tokens)
    case Ends(f', tokens', ending, flush) => PureEnd(f', tokens', ending, flush)
    case Goes(f', tokens', _) => PureLoop(m, q, recv, prompt, f', tokens')
  }

  function PureGenerate(m: Model, q: Request, recv: Receiver): Visible
  {
    if TurnedAway(m, q) then Visible(FRESH, [], Thrown)
    else
      var end := PureLoop(m, q, recv, q.prompt.value, FRESH, []);
      if !end.flush then Visible(end.filter, end.tokens, end.ending)
      else
        var (f, v) := Flush(recv, end.filter);
        Visible(f, end.tokens, if v.Throw? then Thrown else end.ending)
  }

  function Seen(o: Outcome): Visible
  {
    Visible(o.filter, o.tokens, o.ending)
  }

  function ButLast<T>(s: seq<T>): seq<T>
  {
    if s == [] then [] else s[..|s| - 1]
  }

  /**
   * What the cache holds after a generation with no failed decode: the prompt and the completion,
   * without its last token unless the model ended the turn. An exception can leave it either way.
   */
  predicate HeldAtExit(cached: seq<Token>, prompt: seq<Token>, tokens: seq<Token>, ending: Ending)
  {
    match ending
    case Finished(Eog) => cached == prompt + tokens
    case Finished(_) => cached == prompt + ButLast(tokens)
    case Thrown => cached == prompt + tokens || cached == prompt + ButLast(tokens)
  }

  /** A loop with the cache ends as the one without it, and holds what `HeldAtExit` says. */
  predicate EndsAlike(end: LoopEnd, pure: PureEnd, prompt: seq<Token>)
  {
    && PureEnd(end.filter, end.tokens, end.ending, end.flush) == pure
    && HeldAtExit(end.engine.cached, prompt, end.tokens, end.ending)
  }

  /**
   * The loop's last decode failed and ended it: the record is empty, the tokens are right as far as
   * they go, and the reason is Length if and only if the code said there was no room.
   */
  predicate EndsEarly(b: Backend, end: LoopEnd, pure: PureEnd)
  {
    && end.engine.cached == [] && end.tokens <= pure.tokens && end.engine.clock > 0
    && var last := b.decode(end.engine.clock - 1);
    && !last.Decoded?
    && end.ending == (if last.Failed? && last.code > 0 then Finished(Length) else Thrown)
    && (end.flush <==> end.ending.Finished?)
  }

  /**
   * The cached loop against the pure one: when no decode fails the two end alike; a failed decode
   * ends the loop early. The record agrees with the memory either way.
   */
  lemma {:induction false} LoopRefinesPure(m: Model, b: Backend, q: Request, recv: Receiver, prompt: seq<Token>,
                                           e: Engine, f: Filter, tokens: seq<Token>)
    requires q.sampler.Some? && |prompt| + |tokens| <= m.nCtx
    requires Agrees(e) && e.cached == prompt + tokens && e.memory.logits == m.logits(e.cached)
    requires tokens == [] || !BudgetSpent(q, tokens)
    ensures var end := Loop(m, b, q, recv, e, f, tokens);
            var pure := PureLoop(m, q, recv, prompt, f, tokens);
            && Agrees(end.engine) && e.clock <= end.engine.clock
            && if NoFailure(b, e.clock, end.engine.clock) then EndsAlike(end, pure, prompt) else EndsEarly(b, end, pure)
    decreases m.nCtx - |tokens|
  {
    hide EndsAlike; hide EndsEarly; hide SamplePass; hide Decode;
    match SamplePass(m, q, recv, e.memory.logits, |e.cached|, f, tokens) {
      case Ends(f', tokens', ending, flush) =>
        PassEnds(m, q, recv, prompt, e, f, tokens);
      case Goes(f', tokens', next) =>
        PassGoes(m, q, recv, e.memory.logits, |e.cached|, f, tokens);
        DecodeAgrees(m, b, e, [next]);
        var (e', r) := Decode(m, b, e, [next]);
        assert prompt + tokens' == prompt + tokens + [next];
        DecodeTick(m, b, e, [next]);
        if r.Ok? {
          LoopRefinesPure(m, b, q, recv, prompt, e', f', tokens');
        } else {
          PureTokensGrow(m, q, recv, prompt, f', tokens');
          DecodeFailed(m, b, q, recv, prompt, e, f, tokens);
        }
    }
  }

  lemma DecodeTick(m: Model, b: Backend, e: Engine, tokens: seq<Token>)
    ensures var (e', r) := Decode(m, b, e, tokens);
            && e'.clock == e.clock + 1 && (r.Ok? <==> b.decode(e.clock).Decoded?)
  {
  }

  lemma PassGoes(m: Model, q: Request, recv: Receiver, row: LogitRow, held: nat, f: Filter, tokens: seq<Token>)
    requires q.sampler.Some?
    ensures var r := SamplePass(m, q, recv, row, held, f, tokens);
            r.Goes? ==> r.tokens == tokens + [r.next] && !BudgetSpent(q, r.tokens)
  {
    hide Push;
  }

  lemma PassEnds(m: Model, q: Request, recv: Receiver, prompt: seq<Token>, e: Engine, f: Filter, tokens: seq<Token>)
    requires q.sampler.Some? && e.cached == prompt + tokens
    requires tokens == [] || !BudgetSpent(q, tokens)
    requires SamplePass(m, q, recv, e.memory.logits, |e.cached|, f, tokens).Ends?
    ensures var r := SamplePass(m, q, recv, e.memory.logits, |e.cached|, f, tokens);
            EndsAlike(LoopEnd(e, r.filter, r.tokens, r.ending, r.flush),
                      PureEnd(r.filter, r.tokens, r.ending, r.flush), prompt)
  {
    hide Push;
    var r := SamplePass(m, q, recv, e.memory.logits, |e.cached|, f, tokens);
    assert r.tokens == tokens || ButLast(r.tokens) == tokens;
  }

  lemma DecodeFailed(m: Model, b: Backend, q: Request, recv: Receiver, prompt: seq<Token>,
                     e: Engine, f: Filter, tokens: seq<Token>)
    requires q.sampler.Some? && |prompt| + |tokens| <= m.nCtx && |e.cached| == |prompt| + |tokens|
    requires e.memory.logits == m.logits(prompt + tokens)
    requires SamplePass(m, q, recv, e.memory.logits, |e.cached|, f, tokens).Goes?
    requires var r := SamplePass(m, q, recv, e.memory.logits, |e.cached|, f, tokens);
             && !Decode(m, b, e, [r.next]).1.Ok?
             && |r.tokens| == |tokens| + 1
             && r.tokens <= PureLoop(m, q, recv, prompt, r.filter, r.tokens).tokens
    ensures EndsEarly(b, Loop(m, b, q, recv, e, f, tokens), PureLoop(m, q, recv, prompt, f, tokens))
  {
    hide SamplePass;
  }

  lemma {:induction false} PureTokensGrow(m: Model, q: Request, recv: Receiver, prompt: seq<Token>, f: Filter, tokens: seq<Token>)
    requires q.sampler.Some? && |prompt| + |tokens| <= m.nCtx
    ensures tokens <= PureLoop(m, q, recv, prompt, f, tokens).tokens
    decreases m.nCtx - |tokens|
  {
    hide Push;
    match SamplePass(m, q, recv, m.logits(prompt + tokens), |prompt| + |tokens|, f, tokens) {
      case Ends(_, _, _, _) =>
      case Goes(f', tokens', _) => PureTokensGrow(m, q, recv, prompt, f', tokens');
    }
  }

  /** The last decode was refused for want of room: its code was positive. */
  predicate NoSlot(b: Backend, e: Engine)
  {
    e.clock > 0 && b.decode(e.clock - 1).Failed? && b.decode(e.clock - 1).code > 0
  }

  /** Every decode of this generation succeeded. */
  ghost predicate Unfailing(m: Model, b: Backend, q: Request, recv: Receiver, e: Engine)
    requires m.nBatch > 0
  {
    NoFailure(b, e.clock, Generate(m, b, q, recv, e).engine.clock)
  }

  /**
   * Record agreement and refinement, for any backend, request, receiver and any cache that agrees
   * with its record: the cache agrees again afterwards, whatever happened; and if no decode failed,
   * the client sees exactly what the generation without a cache shows.
   */
  lemma GenerateRefinesPure(m: Model, b: Backend, q: Request, recv: Receiver, e: Engine)
    requires m.nBatch > 0 && Agrees(e)
    ensures var o := Generate(m, b, q, recv, e);
            && Agrees(o.engine) && e.clock <= o.engine.clock
            && (TurnedAway(m, q) ==> o.engine == e)
            && o.tokens <= PureGenerate(m, q, recv).tokens
            && (Unfailing(m, b, q, recv, e) ==>
                  && Seen(o) == PureGenerate(m, q, recv)
                  && (!TurnedAway(m, q) && o.ending.Finished? ==>
                        HeldAtExit(o.engine.cached, q.prompt.value, o.tokens, o.ending)))
            && (!Unfailing(m, b, q, recv, e) ==>
                  && o.engine.cached == [] && o.ending in {Thrown, Finished(Length)}
                  && (o.ending == Finished(Length) ==> NoSlot(b, o.engine)))
  {
    hide Loop; hide PureLoop; hide HeldAtExit; hide Prefill; hide Decode; hide KeepPrefix;
    if !TurnedAway(m, q) {
      var prompt := q.prompt.value;
      KeepPrefixAgrees(b, e, prompt);
      var (e1, kept) := KeepPrefix(b, e, prompt);
      PrefillAgrees(m, b, e1, prompt, kept);
      var (e2, ok) := Prefill(m, b, e1, prompt, kept);
      if ok {
        assert prompt[..kept] + prompt[kept..] == prompt == prompt + [];
        LoopRefinesPure(m, b, q, recv, prompt, e2, FRESH, []);
      }
    }
  }
}
