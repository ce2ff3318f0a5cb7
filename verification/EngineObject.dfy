/** The engine as an object: the record, the memory and the loops that drive them, in place. */
module EngineObject {
  import opened Logits
  import opened StreamFilters
  import opened KvCache
  import opened Generation

  class LlamaEngine {
    const model: Model
    const backend: Backend
    var cached: seq<Token>
    var memory: Memory
    var clock: nat
    var trims: nat

    function State(): KvCache.Engine
      reads this
    {
      Engine(cached, memory, clock, trims)
    }

    /** A context that has just been created, or warmed up and cleared: its memory is empty. */
    constructor (model: Model, backend: Backend, stale: LogitRow)
      ensures this.model == model && this.backend == backend
      ensures cached == [] && Agrees(State())
    {
      this.model, this.backend := model, backend;
      cached, memory, clock, trims := [], Memory([], -1, true, stale), 0, 0;
    }

    method Clear()
      modifies this
      ensures State() == ClearCache(old(State()))
    {
      memory := memory.(history := [], low := -1, exact := true);
      cached := [];
    }

    method KeepPromptPrefix(prompt: seq<Token>) returns (kept: nat)
      modifies this
      ensures (State(), kept) == KeepPrefix(backend, old(State()), prompt)
    {
      var keep := ReusablePrefix(cached, prompt);
      if keep == 0 {
        Clear();
        return 0;
      }
      var done := backend.trim(trims).Trimmed?;
      memory, trims := TrimMemory(memory, backend.trim(trims), keep), trims + 1;
      if !done || memory.low != 0 {
        Clear();
        return 0;
      }
      cached := cached[..keep];
      return keep;
    }

    method DecodeTokens(tokens: seq<Token>) returns (r: DecodeResult)
      modifies this
      ensures (State(), r) == Decode(model, backend, old(State()), tokens)
    {
      var answer := backend.decode(clock);
      match answer {
        case Crashed(left) =>
          memory, clock := left, clock + 1;
          Clear();
          return Exception;
        case Failed(code, left) =>
          memory, clock := left, clock + 1;
          Clear();
          return Code(code);
        case Decoded(low) =>
          var history := memory.history + tokens;
          var logits := if memory.exact then model.logits(history) else backend.noise(clock);
          memory, clock := Memory(history, low, memory.exact, logits), clock + 1;
          cached := cached + tokens;
          return Ok;
      }
    }

    method DecodePrompt(prompt: seq<Token>, kept: nat) returns (ok: bool)
      requires kept <= |prompt| && model.nBatch > 0
      modifies this
      ensures (State(), ok) == Prefill(model, backend, old(State()), prompt, kept)
    {
      var off := kept;
      while off < |prompt|
        invariant kept <= off <= |prompt|
        invariant Prefill(model, backend, State(), prompt, off) == Prefill(model, backend, old(State()), prompt, kept)
      {
        var n := BatchSize(model, prompt, off);
        var r := DecodeTokens(prompt[off..off + n]);
        if !r.Ok? {
          return false;
        }
        off := off + n;
      }
      return true;
    }

    method RunGenerate(q: Request, recv: Receiver) returns (o: Outcome)
      requires model.nBatch > 0
      modifies this
      ensures o == Generate(model, backend, q, recv, old(State())) && State() == o.engine
    {
      hide Push; hide Decode; hide Prefill; hide KeepPrefix; hide Deliver;
      if model.embeddings || q.prompt.None? || q.prompt.value == [] || |q.prompt.value| >= model.nCtx
         || q.sampler.None? {
        return Outcome(State(), FRESH, [], Thrown, 0);
      }
      var prompt := q.prompt.value;
      var kept := KeepPromptPrefix(prompt);
      var ok := DecodePrompt(prompt, kept);
      if !ok {
        return Outcome(State(), FRESH, [], Thrown, kept);
      }
      var filter := new StreamFilter(q.stops, recv);
      var tokens: seq<Token>, ending, flush := [], Finished(Length), true;
      ghost var first := Loop(model, backend, q, recv, State(), FRESH, []);
      while true
        invariant fresh(filter) && filter.stops == q.stops && filter.recv == recv
        invariant |cached| <= model.nCtx
        invariant Loop(model, backend, q, recv, State(), filter.State(), tokens) == first
        decreases model.nCtx - |cached|
      {
        if BudgetSpent(q, tokens) {
          ending := Finished(Length);
          break;
        }
        var sampled := q.sampler.value(memory.logits, tokens);
        if sampled.None? {
          return Outcome(State(), filter.State(), tokens, Thrown, kept);
        }
        var token := sampled.value;
        if model.isEog(token) {
          ending := Finished(Eog);
          break;
        }
        tokens := tokens + [token];
        var piece := model.piece(token, token in q.preserved);
        if piece.None? {
          return Outcome(State(), filter.State(), tokens, Thrown, kept);
        }
        var status := filter.PushPiece(piece.value);
        if status == Stopped {
          ending, flush := Finished(Stop), false;
          break;
        }
        if status == Cancelled {
          ending, flush := Finished(Cancel), false;
          break;
        }
        if status == Threw {
          return Outcome(State(), filter.State(), tokens, Thrown, kept);
        }
        if BudgetSpent(q, tokens) {
          ending := Finished(Length);
          break;
        }
        if |cached| + 1 > model.nCtx {
          ending := Finished(Length);
          break;
        }
        var r := DecodeTokens([token]);
        if r.Code? {
          if r.code > 0 {
            ending := Finished(Length);
            break;
          }
          return Outcome(State(), filter.State(), tokens, Thrown, kept);
        }
        if r.Exception? {
          return Outcome(State(), filter.State(), tokens, Thrown, kept);
        }
      }
      if flush {
        var v := filter.FlushPending();
        if v.Throw? {
          ending := Thrown;
        }
      }
      return Outcome(State(), filter.State(), tokens, ending, kept);
    }
  }
}
