/**
 * The KV cache record: `cached` must name exactly what sequence 0 of the memory holds, although the
 * memory can refuse a trim, lose its oldest positions, and fail or throw half-way through a batch.
 */
module KvCache {
  import opened ByteStrings
  import opened Logits

  /**
   * Sequence 0 of the backend's memory. `history` is the tokens decoded into it, in position order;
   * `low` the lowest position it still holds; `exact` that it is what decoding `history` into an
   * empty memory leaves; `logits` those of the last position decoded, whatever happened since.
   */
  datatype Memory = Memory(history: seq<Token>, low: int, exact: bool, logits: LogitRow)

  /** Asked to drop positions: refused, with anything left behind, or done; `low` is the new lowest. */
  datatype TrimAnswer = Refused(left: Memory) | Trimmed(low: int)

  type ErrorCode = c: int | c != 0 witness 1

  /** Asked to decode a batch: done, or failed or thrown with anything left behind. */
  datatype DecodeAnswer = Decoded(low: int) | Failed(code: ErrorCode, left: Memory) | Crashed(left: Memory)

  /**
   * The backend: its answer to each trim and each decode it is asked for, and what stands in for logits
   * when the memory is not exact. Quantifying over these functions covers every behaviour of every run.
   */
  datatype Backend = Backend(trim: nat -> TrimAnswer, decode: nat -> DecodeAnswer, noise: nat -> LogitRow)

  /** The model: its logits are a function of the token sequence. */
  datatype Model = Model(
    logits: seq<Token> -> LogitRow,
    isEog: Token -> bool,
    piece: (Token, bool) -> Option<Bytes>,
    embeddings: bool,
    nCtx: nat,
    nBatch: nat)

  /** The record, the memory, and how many decodes and trims the backend has been asked for. */
  datatype Engine = Engine(cached: seq<Token>, memory: Memory, clock: nat, trims: nat)

  datatype DecodeResult = Ok | Code(code: ErrorCode) | Exception

  /** The record agrees with the memory, and the memory is what decoding the record would give. */
  predicate Agrees(e: Engine)
  {
    e.cached == e.memory.history && e.memory.exact
  }

  function ClearMemory(memory: Memory): Memory
  {
    memory.(history := [], low := -1, exact := true)
  }

  function ClearCache(e: Engine): Engine
  {
    e.(cached := [], memory := ClearMemory(e.memory))
  }

  /** How many leading tokens two sequences share. */
  function Common(a: seq<Token>, b: seq<Token>): (n: nat)
    ensures n <= |a| && n <= |b| && a[..n] == b[..n]
    ensures n < |a| && n < |b| ==> a[n] != b[n]
  {
    if a == [] || b == [] || a[0] != b[0] then 0
    else
      var n := Common(a[1..], b[1..]);
      assert a[..n + 1] == [a[0]] + a[1..][..n];
      assert b[..n + 1] == [b[0]] + b[1..][..n];
      1 + n
  }

  /** The shared prefix, stopping one short of the whole prompt. */
  function Reusable(cached: seq<Token>, prompt: seq<Token>): nat
  {
    if prompt == [] then 0
    else if Common(cached, prompt) < |prompt| then Common(cached, prompt)
    else |prompt| - 1
  }

  method ReusablePrefix(cached: seq<Token>, prompt: seq<Token>) returns (n: nat)
    ensures n == Reusable(cached, prompt)
    ensures n <= |cached| && n <= |prompt| && cached[..n] == prompt[..n]
    ensures if prompt == [] then n == 0
            else n < |prompt| && (n < |cached| && n < |prompt| - 1 ==> cached[n] != prompt[n])
  {
    if prompt == [] {
      return 0;
    }
    var limit := if |cached| < |prompt| - 1 then |cached| else |prompt| - 1;
    n := 0;
    while n < limit && cached[n] == prompt[n]
      invariant n <= limit
      invariant cached[..n] == prompt[..n]
    {
      n := n + 1;
    }
    CommonAtLeast(cached, prompt, n);
  }

  lemma CommonAtLeast(a: seq<Token>, b: seq<Token>, n: nat)
    requires n <= |a| && n <= |b| && a[..n] == b[..n]
    ensures n <= Common(a, b)
  {
    forall i | 0 <= i < n ensures a[i] == b[i] {
      assert a[i] == a[..n][i];
    }
  }

  /** The memory after a request to drop everything from position `keep` on. */
  function TrimMemory(memory: Memory, answer: TrimAnswer, keep: nat): Memory
  {
    match answer
    case Refused(left) => left
    case Trimmed(low) =>
      var history := if keep <= |memory.history| then memory.history[..keep] else memory.history;
      memory.(history := history, low := low, exact := memory.exact && low == 0)
  }

  function Trim(b: Backend, e: Engine, keep: nat): Engine
  {
    e.(memory := TrimMemory(e.memory, b.trim(e.trims), keep), trims := e.trims + 1)
  }

  function KeepPrefix(b: Backend, e: Engine, prompt: seq<Token>): (r: (Engine, nat))
    ensures |r.0.cached| == r.1 <= |prompt| && (prompt != [] ==> r.1 < |prompt|)
    ensures r.1 == 0 || r.1 == Reusable(e.cached, prompt)
  {
    var keep := Reusable(e.cached, prompt);
    if keep == 0 then (ClearCache(e), 0)
    else
      var e' := Trim(b, e, keep);
      if b.trim(e.trims).Refused? || e'.memory.low != 0 then (ClearCache(e'), 0)
      else (e'.(cached := e.cached[..keep]), keep)
  }

  /** The memory after a request, made at `clock`, to decode the tokens. */
  function DecodeMemory(m: Model, b: Backend, memory: Memory, clock: nat, tokens: seq<Token>): Memory
  {
    match b.decode(clock)
    case Decoded(low) =>
      var history := memory.history + tokens;
      Memory(history, low, memory.exact, if memory.exact then m.logits(history) else b.noise(clock))
    case Failed(_, left) => left
    case Crashed(left) => left
  }

  function Decode(m: Model, b: Backend, e: Engine, tokens: seq<Token>): (r: (Engine, DecodeResult))
    ensures r.0.cached == if r.1.Ok? then e.cached + tokens else []
  {
    var asked := e.(memory := DecodeMemory(m, b, e.memory, e.clock, tokens), clock := e.clock + 1);
    match b.decode(e.clock)
    case Decoded(_) => (asked.(cached := e.cached + tokens), Ok)
    case Failed(code, _) => (ClearCache(asked), Code(code))
    case Crashed(_) => (ClearCache(asked), Exception)
  }

  /** Trimming keeps the agreement, whatever the memory answers. */
  lemma KeepPrefixAgrees(b: Backend, e: Engine, prompt: seq<Token>)
    requires Agrees(e)
    ensures var (e', kept) := KeepPrefix(b, e, prompt);
            && Agrees(e') && e'.cached == prompt[..kept]
            && e.clock == e'.clock
  {
    var n := Common(e.cached, prompt);
    var keep := Reusable(e.cached, prompt);
    assert e.cached[..keep] == e.cached[..n][..keep] == prompt[..n][..keep] == prompt[..keep];
  }

  /** Asked for this trim, the memory does it and still holds position 0. */
  predicate Vouches(b: Backend, e: Engine)
  {
    b.trim(e.trims) == Trimmed(0)
  }

  /**
   * Something is kept exactly when the prompt has more than one token, the record begins with its
   * first, and the memory vouches for it; and then it is the longest prefix the two share that leaves
   * a token of the prompt to decode.
   */
  ghost predicate KeepsLongest(b: Backend, e: Engine, prompt: seq<Token>, kept: nat)
  {
    && (kept > 0 <==> |prompt| > 1 && e.cached != [] && e.cached[0] == prompt[0] && Vouches(b, e))
    && kept <= |e.cached| && kept <= |prompt| && e.cached[..kept] == prompt[..kept]
    && (Vouches(b, e) ==>
          forall n | 0 <= n <= |e.cached| && n < |prompt| && e.cached[..n] == prompt[..n] :: n <= kept)
  }

  lemma KeptIff(b: Backend, e: Engine, prompt: seq<Token>)
    ensures KeepsLongest(b, e, prompt, KeepPrefix(b, e, prompt).1)
  {
    var n, keep, kept := Common(e.cached, prompt), Reusable(e.cached, prompt), KeepPrefix(b, e, prompt).1;
    assert e.cached[..keep] == e.cached[..n][..keep] == prompt[..n][..keep] == prompt[..keep];
    if |prompt| > 1 && e.cached != [] && e.cached[0] == prompt[0] {
      CommonAtLeast(e.cached, prompt, 1);
    }
    if keep > 0 {
      assert e.cached[..n][0] == prompt[..n][0];
    }
    forall i | 0 <= i <= |e.cached| && i < |prompt| && e.cached[..i] == prompt[..i] ensures i <= keep {
      CommonAtLeast(e.cached, prompt, i);
    }
  }

  /** Decoding keeps the agreement, and a decode that succeeds leaves the logits of the whole record. */
  lemma DecodeAgrees(m: Model, b: Backend, e: Engine, tokens: seq<Token>)
    requires Agrees(e)
    ensures var (e', r) := Decode(m, b, e, tokens);
            Agrees(e') && (r.Ok? ==> e'.memory.logits == m.logits(e'.cached))
  {
  }

  /** What the record was for: a prompt that strictly extends it costs only its new tokens. */
  lemma ExtensionKeepsAll(b: Backend, e: Engine, prompt: seq<Token>)
    requires e.cached < prompt && e.cached != []
    requires Vouches(b, e)
    ensures KeepPrefix(b, e, prompt).1 == |e.cached|
  {
    assert prompt[..|e.cached|] == e.cached;
    CommonAtLeast(e.cached, prompt, |e.cached|);
  }
}
