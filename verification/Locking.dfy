/**
 * The engine under concurrent requests, at the grain of its single writes. The memory and the record
 * are written one after the other, so half-way through an operation they disagree; only the holder of
 * the lock can be half-way, and it gives the lock back, by return or by exception, between operations.
 */
module Locking {
  import opened ByteStrings
  import opened Logits
  import opened KvCache

  type Thread = nat

  /** Where the holder of the lock is inside an operation. */
  datatype Point =
    | Between                          // no operation under way
    | MustClear                        // the memory refused, failed or threw: clear_cache comes next
    | MustForget                       // the memory has been cleared, the record not yet
    | MustTrim(keep: nat)              // the memory has been trimmed, the record not yet
    | MustRecord(tokens: seq<Token>)   // the memory has decoded the tokens, the record lacks them

  datatype State = State(engine: Engine, holder: Option<Thread>, point: Point)

  /** One write of one thread, or its taking or giving back of the lock. */
  datatype Step =
    | Acquire
    | Release
    | StartClear
    | AskTrim(prompt: seq<Token>)
    | AskDecode(tokens: seq<Token>)
    | WipeMemory
    | ForgetRecord
    | TrimRecord
    | AppendRecord

  predicate Enabled(s: State, t: Thread, step: Step)
  {
    match step
    case Acquire => s.holder.None?
    case Release => s.holder == Some(t) && s.point.Between?
    case StartClear => s.holder == Some(t) && s.point.Between?
    case AskTrim(prompt) => s.holder == Some(t) && s.point.Between? && Reusable(s.engine.cached, prompt) > 0
    case AskDecode(_) => s.holder == Some(t) && s.point.Between?
    case WipeMemory => s.holder == Some(t) && s.point.MustClear?
    case ForgetRecord => s.holder == Some(t) && s.point.MustForget?
    case TrimRecord => s.holder == Some(t) && s.point.MustTrim? && s.point.keep <= |s.engine.cached|
    case AppendRecord => s.holder == Some(t) && s.point.MustRecord?
  }

  function Next(m: Model, b: Backend, s: State, t: Thread, step: Step): State
    requires Enabled(s, t, step)
  {
    var e := s.engine;
    match step
    case Acquire => s.(holder := Some(t))
    case Release => s.(holder := None)
    case StartClear => s.(point := MustClear)
    case AskTrim(prompt) =>
      var keep := Reusable(e.cached, prompt);
      s.(engine := Trim(b, e, keep), point := if Vouches(b, e) then MustTrim(keep) else MustClear)
    case AskDecode(tokens) =>
      s.(engine := e.(memory := DecodeMemory(m, b, e.memory, e.clock, tokens), clock := e.clock + 1),
         point := if b.decode(e.clock).Decoded? then MustRecord(tokens) else MustClear)
    case WipeMemory => s.(engine := e.(memory := ClearMemory(e.memory)), point := MustForget)
    case ForgetRecord => s.(engine := e.(cached := []), point := Between)
    case TrimRecord => s.(engine := e.(cached := e.cached[..s.point.keep]), point := Between)
    case AppendRecord => s.(engine := e.(cached := e.cached + s.point.tokens), point := Between)
  }

  /** What the record and the memory owe each other at each point. */
  predicate Consistent(s: State)
  {
    var cached, memory := s.engine.cached, s.engine.memory;
    && (s.holder.None? ==> s.point.Between?)
    && match s.point
       case Between => Agrees(s.engine)
       case MustClear => true
       case MustForget => memory.history == [] && memory.exact
       case MustTrim(keep) => keep <= |cached| && memory.history == cached[..keep] && memory.exact
       case MustRecord(tokens) => memory.history == cached + tokens && memory.exact
  }

  lemma StepKeepsConsistent(m: Model, b: Backend, s: State, t: Thread, step: Step)
    requires Consistent(s) && Enabled(s, t, step)
    ensures Consistent(Next(m, b, s, t, step))
  {
  }

  datatype Event = Event(thread: Thread, step: Step)

  ghost predicate IsRun(m: Model, b: Backend, states: seq<State>, events: seq<Event>)
  {
    && |states| == |events| + 1
    && forall i | 0 <= i < |events| ::
         Enabled(states[i], events[i].thread, events[i].step)
         && states[i + 1] == Next(m, b, states[i], events[i].thread, events[i].step)
  }

  /**
   * Over every interleaving of every thread's steps, whatever operations they are made of: whenever
   * the lock is free, the record is what the memory holds; and a thread that does not hold the lock
   * never changes either.
   */
  lemma {:induction false} LockFreeMeansAgreement(m: Model, b: Backend, states: seq<State>, events: seq<Event>, n: nat)
    requires IsRun(m, b, states, events) && n < |states| && Consistent(states[0])
    ensures Consistent(states[n])
    ensures states[n].holder.None? ==> Agrees(states[n].engine)
    ensures n < |events| && states[n].holder != Some(events[n].thread) ==> states[n + 1].engine == states[n].engine
  {
    if n > 0 {
      LockFreeMeansAgreement(m, b, states, events, n - 1);
      StepKeepsConsistent(m, b, states[n - 1], events[n - 1].thread, events[n - 1].step);
    }
  }

  // ---- Operations as sequences of writes ----

  /** Steps of one thread, done one after the other; `None` if one of them is not enabled. */
  function Perform(m: Model, b: Backend, s: State, t: Thread, steps: seq<Step>): Option<State>
    decreases |steps|
  {
    if steps == [] then Some(s)
    else if !Enabled(s, t, steps[0]) then None
    else Perform(m, b, Next(m, b, s, t, steps[0]), t, steps[1..])
  }

  lemma {:induction false} PerformPlus(m: Model, b: Backend, s: State, t: Thread, first: seq<Step>, second: seq<Step>)
    ensures var middle := Perform(m, b, s, t, first);
            Perform(m, b, s, t, first + second) ==
            if middle.None? then None else Perform(m, b, middle.value, t, second)
    decreases |first|
  {
    hide Next; hide Enabled;
    if first == [] {
      assert first + second == second;
    } else {
      assert (first + second)[1..] == first[1..] + second;
      if Enabled(s, t, first[0]) {
        PerformPlus(m, b, Next(m, b, s, t, first[0]), t, first[1..], second);
      }
    }
  }

  /** By these writes the holder takes the engine from `e` to `e'`, with no operation left half-way. */
  ghost predicate Takes(m: Model, b: Backend, t: Thread, e: Engine, steps: seq<Step>, e': Engine)
  {
    Perform(m, b, State(e, Some(t), Between), t, steps) == Some(State(e', Some(t), Between))
  }

  lemma TakesBoth(m: Model, b: Backend, t: Thread, e: Engine, first: seq<Step>, e': Engine, second: seq<Step>, e'': Engine)
    requires Takes(m, b, t, e, first, e') && Takes(m, b, t, e', second, e'')
    ensures Takes(m, b, t, e, first + second, e'')
  {
    PerformPlus(m, b, State(e, Some(t), Between), t, first, second);
  }

  /** None of the steps takes or gives back the lock. */
  predicate OnlyWrites(steps: seq<Step>)
  {
    forall i | 0 <= i < |steps| :: !steps[i].Acquire? && !steps[i].Release?
  }

  function DecodeWrites(b: Backend, e: Engine, tokens: seq<Token>): (steps: seq<Step>)
    ensures OnlyWrites(steps)
  {
    [AskDecode(tokens)] + if b.decode(e.clock).Decoded? then [AppendRecord] else [WipeMemory, ForgetRecord]
  }

  function KeepWrites(b: Backend, e: Engine, prompt: seq<Token>): (steps: seq<Step>)
    ensures OnlyWrites(steps)
  {
    if Reusable(e.cached, prompt) == 0 then [StartClear, WipeMemory, ForgetRecord]
    else [AskTrim(prompt)] + if Vouches(b, e) then [TrimRecord] else [WipeMemory, ForgetRecord]
  }

  /** The writes of one decode leave exactly what `Decode` does. */
  lemma DecodeByWrites(m: Model, b: Backend, e: Engine, t: Thread, tokens: seq<Token>)
    ensures Takes(m, b, t, e, DecodeWrites(b, e, tokens), Decode(m, b, e, tokens).0)
  {
    var s := State(e, Some(t), Between);
    if b.decode(e.clock).Decoded? {
      TwoSteps(m, b, s, t, AskDecode(tokens), AppendRecord);
    } else {
      ThreeSteps(m, b, s, t, AskDecode(tokens), WipeMemory, ForgetRecord);
    }
  }

  /** The writes of keeping a prompt's prefix leave exactly what `KeepPrefix` does. */
  lemma KeepPrefixByWrites(m: Model, b: Backend, e: Engine, t: Thread, prompt: seq<Token>)
    ensures Takes(m, b, t, e, KeepWrites(b, e, prompt), KeepPrefix(b, e, prompt).0)
  {
    var s := State(e, Some(t), Between);
    if Reusable(e.cached, prompt) == 0 {
      ThreeSteps(m, b, s, t, StartClear, WipeMemory, ForgetRecord);
    } else if Vouches(b, e) {
      TwoSteps(m, b, s, t, AskTrim(prompt), TrimRecord);
    } else {
      ThreeSteps(m, b, s, t, AskTrim(prompt), WipeMemory, ForgetRecord);
    }
  }

  lemma TwoSteps(m: Model, b: Backend, s: State, t: Thread, x: Step, y: Step)
    requires Enabled(s, t, x) && Enabled(Next(m, b, s, t, x), t, y)
    ensures Perform(m, b, s, t, [x] + [y]) == Some(Next(m, b, Next(m, b, s, t, x), t, y))
  {
    hide Next; hide Enabled;
    var steps: seq<Step> := [x] + [y];
    var s' := Next(m, b, s, t, x);
    assert steps[1..] == [y] && steps[1..][1..] == [];
    assert Perform(m, b, s', t, [y]) == Some(Next(m, b, s', t, y));
  }

  lemma ThreeSteps(m: Model, b: Backend, s: State, t: Thread, x: Step, y: Step, z: Step)
    requires Enabled(s, t, x) && Enabled(Next(m, b, s, t, x), t, y)
    requires Enabled(Next(m, b, Next(m, b, s, t, x), t, y), t, z)
    ensures Perform(m, b, s, t, [x] + [y, z]) == Some(Next(m, b, Next(m, b, Next(m, b, s, t, x), t, y), t, z))
    ensures [x] + [y, z] == [x, y, z]
  {
    hide Next; hide Enabled;
    var steps: seq<Step> := [x] + [y, z];
    assert [y] + [z] == [y, z];
    TwoSteps(m, b, Next(m, b, s, t, x), t, y, z);
    assert steps[1..] == [y, z];
  }
}
