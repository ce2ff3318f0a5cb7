/**
 * Concurrent requests one after the other: whatever the order in which threads arrive, wait and get
 * the lock, and however their single writes fall, the engine ends as if the calls had been served in
 * lock order, each whole.
 */
module Serialization {
  import opened ByteStrings
  import opened Logits
  import opened StreamFilters
  import opened KvCache
  import opened Generation
  import opened GenerationTheorems
  import opened RunTheorems
  import opened Locking

  // ---- The writes of a whole generation ----

  function PrefillWrites(m: Model, b: Backend, e: Engine, prompt: seq<Token>, off: nat): (steps: seq<Step>)
    requires off <= |prompt| && m.nBatch > 0
    ensures OnlyWrites(steps)
    decreases |prompt| - off
  {
    if off == |prompt| then []
    else
      var n := BatchSize(m, prompt, off);
      var (e', r) := Decode(m, b, e, prompt[off..off + n]);
      DecodeWrites(b, e, prompt[off..off + n]) + if r.Ok? then PrefillWrites(m, b, e', prompt, off + n) else []
  }

  function LoopWrites(m: Model, b: Backend, q: Request, recv: Receiver, e: Engine, f: Filter, tokens: seq<Token>): (steps: seq<Step>)
    requires q.sampler.Some? && |e.cached| <= m.nCtx
    ensures OnlyWrites(steps)
    decreases m.nCtx - |e.cached|
  {
    match SamplePass(m, q, recv, e.memory.logits, |e.cached|, f, tokens)
    case Ends(_, _, _, _) => []
    case Goes(f', tokens', next) =>
      var (e', r) := Decode(m, b, e, [next]);
      DecodeWrites(b, e, [next]) + if r.Ok? then LoopWrites(m, b, q, recv, e', f', tokens') else []
  }

  function GenerateWrites(m: Model, b: Backend, q: Request, recv: Receiver, e: Engine): (steps: seq<Step>)
    requires m.nBatch > 0
    ensures OnlyWrites(steps)
  {
    if TurnedAway(m, q) then []
    else
      var prompt := q.prompt.value;
      var (e1, kept) := KeepPrefix(b, e, prompt);
      var (e2, ok) := Prefill(m, b, e1, prompt, kept);
      KeepWrites(b, e, prompt) + PrefillWrites(m, b, e1, prompt, kept)
        + if ok then LoopWrites(m, b, q, recv, e2, FRESH, []) else []
  }

  lemma TakesNothing(m: Model, b: Backend, t: Thread, e: Engine)
    ensures Takes(m, b, t, e, [], e)
  {
  }

  lemma {:induction false} PrefillByWrites(m: Model, b: Backend, t: Thread, e: Engine, prompt: seq<Token>, off: nat)
    requires off <= |prompt| && m.nBatch > 0
    ensures Takes(m, b, t, e, PrefillWrites(m, b, e, prompt, off), Prefill(m, b, e, prompt, off).0)
    decreases |prompt| - off
  {
    hide Decode; hide DecodeWrites; hide Takes;
    TakesNothing(m, b, t, e);
    if off < |prompt| {
      var batch := prompt[off..off + BatchSize(m, prompt, off)];
      DecodeByWrites(m, b, e, t, batch);
      var (e', r) := Decode(m, b, e, batch);
      if r.Ok? {
        PrefillByWrites(m, b, t, e', prompt, off + |batch|);
        TakesBoth(m, b, t, e, DecodeWrites(b, e, batch), e', PrefillWrites(m, b, e', prompt, off + |batch|),
                  Prefill(m, b, e', prompt, off + |batch|).0);
      } else {
        assert DecodeWrites(b, e, batch) + [] == DecodeWrites(b, e, batch);
      }
    }
  }

  lemma {:induction false} LoopByWrites(m: Model, b: Backend, t: Thread, q: Request, recv: Receiver, e: Engine, f: Filter, tokens: seq<Token>)
    requires q.sampler.Some? && |e.cached| <= m.nCtx
    ensures Takes(m, b, t, e, LoopWrites(m, b, q, recv, e, f, tokens), Loop(m, b, q, recv, e, f, tokens).engine)
    decreases m.nCtx - |e.cached|
  {
    hide SamplePass; hide Decode; hide DecodeWrites; hide Takes;
    TakesNothing(m, b, t, e);
    match SamplePass(m, q, recv, e.memory.logits, |e.cached|, f, tokens) {
      case Ends(_, _, _, _) =>
      case Goes(f', tokens', next) =>
        DecodeByWrites(m, b, e, t, [next]);
        var (e', r) := Decode(m, b, e, [next]);
        if r.Ok? {
          LoopByWrites(m, b, t, q, recv, e', f', tokens');
          TakesBoth(m, b, t, e, DecodeWrites(b, e, [next]), e', LoopWrites(m, b, q, recv, e', f', tokens'),
                    Loop(m, b, q, recv, e', f', tokens').engine);
        } else {
          assert DecodeWrites(b, e, [next]) + [] == DecodeWrites(b, e, [next]);
        }
    }
  }

  /** The writes of a generation, done by the holder, leave exactly the engine `Generate` does. */
  lemma GenerateByWrites(m: Model, b: Backend, t: Thread, q: Request, recv: Receiver, e: Engine)
    requires m.nBatch > 0
    ensures Takes(m, b, t, e, GenerateWrites(m, b, q, recv, e), Generate(m, b, q, recv, e).engine)
  {
    hide Loop; hide LoopWrites; hide Prefill; hide PrefillWrites; hide KeepPrefix; hide KeepWrites; hide Takes; hide Flush;
    if TurnedAway(m, q) {
      TakesNothing(m, b, t, e);
    } else {
      var prompt := q.prompt.value;
      KeepPrefixByWrites(m, b, e, t, prompt);
      var (e1, kept) := KeepPrefix(b, e, prompt);
      PrefillByWrites(m, b, t, e1, prompt, kept);
      var (e2, ok) := Prefill(m, b, e1, prompt, kept);
      var soFar := KeepWrites(b, e, prompt) + PrefillWrites(m, b, e1, prompt, kept);
      TakesBoth(m, b, t, e, KeepWrites(b, e, prompt), e1, PrefillWrites(m, b, e1, prompt, kept), e2);
      if ok {
        LoopByWrites(m, b, t, q, recv, e2, FRESH, []);
        TakesBoth(m, b, t, e, soFar, e2, LoopWrites(m, b, q, recv, e2, FRESH, []), Loop(m, b, q, recv, e2, FRESH, []).engine);
      } else {
        assert soFar + [] == soFar;
      }
    }
  }

  // ---- Threads ----

  /** A call under the lock: the writes it still has to do, and what it will return. */
  datatype Running = Running(call: Call, left: seq<Step>, outcome: Outcome)

  /** A call that has returned, and what it returned. */
  datatype Served = Served(call: Call, outcome: Outcome)

  /** The calls of waiting threads, the one under the lock, and those that have returned, in lock order. */
  datatype World = World(state: State, waiting: map<Thread, Call>, running: Option<Running>, served: seq<Served>)

  function Calls(served: seq<Served>): (calls: seq<Call>)
    ensures |calls| == |served|
  {
    seq(|served|, i requires 0 <= i < |served| => served[i].call)
  }

  datatype Action = Arrive(call: Call) | Enter | Write | Leave

  predicate CanDo(w: World, t: Thread, a: Action)
  {
    match a
    case Arrive(_) => t !in w.waiting && w.state.holder != Some(t)
    case Enter => t in w.waiting && Enabled(w.state, t, Acquire)
    case Write => w.running.Some? && w.running.value.left != [] && Enabled(w.state, t, w.running.value.left[0])
    case Leave => w.running.Some? && w.running.value.left == [] && Enabled(w.state, t, Release)
  }

  function Do(m: Model, b: Backend, w: World, t: Thread, a: Action): World
    requires m.nBatch > 0 && CanDo(w, t, a)
  {
    match a
    case Arrive(call) => w.(waiting := w.waiting[t := call])
    case Enter =>
      var call := w.waiting[t];
      var running := Running(call, GenerateWrites(m, b, call.request, call.recv, w.state.engine),
                             Generate(m, b, call.request, call.recv, w.state.engine));
      w.(state := Next(m, b, w.state, t, Acquire), waiting := w.waiting - {t}, running := Some(running))
    case Write =>
      var running := w.running.value;
      w.(state := Next(m, b, w.state, t, running.left[0]), running := Some(running.(left := running.left[1..])))
    case Leave =>
      var served := Served(w.running.value.call, w.running.value.outcome);
      w.(state := Next(m, b, w.state, t, Release), running := None, served := w.served + [served])
  }

  /** Every returned call returned what it does on the engine the calls before it leave. */
  ghost predicate ReturnedInOrder(m: Model, b: Backend, e: Engine, served: seq<Served>)
    requires m.nBatch > 0
  {
    forall i | 0 <= i < |served| ::
      served[i].outcome ==
      Generate(m, b, served[i].call.request, served[i].call.recv, Serve(m, b, e, Calls(served[..i])))
  }

  /**
   * With the lock free the engine is what the served calls leave; with the lock held it is on its way
   * to what they and the running call leave.
   */
  ghost predicate Serial(m: Model, b: Backend, e: Engine, w: World)
    requires m.nBatch > 0
  {
    var before := Serve(m, b, e, Calls(w.served));
    && ReturnedInOrder(m, b, e, w.served)
    && match w.state.holder
       case None => w.running.None? && w.state == State(before, None, Between)
       case Some(t) =>
         && w.running.Some?
         && var r := w.running.value;
         && OnlyWrites(r.left)
         && r.outcome == Generate(m, b, r.call.request, r.call.recv, before)
         && Perform(m, b, w.state, t, r.left) == Some(State(r.outcome.engine, Some(t), Between))
  }

  lemma ServeOneMore(m: Model, b: Backend, e: Engine, calls: seq<Call>, call: Call)
    requires m.nBatch > 0
    ensures Serve(m, b, e, calls + [call]) == Generate(m, b, call.request, call.recv, Serve(m, b, e, calls)).engine
  {
    hide Generate;
    assert (calls + [call])[..|calls|] == calls;
  }

  lemma OneMoreReturned(m: Model, b: Backend, e: Engine, served: seq<Served>, last: Served)
    requires m.nBatch > 0 && ReturnedInOrder(m, b, e, served)
    requires last.outcome == Generate(m, b, last.call.request, last.call.recv, Serve(m, b, e, Calls(served)))
    ensures ReturnedInOrder(m, b, e, served + [last])
    ensures Serve(m, b, e, Calls(served + [last])) == last.outcome.engine
  {
    hide Generate; hide Serve;
    var all := served + [last];
    forall i | 0 <= i < |all|
      ensures all[i].outcome == Generate(m, b, all[i].call.request, all[i].call.recv, Serve(m, b, e, Calls(all[..i])))
    {
      if i < |served| {
        assert all[..i] == served[..i];
      } else {
        assert all[..i] == served;
      }
    }
    assert Calls(all) == Calls(served) + [last.call];
    ServeOneMore(m, b, e, Calls(served), last.call);
  }

  lemma ActionKeepsSerial(m: Model, b: Backend, e: Engine, w: World, t: Thread, a: Action)
    requires m.nBatch > 0 && Serial(m, b, e, w) && CanDo(w, t, a)
    ensures Serial(m, b, e, Do(m, b, w, t, a))
  {
    hide Serve; hide Generate; hide GenerateWrites; hide ReturnedInOrder; hide Calls;
    match a {
      case Arrive(_) =>
      case Enter =>
        var call := w.waiting[t];
        GenerateByWrites(m, b, t, call.request, call.recv, w.state.engine);
      case Write => OnlyTheHolderWrites(w.state, t, w.running.value.left[0]);
      case Leave => OneMoreReturned(m, b, e, w.served, Served(w.running.value.call, w.running.value.outcome));
    }
  }

  lemma OnlyTheHolderWrites(s: State, t: Thread, step: Step)
    requires Enabled(s, t, step) && s.holder.Some?
    ensures s.holder == Some(t)
  {
  }

  datatype Happening = Happening(thread: Thread, action: Action)

  ghost predicate IsHistory(m: Model, b: Backend, worlds: seq<World>, happenings: seq<Happening>)
    requires m.nBatch > 0
  {
    && |worlds| == |happenings| + 1
    && forall i | 0 <= i < |happenings| ::
         CanDo(worlds[i], happenings[i].thread, happenings[i].action)
         && worlds[i + 1] == Do(m, b, worlds[i], happenings[i].thread, happenings[i].action)
  }

  /**
   * In every history of arriving, waiting and running threads: whenever the lock is free, the engine
   * is what serving the calls one by one in lock order leaves, and each has returned what it then
   * does, and any waiting thread can take it; and a thread that has the lock can always make its next
   * write or give the lock back.
   */
  lemma {:induction false} ConcurrentCallsAreServed(m: Model, b: Backend, e: Engine, worlds: seq<World>, happenings: seq<Happening>, n: nat)
    requires m.nBatch > 0 && IsHistory(m, b, worlds, happenings) && n < |worlds|
    requires worlds[0] == World(State(e, None, Between), map[], None, [])
    ensures Serial(m, b, e, worlds[n])
    ensures ReturnedInOrder(m, b, e, worlds[n].served)
    ensures var w := worlds[n];
            match w.state.holder
            case None =>
              && w.state.engine == Serve(m, b, e, Calls(w.served))
              && forall t | t in w.waiting :: CanDo(w, t, Enter)
            case Some(t) => w.running.Some? && CanDo(w, t, if w.running.value.left == [] then Leave else Write)
  {
    hide Do; hide Serve;
    if n == 0 {
      ServeNone(m, b, e);
    } else {
      ConcurrentCallsAreServed(m, b, e, worlds, happenings, n - 1);
      ActionKeepsSerial(m, b, e, worlds[n - 1], happenings[n - 1].thread, happenings[n - 1].action);
    }
  }

  lemma ServeNone(m: Model, b: Backend, e: Engine)
    requires m.nBatch > 0
    ensures Serve(m, b, e, []) == e
  {
  }

  /** The calls that have arrived. */
  function Arrived(happenings: seq<Happening>): seq<Call>
  {
    if happenings == [] then []
    else
      var last := happenings[|happenings| - 1].action;
      Arrived(happenings[..|happenings| - 1]) + if last.Arrive? then [last.call] else []
  }

  /** As many calls are waiting, running or served as have arrived, and each of them has arrived. */
  ghost predicate Accounted(w: World, arrived: seq<Call>)
  {
    && |arrived| == |w.waiting| + (if w.running.Some? then 1 else 0) + |w.served|
    && (w.running.Some? <==> w.state.holder.Some?)
    && (forall t | t in w.waiting :: w.waiting[t] in arrived)
    && (w.running.Some? ==> w.running.value.call in arrived)
    && (forall i | 0 <= i < |w.served| :: w.served[i].call in arrived)
  }

  lemma ActionAccounts(m: Model, b: Backend, w: World, t: Thread, a: Action, arrived: seq<Call>)
    requires m.nBatch > 0 && CanDo(w, t, a) && Accounted(w, arrived)
    requires w.running.Some? ==> OnlyWrites(w.running.value.left)
    ensures Accounted(Do(m, b, w, t, a), arrived + if a.Arrive? then [a.call] else [])
  {
    hide Generate; hide GenerateWrites; hide Next; hide Accounted;
    match a {
      case Arrive(call) => ArrivalAccounts(w, t, call, arrived);
      case Enter =>
        HolderAfter(m, b, w.state, t, Acquire);
        EntryAccounts(w, Do(m, b, w, t, a), t, arrived);
      case Write =>
        HolderAfter(m, b, w.state, t, w.running.value.left[0]);
        WriteAccounts(w, Do(m, b, w, t, a), arrived);
        assert arrived + [] == arrived;
      case Leave =>
        HolderAfter(m, b, w.state, t, Release);
        LeavingAccounts(w, Do(m, b, w, t, a), arrived);
        assert arrived + [] == arrived;
    }
  }

  lemma ArrivalAccounts(w: World, t: Thread, call: Call, arrived: seq<Call>)
    requires Accounted(w, arrived) && t !in w.waiting
    ensures Accounted(w.(waiting := w.waiting[t := call]), arrived + [call])
  {
    assert w.waiting[t := call].Keys == w.waiting.Keys + {t};
  }

  lemma EntryAccounts(w: World, w': World, t: Thread, arrived: seq<Call>)
    requires Accounted(w, arrived) && w.state.holder.None? && t in w.waiting && w'.running.Some? && w'.state.holder.Some?
    requires w'.waiting == w.waiting - {t} && w'.running.value.call == w.waiting[t] && w'.served == w.served
    ensures Accounted(w', arrived + [])
  {
    assert arrived + [] == arrived;
    assert w'.waiting.Keys == w.waiting.Keys - {t};
  }

  lemma WriteAccounts(w: World, w': World, arrived: seq<Call>)
    requires Accounted(w, arrived) && w.running.Some? && w'.running.Some? && w'.state.holder == w.state.holder
    requires w'.waiting == w.waiting && w'.running.value.call == w.running.value.call && w'.served == w.served
    ensures Accounted(w', arrived)
  {
  }

  lemma LeavingAccounts(w: World, w': World, arrived: seq<Call>)
    requires Accounted(w, arrived) && w.running.Some? && w'.running.None? && w'.state.holder.None?
    requires w'.waiting == w.waiting && |w'.served| == |w.served| + 1 && w'.served[..|w.served|] == w.served
    requires w'.served[|w.served|].call == w.running.value.call
    ensures Accounted(w', arrived)
  {
  }

  lemma HolderAfter(m: Model, b: Backend, s: State, t: Thread, step: Step)
    requires Enabled(s, t, step)
    ensures Next(m, b, s, t, step).holder == if step.Acquire? then Some(t) else if step.Release? then None else s.holder
  {
  }

  /** In every history, no call is lost and none is made up. */
  lemma {:induction false} NoCallIsLost(m: Model, b: Backend, e: Engine, worlds: seq<World>, happenings: seq<Happening>, n: nat)
    requires m.nBatch > 0 && IsHistory(m, b, worlds, happenings) && n < |worlds|
    requires worlds[0] == World(State(e, None, Between), map[], None, [])
    ensures Accounted(worlds[n], Arrived(happenings[..n]))
  {
    hide Do; hide CanDo; hide Accounted; hide Serve;
    if n == 0 {
      NoneArrived(worlds[0]);
      assert happenings[..0] == [];
    } else {
      NoCallIsLost(m, b, e, worlds, happenings, n - 1);
      ConcurrentCallsAreServed(m, b, e, worlds, happenings, n - 1);
      var last := happenings[n - 1];
      assert happenings[..n][..n - 1] == happenings[..n - 1];
      ActionAccounts(m, b, worlds[n - 1], last.thread, last.action, Arrived(happenings[..n - 1]));
    }
  }

  lemma NoneArrived(w: World)
    requires w.waiting == map[] && w.running.None? && w.served == [] && w.state.holder.None?
    ensures Accounted(w, [])
  {
  }

  /**
   * So in every history a call none of whose decodes failed has shown its client the generation the
   * request alone determines, whoever ran before it.
   */
  lemma ConcurrentCallsShowPure(m: Model, b: Backend, e: Engine, worlds: seq<World>, happenings: seq<Happening>, n: nat, i: nat)
    requires m.nBatch > 0 && Agrees(e) && IsHistory(m, b, worlds, happenings) && n < |worlds|
    requires worlds[0] == World(State(e, None, Between), map[], None, [])
    requires i < |worlds[n].served|
    ensures var served := worlds[n].served;
            var q, recv := served[i].call.request, served[i].call.recv;
            Unfailing(m, b, q, recv, Serve(m, b, e, Calls(served[..i]))) ==>
              Seen(served[i].outcome) == PureGenerate(m, q, recv)
  {
    hide Generate; hide Serve; hide Unfailing; hide PureGenerate; hide Serial; hide IsHistory; hide Agrees;
    ConcurrentCallsAreServed(m, b, e, worlds, happenings, n);
    var served := worlds[n].served;
    RecordAlwaysAgrees(m, b, e, Calls(served[..i]));
    GenerateRefinesPure(m, b, served[i].call.request, served[i].call.recv, Serve(m, b, e, Calls(served[..i])));
  }
}
