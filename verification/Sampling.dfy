/** The sampler and its two shortcuts, each against the slow form it stands for. */
module Sampling {
  import opened ByteStrings
  import opened Logits

  predicate Less(a: Logit, b: Logit)
  {
    b.Finite? && (a.MinusInfinity? || a.value < b.value)
  }

  /** The first of the highest logits, which is what the greedy sampler selects. */
  function FirstMax(row: LogitRow): (t: nat)
    requires row != []
    ensures t < |row|
    ensures forall i | 0 <= i < |row| :: !Less(row[t], row[i])
    ensures forall i | 0 <= i < t :: Less(row[i], row[t])
  {
    if |row| == 1 then 0
    else
      var n := |row| - 1;
      var t := FirstMax(row[..n]);
      if Less(row[t], row[n]) then n else t
  }

  method MaxElement(row: LogitRow) returns (t: nat)
    requires row != []
    ensures t == FirstMax(row)
  {
    t := 0;
    for i := 1 to |row|
      invariant t < i
      invariant forall j | 0 <= j < i :: !Less(row[t], row[j])
      invariant forall j | 0 <= j < t :: Less(row[j], row[t])
    {
      if Less(row[t], row[i]) {
        t := i;
      }
    }
  }

  /** The tokens a grammar allows next. */
  type Allowed = Token -> bool

  /** The logits behind a grammar: a refused token's is minus infinity. */
  function Mask(row: LogitRow, allowed: Allowed): (masked: LogitRow)
    ensures |masked| == |row|
  {
    seq(|row|, i requires 0 <= i < |row| => if allowed(i) then row[i] else MinusInfinity)
  }

  /** A first maximum the grammar allows is still one behind the grammar. */
  lemma MaskKeepsMax(row: LogitRow, allowed: Allowed, t: nat)
    requires row != [] && t == FirstMax(row) && allowed(t)
    ensures FirstMax(Mask(row, allowed)) == t
  {
    var masked := Mask(row, allowed);
    forall i | 0 <= i < |row| ensures !Less(masked[t], masked[i]) && (i < t ==> Less(masked[i], masked[t])) {
      assert !Less(row[t], row[i]);
      assert i < t ==> Less(row[i], row[t]);
    }
    FirstMaxUnique(masked, t);
  }

  lemma FirstMaxUnique(row: LogitRow, t: nat)
    requires t < |row|
    requires forall i | 0 <= i < |row| :: !Less(row[t], row[i])
    requires forall i | 0 <= i < t :: Less(row[i], row[t])
    ensures FirstMax(row) == t
  {
    assert !Less(row[t], row[FirstMax(row)]) && !Less(row[FirstMax(row)], row[t]);
  }

  /** Some token the grammar allows has a finite logit. */
  predicate CanGoOn(row: LogitRow, allowed: Allowed)
  {
    exists t | 0 <= t < |row| :: allowed(t) && row[t].Finite?
  }

  /** The chosen token is the first of the most likely ones the grammar allows, if any is possible. */
  lemma GreedyIsBestAllowed(row: LogitRow, allowed: Allowed)
    requires row != [] && CanGoOn(row, allowed)
    ensures var t := FirstMax(Mask(row, allowed));
            && allowed(t)
            && (forall i | 0 <= i < |row| && allowed(i) :: !Less(row[t], row[i]))
            && (forall i | 0 <= i < t && allowed(i) :: Less(row[i], row[t]))
  {
    var masked := Mask(row, allowed);
    var t := FirstMax(masked);
    var u :| 0 <= u < |row| && allowed(u) && row[u].Finite?;
    assert !Less(masked[t], masked[u]);
    forall i | 0 <= i < |row| && allowed(i) ensures !Less(row[t], row[i]) && (i < t ==> Less(row[i], row[t])) {
      assert !Less(masked[t], masked[i]);
    }
  }

  /** The choice obeys the grammar if and only if some allowed token is possible, or token 0 is allowed. */
  lemma GreedyObeysGrammarIff(row: LogitRow, allowed: Allowed)
    requires row != []
    ensures allowed(FirstMax(Mask(row, allowed))) <==> CanGoOn(row, allowed) || allowed(0)
  {
    var masked := Mask(row, allowed);
    var t := FirstMax(masked);
    if CanGoOn(row, allowed) {
      GreedyIsBestAllowed(row, allowed);
    } else {
      assert masked[t].MinusInfinity?;
      assert t == 0 || Less(masked[0], masked[t]);
    }
  }

  /** If the choice behind the grammar is allowed, nothing allowed is more likely, possible or not. */
  lemma AllowedChoiceIsBest(row: LogitRow, allowed: Allowed)
    requires row != [] && allowed(FirstMax(Mask(row, allowed)))
    ensures forall i | 0 <= i < |row| && allowed(i) :: !Less(row[FirstMax(Mask(row, allowed))], row[i])
  {
    var masked := Mask(row, allowed);
    forall i | 0 <= i < |row| && allowed(i) ensures !Less(row[FirstMax(masked)], row[i]) {
      assert !Less(masked[FirstMax(masked)], masked[i]);
    }
  }

  // ---- Preselecting the k highest ----

  /** `ids` are `k` different tokens in descending order of logit, and no other token has a higher one. */
  ghost predicate IsTop(row: LogitRow, k: nat, ids: seq<nat>)
  {
    && |ids| == k
    && (forall i | 0 <= i < k :: ids[i] < |row|)
    && (forall i, j | 0 <= i < j < k :: ids[i] != ids[j])
    && (forall i, j | 0 <= i < j < k :: !Less(row[ids[i]], row[ids[j]]))
    && (forall t, i | 0 <= t < |row| && t !in ids && 0 <= i < k :: !Less(row[ids[i]], row[t]))
  }

  function Elements(s: seq<nat>): set<nat>
  {
    set i | 0 <= i < |s| :: s[i]
  }

  lemma {:induction false} ElementsSize(s: seq<nat>)
    ensures |Elements(s)| <= |s|
    ensures (forall i, j | 0 <= i < j < |s| :: s[i] != s[j]) ==> |Elements(s)| == |s|
  {
    if s != [] {
      var init, last := s[..|s| - 1], s[|s| - 1];
      ElementsSize(init);
      assert Elements(s) == Elements(init) + {last};
    }
  }

  /** Rank by rank, no list of the highest logits is above another. */
  lemma RankNotHigher(row: LogitRow, k: nat, a: seq<nat>, b: seq<nat>, i: nat)
    requires IsTop(row, k, a) && IsTop(row, k, b) && i < k
    ensures !Less(row[b[i]], row[a[i]])
  {
    if Less(row[b[i]], row[a[i]]) {
      forall t | t in Elements(a[..i + 1]) ensures t in Elements(b[..i]) {
        assert Less(row[b[i]], row[t]);
        var j :| 0 <= j < k && b[j] == t;
        assert j < i;
        assert b[..i][j] == t;
      }
      Contained(Elements(a[..i + 1]), Elements(b[..i]));
      ElementsSize(a[..i + 1]);
      ElementsSize(b[..i]);
      assert false;
    }
  }

  lemma {:induction false} Contained(a: set<nat>, b: set<nat>)
    requires a <= b
    ensures |a| <= |b|
  {
    if a != {} {
      var x :| x in a;
      Contained(a - {x}, b - {x});
    }
  }

  /** Two lists of the k highest are the same, logit for logit, and token for token unless logits tie. */
  lemma TopIsUnique(row: LogitRow, k: nat, a: seq<nat>, b: seq<nat>)
    requires IsTop(row, k, a) && IsTop(row, k, b)
    ensures forall i | 0 <= i < k :: row[a[i]] == row[b[i]]
    ensures Distinct(row) ==> a == b
  {
    forall i | 0 <= i < k ensures row[a[i]] == row[b[i]] {
      RankNotHigher(row, k, a, b, i);
      RankNotHigher(row, k, b, a, i);
    }
  }

  predicate Distinct(row: LogitRow)
  {
    forall i, j | 0 <= i < j < |row| :: row[i] != row[j]
  }

  // ---- The chain ----

  /** What the standard library and llama.cpp do with ties is theirs: any list of the k highest will do. */
  datatype Library = Library(partialSort: (LogitRow, nat) -> seq<nat>, topK: (LogitRow, nat) -> seq<nat>)

  ghost predicate Lawful(lib: Library)
  {
    forall row: LogitRow, k: nat | k <= |row| :: IsTop(row, k, lib.partialSort(row, k)) && IsTop(row, k, lib.topK(row, k))
  }

  /** A candidate as the samplers see it. */
  datatype Candidate = Candidate(id: nat, logit: Logit)

  /**
   * The chain: the greedy sampler alone, or top-k (unless disabled) and then the rest, any function of
   * the candidates it is left with to the index it selects.
   */
  datatype Chain = Greedy | Filters(topK: int, rest: seq<Candidate> -> int)

  /** How many of the highest logits the chain can select from. */
  function Selectable(chain: Chain, n: nat): nat
  {
    match chain
    case Greedy => 1
    case Filters(k, _) => if k > 0 && k < n then k else n
  }

  function Everyone(n: nat): (ids: seq<nat>)
    ensures |ids| == n && forall i | 0 <= i < n :: ids[i] == i
  {
    seq(n, i => i)
  }

  /** The candidates: the whole vocabulary in token order, the one highest, or the `count` highest sorted. */
  function Preselect(lib: Library, row: LogitRow, count: nat): seq<nat>
    requires row != []
  {
    if count == |row| then Everyone(|row|)
    else if count == 1 then [FirstMax(row)]
    else lib.partialSort(row, count)
  }

  /** The tokens top-k leaves: of sorted candidates the first k, of the whole vocabulary the k highest. */
  function Kept(lib: Library, k: int, row: LogitRow, ids: seq<nat>, sorted: bool): seq<nat>
  {
    if k <= 0 then ids
    else if sorted then (if k < |ids| then ids[..k] else ids)
    else lib.topK(row, if k < |row| then k else |row|)
  }

  function See(row: LogitRow, ids: seq<nat>): seq<Candidate>
  {
    seq(|ids|, i requires 0 <= i < |ids| => Candidate(ids[i], if ids[i] < |row| then row[ids[i]] else MinusInfinity))
  }

  function LogitsOf(cands: seq<Candidate>): (row: LogitRow)
    ensures |row| == |cands|
  {
    seq(|cands|, i requires 0 <= i < |cands| => cands[i].logit)
  }

  /** What the chain selects; `None` when it selects nothing, which the engine reports as an error. */
  function RunChain(lib: Library, chain: Chain, row: LogitRow, ids: seq<nat>, sorted: bool): Option<Token>
  {
    match chain
    case Greedy => if ids == [] then None else Some(ids[FirstMax(LogitsOf(See(row, ids)))])
    case Filters(k, rest) =>
      var kept := Kept(lib, k, row, ids, sorted);
      var selected := rest(See(row, kept));
      if 0 <= selected < |kept| then Some(kept[selected]) else None
  }

  /** The grammar, when asked for, overwrites the logits of the candidates it refuses. */
  function Choose(lib: Library, chain: Chain, row: LogitRow, count: nat, grammar: Option<Allowed>): Option<Token>
    requires row != []
  {
    var shown := if grammar.Some? then Mask(row, grammar.value) else row;
    RunChain(lib, chain, shown, Preselect(lib, row, count), count < |row|)
  }

  /** Choose without the grammar, check that one token, and if it is refused choose again behind it. */
  function Pick(lib: Library, chain: Chain, row: LogitRow, grammar: Option<Allowed>): Option<Token>
    requires row != []
  {
    var first := Choose(lib, chain, row, Selectable(chain, |row|), None);
    if first.None? || grammar.None? || grammar.value(first.value) then first
    else Choose(lib, chain, row, |row|, grammar)
  }

  /** Where a grammar stands: the tokens it leaves a logit, and those it takes; of any other, accepting throws. */
  datatype Grammar = Grammar(allowed: Allowed, accepts: Allowed)

  function AllowedBy(grammar: Option<Grammar>): Option<Allowed>
  {
    match grammar case None => None case Some(g) => Some(g.allowed)
  }

  /** Pick a token and have the grammar accept it; `None` when picking or accepting throws. */
  function Sample(lib: Library, chain: Chain, row: LogitRow, grammar: Option<Grammar>): Option<Token>
    requires row != []
  {
    var token := Pick(lib, chain, row, AllowedBy(grammar));
    if token.Some? && grammar.Some? && !grammar.value.accepts(token.value) then None else token
  }

  class SamplerChain {
    const lib: Library
    const chain: Chain
    const nVocab: nat
    const nSelectable: nat
    var candidates: seq<nat>

    constructor (lib: Library, chain: Chain, nVocab: nat)
      ensures this.lib == lib && this.chain == chain
      ensures this.nVocab == nVocab && nSelectable == Selectable(chain, nVocab)
    {
      this.lib, this.chain, this.nVocab := lib, chain, nVocab;
      nSelectable := if chain.Greedy? then 1
                     else if chain.topK > 0 then (if chain.topK < nVocab then chain.topK else nVocab)
                     else nVocab;
      candidates := [];
    }

    method ChooseToken(row: LogitRow, count: nat, grammar: Option<Allowed>) returns (token: Option<Token>)
      requires row != [] && |row| == nVocab
      modifies this`candidates
      ensures token == Choose(lib, chain, row, count, grammar)
    {
      if count == nVocab {
        candidates := Everyone(nVocab);
      } else if count == 1 {
        var highest := MaxElement(row);
        candidates := [highest];
      } else {
        candidates := lib.partialSort(row, count);
      }
      var shown := row;
      if grammar.Some? {
        shown := Mask(row, grammar.value);
      }
      token := RunChain(lib, chain, shown, candidates, count < nVocab);
    }

    method SampleToken(row: LogitRow, grammar: Option<Grammar>) returns (token: Option<Token>)
      requires row != [] && |row| == nVocab && nSelectable == Selectable(chain, nVocab)
      modifies this`candidates
      ensures token == Sample(lib, chain, row, grammar)
    {
      token := ChooseToken(row, nSelectable, None);
      if token.None? {
        return;
      }
      if grammar.Some? {
        if !grammar.value.allowed(token.value) {
          token := ChooseToken(row, nVocab, Some(grammar.value.allowed));
          if token.None? {
            return;
          }
        }
        if !grammar.value.accepts(token.value) {
          return None;
        }
      }
    }
  }

  // ---- The shortcuts against the slow form ----

  /**
   * Preselection: whatever the tie-breaking, top-k leaves the rest of the chain the same logits rank by
   * rank as it would of the whole vocabulary, and the same tokens unless logits tie.
   */
  lemma PreselectionAgrees(lib: Library, k: int, rest: seq<Candidate> -> int, row: LogitRow)
    requires Lawful(lib) && row != []
    ensures var count := Selectable(Filters(k, rest), |row|);
            var kept := Kept(lib, k, row, Preselect(lib, row, count), count < |row|);
            var slow := Kept(lib, k, row, Everyone(|row|), false);
            && |kept| == |slow|
            && (forall i | 0 <= i < |kept| :: kept[i] < |row| && slow[i] < |row| && row[kept[i]] == row[slow[i]])
            && (Distinct(row) ==> kept == slow)
  {
    if 0 < k < |row| {
      var kept := Preselect(lib, row, k);
      assert IsTop(row, k, kept);
      TopIsUnique(row, k, kept, lib.topK(row, k));
    } else if k >= |row| {
      assert IsTop(row, |row|, lib.topK(row, |row|));
    }
  }

  /** So a token sampled from the preselection is the one sampled from the whole vocabulary, ties aside. */
  lemma ShortcutAgrees(lib: Library, chain: Chain, row: LogitRow)
    requires Lawful(lib) && row != [] && (chain.Greedy? || Distinct(row))
    ensures Choose(lib, chain, row, Selectable(chain, |row|), None) == Choose(lib, chain, row, |row|, None)
  {
    match chain {
      case Greedy =>
        GreedyChoice(lib, row, row, 1);
        GreedyChoice(lib, row, row, |row|);
      case Filters(k, rest) => PreselectionAgrees(lib, k, rest, row);
    }
  }

  /** Greedy over the whole vocabulary, or over its one highest, picks the first of the highest. */
  lemma GreedyChoice(lib: Library, row: LogitRow, shown: LogitRow, count: nat)
    requires row != [] && |shown| == |row| && (count == |row| || (count == 1 && shown == row))
    ensures RunChain(lib, Greedy, shown, Preselect(lib, row, count), count < |row|) == Some(FirstMax(shown))
  {
    if count == |row| {
      assert LogitsOf(See(shown, Everyone(|row|))) == shown;
    }
  }

  /** Greedy check-then-retry always chooses what choosing behind the grammar would. */
  lemma GreedyAgrees(lib: Library, row: LogitRow, grammar: Option<Allowed>)
    requires row != []
    ensures Pick(lib, Greedy, row, grammar) ==
            Some(FirstMax(if grammar.Some? then Mask(row, grammar.value) else row))
  {
    hide FirstMax; hide RunChain; hide Mask;
    GreedyChoice(lib, row, row, 1);
    if grammar.Some? {
      GreedyChoice(lib, row, Mask(row, grammar.value), |row|);
      if grammar.value(FirstMax(row)) {
        MaskKeepsMax(row, grammar.value, FirstMax(row));
      }
    }
  }

  /** The chain's view of the `k` highest of a row, or of all of it in token order when `k` is not positive. */
  ghost predicate AreCandidates(row: LogitRow, k: int, cands: seq<Candidate>)
  {
    && (forall i | 0 <= i < |cands| :: cands[i].id < |row| && cands[i].logit == row[cands[i].id])
    && if k <= 0 then |cands| == |row| && forall i | 0 <= i < |row| :: cands[i].id == i
       else IsTop(row, if k < |row| then k else |row|, Ids(cands))
  }

  function Ids(cands: seq<Candidate>): seq<nat>
  {
    seq(|cands|, i requires 0 <= i < |cands| => cands[i].id)
  }

  /** The token is the candidate the rest of the chain selects of those; there is none if it selects none. */
  ghost predicate IsSelected(row: LogitRow, k: int, rest: seq<Candidate> -> int, token: Option<Token>)
  {
    exists cands: seq<Candidate> ::
      && AreCandidates(row, k, cands)
      && token == if 0 <= rest(cands) < |cands| then Some(cands[rest(cands)].id) else None
  }

  /**
   * What is sampled by any chain but the greedy one: with no grammar, what the rest of the chain selects
   * of the k highest logits; with one, the same if it is allowed, and otherwise what it selects of the
   * k highest behind the grammar; none if that is none, or if the grammar does not accept it.
   */
  lemma SampledIsSelected(lib: Library, k: int, rest: seq<Candidate> -> int, row: LogitRow, grammar: Option<Grammar>)
    requires Lawful(lib) && row != []
    ensures var chain := Filters(k, rest);
            var free, token := Sample(lib, chain, row, None), Sample(lib, chain, row, grammar);
            && IsSelected(row, k, rest, free)
            && match grammar
               case None => true
               case Some(g) =>
                 if free.None? then token.None?
                 else if g.allowed(free.value) then token == if g.accepts(free.value) then free else None
                 else exists retried ::
                   && IsSelected(Mask(row, g.allowed), k, rest, retried)
                   && token == if retried.Some? && g.accepts(retried.value) then retried else None
  {
    hide RunChain; hide IsSelected; hide Mask; hide Preselect; hide Selectable;
    var chain := Filters(k, rest);
    RunIsSelected(lib, k, rest, row, row, Selectable(chain, |row|));
    if grammar.Some? {
      var masked := Mask(row, grammar.value.allowed);
      RunIsSelected(lib, k, rest, row, masked, |row|);
      assert IsSelected(masked, k, rest, Choose(lib, chain, row, |row|, Some(grammar.value.allowed)));
    }
  }

  lemma RunIsSelected(lib: Library, k: int, rest: seq<Candidate> -> int, row: LogitRow, shown: LogitRow, count: nat)
    requires Lawful(lib) && row != [] && |shown| == |row|
    requires count == |row| || (count == Selectable(Filters(k, rest), |row|) && shown == row)
    ensures IsSelected(shown, k, rest, RunChain(lib, Filters(k, rest), shown, Preselect(lib, row, count), count < |row|))
  {
    hide IsTop; hide Lawful;
    var kept := Kept(lib, k, shown, Preselect(lib, row, count), count < |row|);
    if k > 0 {
      KeptIsTop(lib, Filters(k, rest), row, shown, count);
      InTop(shown, if k < |row| then k else |row|, kept);
    }
    var cands := See(shown, kept);
    assert Ids(cands) == kept;
    assert AreCandidates(shown, k, cands);
  }

  lemma InTop(row: LogitRow, k: nat, ids: seq<nat>)
    requires IsTop(row, k, ids)
    ensures |ids| == k && forall i | 0 <= i < k :: ids[i] < |row|
  {
  }

  /** Sampled greedily: the first of the most likely, behind the grammar if there is one, if that accepts it. */
  lemma SampledGreedily(lib: Library, row: LogitRow, grammar: Option<Grammar>)
    requires row != []
    ensures var token := FirstMax(match grammar case None => row case Some(g) => Mask(row, g.allowed));
            Sample(lib, Greedy, row, grammar) ==
            if grammar.Some? && !grammar.value.accepts(token) then None else Some(token)
  {
    hide FirstMax; hide Pick; hide Mask;
    GreedyAgrees(lib, row, AllowedBy(grammar));
  }

  /** What is asked of the rest of the chain: of candidates one of which is possible it selects a possible one. */
  ghost predicate SelectsPossible(rest: seq<Candidate> -> int)
  {
    forall cands: seq<Candidate>, i | 0 <= i < |cands| && cands[i].logit.Finite? ::
      0 <= rest(cands) < |cands| && cands[rest(cands)].logit.Finite?
  }

  /** A picked token is allowed whenever an allowed one is possible, sampled or greedy. */
  lemma PickObeysGrammar(lib: Library, chain: Chain, row: LogitRow, allowed: Allowed)
    requires Lawful(lib) && row != [] && CanGoOn(row, allowed)
    requires chain.Filters? ==> SelectsPossible(chain.rest)
    ensures var token := Pick(lib, chain, row, Some(allowed)); token.Some? && allowed(token.value)
  {
    hide IsTop; hide FirstMax;
    if chain.Greedy? {
      GreedyAgrees(lib, row, Some(allowed));
      GreedyIsBestAllowed(row, allowed);
    } else {
      ChoicePossible(lib, chain, row, Selectable(chain, |row|), None);
      ChoicePossible(lib, chain, row, |row|, Some(allowed));
    }
  }

  /** A chain that selects possible candidates chooses a token whose logit is finite, if there is one. */
  lemma ChoicePossible(lib: Library, chain: Chain, row: LogitRow, count: nat, grammar: Option<Allowed>)
    requires Lawful(lib) && row != [] && chain.Filters? && SelectsPossible(chain.rest)
    requires count == |row| || (count == Selectable(chain, |row|) && grammar.None?)
    requires var shown := if grammar.Some? then Mask(row, grammar.value) else row;
             exists t | 0 <= t < |row| :: shown[t].Finite?
    ensures var token := Choose(lib, chain, row, count, grammar);
            var shown := if grammar.Some? then Mask(row, grammar.value) else row;
            token.Some? && 0 <= token.value < |row| && shown[token.value].Finite?
  {
    var shown := if grammar.Some? then Mask(row, grammar.value) else row;
    hide Mask; hide IsTop; hide RunChain; hide SelectsPossible; hide See; hide Lawful;
    var kept := Kept(lib, chain.topK, shown, Preselect(lib, row, count), count < |row|);
    var t :| 0 <= t < |row| && shown[t].Finite?;
    if chain.topK > 0 {
      var k := if chain.topK < |row| then chain.topK else |row|;
      KeptIsTop(lib, chain, row, shown, count);
      TopIsPossible(shown, k, kept, t);
      RunPossible(lib, chain, shown, Preselect(lib, row, count), count < |row|, 0);
    } else {
      assert kept[t] == t;
      RunPossible(lib, chain, shown, Preselect(lib, row, count), count < |row|, t);
    }
  }

  lemma RunPossible(lib: Library, chain: Chain, shown: LogitRow, ids: seq<nat>, sorted: bool, i: nat)
    requires chain.Filters? && SelectsPossible(chain.rest)
    requires var kept := Kept(lib, chain.topK, shown, ids, sorted);
             i < |kept| && kept[i] < |shown| && shown[kept[i]].Finite?
    ensures var token := RunChain(lib, chain, shown, ids, sorted);
            token.Some? && 0 <= token.value < |shown| && shown[token.value].Finite?
  {
    hide Kept;
    PossibleSeen(shown, Kept(lib, chain.topK, shown, ids, sorted), i);
  }

  lemma KeptIsTop(lib: Library, chain: Chain, row: LogitRow, shown: LogitRow, count: nat)
    requires Lawful(lib) && row != [] && |shown| == |row| && chain.Filters? && chain.topK > 0
    requires count == |row| || (count == Selectable(chain, |row|) && shown == row)
    ensures IsTop(shown, if chain.topK < |row| then chain.topK else |row|,
                  Kept(lib, chain.topK, shown, Preselect(lib, row, count), count < |row|))
  {
    if count < |row| {
      assert IsTop(row, count, Preselect(lib, row, count));
    }
  }

  lemma PossibleSeen(row: LogitRow, ids: seq<nat>, i: nat)
    requires i < |ids| && ids[i] < |row| && row[ids[i]].Finite?
    ensures See(row, ids)[i].logit.Finite?
  {
  }

  /** The head of the k highest is possible if anything is. */
  lemma TopIsPossible(row: LogitRow, k: nat, ids: seq<nat>, t: nat)
    requires 0 < k && IsTop(row, k, ids) && t < |row| && row[t].Finite?
    ensures ids[0] < |row| && row[ids[0]].Finite?
  {
    if t in ids {
      var i :| 0 <= i < k && ids[i] == t;
      assert i > 0 ==> !Less(row[ids[0]], row[ids[i]]);
    } else {
      assert !Less(row[ids[0]], row[t]);
    }
  }

  /**
   * When no allowed token is possible the greedy retry picks token 0, allowed or not; a grammar that
   * takes only allowed tokens then throws, and nothing is sampled.
   */
  lemma RefusedTokenIsPicked(lib: Library, accepts: Allowed)
    ensures var row: LogitRow := [Finite(0.0), MinusInfinity];
            var allowed: Allowed := (t: Token) => t == 1;
            && allowed(1) && !allowed(0) && Pick(lib, Greedy, row, Some(allowed)) == Some(0)
            && (!accepts(0) ==> Sample(lib, Greedy, row, Some(Grammar(allowed, accepts))) == None)
  {
    hide RunChain;
    var row: LogitRow := [Finite(0.0), MinusInfinity];
    var allowed: Allowed := (t: Token) => t == 1;
    GreedyAgrees(lib, row, Some(allowed));
    GreedyObeysGrammarIff(row, allowed);
    assert !CanGoOn(row, allowed);
    assert FirstMax(Mask(row, allowed)) == 0;
  }
}
