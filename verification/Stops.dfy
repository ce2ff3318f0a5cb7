/** Stop strings: where they occur in a text, and which suffix of it may still become one. */
module Stops {
  import opened ByteStrings

  predicate OccursAt(text: Bytes, word: Bytes, p: nat)
  {
    p + |word| <= |text| && text[p..p + |word|] == word
  }

  /** A non-empty stop string occurs at `p`. */
  predicate StopAt(text: Bytes, stops: seq<Bytes>, p: nat)
  {
    exists i | 0 <= i < |stops| :: stops[i] != [] && OccursAt(text, stops[i], p)
  }

  /** The first place at or after `from` where `word` occurs, as `std::string::find` reports it. */
  function Find(text: Bytes, word: Bytes, from: nat := 0): (r: Option<nat>)
    ensures r.Some? ==> from <= r.value && OccursAt(text, word, r.value)
    ensures forall p: nat | from <= p && (r.Some? ==> p < r.value) :: !OccursAt(text, word, p)
    decreases |text| - from
  {
    if OccursAt(text, word, from) then Some(from)
    else if from >= |text| then None
    else Find(text, word, from + 1)
  }

  /** The leftmost place where any non-empty stop string occurs. */
  function Leftmost(text: Bytes, stops: seq<Bytes>): (r: Option<nat>)
    ensures r.Some? ==> r.value < |text| && StopAt(text, stops, r.value)
    ensures forall p: nat | r.Some? ==> p < r.value :: !StopAt(text, stops, p)
  {
    LeftmostFrom(text, stops, 0)
  }

  function LeftmostFrom(text: Bytes, stops: seq<Bytes>, from: nat): (r: Option<nat>)
    ensures r.Some? ==> from <= r.value < |text| && StopAt(text, stops, r.value)
    ensures forall p: nat | from <= p && (r.Some? ==> p < r.value) :: !StopAt(text, stops, p)
    decreases |text| - from
  {
    if from >= |text| then None
    else if StopAt(text, stops, from) then Some(from)
    else LeftmostFrom(text, stops, from + 1)
  }

  /** Some non-empty stop string occurs in `text`. */
  predicate HasStop(text: Bytes, stops: seq<Bytes>)
  {
    Leftmost(text, stops).Some?
  }

  /** A word occurs at `p` when the text is something of that length, the word, and anything. */
  lemma OccursIff(text: Bytes, word: Bytes, p: nat)
    ensures OccursAt(text, word, p) <==> exists before: Bytes, after: Bytes :: |before| == p && text == before + word + after
  {
    if OccursAt(text, word, p) {
      assert text == text[..p] + word + text[p + |word|..];
    }
    if before: Bytes, after: Bytes :| |before| == p && text == before + word + after {
      assert (before + word + after)[p..p + |word|] == word;
    }
  }

  /** Every stop but an empty one counts, of whatever length and wherever it occurs; the leftmost is found. */
  lemma LeftmostIsFirst(text: Bytes, stops: seq<Bytes>)
    ensures match Leftmost(text, stops)
            case None => forall i, p: nat | 0 <= i < |stops| && OccursAt(text, stops[i], p) :: stops[i] == []
            case Some(m) =>
              && (exists i | 0 <= i < |stops| :: stops[i] != [] && OccursAt(text, stops[i], m))
              && (forall i, p: nat | 0 <= i < |stops| && OccursAt(text, stops[i], p) :: stops[i] == [] || m <= p)
  {
    hide LeftmostFrom;
    var r := Leftmost(text, stops);
    forall i, p: nat | 0 <= i < |stops| && OccursAt(text, stops[i], p)
      ensures stops[i] == [] || (r.Some? && r.value <= p)
    {
      assert stops[i] != [] ==> StopAt(text, stops, p);
    }
  }

  /** The per-stop search and running minimum of `StreamFilter::push`. */
  method FindMatch(text: Bytes, stops: seq<Bytes>) returns (found: Option<nat>)
    ensures found == Leftmost(text, stops)
  {
    found := None;
    for i := 0 to |stops|
      invariant found.Some? ==> found.value < |text| && StopAt(text, stops, found.value)
      invariant forall p: nat, j | 0 <= j < i && stops[j] != [] && OccursAt(text, stops[j], p) ::
                  found.Some? && found.value <= p
    {
      if stops[i] == [] {
        continue;
      }
      var p := Find(text, stops[i]);
      if p.Some? && (found.None? || p.value < found.value) {
        assert StopAt(text, stops, p.value);
        found := p;
      }
    }
  }

  /** From `p` on, `text` is a proper prefix of some stop string. */
  predicate PartialFrom(text: Bytes, stops: seq<Bytes>, p: nat)
  {
    p <= |text| && exists i | 0 <= i < |stops| :: |text| - p < |stops[i]| && text[p..] <= stops[i]
  }

  /** The length of the longest suffix of `text` that is a proper prefix of some stop string. */
  function Holdback(text: Bytes, stops: seq<Bytes>): (h: nat)
    ensures h <= |text|
    ensures h > 0 ==> PartialFrom(text, stops, |text| - h)
    ensures forall p | 0 <= p < |text| - h :: !PartialFrom(text, stops, p)
  {
    |text| - PartialStart(text, stops, 0)
  }

  function PartialStart(text: Bytes, stops: seq<Bytes>, from: nat): (p: nat)
    requires from <= |text|
    ensures from <= p <= |text|
    ensures p < |text| ==> PartialFrom(text, stops, p)
    ensures forall q | from <= q < p :: !PartialFrom(text, stops, q)
    decreases |text| - from
  {
    if from == |text| || PartialFrom(text, stops, from) then from
    else PartialStart(text, stops, from + 1)
  }

  /** The longest-first search of every stop for a prefix the pending bytes end with. */
  method StopPrefixHoldback(pending: Bytes, stops: seq<Bytes>) returns (best: nat)
    ensures best == Holdback(pending, stops)
  {
    var n := |pending|;
    best := 0;
    for i := 0 to |stops|
      invariant best <= n
      invariant best > 0 ==> PartialFrom(pending, stops, n - best)
      invariant forall p, j | 0 <= p < n - best && 0 <= j < i && n - p < |stops[j]| :: !(pending[p..] <= stops[j])
    {
      if stops[i] == [] {
        continue;
      }
      var before := best;
      var len := if n < |stops[i]| - 1 then n else |stops[i]| - 1;
      while len > best
        invariant best == before
        invariant 0 <= len <= n && len < |stops[i]|
        invariant forall p | 0 <= p < n - len && n - p < |stops[i]| :: !(pending[p..] <= stops[i])
      {
        if pending[n - len..] == stops[i][..len] {
          best := len;
          assert PartialFrom(pending, stops, n - best);
          break;
        }
        len := len - 1;
      }
    }
  }
}
