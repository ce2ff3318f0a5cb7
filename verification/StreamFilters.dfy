/**
 * The online filter between the sampler and the receiver of text: it withholds bytes that may be a
 * truncated character or the start of a stop string, and halts at the first stop string.
 */
module StreamFilters {
  import opened ByteStrings
  import opened Utf8
  import opened Stops

  /** What the chunk callback does with one chunk: return true, return false, or throw. */
  datatype Verdict = Accept | Decline | Throw

  /** The callback, as a function of every chunk it has been given so far, the current one last. */
  type Receiver = seq<Bytes> -> Verdict

  /** How a push ends; `Threw` is an exception of the receiver leaving it. */
  datatype Status = Continue | Stopped | Cancelled | Threw

  /** The withheld bytes, and every chunk handed to the receiver so far. */
  datatype Filter = Filter(pending: Bytes, offered: seq<Bytes>)

  const FRESH := Filter([], [])

  /** How many trailing bytes of a text with no stop in it have to be withheld. */
  function Hold(text: Bytes, stops: seq<Bytes>): (h: nat)
    ensures h <= |text|
  {
    if Tail(text) < Holdback(text, stops) then Holdback(text, stops) else Tail(text)
  }

  function Deliver(recv: Receiver, f: Filter, text: Bytes): (Filter, Verdict)
  {
    if text == [] then (f, Accept)
    else
      var offered := f.offered + [text];
      (f.(offered := offered), recv(offered))
  }

  function StatusOf(v: Verdict, accepted: Status): Status
  {
    match v
    case Accept => accepted
    case Decline => Cancelled
    case Throw => Threw
  }

  function Push(stops: seq<Bytes>, recv: Receiver, f: Filter, piece: Bytes): (Filter, Status)
  {
    var buffer := f.pending + piece;
    match Leftmost(buffer, stops)
    case Some(m) =>
      var (f', v) := Deliver(recv, f.(pending := []), buffer[..m - Tail(buffer[..m])]);
      (f', StatusOf(v, Stopped))
    case None =>
      var safe := |buffer| - Hold(buffer, stops);
      var (f', v) := Deliver(recv, f.(pending := buffer[safe..]), buffer[..safe]);
      (f', StatusOf(v, Continue))
  }

  /** The receiver's answer to the flushed text is ignored unless it throws. */
  function Flush(recv: Receiver, f: Filter): (Filter, Verdict)
  {
    Deliver(recv, f.(pending := []), f.pending[..|f.pending| - Tail(f.pending)])
  }

  /** The filter object. `offered` records what its callback was given; the source keeps no such log. */
  class StreamFilter {
    const stops: seq<Bytes>
    const recv: Receiver
    var pending: Bytes
    var offered: seq<Bytes>

    function State(): Filter
      reads this
    {
      Filter(pending, offered)
    }

    constructor (stops: seq<Bytes>, recv: Receiver)
      ensures this.stops == stops && this.recv == recv && State() == FRESH
    {
      this.stops, this.recv, pending, offered := stops, recv, [], [];
    }

    method DeliverText(text: Bytes) returns (v: Verdict)
      modifies this`offered
      ensures (State(), v) == Deliver(recv, old(State()), text)
    {
      if text == [] {
        return Accept;
      }
      offered := offered + [text];
      return recv(offered);
    }

    method PushPiece(piece: Bytes) returns (status: Status)
      modifies this
      ensures (State(), status) == Push(stops, recv, old(State()), piece)
    {
      hide Tail; hide Holdback; hide Leftmost; hide StopAt; hide PartialFrom; hide TruncatedFrom;
      pending := pending + piece;
      var found := FindMatch(pending, stops);
      var v: Verdict;
      if found.Some? {
        var head := pending[..found.value];
        var tail := IncompleteUtf8Tail(head);
        assert head[..|head| - tail] == pending[..found.value - tail];
        pending := [];
        v := DeliverText(head[..|head| - tail]);
        return StatusOf(v, Stopped);
      }
      var tail := IncompleteUtf8Tail(pending);
      var partial := StopPrefixHoldback(pending, stops);
      var hold := if tail < partial then partial else tail;
      var safe := |pending| - hold;
      if safe > 0 {
        var out := pending[..safe];
        pending := pending[safe..];
        v := DeliverText(out);
        return StatusOf(v, Continue);
      }
      return Continue;
    }

    method FlushPending() returns (v: Verdict)
      modifies this
      ensures (State(), v) == Flush(recv, old(State()))
    {
      if pending == [] {
        return Accept;
      }
      var tail := IncompleteUtf8Tail(pending);
      var out := pending[..|pending| - tail];
      pending := [];
      v := DeliverText(out);
    }
  }

  // ---- Runs of pushes ----

  /** A run of pushes: it ends early, after `used` pieces, at the first push that does not continue. */
  datatype Run = Run(filter: Filter, status: Status, used: nat)

  function Pushes(stops: seq<Bytes>, recv: Receiver, pieces: seq<Bytes>): Run
  {
    if pieces == [] then Run(FRESH, Continue, 0)
    else
      var r := Pushes(stops, recv, pieces[..|pieces| - 1]);
      if r.status != Continue then r
      else
        var (f, status) := Push(stops, recv, r.filter, pieces[|pieces| - 1]);
        Run(f, status, r.used + 1)
  }

  lemma PushesSnoc(stops: seq<Bytes>, recv: Receiver, pieces: seq<Bytes>, piece: Bytes)
    requires Pushes(stops, recv, pieces).status == Continue
    ensures var r := Pushes(stops, recv, pieces);
            var (f, status) := Push(stops, recv, r.filter, piece);
            Pushes(stops, recv, pieces + [piece]) == Run(f, status, r.used + 1)
  {
    hide Push;
    assert (pieces + [piece])[..|pieces|] == pieces;
  }

  /** The state of a filter that has consumed `text` without a stop: it depends on `text` alone. */
  ghost predicate Holds(f: Filter, stops: seq<Bytes>, text: Bytes)
  {
    && !HasStop(text, stops)
    && f.pending == text[|text| - Hold(text, stops)..]
    && Concat(f.offered) == text[..|text| - Hold(text, stops)]
  }

  // ---- Why no stop string straddles delivered bytes ----

  /** Occurrences that end inside a prefix are occurrences in that prefix, and the other way round. */
  lemma OccursInPrefix(text: Bytes, more: Bytes, word: Bytes, p: nat)
    requires text <= more
    ensures OccursAt(text, word, p) <==> OccursAt(more, word, p) && p + |word| <= |text|
  {
    if p + |word| <= |text| {
      assert text[p..p + |word|] == more[p..p + |word|];
    }
  }

  /** A stop that ends in the new piece begins in it or in the bytes held back before it. */
  lemma StopBeginsInHeldBytes(text: Bytes, piece: Bytes, stops: seq<Bytes>, p: nat)
    requires !HasStop(text, stops) && StopAt(text + piece, stops, p)
    ensures p >= |text| - Hold(text, stops)
  {
    var all := text + piece;
    var i :| 0 <= i < |stops| && stops[i] != [] && OccursAt(all, stops[i], p);
    OccursInPrefix(text, all, stops[i], p);
    assert !StopAt(text, stops, p);
    if p < |text| {
      assert text[p..] == all[p..p + |stops[i]|][..|text| - p];
      assert PartialFrom(text, stops, p);
    }
  }

  /** What must be withheld after a piece begins in the piece or in what was withheld before it. */
  lemma HoldBeginsInHeldBytes(text: Bytes, piece: Bytes, stops: seq<Bytes>)
    ensures Hold(text + piece, stops) <= Hold(text, stops) + |piece|
  {
    var all := text + piece;
    if Tail(all) > |piece| {
      assert all[..|text|] == text;
      TailOfPrefix(all, |text|);
    }
    var p := |all| - Holdback(all, stops);
    if p < |text| {
      var i :| 0 <= i < |stops| && |all| - p < |stops[i]| && all[p..] <= stops[i];
      assert text[p..] == all[p..][..|text| - p];
      assert PartialFrom(text, stops, p);
    }
  }

  /** Looking only from `d` on finds the same suffix to withhold, provided it begins there. */
  lemma HoldOfSuffix(text: Bytes, d: nat, stops: seq<Bytes>)
    requires d <= |text| - Hold(text, stops)
    ensures Hold(text[d..], stops) == Hold(text, stops)
  {
    TailOfSuffix(text, d);
    var t, h := text[d..], Holdback(text, stops);
    forall p | 0 <= p <= |t| ensures PartialFrom(t, stops, p) == PartialFrom(text, stops, d + p) {
      assert t[p..] == text[d + p..];
    }
    assert h > 0 ==> PartialFrom(t, stops, |t| - h);
  }

  /** Occurrences in a suffix are the occurrences in the whole, shifted. */
  lemma StopAtShift(text: Bytes, d: nat, stops: seq<Bytes>, p: nat)
    requires d <= |text|
    ensures StopAt(text[d..], stops, p) == StopAt(text, stops, d + p)
  {
    forall i | 0 <= i < |stops| ensures OccursAt(text[d..], stops[i], p) == OccursAt(text, stops[i], d + p) {
      if d + p + |stops[i]| <= |text| {
        assert text[d..][p..p + |stops[i]|] == text[d + p..d + p + |stops[i]|];
      }
    }
  }

  /** The search of the buffer finds exactly the leftmost stop of the whole text. */
  lemma MatchInBuffer(text: Bytes, piece: Bytes, stops: seq<Bytes>)
    requires !HasStop(text, stops)
    ensures var d := |text| - Hold(text, stops);
            var found := Leftmost(text[d..] + piece, stops);
            Leftmost(text + piece, stops) == if found.Some? then Some(d + found.value) else None
  {
    hide StopAt; hide PartialFrom;
    var all, d := text + piece, |text| - Hold(text, stops);
    assert all[d..] == text[d..] + piece;
    var found, whole := Leftmost(all[d..], stops), Leftmost(all, stops);
    if whole.Some? {
      StopBeginsInHeldBytes(text, piece, stops, whole.value);
      StopAtShift(all, d, stops, whole.value - d);
    }
    if found.Some? {
      StopAtShift(all, d, stops, found.value);
    }
  }

  /** What one push from a state that holds `text` does, told in terms of the whole text. */
  ghost predicate PushOutcome(stops: seq<Bytes>, text: Bytes, piece: Bytes, f: Filter, status: Status)
  {
    var all := text + piece;
    if HasStop(all, stops) then
      && status != Continue
      && StoppedAfter(f, stops, text, all)
    else
      && status != Stopped
      && Holds(f, stops, all)
  }

  /**
   * The leftmost stop of `all`, which has none up to `before`, lies past everything delivered for
   * `before`; the text up to it has been offered, less a truncated tail of its undelivered part.
   */
  ghost predicate StoppedAfter(f: Filter, stops: seq<Bytes>, before: Bytes, all: Bytes)
    requires HasStop(all, stops)
  {
    var d, m := |before| - Hold(before, stops), Leftmost(all, stops).value;
    d <= m && f.pending == [] && Concat(f.offered) == all[..m - Tail(all[d..m])]
  }

  lemma PushHolds(stops: seq<Bytes>, recv: Receiver, f: Filter, text: Bytes, piece: Bytes)
    requires Holds(f, stops, text)
    ensures var (f', status) := Push(stops, recv, f, piece); PushOutcome(stops, text, piece, f', status)
  {
    hide Push; hide StoppedAfter; hide Hold; hide Leftmost; hide StopAt;
    MatchInBuffer(text, piece, stops);
    if HasStop(text + piece, stops) {
      PushStops(stops, recv, f, text, piece);
    } else {
      PushContinues(stops, recv, f, text, piece);
    }
  }

  lemma PushStops(stops: seq<Bytes>, recv: Receiver, f: Filter, text: Bytes, piece: Bytes)
    requires Holds(f, stops, text) && HasStop(text + piece, stops)
    ensures var (f', status) := Push(stops, recv, f, piece);
            status != Continue && StoppedAfter(f', stops, text, text + piece)
  {
    hide Tail; hide Leftmost; hide StopAt; hide TruncatedFrom; hide Hold;
    var all, d := text + piece, |text| - Hold(text, stops);
    var buffer := f.pending + piece;
    MatchInBuffer(text, piece, stops);
    var m := Leftmost(all, stops).value;
    assert buffer[..m - d] == all[d..m];
    var out := buffer[..m - d - Tail(all[d..m])];
    assert all[..m - Tail(all[d..m])] == text[..d] + out;
    ConcatSnoc(f.offered, out);
  }

  lemma PushContinues(stops: seq<Bytes>, recv: Receiver, f: Filter, text: Bytes, piece: Bytes)
    requires Holds(f, stops, text) && !HasStop(text + piece, stops)
    ensures var (f', status) := Push(stops, recv, f, piece);
            status != Stopped && Holds(f', stops, text + piece)
  {
    hide Tail; hide Leftmost; hide StopAt; hide TruncatedFrom; hide Hold;
    var all, d := text + piece, |text| - Hold(text, stops);
    var buffer := f.pending + piece;
    MatchInBuffer(text, piece, stops);
    HoldBeginsInHeldBytes(text, piece, stops);
    HoldOfSuffix(all, d, stops);
    assert buffer == all[d..];
    var safe := |buffer| - Hold(buffer, stops);
    assert all[..d + safe] == text[..d] + buffer[..safe];
    assert all[d + safe..] == buffer[safe..];
    ConcatSnoc(f.offered, buffer[..safe]);
  }

  lemma ContinueHolds(stops: seq<Bytes>, recv: Receiver, f: Filter, text: Bytes, piece: Bytes)
    requires Holds(f, stops, text)
    ensures var (f', status) := Push(stops, recv, f, piece); status == Continue ==> Holds(f', stops, text + piece)
  {
    hide Push;
    PushHolds(stops, recv, f, text, piece);
  }

  lemma ConcatTake(pieces: seq<Bytes>, n: nat)
    requires n <= |pieces|
    ensures Concat(pieces[..n]) <= Concat(pieces)
  {
    ConcatPlus(pieces[..n], pieces[n..]);
    assert pieces[..n] + pieces[n..] == pieces;
  }

  lemma HasStopGrows(text: Bytes, more: Bytes, stops: seq<Bytes>)
    requires text <= more && HasStop(text, stops)
    ensures HasStop(more, stops) && Leftmost(more, stops).value <= Leftmost(text, stops).value
  {
    var p := Leftmost(text, stops).value;
    var i :| 0 <= i < |stops| && stops[i] != [] && OccursAt(text, stops[i], p);
    OccursInPrefix(text, more, stops[i], p);
    assert StopAt(more, stops, p);
  }

  /**
   * Every run, whatever the stops, the receiver and the pieces. It continues exactly while the text
   * has no stop and every chunk is accepted, and then the withheld bytes are the suffix of the whole
   * text that `Hold` names. Otherwise it ended at its last push, before which the text had no stop.
   */
  ghost predicate FollowsText(stops: seq<Bytes>, recv: Receiver, pieces: seq<Bytes>)
  {
    var r := Pushes(stops, recv, pieces);
    && r.used <= |pieces|
    && (r.status == Continue ==> r.used == |pieces| && Holds(r.filter, stops, Concat(pieces)))
    && (r.status != Continue ==>
          && r.used > 0
          && PushOutcome(stops, Concat(pieces[..r.used - 1]), pieces[r.used - 1], r.filter, r.status)
          && !HasStop(Concat(pieces[..r.used - 1]), stops))
  }

  lemma {:induction false} PushesFollowText(stops: seq<Bytes>, recv: Receiver, pieces: seq<Bytes>)
    ensures FollowsText(stops, recv, pieces)
  {
    hide PushOutcome; hide Push; hide Hold;
    if pieces != [] {
      var n := |pieces|;
      var init := pieces[..n - 1];
      PushesFollowText(stops, recv, init);
      var r := Pushes(stops, recv, init);
      if r.status != Continue {
        assert pieces[..r.used - 1] == init[..r.used - 1];
      } else {
        PushHolds(stops, recv, r.filter, Concat(init), pieces[n - 1]);
        ContinueHolds(stops, recv, r.filter, Concat(init), pieces[n - 1]);
      }
    }
  }
}
