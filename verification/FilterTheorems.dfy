/**
 * What the stream filter guarantees over whole runs: it delivers what one offline cut of the whole
 * text would, in chunks of whole characters, however the text arrived.
 */
module FilterTheorems {
  import opened ByteStrings
  import opened Utf8
  import opened Stops
  import opened StreamFilters

  // ---- The receiver's side ----

  /** Every chunk is non-empty, and each but the last was accepted before the next was offered. */
  ghost predicate AcceptedSoFar(recv: Receiver, offered: seq<Bytes>)
  {
    && (forall i | 0 <= i < |offered| :: offered[i] != [])
    && (forall i | 0 < i < |offered| :: recv(offered[..i]) == Accept)
  }

  /** What the receiver last said; a receiver that was never called has not objected. */
  function LastVerdict(recv: Receiver, offered: seq<Bytes>): Verdict
  {
    if offered == [] then Accept else recv(offered)
  }

  lemma OfferOne(recv: Receiver, f: Filter, text: Bytes)
    requires AcceptedSoFar(recv, f.offered) && LastVerdict(recv, f.offered) == Accept
    ensures var (f', v) := Deliver(recv, f, text);
            AcceptedSoFar(recv, f'.offered) && LastVerdict(recv, f'.offered) == v
  {
    var offered := f.offered + [text];
    forall i | 0 < i < |offered| ensures recv(offered[..i]) == Accept || text == [] {
      assert offered[..i] == f.offered[..i];
      assert i == |f.offered| ==> f.offered[..i] == f.offered;
    }
  }

  /** A push whose receiver has not objected so far ends as the receiver's last answer says. */
  lemma PushAccepted(stops: seq<Bytes>, recv: Receiver, f: Filter, piece: Bytes)
    requires AcceptedSoFar(recv, f.offered) && LastVerdict(recv, f.offered) == Accept
    ensures var (f', status) := Push(stops, recv, f, piece);
            var last := LastVerdict(recv, f'.offered);
            && AcceptedSoFar(recv, f'.offered)
            && (status == Cancelled <==> last == Decline)
            && (status == Threw <==> last == Throw)
  {
    hide Hold; hide Tail; hide Leftmost; hide AcceptedSoFar;
    var buffer := f.pending + piece;
    match Leftmost(buffer, stops) {
      case Some(m) => OfferOne(recv, f.(pending := []), buffer[..m - Tail(buffer[..m])]);
      case None =>
        var safe := |buffer| - Hold(buffer, stops);
        OfferOne(recv, f.(pending := buffer[safe..]), buffer[..safe]);
    }
  }

  lemma FlushAccepted(recv: Receiver, f: Filter)
    requires AcceptedSoFar(recv, f.offered) && LastVerdict(recv, f.offered) == Accept
    ensures var (f', v) := Flush(recv, f); AcceptedSoFar(recv, f'.offered) && LastVerdict(recv, f'.offered) == v
  {
    hide Tail; hide AcceptedSoFar;
    OfferOne(recv, f.(pending := []), f.pending[..|f.pending| - Tail(f.pending)]);
  }

  /** The receiver is never called again once it has declined or thrown, and the status says which. */
  lemma {:induction false} NothingAfterRefusal(stops: seq<Bytes>, recv: Receiver, pieces: seq<Bytes>)
    ensures var r := Pushes(stops, recv, pieces);
            var last := LastVerdict(recv, r.filter.offered);
            && AcceptedSoFar(recv, r.filter.offered)
            && (r.status == Cancelled <==> last == Decline)
            && (r.status == Threw <==> last == Throw)
  {
    hide Push; hide AcceptedSoFar;
    if pieces == [] {
      Empty(recv);
    } else {
      var n := |pieces|;
      NothingAfterRefusal(stops, recv, pieces[..n - 1]);
      var r := Pushes(stops, recv, pieces[..n - 1]);
      if r.status == Continue {
        PushAccepted(stops, recv, r.filter, pieces[n - 1]);
      }
    }
  }

  lemma Empty(recv: Receiver)
    ensures AcceptedSoFar(recv, [])
  {
  }

  // ---- What is withheld, and when a run stops ----

  /**
   * While a run continues, delivered and withheld bytes are the text, and what is withheld depends on
   * the text alone: the longest suffix that is a truncated character or a proper prefix of a stop. So
   * it is at most three bytes or shorter than some stop.
   */
  lemma PendingIsHeldSuffix(stops: seq<Bytes>, recv: Receiver, pieces: seq<Bytes>)
    requires Pushes(stops, recv, pieces).status == Continue
    ensures var f, text := Pushes(stops, recv, pieces).filter, Concat(pieces);
            var h := |f.pending|;
            && Concat(f.offered) + f.pending == text
            && (h > 0 ==> TruncatedFrom(text, |text| - h) || PartialFrom(text, stops, |text| - h))
            && (forall p | 0 <= p < |text| - h :: !TruncatedFrom(text, p) && !PartialFrom(text, stops, p))
            && (h <= 3 || exists i :: 0 <= i < |stops| && h < |stops[i]|)
  {
    hide PartialFrom; hide TruncatedFrom; hide Pushes; hide HasStop;
    PushesFollowText(stops, recv, pieces);
    TailWithinHold(Concat(pieces), stops);
  }

  /**
   * Nothing is withheld without need: what is withheld is a truncated character, or some next piece
   * would make a stop of it, and would stop the run with none of it delivered.
   */
  lemma WithheldIsNeeded(stops: seq<Bytes>, recv: Receiver, pieces: seq<Bytes>)
    requires Pushes(stops, recv, pieces).status == Continue
    ensures var f := Pushes(stops, recv, pieces).filter;
            || f.pending == [] || Tail(f.pending) == |f.pending|
            || exists piece: Bytes :: Push(stops, recv, f, piece) == (Filter([], f.offered), Stopped)
  {
    hide Pushes; hide Tail; hide Push; hide HasStop; hide Holdback; hide PartialFrom;
    PushesFollowText(stops, recv, pieces);
    var f, text := Pushes(stops, recv, pieces).filter, Concat(pieces);
    var h := Hold(text, stops);
    if h > 0 {
      if h == Tail(text) {
        TailOfSuffix(text, |text| - h);
      } else {
        var i := StopHeldAt(text, stops, |text| - h);
        var piece := stops[i][h..];
        assert f.pending + piece == stops[i];
        CompletedStop(stops, recv, f, piece, i);
      }
    }
  }

  lemma CompletedStop(stops: seq<Bytes>, recv: Receiver, f: Filter, piece: Bytes, i: nat)
    requires i < |stops| && stops[i] != [] && f.pending + piece == stops[i]
    ensures Push(stops, recv, f, piece) == (Filter([], f.offered), Stopped)
  {
    hide Hold; hide LeftmostFrom;
    var buffer := f.pending + piece;
    assert buffer[0..|stops[i]|] == stops[i];
    assert StopAt(buffer, stops, 0);
    assert Leftmost(buffer, stops) == Some(0);
  }

  lemma TailWithinHold(text: Bytes, stops: seq<Bytes>)
    ensures Tail(text) <= Hold(text, stops)
    ensures Hold(text, stops) <= 3 || exists i :: 0 <= i < |stops| && Hold(text, stops) < |stops[i]|
  {
  }

  /**
   * For every splitting, a run nobody cut short stops exactly when the text has a stop, at the first
   * push with which it does; and the leftmost stop lies wholly past the bytes delivered before it.
   */
  lemma StopsAtFirst(stops: seq<Bytes>, recv: Receiver, pieces: seq<Bytes>, n: nat)
    requires Pushes(stops, recv, pieces).status in {Continue, Stopped} && n <= |pieces|
    ensures var r := Pushes(stops, recv, pieces);
            && (r.status == Stopped <==> HasStop(Concat(pieces), stops))
            && (r.status == Stopped ==>
                  && 0 < r.used <= |pieces|
                  && (HasStop(Concat(pieces[..n]), stops) <==> n >= r.used)
                  && var before := Pushes(stops, recv, pieces[..r.used - 1]);
                  && Leftmost(Concat(pieces[..r.used]), stops).Some?
                  && |Concat(before.filter.offered)| <= Leftmost(Concat(pieces[..r.used]), stops).value)
  {
    hide Leftmost; hide Hold; hide Pushes; hide Tail; hide HasStop;
    PushesFollowText(stops, recv, pieces);
    var r := Pushes(stops, recv, pieces);
    if r.status == Stopped {
      var k := r.used;
      assert pieces[..k] == pieces[..k - 1] + [pieces[k - 1]];
      ConcatSnoc(pieces[..k - 1], pieces[k - 1]);
      HasStopLater(stops, pieces, k, |pieces|);
      assert pieces[..|pieces|] == pieces;
      if n >= k { HasStopLater(stops, pieces, k, n); }
      if n < k && HasStop(Concat(pieces[..n]), stops) { HasStopLater(stops, pieces, n, k - 1); }
      RunBefore(stops, recv, pieces);
      PushesFollowText(stops, recv, pieces[..k - 1]);
      StoppedHasMatch(Concat(pieces[..k]), stops);
    }
  }

  lemma StoppedHasMatch(text: Bytes, stops: seq<Bytes>)
    ensures HasStop(text, stops) <==> Leftmost(text, stops).Some?
  {
  }

  lemma HasStopLater(stops: seq<Bytes>, pieces: seq<Bytes>, i: nat, j: nat)
    requires i <= j <= |pieces| && HasStop(Concat(pieces[..i]), stops)
    ensures HasStop(Concat(pieces[..j]), stops)
  {
    assert pieces[..j][..i] == pieces[..i];
    ConcatTake(pieces[..j], i);
    HasStopGrows(Concat(pieces[..i]), Concat(pieces[..j]), stops);
  }

  /** Up to the push that ended it, a run continued. */
  lemma {:induction false} RunBefore(stops: seq<Bytes>, recv: Receiver, pieces: seq<Bytes>)
    ensures var r := Pushes(stops, recv, pieces);
            r.status != Continue ==> 0 < r.used <= |pieces| && Pushes(stops, recv, pieces[..r.used - 1]).status == Continue
    ensures Pushes(stops, recv, pieces).status == Continue ==> Pushes(stops, recv, pieces).used == |pieces|
  {
    hide Push;
    if pieces != [] {
      var init := pieces[..|pieces| - 1];
      RunBefore(stops, recv, init);
      var r := Pushes(stops, recv, init);
      if r.status != Continue {
        assert pieces[..r.used - 1] == init[..r.used - 1];
      }
    }
  }

  // ---- The whole run, with the flush a generation that ends on its own adds ----

  /** Pushes, then the flush unless a push ended the run. */
  function FilterAll(stops: seq<Bytes>, recv: Receiver, pieces: seq<Bytes>): (Filter, Status)
  {
    var r := Pushes(stops, recv, pieces);
    if r.status != Continue then (r.filter, r.status)
    else
      var (f, v) := Flush(recv, r.filter);
      (f, StatusOf(v, Continue))
  }

  /** The text up to its first stop, less a truncated last character. */
  function Offline(text: Bytes, stops: seq<Bytes>): Bytes
  {
    var cut := match Leftmost(text, stops) case Some(m) => text[..m] case None => text;
    cut[..|cut| - Tail(cut)]
  }

  /** A character begun by `h`, going on with the first `n` bytes of stop `i`, would be split: those bytes are all that is withheld. */
  ghost predicate Splits(stops: seq<Bytes>, h: Bytes, i: nat, n: nat)
    requires i < |stops| && n <= |stops[i]|
  {
    var text := h + stops[i][..n];
    ValidPrefix(text) && !HasStop(text, stops) && Hold(text, stops) == n
  }

  /**
   * No stop splits a character: a condition on the stops alone, over the finitely many ways to begin
   * a character of at most four bytes and the proper prefixes of the stops.
   */
  ghost predicate CharacterSafe(stops: seq<Bytes>)
  {
    forall h: Bytes, i: nat, n: nat |
      TruncatedFrom(h, 0) && i < |stops| && 0 < n < |stops[i]| && IsContinuation(stops[i][0]) :: !Splits(stops, h, i, n)
  }

  /** Stops of whole characters, as every stop in a request is, are safe; so is any list without a stop begun half-way. */
  lemma WholeStopsAreSafe(stops: seq<Bytes>)
    requires forall i | 0 <= i < |stops| :: |stops[i]| >= 2 ==> !IsContinuation(stops[i][0])
    ensures CharacterSafe(stops)
  {
    hide Splits;
  }

  lemma PrefixOfValid(text: Bytes, v: Bytes)
    requires text <= v && Valid(v)
    ensures ValidPrefix(text)
  {
    hide Valid;
    assert text + v[|text|..] == v;
  }

  /** Withheld bytes never begin inside a character. */
  lemma HeldBytesBeginACharacter(text: Bytes, stops: seq<Bytes>, v: Bytes)
    requires CharacterSafe(stops) && text <= v && Valid(v) && !HasStop(text, stops)
    ensures Hold(text, stops) > 0 ==> !IsContinuation(text[|text| - Hold(text, stops)])
  {
    hide CharacterSafe; hide Valid; hide Tail; hide HasStop; hide Holdback; hide PartialFrom;
    var n := Hold(text, stops);
    var p := |text| - n;
    if n > 0 && IsContinuation(text[p]) {
      assert PartialFrom(text, stops, p);
      var i := StopHeldAt(text, stops, p);
      CutInsideCharacter(v, p);
      var d := p - Tail(v[..p]);
      assert v[..p] == text[..p];
      SplitFound(text, stops, v, d, i, n);
    }
  }

  lemma StopHeldAt(text: Bytes, stops: seq<Bytes>, p: nat) returns (i: nat)
    requires p < |text| && PartialFrom(text, stops, p)
    ensures i < |stops| && |text| - p < |stops[i]| && text[p..] == stops[i][..|text| - p]
    ensures stops[i][0] == text[p]
  {
    var j :| 0 <= j < |stops| && |text| - p < |stops[j]| && text[p..] <= stops[j];
    i := j;
    assert text[p..][0] == stops[i][0];
  }

  lemma SplitFound(text: Bytes, stops: seq<Bytes>, v: Bytes, d: nat, i: nat, n: nat)
    requires text <= v && Valid(v) && !HasStop(text, stops)
    requires 0 < n == Hold(text, stops) && d < |text| - n
    requires TruncatedFrom(text[..|text| - n], d) && IsContinuation(text[|text| - n])
    requires i < |stops| && n < |stops[i]| && text[|text| - n..] == stops[i][..n] && stops[i][0] == text[|text| - n]
    ensures !CharacterSafe(stops)
  {
    hide Valid; hide Tail; hide Holdback; hide PartialFrom; hide Hold; hide HasStop; hide StopAt; hide Leftmost;
    var h := text[d..|text| - n];
    var t := text[d..];
    assert t == h + stops[i][..n];
    assert forall k | 0 <= k < |h| :: h[k] == text[..|text| - n][d + k];
    assert TruncatedFrom(h, 0);
    HoldOfSuffix(text, d, stops);
    NoStopInSuffix(text, d, stops);
    assert v[d] == text[d] == text[..|text| - n][d];
    ValidDrop(v, d);
    PrefixOfValid(t, v[d..]);
    assert Splits(stops, h, i, n);
  }

  lemma NoStopInSuffix(text: Bytes, d: nat, stops: seq<Bytes>)
    requires d <= |text| && !HasStop(text, stops)
    ensures !HasStop(text[d..], stops)
  {
    hide StopAt; hide LeftmostFrom;
    if HasStop(text[d..], stops) {
      StopAtShift(text, d, stops, Leftmost(text[d..], stops).value);
    }
  }

  /**
   * Without a stop, and for any bytes at all: pushes and flush offer the text less its own truncated
   * tail, although the flush looks only at the pending bytes.
   */
  lemma FlushIsOffline(stops: seq<Bytes>, recv: Receiver, pieces: seq<Bytes>)
    requires Pushes(stops, recv, pieces).status == Continue
    ensures var text := Concat(pieces);
            !HasStop(text, stops) && Concat(FilterAll(stops, recv, pieces).0.offered) == Offline(text, stops)
  {
    hide Tail; hide Leftmost; hide Pushes;
    PushesFollowText(stops, recv, pieces);
    var f, text := Pushes(stops, recv, pieces).filter, Concat(pieces);
    var d := |text| - Hold(text, stops);
    TailOfSuffix(text, d);
    var out := f.pending[..|f.pending| - Tail(f.pending)];
    assert text[..|text| - Tail(text)] == text[..d] + out;
    ConcatSnoc(f.offered, out);
  }

  /** The text a run had read when it stopped, and what it had read one push before. */
  function Read(stops: seq<Bytes>, recv: Receiver, pieces: seq<Bytes>): Bytes
  {
    var used := Pushes(stops, recv, pieces).used;
    if used <= |pieces| then Concat(pieces[..used]) else []
  }

  function ReadBefore(stops: seq<Bytes>, recv: Receiver, pieces: seq<Bytes>): Bytes
  {
    var used := Pushes(stops, recv, pieces).used;
    if 0 < used <= |pieces| then Concat(pieces[..used - 1]) else []
  }

  /**
   * A run that stopped offered the offline cut of what it had read if and only if the bytes already
   * delivered did not run into the character the cut truncates.
   */
  lemma StopIsOfflineIff(stops: seq<Bytes>, recv: Receiver, pieces: seq<Bytes>)
    requires Pushes(stops, recv, pieces).status == Stopped
    ensures var text, before := Read(stops, recv, pieces), ReadBefore(stops, recv, pieces);
            && HasStop(text, stops) && !HasStop(before, stops) && before <= text
            && var m := Leftmost(text, stops).value;
            && |before| - Hold(before, stops) <= m
            && (Concat(Pushes(stops, recv, pieces).filter.offered) == Offline(text, stops)
                <==> Tail(text[..m]) <= m - (|before| - Hold(before, stops)))
  {
    hide Tail; hide Leftmost; hide Hold; hide Pushes;
    PushesFollowText(stops, recv, pieces);
    var r := Pushes(stops, recv, pieces);
    var text, before := Read(stops, recv, pieces), ReadBefore(stops, recv, pieces);
    assert pieces[..r.used] == pieces[..r.used - 1] + [pieces[r.used - 1]];
    ConcatSnoc(pieces[..r.used - 1], pieces[r.used - 1]);
    var d, m := |before| - Hold(before, stops), Leftmost(text, stops).value;
    TailOfSuffix(text[..m], d);
    assert text[..m][d..] == text[d..m];
    var k := Tail(text[..m]);
    assert text[..m][..m - k] == text[..m - k];
    assert |text[..m - k]| == m - k && |text[..m - Tail(text[d..m])]| == m - Tail(text[d..m]);
  }

  /** Of a text that is UTF-8 so far, only whole characters have been delivered. */
  lemma DeliveredIsBoundary(stops: seq<Bytes>, text: Bytes, v: Bytes)
    requires CharacterSafe(stops) && text <= v && Valid(v) && !HasStop(text, stops)
    ensures Boundary(v, |text| - Hold(text, stops))
  {
    hide Holdback; hide Tail; hide Valid; hide CharacterSafe; hide HasStop;
    HeldBytesBeginACharacter(text, stops, v);
    if Hold(text, stops) == 0 {
      assert v[..|text|] == text;
      CutAtTailIsBoundary(v, |text|);
    }
  }

  /** No truncated character reaches back over a boundary. */
  lemma TailStopsAtBoundary(v: Bytes, d: nat, m: nat)
    requires Valid(v) && d <= m <= |v| && Boundary(v, d)
    ensures Tail(v[..m]) <= m - d
  {
    hide Tail; hide Valid;
    if d < m {
      assert v[..m][d] == v[d];
    } else {
      ZeroIsBoundary(v);
      ValidSlice(v, 0, d);
      ValidHasNoTail(v[0..d]);
      assert v[0..d] == v[..m];
    }
  }

  /**
   * On text that is UTF-8 so far and with stops that split no character the condition always holds:
   * what the run offered is the offline cut.
   */
  lemma StopIsOffline(stops: seq<Bytes>, recv: Receiver, pieces: seq<Bytes>)
    requires CharacterSafe(stops) && Pushes(stops, recv, pieces).status == Stopped
    requires ValidPrefix(Read(stops, recv, pieces))
    ensures var text := Read(stops, recv, pieces);
            HasStop(text, stops) && Concat(Pushes(stops, recv, pieces).filter.offered) == Offline(text, stops)
  {
    hide Leftmost; hide Hold; hide Pushes; hide Offline; hide Tail; hide CharacterSafe; hide Valid; hide Read; hide ReadBefore;
    StopIsOfflineIff(stops, recv, pieces);
    var text, before := Read(stops, recv, pieces), ReadBefore(stops, recv, pieces);
    var rest: Bytes :| Valid(text + rest);
    var v := text + rest;
    DeliveredIsBoundary(stops, before, v);
    var d, m := |before| - Hold(before, stops), Leftmost(text, stops).value;
    TailStopsAtBoundary(v, d, m);
    assert v[..m] == text[..m];
  }

  // ---- No text of a stop is delivered ----

  lemma NoStopBeforeFirst(text: Bytes, stops: seq<Bytes>, n: nat)
    requires n <= |text| && (HasStop(text, stops) ==> n <= Leftmost(text, stops).value)
    ensures !HasStop(text[..n], stops)
  {
    hide LeftmostFrom;
    var head := text[..n];
    if HasStop(head, stops) {
      var p := Leftmost(head, stops).value;
      var i :| 0 <= i < |stops| && stops[i] != [] && OccursAt(head, stops[i], p);
      OccursInPrefix(head, text, stops[i], p);
      StopIsFound(text, stops, i, p);
    }
  }

  lemma StopIsFound(text: Bytes, stops: seq<Bytes>, i: nat, p: nat)
    requires i < |stops| && stops[i] != [] && OccursAt(text, stops[i], p)
    ensures HasStop(text, stops) && Leftmost(text, stops).value <= p
  {
    hide LeftmostFrom;
    assert StopAt(text, stops, p);
  }

  /**
   * What the receiver has been given never contains a stop, at any moment of any run: whatever the
   * bytes, the stops, the splitting and the receiver's answers, before the flush and after it.
   */
  lemma NoStopIsOffered(stops: seq<Bytes>, recv: Receiver, pieces: seq<Bytes>)
    ensures !HasStop(Concat(Pushes(stops, recv, pieces).filter.offered), stops)
    ensures !HasStop(Concat(FilterAll(stops, recv, pieces).0.offered), stops)
  {
    hide Pushes; hide HasStop; hide Hold; hide Tail; hide Flush; hide Leftmost;
    PushesFollowText(stops, recv, pieces);
    var r := Pushes(stops, recv, pieces);
    if r.status == Continue {
      var text := Concat(pieces);
      NoStopBeforeFirst(text, stops, |text| - Hold(text, stops));
      FlushIsOffline(stops, recv, pieces);
      NoStopOffline(text, stops);
    } else {
      var before, piece := Concat(pieces[..r.used - 1]), pieces[r.used - 1];
      NoStopAfterPush(stops, before, piece, r.filter, r.status);
    }
  }

  lemma NoStopOffline(text: Bytes, stops: seq<Bytes>)
    requires !HasStop(text, stops)
    ensures !HasStop(Offline(text, stops), stops)
  {
    hide Tail; hide Leftmost;
    NoStopBeforeFirst(text, stops, |text| - Tail(text));
  }

  lemma NoStopAfterPush(stops: seq<Bytes>, text: Bytes, piece: Bytes, f: Filter, status: Status)
    requires PushOutcome(stops, text, piece, f, status)
    ensures !HasStop(Concat(f.offered), stops)
  {
    hide Tail; hide Hold; hide Leftmost;
    var all := text + piece;
    if HasStop(all, stops) {
      var d, m := |text| - Hold(text, stops), Leftmost(all, stops).value;
      NoStopBeforeFirst(all, stops, m - Tail(all[d..m]));
    } else {
      NoStopBeforeFirst(all, stops, |all| - Hold(all, stops));
    }
  }

  // ---- How long a run can be quiet ----

  /** How much of a text has been delivered when it has been pushed, the last piece after `before`. */
  function Released(before: Bytes, text: Bytes, stops: seq<Bytes>): nat
  {
    match Leftmost(text, stops)
    case None => |text| - Hold(text, stops)
    case Some(m) =>
      var d := |before| - Hold(before, stops);
      if d <= m then m - Tail(text[d..m]) else 0
  }

  /** A push calls the receiver, once, exactly when it moves the end of what may be delivered. */
  lemma PushCallsIff(stops: seq<Bytes>, recv: Receiver, pieces: seq<Bytes>, piece: Bytes)
    requires Pushes(stops, recv, pieces).status == Continue
    ensures var before, text := Concat(pieces), Concat(pieces) + piece;
            |Pushes(stops, recv, pieces + [piece]).filter.offered| ==
            |Pushes(stops, recv, pieces).filter.offered| +
            if Released(before, text, stops) > |before| - Hold(before, stops) then 1 else 0
  {
    hide Pushes; hide Released; hide Hold; hide Push; hide PushOutcome; hide HasStop;
    PushesFollowText(stops, recv, pieces);
    PushesSnoc(stops, recv, pieces, piece);
    var f := Pushes(stops, recv, pieces).filter;
    PushHolds(stops, recv, f, Concat(pieces), piece);
    var (f', status) := Push(stops, recv, f, piece);
    PushReleases(stops, Concat(pieces), piece, f', status);
    PushOffers(stops, recv, f, piece);
  }

  lemma PushReleases(stops: seq<Bytes>, text: Bytes, piece: Bytes, f: Filter, status: Status)
    requires PushOutcome(stops, text, piece, f, status)
    ensures |Concat(f.offered)| == Released(text, text + piece, stops)
  {
    hide Tail; hide Leftmost; hide Hold;
  }

  /** A push offers at most one chunk, and it is not empty. */
  lemma PushOffers(stops: seq<Bytes>, recv: Receiver, f: Filter, piece: Bytes)
    ensures var f' := Push(stops, recv, f, piece).0;
            || f'.offered == f.offered
            || (|f'.offered| == |f.offered| + 1 && |Concat(f'.offered)| > |Concat(f.offered)|)
  {
    hide Tail; hide Leftmost; hide Hold;
    var buffer := f.pending + piece;
    match Leftmost(buffer, stops) {
      case Some(m) => ConcatSnoc(f.offered, buffer[..m - Tail(buffer[..m])]);
      case None => ConcatSnoc(f.offered, buffer[..|buffer| - Hold(buffer, stops)]);
    }
  }

  /** An empty piece changes nothing and calls nobody, so any number of them can pass unnoticed. */
  lemma EmptyPieceIsQuiet(stops: seq<Bytes>, recv: Receiver, pieces: seq<Bytes>)
    requires Pushes(stops, recv, pieces).status == Continue
    ensures var r := Pushes(stops, recv, pieces); Pushes(stops, recv, pieces + [[]]) == Run(r.filter, Continue, r.used + 1)
  {
    hide Pushes; hide Tail; hide Leftmost; hide StopAt; hide TruncatedFrom; hide Hold;
    PushesFollowText(stops, recv, pieces);
    PushesSnoc(stops, recv, pieces, []);
    var f, text := Pushes(stops, recv, pieces).filter, Concat(pieces);
    MatchInBuffer(text, [], stops);
    assert text + [] == text && f.pending + [] == f.pending;
    HoldOfSuffix(text, |text| - Hold(text, stops), stops);
    assert f.pending[|f.pending| - Hold(f.pending, stops)..] == f.pending;
  }

  lemma {:induction false} PushesExtend(stops: seq<Bytes>, recv: Receiver, pieces: seq<Bytes>, more: seq<Bytes>)
    requires Pushes(stops, recv, pieces + more).status == Continue
    ensures Pushes(stops, recv, pieces).status == Continue
    ensures Pushes(stops, recv, pieces).filter.offered <= Pushes(stops, recv, pieces + more).filter.offered
  {
    hide Hold; hide Tail; hide Leftmost;
    if more == [] {
      assert pieces + more == pieces;
    } else {
      var init := more[..|more| - 1];
      assert (pieces + more)[..|pieces + more| - 1] == pieces + init;
      PushesExtend(stops, recv, pieces, init);
    }
  }

  lemma {:induction false} NonEmptyPieces(pieces: seq<Bytes>)
    requires forall i | 0 <= i < |pieces| :: pieces[i] != []
    ensures |pieces| <= |Concat(pieces)|
  {
    if pieces != [] {
      NonEmptyPieces(pieces[..|pieces| - 1]);
    }
  }

  /**
   * The receiver is not called for at most three non-empty pieces in a row, or for fewer than some
   * stop has bytes: from any point of any run.
   */
  lemma QuietPieces(stops: seq<Bytes>, recv: Receiver, pieces: seq<Bytes>, more: seq<Bytes>)
    requires Pushes(stops, recv, pieces + more).status == Continue
    requires |Pushes(stops, recv, pieces + more).filter.offered| == |Pushes(stops, recv, pieces).filter.offered|
    requires forall i | 0 <= i < |more| :: more[i] != []
    ensures |more| <= 3 || exists i :: 0 <= i < |stops| && |more| < |stops[i]|
  {
    hide Pushes; hide Hold; hide HasStop;
    PushesExtend(stops, recv, pieces, more);
    PushesFollowText(stops, recv, pieces);
    PushesFollowText(stops, recv, pieces + more);
    ConcatPlus(pieces, more);
    NonEmptyPieces(more);
    TailWithinHold(Concat(pieces + more), stops);
    var before, after := Pushes(stops, recv, pieces).filter.offered, Pushes(stops, recv, pieces + more).filter.offered;
    assert before == after;
    assert |Concat(after)| == |Concat(pieces + more)| - Hold(Concat(pieces + more), stops);
    assert |Concat(before)| == |Concat(pieces)| - Hold(Concat(pieces), stops);
  }

  // ---- Chunks are whole characters ----

  ghost predicate AllValid(chunks: seq<Bytes>)
  {
    forall i | 0 <= i < |chunks| :: Valid(chunks[i])
  }

  /** If one more chunk takes what has been offered from `v[..d]` to `v[..e]`, that chunk is `v[d..e]`. */
  lemma NextChunk(recv: Receiver, f: Filter, text: Bytes, v: Bytes, d: nat, e: nat)
    requires Valid(v) && d <= e <= |v| && Boundary(v, d) && Boundary(v, e)
    requires AllValid(f.offered) && Concat(f.offered) == v[..d]
    requires Concat(Deliver(recv, f, text).0.offered) == v[..e]
    ensures AllValid(Deliver(recv, f, text).0.offered)
  {
    hide Valid;
    ValidSlice(v, d, e);
    if text != [] {
      ConcatSnoc(f.offered, text);
      assert v[..e] == v[..d] + v[d..e];
      assert text == (v[..d] + text)[d..];
    }
  }

  lemma PushedChunkIsUtf8(stops: seq<Bytes>, recv: Receiver, f: Filter, text: Bytes, piece: Bytes, v: Bytes)
    requires CharacterSafe(stops) && Holds(f, stops, text) && AllValid(f.offered)
    requires text + piece <= v && Valid(v)
    ensures AllValid(Push(stops, recv, f, piece).0.offered)
  {
    hide Valid; hide Leftmost; hide Hold; hide Tail; hide AllValid; hide CharacterSafe; hide Push; hide Holds; hide HasStop;
    if HasStop(text + piece, stops) {
      StoppedChunkIsUtf8(stops, recv, f, text, piece, v);
    } else {
      ContinuedChunkIsUtf8(stops, recv, f, text, piece, v);
    }
  }

  lemma StoppedChunkIsUtf8(stops: seq<Bytes>, recv: Receiver, f: Filter, text: Bytes, piece: Bytes, v: Bytes)
    requires CharacterSafe(stops) && Holds(f, stops, text) && AllValid(f.offered)
    requires text + piece <= v && Valid(v) && HasStop(text + piece, stops)
    ensures AllValid(Push(stops, recv, f, piece).0.offered)
  {
    hide Valid; hide Leftmost; hide Hold; hide Tail; hide AllValid; hide CharacterSafe; hide Deliver; hide Boundary; hide StopAt;
    var all, d := text + piece, |text| - Hold(text, stops);
    var buffer := f.pending + piece;
    PushHolds(stops, recv, f, text, piece);
    DeliveredIsBoundary(stops, text, v);
    assert v[..d] == text[..d];
    MatchInBuffer(text, piece, stops);
    var m := Leftmost(all, stops).value;
    TailStopsAtBoundary(v, d, m);
    assert v[..m] == all[..m] && all[..m][d..] == all[d..m];
    TailOfSuffix(all[..m], d);
    CutAtTailIsBoundary(v, m);
    var e := m - Tail(all[..m]);
    assert all[..e] == v[..e];
    NextChunk(recv, f.(pending := []), buffer[..m - d - Tail(buffer[..m - d])], v, d, e);
  }

  lemma ContinuedChunkIsUtf8(stops: seq<Bytes>, recv: Receiver, f: Filter, text: Bytes, piece: Bytes, v: Bytes)
    requires CharacterSafe(stops) && Holds(f, stops, text) && AllValid(f.offered)
    requires text + piece <= v && Valid(v) && !HasStop(text + piece, stops)
    ensures AllValid(Push(stops, recv, f, piece).0.offered)
  {
    hide Valid; hide Leftmost; hide Hold; hide Tail; hide AllValid; hide CharacterSafe; hide Deliver; hide Boundary;
    var all, d := text + piece, |text| - Hold(text, stops);
    var buffer := f.pending + piece;
    PushHolds(stops, recv, f, text, piece);
    DeliveredIsBoundary(stops, text, v);
    DeliveredIsBoundary(stops, all, v);
    HoldBeginsInHeldBytes(text, piece, stops);
    MatchInBuffer(text, piece, stops);
    var e := |all| - Hold(all, stops);
    assert v[..d] == text[..d] && all[..e] == v[..e];
    var safe := |buffer| - Hold(buffer, stops);
    NextChunk(recv, f.(pending := buffer[safe..]), buffer[..safe], v, d, e);
  }

  lemma {:induction false} PushedChunksAreUtf8(stops: seq<Bytes>, recv: Receiver, pieces: seq<Bytes>, v: Bytes)
    requires CharacterSafe(stops) && Concat(pieces) <= v && Valid(v)
    ensures AllValid(Pushes(stops, recv, pieces).filter.offered)
  {
    hide Valid; hide CharacterSafe; hide Push; hide Holds;
    if pieces != [] {
      var n := |pieces|;
      PushedChunksAreUtf8(stops, recv, pieces[..n - 1], v);
      PushesFollowText(stops, recv, pieces[..n - 1]);
      var r := Pushes(stops, recv, pieces[..n - 1]);
      if r.status == Continue {
        PushedChunkIsUtf8(stops, recv, r.filter, Concat(pieces[..n - 1]), pieces[n - 1], v);
      }
    }
  }

  /**
   * Every chunk the receiver is ever given, the flushed one included, is by itself valid UTF-8 when
   * the generated bytes are UTF-8 so far and no stop splits a character.
   */
  lemma ChunksAreUtf8(stops: seq<Bytes>, recv: Receiver, pieces: seq<Bytes>)
    requires CharacterSafe(stops) && ValidPrefix(Concat(pieces))
    ensures AllValid(FilterAll(stops, recv, pieces).0.offered)
  {
    hide Valid; hide AllValid; hide CharacterSafe; hide Flush; hide Pushes;
    var text := Concat(pieces);
    var rest: Bytes :| Valid(text + rest);
    var v := text + rest;
    PushedChunksAreUtf8(stops, recv, pieces, v);
    if Pushes(stops, recv, pieces).status == Continue {
      PushesFollowText(stops, recv, pieces);
      FlushIsOffline(stops, recv, pieces);
      FlushedChunkIsUtf8(stops, recv, Pushes(stops, recv, pieces).filter, text, v);
    }
  }

  lemma FlushedChunkIsUtf8(stops: seq<Bytes>, recv: Receiver, f: Filter, text: Bytes, v: Bytes)
    requires CharacterSafe(stops) && Holds(f, stops, text) && AllValid(f.offered)
    requires text <= v && Valid(v)
    requires Concat(Flush(recv, f).0.offered) == Offline(text, stops)
    ensures AllValid(Flush(recv, f).0.offered)
  {
    hide Valid; hide Leftmost; hide Hold; hide Tail; hide AllValid; hide CharacterSafe; hide Deliver; hide Boundary;
    DeliveredIsBoundary(stops, text, v);
    assert v[..|text|] == text;
    CutAtTailIsBoundary(v, |text|);
    TailWithinHold(text, stops);
    var d, e := |text| - Hold(text, stops), |text| - Tail(text);
    assert v[..d] == text[..d] && v[..e] == text[..e];
    var p := f.pending;
    NextChunk(recv, f.(pending := []), p[..|p| - Tail(p)], v, d, e);
  }
}
