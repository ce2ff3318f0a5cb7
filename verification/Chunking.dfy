/** Whether the way a text is cut into pieces can show in what the stream filter delivers. */
module Chunking {
  import opened ByteStrings
  import opened Utf8
  import opened Stops
  import opened StreamFilters
  import opened FilterTheorems

  /** A receiver that accepts everything, which is also what an empty callback amounts to. */
  const ACCEPT_ALL: Receiver := (offered: seq<Bytes>) => Accept

  /**
   * No stop can be recognised inside the first bytes of another stop before that one is complete,
   * except at its very start.
   */
  ghost predicate Unnested(stops: seq<Bytes>)
  {
    forall i, n | 0 <= i < |stops| && 0 <= n < |stops[i]| :: FirstStopIsAtStart(stops[i][..n], stops)
  }

  predicate FirstStopIsAtStart(text: Bytes, stops: seq<Bytes>)
  {
    HasStop(text, stops) ==> Leftmost(text, stops) == Some(0)
  }

  /** With unnested stops, the first stop of a text is the first stop of any prefix that has one. */
  lemma LeftmostIsStable(text: Bytes, more: Bytes, stops: seq<Bytes>)
    requires Unnested(stops) && text <= more && HasStop(text, stops)
    ensures Leftmost(more, stops) == Leftmost(text, stops)
  {
    hide LeftmostFrom; hide PartialFrom;
    HasStopGrows(text, more, stops);
    var a, b := Leftmost(more, stops).value, Leftmost(text, stops).value;
    var i :| 0 <= i < |stops| && stops[i] != [] && OccursAt(more, stops[i], a);
    OccursInPrefix(text, more, stops[i], a);
    if a + |stops[i]| <= |text| {
      assert StopAt(text, stops, a);
    } else {
      var part := text[a..];
      assert part == more[a..a + |stops[i]|][..|text| - a];
      assert part == stops[i][..|part|];
      StopAtShift(text, a, stops, b - a);
      assert FirstStopIsAtStart(part, stops);
      StopAtShift(text, a, stops, 0);
    }
  }

  /**
   * The online filter refines the offline cut: whatever the splitting, a run whose chunks are all
   * accepted delivers exactly `Offline` of the whole text, and stops if and only if it has a stop.
   */
  lemma FilterIsOffline(stops: seq<Bytes>, recv: Receiver, pieces: seq<Bytes>)
    requires CharacterSafe(stops) && Unnested(stops) && ValidPrefix(Concat(pieces))
    requires FilterAll(stops, recv, pieces).1 in {Continue, Stopped}
    ensures var (f, status) := FilterAll(stops, recv, pieces);
            var text := Concat(pieces);
            && (status == Stopped <==> HasStop(text, stops))
            && Concat(f.offered) == Offline(text, stops)
  {
    hide Leftmost; hide Hold; hide Tail; hide Valid; hide CharacterSafe; hide Unnested; hide Pushes; hide Read;
    var r := Pushes(stops, recv, pieces);
    if r.status == Continue {
      FlushIsOffline(stops, recv, pieces);
    } else {
      var text, read := Concat(pieces), Read(stops, recv, pieces);
      ReadIsPrefix(stops, recv, pieces);
      ValidPrefixShrinks(read, text);
      StopIsOffline(stops, recv, pieces);
      LeftmostIsStable(read, text, stops);
      var m := Leftmost(read, stops).value;
      assert read[..m] == text[..m];
    }
  }

  lemma ReadIsPrefix(stops: seq<Bytes>, recv: Receiver, pieces: seq<Bytes>)
    ensures Read(stops, recv, pieces) <= Concat(pieces)
  {
    var used := Pushes(stops, recv, pieces).used;
    if used <= |pieces| {
      ConcatTake(pieces, used);
    }
  }

  lemma ValidPrefixShrinks(text: Bytes, more: Bytes)
    requires text <= more && ValidPrefix(more)
    ensures ValidPrefix(text)
  {
    var rest: Bytes :| Valid(more + rest);
    assert text + (more[|text|..] + rest) == more + rest;
  }

  /** What a client of the filter can tell two runs apart by: the bytes, and whether it stopped. */
  ghost predicate SameOutcome(stops: seq<Bytes>, a: seq<Bytes>, b: seq<Bytes>)
  {
    var (fa, sa) := FilterAll(stops, ACCEPT_ALL, a);
    var (fb, sb) := FilterAll(stops, ACCEPT_ALL, b);
    Concat(fa.offered) == Concat(fb.offered) && sa == sb
  }

  ghost predicate ChunkingIndependent(stops: seq<Bytes>)
  {
    forall a: seq<Bytes>, b: seq<Bytes> | Concat(a) == Concat(b) && ValidPrefix(Concat(a)) :: SameOutcome(stops, a, b)
  }

  /** For UTF-8 stops, the splitting never shows if and only if the stops are unnested. */
  lemma ChunkingIndependenceIff(stops: seq<Bytes>)
    requires forall i | 0 <= i < |stops| :: Valid(stops[i])
    ensures ChunkingIndependent(stops) <==> Unnested(stops)
  {
    hide Unnested; hide Valid; hide FilterAll;
    if Unnested(stops) {
      ValidIsCharacterSafe(stops);
      forall a: seq<Bytes>, b: seq<Bytes> | Concat(a) == Concat(b) && ValidPrefix(Concat(a))
        ensures SameOutcome(stops, a, b)
      {
        AcceptedRun(stops, a);
        AcceptedRun(stops, b);
        FilterIsOffline(stops, ACCEPT_ALL, a);
        FilterIsOffline(stops, ACCEPT_ALL, b);
      }
    } else {
      NestingShows(stops);
    }
  }

  lemma ValidIsCharacterSafe(stops: seq<Bytes>)
    requires forall i | 0 <= i < |stops| :: Valid(stops[i])
    ensures CharacterSafe(stops)
  {
    hide CharacterSafe;
    forall i | 0 <= i < |stops| && |stops[i]| >= 2 ensures !IsContinuation(stops[i][0]) {
      ZeroIsBoundary(stops[i]);
    }
    WholeStopsAreSafe(stops);
  }

  lemma AcceptedRun(stops: seq<Bytes>, pieces: seq<Bytes>)
    ensures FilterAll(stops, ACCEPT_ALL, pieces).1 in {Continue, Stopped}
  {
    hide Push;
    NothingAfterRefusal(stops, ACCEPT_ALL, pieces);
  }

  /** A stop pushed whole delivers nothing; pushed after its first `n` bytes it delivers their head. */
  lemma NestingShows(stops: seq<Bytes>)
    requires forall i | 0 <= i < |stops| :: Valid(stops[i])
    requires !Unnested(stops)
    ensures !ChunkingIndependent(stops)
  {
    hide Leftmost; hide StopAt; hide Valid; hide SameOutcome;
    var i, n :| 0 <= i < |stops| && 0 <= n < |stops[i]| && !FirstStopIsAtStart(stops[i][..n], stops);
    var whole := stops[i];
    var part, rest := whole[..n], whole[n..];
    WholeStop(stops, i);
    NestedStop(stops, i, n, rest);
    ConcatOne(whole);
    ConcatTwo(part, rest);
    assert part + rest == whole;
    assert whole + [] == whole;
    assert ValidPrefix(whole);
    assert !SameOutcome(stops, [whole], [part, rest]) by { NotSame(stops, [whole], [part, rest]); }
  }

  lemma NotSame(stops: seq<Bytes>, a: seq<Bytes>, b: seq<Bytes>)
    requires Concat(FilterAll(stops, ACCEPT_ALL, a).0.offered) == []
    requires Concat(FilterAll(stops, ACCEPT_ALL, b).0.offered) != []
    ensures !SameOutcome(stops, a, b)
  {
  }

  lemma WholeStop(stops: seq<Bytes>, i: nat)
    requires i < |stops| && stops[i] != []
    ensures FilterAll(stops, ACCEPT_ALL, [stops[i]]) == (FRESH, Stopped)
  {
    hide Hold; hide LeftmostFrom;
    var whole := stops[i];
    assert [] + whole == whole;
    assert whole[0..|whole|] == whole;
    assert OccursAt(whole, stops[i], 0);
    assert StopAt(whole, stops, 0);
    var pieces: seq<Bytes> := [whole];
    assert pieces[..0] == [];
    assert Leftmost(FRESH.pending + whole, stops) == Some(0);
    assert Push(stops, ACCEPT_ALL, FRESH, whole) == (FRESH, Stopped);
    assert Pushes(stops, ACCEPT_ALL, pieces[..0]) == Run(FRESH, Continue, 0);
  }

  lemma NestedStop(stops: seq<Bytes>, i: nat, n: nat, rest: Bytes)
    requires forall j | 0 <= j < |stops| :: Valid(stops[j])
    requires i < |stops| && n < |stops[i]| && !FirstStopIsAtStart(stops[i][..n], stops)
    ensures Concat(FilterAll(stops, ACCEPT_ALL, [stops[i][..n], rest]).0.offered) != []
  {
    hide Hold; hide Tail; hide LeftmostFrom; hide Valid; hide PartialFrom; hide TruncatedFrom;
    var v := stops[i];
    var part := v[..n];
    var p := Leftmost(part, stops).value;
    var j :| 0 <= j < |stops| && stops[j] != [] && OccursAt(part, stops[j], p);
    assert part[p..p + |stops[j]|][0] == v[p];
    ZeroIsBoundary(stops[j]);
    ZeroIsBoundary(v);
    ValidSlice(v, 0, p);
    assert v[0..p] == part[..p];
    ValidHasNoTail(part[..p]);
    FirstPushStops(stops, part, rest, p);
  }

  lemma FirstPushStops(stops: seq<Bytes>, part: Bytes, rest: Bytes, p: nat)
    requires Leftmost(part, stops) == Some(p) && p > 0 && Tail(part[..p]) == 0
    ensures Concat(FilterAll(stops, ACCEPT_ALL, [part, rest]).0.offered) != []
  {
    hide Hold; hide Tail; hide Leftmost; hide StopAt;
    var pieces: seq<Bytes> := [part, rest];
    var first: seq<Bytes> := [part];
    assert pieces[..1] == first && first[..0] == [];
    assert [] + part == part;
    var out := part[..p];
    assert out[..p - 0] == out;
    assert Pushes(stops, ACCEPT_ALL, [part]) == Run(Filter([], [] + [out]), Stopped, 1);
    ConcatSnoc([], out);
  }

  /**
   * A receiver that declines or throws only cuts the stream short: what it was given is a prefix of
   * the chunks a receiver that accepts everything is given.
   */
  lemma RefusalOnlyTruncates(stops: seq<Bytes>, recv: Receiver, pieces: seq<Bytes>)
    ensures FilterAll(stops, recv, pieces).0.offered <= FilterAll(stops, ACCEPT_ALL, pieces).0.offered
  {
    hide Push;
    PushesAgree(stops, recv, pieces);
  }

  lemma {:induction false} PushesAgree(stops: seq<Bytes>, recv: Receiver, pieces: seq<Bytes>)
    ensures var r, all := Pushes(stops, recv, pieces), Pushes(stops, ACCEPT_ALL, pieces);
            && r.filter.offered <= all.filter.offered
            && (r.status in {Continue, Stopped} ==> r == all)
  {
    hide Hold; hide Tail; hide Leftmost;
    if pieces != [] {
      PushesAgree(stops, recv, pieces[..|pieces| - 1]);
    }
  }

  // ---- When chunks are whole characters ----

  /** Every chunk of every text that is UTF-8 so far is valid UTF-8 by itself, flushed or not. */
  ghost predicate ChunksAlwaysValid(stops: seq<Bytes>)
  {
    forall pieces: seq<Bytes> | ValidPrefix(Concat(pieces)) :: AllValid(FilterAll(stops, ACCEPT_ALL, pieces).0.offered)
  }

  /** Chunks are always whole characters if and only if no stop splits a character. */
  lemma ChunksAreUtf8Iff(stops: seq<Bytes>)
    ensures ChunksAlwaysValid(stops) <==> CharacterSafe(stops)
  {
    hide AllValid; hide FilterAll; hide ValidPrefix; hide Splits; hide TruncatedFrom;
    if CharacterSafe(stops) {
      forall pieces: seq<Bytes> | ValidPrefix(Concat(pieces))
        ensures AllValid(FilterAll(stops, ACCEPT_ALL, pieces).0.offered)
      {
        ChunksAreUtf8(stops, ACCEPT_ALL, pieces);
      }
    } else {
      var h: Bytes, i: nat, n: nat :|
        TruncatedFrom(h, 0) && i < |stops| && 0 < n < |stops[i]| && IsContinuation(stops[i][0]) && Splits(stops, h, i, n);
      SplitShows(stops, h, i, n);
    }
  }

  /** A text that ends in a split character, pushed whole, is delivered up to the split. */
  lemma SplitShows(stops: seq<Bytes>, h: Bytes, i: nat, n: nat)
    requires i < |stops| && 0 < n < |stops[i]| && TruncatedFrom(h, 0) && Splits(stops, h, i, n)
    ensures !ChunksAlwaysValid(stops)
  {
    hide Hold; hide Leftmost; hide Valid; hide Flush; hide AllValid; hide Concat;
    var text := h + stops[i][..n];
    var pieces: seq<Bytes> := [text];
    ConcatOne(text);
    assert pieces[..0] == [];
    assert [] + text == text && text[..|text| - n] == h;
    assert Push(stops, ACCEPT_ALL, FRESH, text) == (Filter(text[|text| - n..], [] + [h]), Continue);
    assert Pushes(stops, ACCEPT_ALL, pieces[..0]) == Run(FRESH, Continue, 0);
    var f := Pushes(stops, ACCEPT_ALL, pieces).filter;
    assert f.offered == [h];
    var all := FilterAll(stops, ACCEPT_ALL, pieces).0.offered;
    FlushKeeps(f);
    assert all[0] == h;
    BegunIsNotValid(h);
    assert !AllValid(all) by { OneInvalid(all, 0); }
  }

  lemma FlushKeeps(f: Filter)
    ensures f.offered <= Flush(ACCEPT_ALL, f).0.offered
  {
    hide Tail;
  }

  lemma BegunIsNotValid(h: Bytes)
    requires TruncatedFrom(h, 0)
    ensures !Valid(h)
  {
    if Valid(h) {
      ValidHasNoTail(h);
    }
  }

  lemma OneInvalid(chunks: seq<Bytes>, i: nat)
    requires i < |chunks| && !Valid(chunks[i])
    ensures !AllValid(chunks)
  {
  }
}
