/** Inputs on which the online filter and the offline cut differ, so neither hypothesis can go. */
module FilterExamples {
  import opened ByteStrings
  import opened Utf8
  import opened Stops
  import opened StreamFilters
  import opened FilterTheorems
  import opened Chunking

  /** The only stop and a text that ends on its first byte: that byte, and nothing else, is held back. */
  lemma HoldsOneByte(a: Bytes, c: Byte, c': Byte)
    requires Tail(a + [c]) == 0 && forall i | 0 <= i < |a| :: a[i] != c
    ensures var stops: seq<Bytes> := [[c, c']]; Hold(a + [c], stops) == 1 && !HasStop(a + [c], stops)
  {
    hide Tail;
    var stops: seq<Bytes> := [[c, c']];
    var text := a + [c];
    forall p: nat | p < |a| ensures !PartialFrom(text, stops, p) && !StopAt(text, stops, p) {
      if p + 2 <= |text| { assert text[p..p + 2][0] == a[p]; }
      assert text[p..][0] == a[p];
    }
    assert text[|a|..] == [c] <= stops[0];
    assert PartialFrom(text, stops, |a|);
    assert !StopAt(text, stops, |a|);
  }

  lemma LeftmostIsTheEnd(a: Bytes, c: Byte, c': Byte)
    requires forall i | 0 <= i < |a| :: a[i] != c
    ensures Leftmost(a + [c, c'], [[c, c']]) == Some(|a|)
  {
    var stops: seq<Bytes> := [[c, c']];
    var all := a + [c, c'];
    forall p: nat | p < |a| ensures !StopAt(all, stops, p) {
      if p + 2 <= |all| { assert all[p..p + 2][0] == a[p]; }
    }
    assert OccursAt(all, stops[0], |a|);
    assert StopAt(all, stops, |a|);
  }

  /** Two pushes, the first of which ends on the first byte of the only stop, delivering the rest. */
  lemma StopSplitAfterOneByte(a: Bytes, c: Byte, c': Byte)
    requires a != [] && Tail(a + [c]) == 0 && forall i | 0 <= i < |a| :: a[i] != c
    ensures var r := Pushes([[c, c']], ACCEPT_ALL, [a + [c], [c']]);
            r.status == Stopped && r.filter == Filter([], [a])
    ensures Leftmost(a + [c, c'], [[c, c']]) == Some(|a|)
  {
    hide Tail; hide Hold; hide Leftmost; hide StopAt;
    var stops: seq<Bytes> := [[c, c']];
    var text := a + [c];
    HoldsOneByte(a, c, c');
    LeftmostIsTheEnd(a, c, c');
    LeftmostIsTheEnd([], c, c');
    var pieces: seq<Bytes> := [text, [c']];
    var first: seq<Bytes> := [text];
    assert pieces[..1] == first && first[..0] == [];
    assert [] + text == text;
    assert text[..|a|] == a && text[|a|..] == [c];
    assert Push(stops, ACCEPT_ALL, FRESH, text) == (Filter([c], [] + [a]), Continue);
    assert Pushes(stops, ACCEPT_ALL, first) == Run(Filter([c], [a]), Continue, 1);
    assert [] + [c, c'] == [c] + [c'] == [c, c'];
    assert Push(stops, ACCEPT_ALL, Filter([c], [a]), [c']) == (Filter([], [a]), Stopped);
  }

  lemma EuroSign()
    ensures Valid([0xE2, 0x82, 0xAC, 0x58]) && !Valid([0xE2, 0x82])
    ensures Tail([0xE2, 0x82]) == 2 && Tail([0xE2, 0x82, 0xAC]) == 0
  {
    var text: Bytes := [0xE2, 0x82, 0xAC, 0x58];
    assert text[3..] == [0x58] && text[3..][1..] == [];
    assert Valid(text[3..]);
    assert text[..3] == [0xE2, 0x82, 0xAC] && IsChar(text[..3]);
    var half: Bytes := [0xE2, 0x82];
    assert TruncatedFrom(half, 0);
  }

  /** A stop that begins inside a character makes a chunk of valid text end inside that character. */
  lemma StopInsideCharacter()
    ensures var stops: seq<Bytes>, pieces: seq<Bytes> := [[0xAC, 0x58]], [[0xE2, 0x82, 0xAC], [0x58]];
            && Valid(Concat(pieces)) && Unnested(stops) && !CharacterSafe(stops)
            && !AllValid(FilterAll(stops, ACCEPT_ALL, pieces).0.offered)
            && Concat(FilterAll(stops, ACCEPT_ALL, pieces).0.offered) != Offline(Concat(pieces), stops)
  {
    hide Pushes; hide Leftmost; hide Hold; hide Valid; hide Tail; hide StopAt; hide Unnested; hide Flush; hide Concat; hide CharacterSafe; hide AllValid;
    EuroSign();
    var a: Bytes := [0xE2, 0x82];
    var stops: seq<Bytes> := [[0xAC, 0x58]];
    assert a + [0xAC] == [0xE2, 0x82, 0xAC];
    var pieces: seq<Bytes> := [a + [0xAC], [0x58]];
    ConcatTwo(a + [0xAC], [0x58]);
    var text: Bytes := a + [0xAC, 0x58];
    assert text == (a + [0xAC]) + [0x58] == [0xE2, 0x82, 0xAC, 0x58];
    StopSplitAfterOneByte(a, 0xAC, 0x58);
    OnlyStop(0xAC, 0x58);
    CutAfter(text, stops, a);
    var offered := FilterAll(stops, ACCEPT_ALL, pieces).0.offered;
    assert offered == [a];
    ConcatOne(a);
    assert !AllValid(offered) by { OneInvalid(offered, 0); }
    Unsafe(stops, pieces);
  }

  lemma Unsafe(stops: seq<Bytes>, pieces: seq<Bytes>)
    requires Valid(Concat(pieces)) && !AllValid(FilterAll(stops, ACCEPT_ALL, pieces).0.offered)
    ensures !CharacterSafe(stops)
  {
    hide CharacterSafe; hide Valid; hide AllValid; hide FilterAll; hide Concat;
    if CharacterSafe(stops) {
      PrefixOfValid(Concat(pieces), Concat(pieces));
      ChunksAreUtf8(stops, ACCEPT_ALL, pieces);
    }
  }

  lemma CutAfter(text: Bytes, stops: seq<Bytes>, head: Bytes)
    requires head <= text && Leftmost(text, stops) == Some(|head|)
    ensures Offline(text, stops) == head[..|head| - Tail(head)]
  {
    hide Tail; hide Leftmost;
    assert text[..|head|] == head;
  }

  lemma OnlyStop(c: Byte, c': Byte)
    ensures Unnested([[c, c']])
  {
    var stops: seq<Bytes> := [[c, c']];
    forall n | 0 <= n < 2 ensures FirstStopIsAtStart(stops[0][..n], stops) {
      forall p: nat ensures !StopAt(stops[0][..n], stops, p) {
      }
    }
  }

  /** While all that was pushed is the beginning of a stop, it is all withheld. */
  lemma HeldPush(stops: seq<Bytes>, pieces: seq<Bytes>, text: Bytes, piece: Bytes)
    requires Pushes(stops, ACCEPT_ALL, pieces) == Run(Filter(text, []), Continue, |pieces|)
    requires PartialFrom(text + piece, stops, 0) && !HasStop(text + piece, stops)
    ensures Pushes(stops, ACCEPT_ALL, pieces + [piece]) == Run(Filter(text + piece, []), Continue, |pieces| + 1)
  {
    hide Pushes; hide PartialFrom; hide Leftmost; hide Tail;
    PushesSnoc(stops, ACCEPT_ALL, pieces, piece);
    assert Hold(text + piece, stops) == |text + piece|;
    assert (text + piece)[0..] == text + piece;
  }

  /** `abcdef` and `cd`. */
  const NESTED: seq<Bytes> := [[0x61, 0x62, 0x63, 0x64, 0x65, 0x66], [0x63, 0x64]]

  const BYTEWISE: seq<Bytes> := [[0x61], [0x62], [0x63], [0x64], [0x65], [0x66]]

  /** Up to `abc` there is no stop, and the text may become `abcdef`; in `abcd` the first stop is `cd`. */
  lemma NestedPrefix(n: nat)
    requires n <= 3
    ensures var text := NESTED[0][..n]; !HasStop(text, NESTED) && PartialFrom(text, NESTED, 0)
  {
    hide LeftmostFrom;
    var text := NESTED[0][..n];
    forall p: nat ensures !StopAt(text, NESTED, p) {
      if p + 2 <= n { assert text[p..p + 2][0] == NESTED[0][p]; }
    }
    assert text[0..] == text <= NESTED[0];
  }

  lemma NestedFound()
    ensures Leftmost(NESTED[0][..4], NESTED) == Some(2)
  {
    hide LeftmostFrom;
    var text := NESTED[0][..4];
    forall p: nat | p < 2 ensures !StopAt(text, NESTED, p) {
      assert text[p..p + 2][0] == NESTED[0][p];
    }
    assert OccursAt(text, NESTED[1], 2);
    assert StopAt(text, NESTED, 2);
  }

  lemma {:induction false} NestedHeld(n: nat)
    requires n <= 3
    ensures Pushes(NESTED, ACCEPT_ALL, BYTEWISE[..n]) == Run(Filter(NESTED[0][..n], []), Continue, n)
  {
    hide Push; hide HasStop; hide PartialFrom;
    if n > 0 {
      NestedHeld(n - 1);
      NestedPrefix(n);
      assert NESTED[0][..n] == NESTED[0][..n - 1] + BYTEWISE[n - 1];
      assert BYTEWISE[..n] == BYTEWISE[..n - 1] + [BYTEWISE[n - 1]];
      HeldPush(NESTED, BYTEWISE[..n - 1], NESTED[0][..n - 1], BYTEWISE[n - 1]);
    }
  }

  /** `cd` is found as soon as its `d` arrives. */
  lemma NestedStopped()
    ensures Push(NESTED, ACCEPT_ALL, Filter(NESTED[0][..3], []), BYTEWISE[3]) == (Filter([], [[0x61, 0x62]]), Stopped)
  {
    hide Leftmost; hide Hold; hide Tail; hide Valid;
    NestedFound();
    var buffer, out := NESTED[0][..4], NESTED[0][..2];
    assert NESTED[0][..3] + BYTEWISE[3] == buffer && buffer[..2] == out == [0x61, 0x62];
    Ascii(out);
    ValidHasNoTail(out);
    assert [] + [out] == [out];
  }

  /** And `ef` is never read. */
  lemma NestedBytewise()
    ensures Pushes(NESTED, ACCEPT_ALL, BYTEWISE) == Run(Filter([], [[0x61, 0x62]]), Stopped, 4)
  {
    hide Push;
    NestedHeld(3);
    NestedStopped();
    assert BYTEWISE[..4][..3] == BYTEWISE[..3];
    assert BYTEWISE[..5][..4] == BYTEWISE[..4];
    assert BYTEWISE[..5] == BYTEWISE[..6 - 1];
  }

  lemma {:induction false} Ascii(text: Bytes)
    requires forall i | 0 <= i < |text| :: text[i] <= 0x7F
    ensures Valid(text)
  {
    if text != [] {
      Ascii(text[1..]);
    }
  }

  lemma {:induction false} BytewiseIsText(n: nat)
    requires n <= 6
    ensures Concat(BYTEWISE[..n]) == NESTED[0][..n]
  {
    if n > 0 {
      BytewiseIsText(n - 1);
      assert BYTEWISE[..n][..n - 1] == BYTEWISE[..n - 1];
    }
  }

  lemma NestedIsNested()
    ensures !Unnested(NESTED)
  {
    hide Leftmost;
    NestedFound();
    assert !FirstStopIsAtStart(NESTED[0][..4], NESTED);
  }

  /**
   * Stops of whole characters, one of which can be recognised inside the first bytes of the other:
   * pushed whole, `abcdef` delivers nothing; byte by byte it delivers `ab`.
   */
  lemma NestedStopsShow()
    ensures Valid(NESTED[0]) && Valid(NESTED[1]) && !Unnested(NESTED)
    ensures Concat(BYTEWISE) == Concat([NESTED[0]])
    ensures FilterAll(NESTED, ACCEPT_ALL, [NESTED[0]]) == (FRESH, Stopped)
    ensures FilterAll(NESTED, ACCEPT_ALL, BYTEWISE) == (Filter([], [[0x61, 0x62]]), Stopped)
  {
    hide Pushes; hide Unnested; hide Valid; hide Concat;
    Ascii(NESTED[0]);
    Ascii(NESTED[1]);
    NestedIsNested();
    BytewiseIsText(6);
    assert BYTEWISE[..6] == BYTEWISE;
    ConcatOne(NESTED[0]);
    NestedBytewise();
    WholeStop(NESTED, 0);
  }

  /** On malformed text even a well-started, unnested stop can leave half a character delivered. */
  lemma MalformedText()
    ensures var stops: seq<Bytes>, pieces: seq<Bytes> := [[0x41, 0x42]], [[0xE2, 0x41], [0x42]];
            && Unnested(stops) && CharacterSafe(stops)
            && Concat(FilterAll(stops, ACCEPT_ALL, pieces).0.offered) != Offline(Concat(pieces), stops)
  {
    hide Pushes; hide LeftmostFrom; hide Holdback;
    var a: Bytes := [0xE2];
    var stops: seq<Bytes> := [[0x41, 0x42]];
    assert a + [0x41] == [0xE2, 0x41];
    ConcatTwo(a + [0x41], [0x42]);
    var text: Bytes := a + [0x41, 0x42];
    assert text == [0xE2, 0x41] + [0x42];
    StopSplitAfterOneByte(a, 0x41, 0x42);
    assert text[..1] == a && TruncatedFrom(a, 0);
    OnlyStop(0x41, 0x42);
    ConcatOne(a);
  }
}
