/** Chat text is whole characters: if the parser's contents are, so is everything it lets through. */
module ChatUtf8 {
  import opened ByteStrings
  import opened Utf8
  import opened Stops
  import opened ChatStreams

  /** Of valid UTF-8 the parser makes valid UTF-8. */
  ghost predicate ParserKeepsUtf8(p: Parser)
  {
    forall text: Bytes, partial | Valid(text) && p(text, partial).Some? :: Valid(p(text, partial).value.content)
  }

  ghost predicate ChatIsUtf8(c: Chat)
  {
    Valid(c.accumulated) && Valid(c.emitted)
  }

  /** What follows a valid prefix of a valid string is valid. */
  lemma ValidRemainder(v: Bytes, n: nat)
    requires Valid(v) && n <= |v| && Valid(v[..n])
    ensures Valid(v[n..])
  {
    hide Valid; hide Tail;
    ValidHasNoTail(v[..n]);
    if n < |v| && IsContinuation(v[n]) {
      CutInsideCharacter(v, n);
    }
    ValidDrop(v, n);
  }

  lemma AdvanceIsUtf8(p: Parser, c: Chat, partial: bool)
    requires ParserKeepsUtf8(p) && ChatIsUtf8(c)
    ensures var (c', _, delta) := Advance(p, c, partial); ChatIsUtf8(c') && Valid(delta)
  {
    hide Valid;
    NothingIsValid();
    var next := p(c.accumulated, partial);
    if next.Some? {
      var content := next.value.content;
      if |content| > |c.emitted| && content[..|c.emitted|] == c.emitted {
        ValidRemainder(content, |c.emitted|);
      }
    }
  }

  lemma PushIsUtf8(p: Parser, c: Chat, text: Bytes)
    requires ParserKeepsUtf8(p) && ChatIsUtf8(c) && Valid(text)
    ensures var (c', delta) := PushText(p, c, text); ChatIsUtf8(c') && Valid(delta)
  {
    hide Valid; hide Advance; hide ParserKeepsUtf8;
    NothingIsValid();
    if text != [] {
      ValidPlus(c.accumulated, text);
      AdvanceIsUtf8(p, c.(accumulated := c.accumulated + text), true);
    }
  }

  /** The tail, that of a rejected final parse included: it follows an occurrence of the shown text. */
  lemma FinishIsUtf8(p: Parser, json: Json, c: Chat)
    requires ParserKeepsUtf8(p) && ChatIsUtf8(c)
    ensures var (c', tail, _) := FinishChat(p, json, c); ChatIsUtf8(c') && Valid(tail)
  {
    hide Valid; hide ParserKeepsUtf8; hide Find; hide AllOrNone; hide RawOffset;
    AdvanceIsUtf8(p, c, false);
    if p(c.accumulated, false).None? && RawOffset(c).Some? {
      RawTailIsUtf8(c);
      ValidPlus(c.emitted, c.accumulated[RawOffset(c).value..]);
    }
  }

  lemma RawTailIsUtf8(c: Chat)
    requires ChatIsUtf8(c) && RawOffset(c).Some?
    ensures RawOffset(c).value <= |c.accumulated| && Valid(c.accumulated[RawOffset(c).value..])
  {
    hide Valid; hide Find;
    var text := c.accumulated;
    if c.emitted == [] {
      assert text[0..] == text;
    } else {
      var pos := Find(text, c.emitted).value;
      assert text[pos] == text[pos..pos + |c.emitted|][0] == c.emitted[0];
      ZeroIsBoundary(c.emitted);
      ValidDrop(text, pos);
      var rest := text[pos..];
      assert rest[..|c.emitted|] == c.emitted;
      ValidRemainder(rest, |c.emitted|);
      assert rest[|c.emitted|..] == text[pos + |c.emitted|..];
    }
  }
}
