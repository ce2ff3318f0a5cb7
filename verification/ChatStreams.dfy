/**
 * Incremental chat parsing: the output so far is reparsed at every push, by a parser that may refuse
 * it or change its mind, and only content that extends what was already shown is shown.
 */
module ChatStreams {
  import opened ByteStrings
  import opened Stops

  /** A tool call as the parser reports it. */
  datatype RawCall = RawCall(name: Bytes, arguments: Bytes)

  /** A parse: visible content, calls, and whether anything else (reasoning, say) was recognised. */
  datatype Message = Message(content: Bytes, calls: seq<RawCall>, other: bool)
  {
    predicate IsEmpty() { content == [] && calls == [] && !other }
  }

  /** The parser: any partial function of the text and of whether more text may follow. */
  type Parser = (Bytes, bool) -> Option<Message>

  /** Whether a text is valid JSON. */
  type Json = Bytes -> bool

  datatype ToolCall = ToolCall(name: Bytes, arguments: Bytes)

  /** Everything pushed, the last non-empty parse, and exactly what has been shown. */
  datatype Chat = Chat(accumulated: Bytes, parsed: Message, emitted: Bytes)

  const NOTHING := Message([], [], false)

  const NEW_CHAT := Chat([], NOTHING, [])

  const EMPTY_OBJECT: Bytes := [0x7B, 0x7D]

  /** Reparses; the result is whether the parser accepted, and the content that became visible. */
  function Advance(p: Parser, c: Chat, partial: bool): (Chat, bool, Bytes)
  {
    match p(c.accumulated, partial)
    case None => (c, false, [])
    case Some(next) =>
      if next.IsEmpty() then (c, true, [])
      else if |next.content| > |c.emitted| && next.content[..|c.emitted|] == c.emitted then
        (c.(parsed := next, emitted := next.content), true, next.content[|c.emitted|..])
      else (c.(parsed := next), true, [])
  }

  function PushText(p: Parser, c: Chat, text: Bytes): (Chat, Bytes)
  {
    if text == [] then (c, [])
    else
      var (c', _, delta) := Advance(p, c.(accumulated := c.accumulated + text), true);
      (c', delta)
  }

  predicate IsComplete(json: Json, call: RawCall)
  {
    call.name != [] && (call.arguments == [] || json(call.arguments))
  }

  function FromCommon(call: RawCall): ToolCall
  {
    ToolCall(call.name, if call.arguments == [] then EMPTY_OBJECT else call.arguments)
  }

  /** All the calls, converted in order, or none if one of them is incomplete. */
  function AllOrNone(json: Json, calls: seq<RawCall>): (r: seq<ToolCall>)
  {
    if forall i | 0 <= i < |calls| :: IsComplete(json, calls[i])
    then seq(|calls|, i requires 0 <= i < |calls| => FromCommon(calls[i]))
    else []
  }

  /** Where the shown content ends in the raw output, if it can be found there. */
  function RawOffset(c: Chat): Option<nat>
  {
    if c.emitted == [] then Some(0)
    else
      match Find(c.accumulated, c.emitted)
      case None => None
      case Some(pos) => Some(pos + |c.emitted|)
  }

  /** The final parse: the state, the content not shown before, and the calls. */
  function FinishChat(p: Parser, json: Json, c: Chat): (Chat, Bytes, seq<ToolCall>)
  {
    var (c', ok, delta) := Advance(p, c, false);
    if ok then (c', delta, AllOrNone(json, c'.parsed.calls))
    else
      match RawOffset(c')
      case Some(offset) =>
        if offset < |c'.accumulated|
        then (c'.(emitted := c'.emitted + c'.accumulated[offset..]), c'.accumulated[offset..], [])
        else (c', delta, [])
      case None => (c', delta, [])
  }

  class ChatStream {
    const parser: Parser
    const json: Json
    var accumulated: Bytes
    var parsed: Message
    var emitted: Bytes

    function State(): Chat
      reads this
    {
      Chat(accumulated, parsed, emitted)
    }

    constructor (parser: Parser, json: Json)
      ensures this.parser == parser && this.json == json && State() == NEW_CHAT
    {
      this.parser, this.json := parser, json;
      accumulated, parsed, emitted := [], Message([], [], false), [];
    }

    method Reparse(partial: bool) returns (ok: bool, delta: Bytes)
      modifies this`parsed, this`emitted
      ensures (State(), ok, delta) == Advance(parser, old(State()), partial)
    {
      var next := parser(accumulated, partial);
      if next.None? {
        return false, [];
      }
      if next.value.IsEmpty() {
        return true, [];
      }
      parsed := next.value;
      var content := parsed.content;
      if |content| > |emitted| && content[..|emitted|] == emitted {
        delta := content[|emitted|..];
        assert content == emitted + delta;
        emitted := emitted + delta;
        return true, delta;
      }
      return true, [];
    }

    method Push(text: Bytes) returns (delta: Bytes)
      modifies this
      ensures (State(), delta) == PushText(parser, old(State()), text)
    {
      if text == [] {
        return [];
      }
      accumulated := accumulated + text;
      var _, visible := Reparse(true);
      return visible;
    }

    method Finish() returns (tail: Bytes, calls: seq<ToolCall>)
      modifies this
      ensures (State(), tail, calls) == FinishChat(parser, json, old(State()))
    {
      calls := [];
      var ok, delta := Reparse(false);
      tail := delta;
      if !ok {
        var offset := RawOffset(State());
        if offset.Some? && offset.value < |accumulated| {
          tail := accumulated[offset.value..];
          emitted := emitted + tail;
        }
        return;
      }
      for i := 0 to |parsed.calls|
        invariant forall j | 0 <= j < i :: IsComplete(json, parsed.calls[j])
      {
        if !IsComplete(json, parsed.calls[i]) {
          return;
        }
      }
      for i := 0 to |parsed.calls|
        invariant |calls| == i
        invariant forall j | 0 <= j < i :: calls[j] == FromCommon(parsed.calls[j])
      {
        calls := calls + [FromCommon(parsed.calls[i])];
      }
      assert calls == AllOrNone(json, parsed.calls);
    }
  }

  // ---- Whole turns: pushes, then one finish ----

  /** The stream after the pushes, and everything they returned. */
  function PushAll(p: Parser, texts: seq<Bytes>): (Chat, seq<Bytes>)
  {
    if texts == [] then (NEW_CHAT, [])
    else
      var (c, deltas) := PushAll(p, texts[..|texts| - 1]);
      var (c', delta) := PushText(p, c, texts[|texts| - 1]);
      (c', deltas + [delta])
  }

  /** Everything the caller sees: what the pushes returned and the tail. */
  function Shown(p: Parser, json: Json, texts: seq<Bytes>): Bytes
  {
    var (c, deltas) := PushAll(p, texts);
    Concat(deltas) + FinishChat(p, json, c).1
  }

  /** A prefix of the text whose partial parse has this content. */
  ghost predicate ShownBy(p: Parser, text: Bytes, content: Bytes)
  {
    content == [] || exists t: Bytes | t != [] && t <= text :: PartialContent(p, t, content)
  }

  predicate PartialContent(p: Parser, t: Bytes, content: Bytes)
  {
    p(t, true).Some? && p(t, true).value.content == content
  }

  /** The last accepted, non-empty partial parse of what had been pushed so far, told by the texts alone. */
  function Recorded(p: Parser, texts: seq<Bytes>): Message
  {
    if texts == [] then NOTHING
    else
      var parse := p(Concat(texts), true);
      if texts[|texts| - 1] == [] || parse.None? || parse.value == NOTHING then Recorded(p, texts[..|texts| - 1])
      else parse.value
  }

  /**
   * For every parser: what the pushes returned adds up to `emitted`, which only ever grows, and is
   * at every moment the whole content of some partial parse.
   */
  lemma {:induction false} EmittedIsShown(p: Parser, texts: seq<Bytes>)
    ensures var (c, deltas) := PushAll(p, texts);
            && c.accumulated == Concat(texts)
            && c.emitted == Concat(deltas)
            && ShownBy(p, Concat(texts), c.emitted)
            && c.parsed == Recorded(p, texts)
    ensures texts != [] ==> PushAll(p, texts[..|texts| - 1]).0.emitted <= PushAll(p, texts).0.emitted
  {
    hide PushText; hide ShownBy;
    if texts == [] {
      NothingShown(p);
    } else {
      var init, last := texts[..|texts| - 1], texts[|texts| - 1];
      EmittedIsShown(p, init);
      var (c, deltas) := PushAll(p, init);
      PushShows(p, c, last);
      ConcatSnoc(deltas, PushText(p, c, last).1);
    }
  }

  lemma NothingShown(p: Parser)
    ensures ShownBy(p, [], [])
  {
  }

  /** One push: `emitted` grows by what is returned, and still is the content of a partial parse; what is recorded. */
  lemma PushShows(p: Parser, c: Chat, text: Bytes)
    requires ShownBy(p, c.accumulated, c.emitted)
    ensures var (c', delta) := PushText(p, c, text);
            && c'.accumulated == c.accumulated + text
            && c'.emitted == c.emitted + delta
            && ShownBy(p, c'.accumulated, c'.emitted)
            && var parse := p(c.accumulated + text, true);
            && c'.parsed == if text == [] || parse.None? || parse.value == NOTHING then c.parsed else parse.value
  {
    var all := c.accumulated + text;
    var c' := PushText(p, c, text).0;
    if c.emitted != [] {
      var t: Bytes :| t != [] && t <= c.accumulated && PartialContent(p, t, c.emitted);
      assert t <= all;
    }
    assert p(all, true).Some? ==> PartialContent(p, all, p(all, true).value.content);
  }

  /**
   * What every single push returns. If the text so far is accepted with content that properly extends
   * all that was returned before, the whole of that content has been returned after it; otherwise
   * nothing more.
   */
  lemma PushReturns(p: Parser, texts: seq<Bytes>)
    requires texts != []
    ensures var n := |texts| - 1;
            var (c, deltas) := PushAll(p, texts);
            var before, parse := PushAll(p, texts[..n]).0.emitted, p(Concat(texts), true);
            && c.emitted ==
               (if texts[n] != [] && parse.Some? && before < parse.value.content then parse.value.content else before)
            && |deltas| == n + 1 && deltas[..n] == PushAll(p, texts[..n]).1
            && before + deltas[n] == c.emitted
  {
    hide PushAll; hide ShownBy; hide PushText;
    var n := |texts| - 1;
    EmittedIsShown(p, texts[..n]);
    var (c, deltas) := PushAll(p, texts[..n]);
    PushOnce(p, c, texts[n]);
    PushAllSnoc(p, texts);
    PushAllLength(p, texts[..n]);
  }

  lemma PushAllSnoc(p: Parser, texts: seq<Bytes>)
    requires texts != []
    ensures var (c, deltas) := PushAll(p, texts[..|texts| - 1]);
            var (c', delta) := PushText(p, c, texts[|texts| - 1]);
            PushAll(p, texts) == (c', deltas + [delta])
  {
    hide PushText;
  }

  lemma {:induction false} PushAllLength(p: Parser, texts: seq<Bytes>)
    ensures |PushAll(p, texts).1| == |texts|
  {
    hide PushText;
    if texts != [] {
      PushAllLength(p, texts[..|texts| - 1]);
    }
  }

  lemma PushOnce(p: Parser, c: Chat, text: Bytes)
    ensures var (c', delta) := PushText(p, c, text);
            var parse := p(c.accumulated + text, true);
            && c'.emitted ==
               (if text != [] && parse.Some? && c.emitted < parse.value.content then parse.value.content else c.emitted)
            && c.emitted + delta == c'.emitted
  {
    var parse := p(c.accumulated + text, true);
    if text != [] && parse.Some? {
      var content := parse.value.content;
      assert c.emitted < content <==> |content| > |c.emitted| && content[..|c.emitted|] == c.emitted;
    }
  }

  /** The parser never takes back content: that of an accepted partial parse begins that of every later one. */
  ghost predicate NeverTakesBack(p: Parser)
  {
    forall t: Bytes, u: Bytes | t <= u && p(t, true).Some? && p(u, true).Some? ::
      p(t, true).value.content <= p(u, true).value.content
  }

  /** With such a parser the client has, after every push, the content of the last accepted parse that had anything. */
  lemma {:induction false} ShownKeepsUp(p: Parser, texts: seq<Bytes>)
    requires NeverTakesBack(p)
    ensures PushAll(p, texts).0.emitted == Recorded(p, texts).content
  {
    hide PushAll;
    if texts == [] {
      NothingPushedYet(p);
    } else {
      var init, text := texts[..|texts| - 1], Concat(texts);
      ShownKeepsUp(p, init);
      PushReturns(p, texts);
      EmittedIsShown(p, init);
      var before := PushAll(p, init).0.emitted;
      if before != [] && p(text, true).Some? {
        var t: Bytes :| t != [] && t <= Concat(init) && PartialContent(p, t, before);
        assert t <= text;
      }
    }
  }

  lemma NothingPushedYet(p: Parser)
    ensures PushAll(p, []) == (NEW_CHAT, [])
  {
  }

  /** On an accepted final parse, what was seen is its content if that extends what was shown, and no more than that otherwise. */
  lemma AcceptedFinishIff(p: Parser, json: Json, texts: seq<Bytes>)
    requires p(Concat(texts), false).Some?
    ensures var content := p(Concat(texts), false).value.content;
            var shown := PushAll(p, texts).0.emitted;
            && Shown(p, json, texts) == (if shown <= content then content else shown)
            && (Shown(p, json, texts) == content <==> shown <= content)
  {
    hide PushAll; hide AllOrNone; hide ShownBy; hide RawOffset;
    EmittedIsShown(p, texts);
    var c := PushAll(p, texts).0;
    var content := p(Concat(texts), false).value.content;
    if c.emitted <= content {
      assert content[..|c.emitted|] == c.emitted;
      assert |content| == |c.emitted| ==> content == c.emitted;
    }
  }

  /** The final content of the text repeats, and may extend, that of every accepted partial parse on the way. */
  ghost predicate FinalExtends(p: Parser, text: Bytes)
    requires p(text, false).Some?
  {
    forall t: Bytes | t != [] && t <= text && p(t, true).Some? :: p(t, true).value.content <= p(text, false).value.content
  }

  ghost predicate AlwaysShowsFinal(p: Parser, json: Json, text: Bytes)
    requires p(text, false).Some?
  {
    forall texts: seq<Bytes> | Concat(texts) == text :: Shown(p, json, texts) == p(text, false).value.content
  }

  /**
   * What is seen of a text is its final content however it was chunked, if and only if no accepted
   * partial parse of a prefix showed something the final content does not begin with.
   */
  lemma VisibleIsFinalContentIff(p: Parser, json: Json, text: Bytes)
    requires p(text, false).Some?
    ensures AlwaysShowsFinal(p, json, text) <==> FinalExtends(p, text)
  {
    hide PushAll; hide Shown;
    if FinalExtends(p, text) {
      forall texts: seq<Bytes> | Concat(texts) == text
        ensures Shown(p, json, texts) == p(text, false).value.content
      {
        EmittedIsShown(p, texts);
        AcceptedFinishIff(p, json, texts);
      }
    } else {
      var t: Bytes :| t != [] && t <= text && p(t, true).Some? && !(p(t, true).value.content <= p(text, false).value.content);
      DivergingPrefixShows(p, json, text, t);
    }
  }

  lemma DivergingPrefixShows(p: Parser, json: Json, text: Bytes, t: Bytes)
    requires p(text, false).Some? && t != [] && t <= text
    requires p(t, true).Some? && !(p(t, true).value.content <= p(text, false).value.content)
    ensures !AlwaysShowsFinal(p, json, text)
  {
    hide PushAll; hide Shown;
    var first: seq<Bytes> := [t];
    var texts: seq<Bytes> := [t, text[|t|..]];
    ConcatTwo(t, text[|t|..]);
    assert Concat(texts) == text;
    FirstPushShows(p, t);
    assert texts[..1] == first;
    EmittedIsShown(p, texts);
    AcceptedFinishIff(p, json, texts);
    assert Shown(p, json, texts) != p(text, false).value.content;
  }

  lemma FirstPushShows(p: Parser, t: Bytes)
    requires t != [] && p(t, true).Some? && p(t, true).value.content != []
    ensures PushAll(p, [t]).0.emitted == p(t, true).value.content
  {
    var texts: seq<Bytes> := [t];
    assert texts[..0] == [];
    assert [] + t == t;
    var content := p(t, true).value.content;
    assert content[..0] == [];
  }

  /**
   * On a rejected final parse, what was seen is the raw output from the first place the shown content
   * occurs in it; if it occurs nowhere, nothing is added. There are no calls.
   */
  lemma RejectedFinish(p: Parser, json: Json, texts: seq<Bytes>)
    requires p(Concat(texts), false).None?
    ensures var c := PushAll(p, texts).0;
            var first := Find(Concat(texts), c.emitted);
            && FinishChat(p, json, c).2 == []
            && Shown(p, json, texts) ==
               match first case Some(pos) => Concat(texts)[pos..] case None => c.emitted
  {
    hide PushAll;
    EmittedIsShown(p, texts);
    RejectedTail(p, json, PushAll(p, texts).0);
  }

  lemma RejectedTail(p: Parser, json: Json, c: Chat)
    requires p(c.accumulated, false).None?
    ensures var (_, tail, calls) := FinishChat(p, json, c);
            && calls == []
            && c.emitted + tail ==
               match Find(c.accumulated, c.emitted)
               case Some(pos) => c.accumulated[pos..]
               case None => c.emitted
  {
    hide Find;
    if c.emitted == [] {
      assert OccursAt(c.accumulated, [], 0);
      assert c.accumulated[0..] == c.accumulated;
    } else if Find(c.accumulated, c.emitted).Some? {
      var pos := Find(c.accumulated, c.emitted).value;
      assert c.accumulated[pos..] == c.emitted + c.accumulated[pos + |c.emitted|..];
    }
  }

  // ---- Tool calls ----

  /** Calls come whole or not at all: each has a name, and valid JSON for its arguments. */
  lemma CallsAreWhole(p: Parser, json: Json, c: Chat)
    requires json(EMPTY_OBJECT)
    ensures var calls := FinishChat(p, json, c).2;
            forall i | 0 <= i < |calls| :: calls[i].name != [] && json(calls[i].arguments)
  {
    hide RawOffset;
    var (c', ok, delta) := Advance(p, c, false);
    var calls := AllOrNone(json, c'.parsed.calls);
    assert forall i | 0 <= i < |calls| :: calls[i] == FromCommon(c'.parsed.calls[i]);
  }

  /** The calls up for reporting: the final parse's, or if that is empty the last recorded one's. */
  function FinalCalls(p: Parser, texts: seq<Bytes>): seq<RawCall>
    requires p(Concat(texts), false).Some?
  {
    var final := p(Concat(texts), false).value;
    if final == NOTHING then Recorded(p, texts).calls else final.calls
  }

  /** What `finish` reports, told by the parser and the texts alone. */
  lemma FinishReports(p: Parser, json: Json, texts: seq<Bytes>)
    ensures FinishChat(p, json, PushAll(p, texts).0).2 ==
            if p(Concat(texts), false).Some? then AllOrNone(json, FinalCalls(p, texts)) else []
  {
    hide AllOrNone; hide RawOffset; hide PushAll;
    EmittedIsShown(p, texts);
  }

  /**
   * Call by call: if each has a name and, unless it has no arguments at all, valid JSON for them, all
   * are reported in order with their own names and arguments, `{}` standing for none; otherwise none is.
   */
  lemma ReportedCallByCall(p: Parser, json: Json, texts: seq<Bytes>)
    requires p(Concat(texts), false).Some?
    ensures var reported := FinishChat(p, json, PushAll(p, texts).0).2;
            var calls := FinalCalls(p, texts);
            if forall i | 0 <= i < |calls| :: calls[i].name != [] && (calls[i].arguments == [] || json(calls[i].arguments)) then
              && |reported| == |calls|
              && forall i | 0 <= i < |calls| ::
                   && reported[i].name == calls[i].name
                   && reported[i].arguments == if calls[i].arguments == [] then [0x7B, 0x7D] else calls[i].arguments
            else reported == []
  {
    hide PushAll; hide FinishChat; hide FinalCalls;
    FinishReports(p, json, texts);
    var calls := FinalCalls(p, texts);
    assert forall i | 0 <= i < |calls| ::
        IsComplete(json, calls[i]) <==> calls[i].name != [] && (calls[i].arguments == [] || json(calls[i].arguments));
  }

  /** What is reported at the end is what the final parse saw. */
  ghost predicate ReportsFinalCalls(p: Parser, json: Json, texts: seq<Bytes>)
    requires p(Concat(texts), false).Some?
  {
    FinishChat(p, json, PushAll(p, texts).0).2 == AllOrNone(json, p(Concat(texts), false).value.calls)
  }

  /**
   * The final parse is what is reported, all of its calls in order or none, if and only if it has
   * anything in it, or the last non-empty partial parse had no calls to report.
   */
  lemma CallsAreFinalIff(p: Parser, json: Json, texts: seq<Bytes>)
    requires p(Concat(texts), false).Some?
    ensures ReportsFinalCalls(p, json, texts) <==>
              p(Concat(texts), false).value != NOTHING || AllOrNone(json, Recorded(p, texts).calls) == []
  {
    hide PushAll; hide FinishChat; hide Recorded;
    FinishReports(p, json, texts);
  }

  /** Every argument text that is given is an object. */
  ghost predicate ArgumentsAreObjects(isObject: Json, calls: seq<RawCall>)
  {
    forall i | 0 <= i < |calls| :: calls[i].arguments == [] || isObject(calls[i].arguments)
  }

  lemma AllOrNoneObjects(json: Json, isObject: Json, calls: seq<RawCall>)
    requires isObject(EMPTY_OBJECT)
    ensures var reported := AllOrNone(json, calls);
            (forall i | 0 <= i < |reported| :: isObject(reported[i].arguments)) <==>
            reported == [] || ArgumentsAreObjects(isObject, calls)
  {
    var reported := AllOrNone(json, calls);
    if reported != [] {
      assert forall i | 0 <= i < |calls| :: reported[i] == FromCommon(calls[i]);
      if i :| 0 <= i < |calls| && calls[i].arguments != [] && !isObject(calls[i].arguments) {
        assert !isObject(reported[i].arguments);
      }
    }
  }

  /**
   * The wire contract asks for JSON objects; the code asks for valid JSON. What `finish` reports are
   * objects if and only if the calls up for reporting are not all complete, or all their given
   * arguments are objects.
   */
  lemma ArgumentsAreObjectsIff(p: Parser, json: Json, isObject: Json, texts: seq<Bytes>)
    requires isObject(EMPTY_OBJECT) && p(Concat(texts), false).Some?
    ensures var reported := FinishChat(p, json, PushAll(p, texts).0).2;
            var calls := FinalCalls(p, texts);
            (forall i | 0 <= i < |reported| :: isObject(reported[i].arguments)) <==>
            (exists i | 0 <= i < |calls| :: !IsComplete(json, calls[i])) || ArgumentsAreObjects(isObject, calls)
  {
    hide PushAll; hide FinishChat; hide FinalCalls;
    FinishReports(p, json, texts);
    AllOrNoneObjects(json, isObject, FinalCalls(p, texts));
  }

  /** A parser that reads any text as one call with the argument 5. */
  function FiveParser(text: Bytes, partial: bool): Option<Message>
  {
    Some(Message([], [RawCall([0x66], [0x35])], false))
  }

  /** A number is valid JSON, so a call with one for its arguments is reported as it is. */
  lemma NumberIsReported(json: Json, isObject: Json)
    requires json([0x35]) && !isObject([0x35])
    ensures var texts: seq<Bytes> := [[0x78]];
            var reported := FinishChat(FiveParser, json, PushAll(FiveParser, texts).0).2;
            reported == [ToolCall([0x66], [0x35])] && !isObject(reported[0].arguments)
  {
    hide PushAll; hide FinishChat;
    FinishReports(FiveParser, json, [[0x78]]);
  }

  /** A parser that sees a call in a truncated text and nothing at all in the finished one. */
  function FickleParser(text: Bytes, partial: bool): Option<Message>
  {
    Some(Message([], if partial then [RawCall([0x66], [])] else [], false))
  }

  /** The early return on an empty parse leaves calls of an earlier parse to be reported. */
  lemma StaleCallsAreReported(json: Json)
    ensures var texts: seq<Bytes> := [[0x78]];
            && FickleParser(Concat(texts), false).value.calls == []
            && FinishChat(FickleParser, json, PushAll(FickleParser, texts).0).2 == [ToolCall([0x66], EMPTY_OBJECT)]
  {
    var texts: seq<Bytes> := [[0x78]];
    assert texts[..0] == [];
    var c := PushAll(FickleParser, texts).0;
    assert c.parsed.calls == [RawCall([0x66], [])];
  }
}
