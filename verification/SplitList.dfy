/** The comma-separated lists of the command line: splitting is the inverse of joining. */
module SplitList {
  import opened ByteStrings

  const COMMA: char := ','

  /** The first comma at or after `start`. */
  function FindComma(text: string, start: nat): (r: Option<nat>)
    ensures r.Some? ==> start <= r.value < |text| && text[r.value] == COMMA
    ensures forall i | start <= i < |text| && (r.Some? ==> i < r.value) :: text[i] != COMMA
    decreases |text| - start
  {
    if start >= |text| then None
    else if text[start] == COMMA then Some(start)
    else FindComma(text, start + 1)
  }

  /** What an element of a list can be: anything without a comma, but not nothing. */
  predicate IsPart(part: string)
  {
    part != "" && COMMA !in part
  }

  ghost predicate AllParts(parts: seq<string>)
  {
    forall i | 0 <= i < |parts| :: IsPart(parts[i])
  }

  function Join(parts: seq<string>): string
    requires parts != []
  {
    if |parts| == 1 then parts[0] else parts[0] + [COMMA] + Join(parts[1..])
  }

  /** Some comma-delimited field of the text is empty. */
  ghost predicate HasHole(text: string)
  {
    || text == ""
    || text[0] == COMMA || text[|text| - 1] == COMMA
    || exists i :: 0 < i < |text| && text[i - 1] == text[i] == COMMA
  }

  /** The split of `text` from `start` on, as a recursion over its fields. */
  function SplitFrom(text: string, start: nat): (r: Option<seq<string>>)
    requires start <= |text|
    decreases |text| - start
  {
    match FindComma(text, start)
    case None => if start == |text| then None else Some([text[start..]])
    case Some(comma) =>
      if comma == start then None
      else
        match SplitFrom(text, comma + 1)
        case None => None
        case Some(rest) => Some([text[start..comma]] + rest)
  }

  method Split(text: string) returns (r: Option<seq<string>>)
    ensures r == SplitFrom(text, 0)
  {
    var parts: seq<string> := [];
    var start := 0;
    assert forall rest: seq<string> :: parts + rest == rest;
    while true
      invariant 0 <= start <= |text|
      invariant SplitFrom(text, start).None? ==> SplitFrom(text, 0).None?
      invariant SplitFrom(text, start).Some? ==> SplitFrom(text, 0) == Some(parts + SplitFrom(text, start).value)
      decreases |text| - start
    {
      var comma := FindComma(text, start);
      var part := if comma.None? then text[start..] else text[start..comma.value];
      if part == "" {
        return None;
      }
      if comma.None? {
        return Some(parts + [part]);
      }
      assert forall rest: seq<string> :: parts + ([part] + rest) == parts + [part] + rest;
      parts := parts + [part];
      start := comma.value + 1;
    }
  }

  /** A list that splitting accepts is made of proper parts and joins back to the text. */
  lemma {:induction false} JoinOfSplit(text: string, start: nat)
    requires start <= |text|
    ensures var r := SplitFrom(text, start);
            r.Some? ==> r.value != [] && AllParts(r.value) && Join(r.value) == text[start..]
    decreases |text| - start
  {
    hide FindComma; hide Join; hide AllParts;
    var comma := FindComma(text, start);
    match comma {
      case None =>
        if start < |text| {
          JoinOne(text[start..]);
        }
      case Some(c) =>
        JoinOfSplit(text, c + 1);
        var rest := SplitFrom(text, c + 1);
        if rest.Some? && c > start {
          JoinMore(text[start..c], rest.value);
          assert text[start..] == text[start..c] + [COMMA] + text[c + 1..];
        }
    }
  }

  lemma JoinOne(part: string)
    requires IsPart(part)
    ensures Join([part]) == part && AllParts([part])
  {
  }

  lemma JoinMore(part: string, rest: seq<string>)
    requires IsPart(part) && rest != [] && AllParts(rest)
    ensures Join([part] + rest) == part + [COMMA] + Join(rest) && AllParts([part] + rest)
  {
    assert ([part] + rest)[1..] == rest;
  }

  /** Splitting recovers any non-empty list of proper parts from what joins them. */
  lemma {:induction false} SplitOfJoin(text: string, start: nat, parts: seq<string>)
    requires start <= |text| && parts != [] && AllParts(parts) && text[start..] == Join(parts)
    ensures SplitFrom(text, start) == Some(parts)
    decreases |parts|
  {
    hide FindComma;
    var head, end := parts[0], start + |parts[0]|;
    assert IsPart(head);
    if |parts| == 1 {
      assert parts == [head];
      NoCommaBefore(text, start, head);
    } else {
      var rest := parts[1..];
      assert text[start..] == head + ([COMMA] + Join(rest));
      NoCommaBefore(text, start, head);
      AfterField(text, start, head, Join(rest));
      SplitOfJoin(text, end + 1, rest);
      assert FindComma(text, start) == Some(end);
      assert text[start..end] == head;
      assert parts == [head] + rest;
    }
  }

  lemma NoCommaBefore(text: string, start: nat, head: string)
    requires start <= |text| && head <= text[start..] && COMMA !in head
    ensures forall i | start <= i < start + |head| :: text[i] != COMMA
  {
    forall i | start <= i < start + |head| ensures text[i] != COMMA {
      assert text[i] == text[start..][i - start] == head[i - start];
    }
  }

  lemma AfterField(text: string, start: nat, head: string, rest: string)
    requires start <= |text| && text[start..] == head + ([COMMA] + rest)
    ensures start + |head| < |text| && text[start..start + |head|] == head && text[start + |head|] == COMMA
    ensures text[start + |head| + 1..] == rest
  {
    var t := text[start..];
    assert t[|head|] == COMMA;
    assert text[start + |head| + 1..] == t[|head| + 1..];
  }

  /** It fails exactly when a field is empty. */
  lemma {:induction false} SplitFailsIff(text: string, start: nat)
    requires start <= |text|
    ensures SplitFrom(text, start).None? <==> HasHole(text[start..])
    decreases |text| - start
  {
    var comma := FindComma(text, start);
    var t := text[start..];
    match comma {
      case None =>
        assert forall i | 0 <= i < |t| :: t[i] != COMMA;
      case Some(c) =>
        SplitFailsIff(text, c + 1);
        var rest := text[c + 1..];
        assert t[c - start] == COMMA;
        if c > start {
          HoleInRest(t, c - start);
          assert t[c - start + 1..] == rest;
        }
    }
  }

  /** Past a first comma that is not at the very start, the holes are those of the rest. */
  lemma HoleInRest(t: string, c: nat)
    requires 0 < c < |t| && t[c] == COMMA && forall i | 0 <= i < c :: t[i] != COMMA
    ensures HasHole(t) <==> HasHole(t[c + 1..])
  {
    var rest := t[c + 1..];
    if rest != "" {
      assert rest[0] == t[c + 1];
      assert rest[|rest| - 1] == t[|t| - 1];
      if i :| 0 < i < |t| && t[i - 1] == t[i] == COMMA {
        if i > c + 1 {
          assert rest[i - c - 2] == rest[i - c - 1] == COMMA;
        }
      }
      if i :| 0 < i < |rest| && rest[i - 1] == rest[i] == COMMA {
        assert t[c + i] == t[c + 1 + i] == COMMA;
      }
      if rest[0] == COMMA {
        assert t[c + 1 - 1] == t[c + 1] == COMMA;
      }
    }
  }

  /** The whole contract of the splitter. */
  lemma SplitInvertsJoin(text: string)
    ensures SplitFrom(text, 0).None? <==> HasHole(text)
    ensures SplitFrom(text, 0).Some? ==>
              var parts := SplitFrom(text, 0).value;
              && parts != [] && AllParts(parts) && Join(parts) == text
              && forall other | other != [] && AllParts(other) && Join(other) == text :: other == parts
  {
    SplitFailsIff(text, 0);
    JoinOfSplit(text, 0);
    assert text[0..] == text;
    forall other | other != [] && AllParts(other) && Join(other) == text
      ensures SplitFrom(text, 0) == Some(other)
    {
      SplitOfJoin(text, 0, other);
    }
  }
}
