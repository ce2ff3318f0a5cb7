/** UTF-8 as section 4 of RFC 3629 defines it, and the scan for a truncated last character. */
module Utf8 {
  import opened ByteStrings

  predicate IsContinuation(c: Byte) { 0x80 <= c <= 0xBF }

  /** The length a lead byte announces; 0 for a byte that cannot lead a character. */
  function Announced(c: Byte): nat
  {
    if c <= 0x7F then 1
    else if c <= 0xBF then 0
    else if c <= 0xDF then 2
    else if c <= 0xEF then 3
    else if c <= 0xF7 then 4
    else 0
  }

  /** From `p` on, `s` is a lead byte and some, but not all, of the continuation bytes it announces. */
  predicate TruncatedFrom(s: Bytes, p: nat)
  {
    p < |s| < p + Announced(s[p]) && forall i | p < i < |s| :: IsContinuation(s[i])
  }

  /** The length of the suffix of `s` that is a truncated character, or 0 when there is none. */
  function Tail(s: Bytes): (k: nat)
    ensures k <= |s| && k <= 3
    ensures k > 0 ==> TruncatedFrom(s, |s| - k)
    ensures forall p :: TruncatedFrom(s, p) ==> p == |s| - k
  {
    var n := |s|;
    if n >= 1 && TruncatedFrom(s, n - 1) then 1
    else if n >= 2 && TruncatedFrom(s, n - 2) then 2
    else if n >= 3 && TruncatedFrom(s, n - 3) then 3
    else 0
  }

  /** Looking only from `d` on finds the same truncated character, provided it begins there. */
  lemma TailOfSuffix(s: Bytes, d: nat)
    requires d <= |s|
    ensures Tail(s) <= |s| - d ==> Tail(s[d..]) == Tail(s)
    ensures Tail(s) > |s| - d ==> Tail(s[d..]) == 0
  {
    var t := s[d..];
    if Tail(t) > 0 {
      assert TruncatedFrom(s, |s| - Tail(t));
    }
    if 0 < Tail(s) <= |t| {
      assert TruncatedFrom(t, |t| - Tail(s));
    }
  }

  /** What `s` ends with already began to be truncated in any prefix that reaches into it. */
  lemma TailOfPrefix(s: Bytes, n: nat)
    requires n <= |s| && |s| - Tail(s) < n
    ensures Tail(s[..n]) == Tail(s) - (|s| - n)
  {
    assert TruncatedFrom(s[..n], |s| - Tail(s));
  }

  /** The backward scan over at most four bytes; the mask tests read the high bits of the byte. */
  method IncompleteUtf8Tail(s: Bytes) returns (tail: nat)
    ensures tail == Tail(s)
  {
    var n := |s|;
    var maxLook := if n < 4 then n else 4;
    var k := 1;
    while k <= maxLook
      invariant 1 <= k <= maxLook + 1
      invariant forall i | n - k < i < n :: IsContinuation(s[i])
    {
      var c := s[n - k];
      if c / 64 == 2 {  // (c & 0xC0) == 0x80
        k := k + 1;
        continue;
      }
      var need := 0;
      if c / 128 == 0 {         // (c & 0x80) == 0x00
        need := 1;
      } else if c / 32 == 6 {   // (c & 0xE0) == 0xC0
        need := 2;
      } else if c / 16 == 14 {  // (c & 0xF0) == 0xE0
        need := 3;
      } else if c / 8 == 30 {   // (c & 0xF8) == 0xF0
        need := 4;
      } else {
        return 0;
      }
      return if k < need then k else 0;
    }
    return 0;
  }

  /** One UTF-8 character: the ABNF of section 4 of RFC 3629. */
  predicate IsChar(c: Bytes)
  {
    || (|c| == 1 && c[0] <= 0x7F)
    || (|c| == 2 && 0xC2 <= c[0] <= 0xDF && IsContinuation(c[1]))
    || (|c| == 3 && IsContinuation(c[1]) && IsContinuation(c[2])
        && 0xE0 <= c[0] <= 0xEF
        && (c[0] == 0xE0 ==> 0xA0 <= c[1])
        && (c[0] == 0xED ==> c[1] <= 0x9F))
    || (|c| == 4 && IsContinuation(c[1]) && IsContinuation(c[2]) && IsContinuation(c[3])
        && 0xF0 <= c[0] <= 0xF4
        && (c[0] == 0xF0 ==> 0x90 <= c[1])
        && (c[0] == 0xF4 ==> c[1] <= 0x8F))
  }

  /** A byte string that is a sequence of whole UTF-8 characters. */
  predicate Valid(s: Bytes)
    decreases |s|
  {
    s == [] ||
    (var k := Announced(s[0]); 0 < k <= |s| && IsChar(s[..k]) && Valid(s[k..]))
  }

  /** The bytes could still be completed to valid UTF-8. */
  ghost predicate ValidPrefix(s: Bytes)
  {
    exists rest: Bytes :: Valid(s + rest)
  }

  /** A place between two characters of a valid string. */
  predicate Boundary(v: Bytes, i: nat)
    requires i <= |v|
  {
    i == |v| || !IsContinuation(v[i])
  }

  lemma CharShape(v: Bytes)
    requires Valid(v) && v != []
    ensures var k := Announced(v[0]);
            && 1 <= k <= |v| && Valid(v[k..]) && !IsContinuation(v[0])
            && forall i | 1 <= i < k :: IsContinuation(v[i])
  {
    var c := v[..Announced(v[0])];
    assert IsChar(c);
    assert forall i | 0 <= i < |c| :: c[i] == v[i];
  }

  lemma ZeroIsBoundary(v: Bytes)
    requires Valid(v)
    ensures Boundary(v, 0)
  {
  }

  /** A character before a valid string makes a valid string. */
  lemma OneMoreChar(c: Bytes, w: Bytes)
    requires IsChar(c) && |c| == Announced(c[0]) && Valid(w)
    ensures Valid(c + w)
  {
    hide IsChar; hide Announced;
    var s := c + w;
    assert s[..|c|] == c && s[|c|..] == w;
  }

  lemma FirstChar(v: Bytes)
    requires Valid(v) && v != []
    ensures var k := Announced(v[0]); 0 < k <= |v| && IsChar(v[..k]) && Announced(v[..k][0]) == k && Valid(v[k..])
  {
    hide IsChar;
  }

  lemma {:induction false} ValidTake(v: Bytes, b: nat)
    requires Valid(v) && b <= |v| && Boundary(v, b)
    ensures Valid(v[..b])
    decreases |v|
  {
    hide IsChar; hide Valid;
    if b == 0 {
      NothingIsValid();
    } else {
      CharShape(v);
      FirstChar(v);
      var k := Announced(v[0]);
      ValidTake(v[k..], b - k);
      assert v[k..][..b - k] == v[k..b];
      OneMoreChar(v[..k], v[k..b]);
      assert v[..b] == v[..k] + v[k..b];
    }
  }

  lemma {:induction false} ValidDrop(v: Bytes, a: nat)
    requires Valid(v) && a <= |v| && Boundary(v, a)
    ensures Valid(v[a..])
    decreases |v|
  {
    if a > 0 {
      CharShape(v);
      var k := Announced(v[0]);
      ValidDrop(v[k..], a - k);
      assert v[k..][a - k..] == v[a..];
    } else {
      assert v[0..] == v;
    }
  }

  /** Cutting a valid string at two boundaries leaves valid UTF-8 between them. */
  lemma ValidSlice(v: Bytes, a: nat, b: nat)
    requires Valid(v) && a <= b <= |v|
    requires Boundary(v, a) && Boundary(v, b)
    ensures Valid(v[a..b])
  {
    hide Valid; hide IsChar;
    ValidDrop(v, a);
    ValidTake(v[a..], b - a);
    assert v[a..][..b - a] == v[a..b];
  }

  lemma {:induction false} ValidHasNoTail(v: Bytes)
    requires Valid(v)
    ensures Tail(v) == 0
    decreases |v|
  {
    if v != [] {
      CharShape(v);
      var k := Announced(v[0]);
      ValidHasNoTail(v[k..]);
      TailOfSuffix(v, k);
      if k < |v| { CharShape(v[k..]); }
    }
  }

  /** A cut inside a character leaves a truncated character before it. */
  lemma {:induction false} CutInsideCharacter(v: Bytes, b: nat)
    requires Valid(v) && b < |v| && IsContinuation(v[b])
    ensures Tail(v[..b]) > 0
    decreases |v|
  {
    CharShape(v);
    var k := Announced(v[0]);
    if b < k {
      assert v[..b][0] == v[0] && forall i | 0 <= i < b :: v[..b][i] == v[i];
      assert TruncatedFrom(v[..b], 0);
    } else {
      CutInsideCharacter(v[k..], b - k);
      assert v[..b][k..] == v[k..][..b - k];
      TailOfSuffix(v[..b], k);
    }
  }

  /** Dropping a truncated tail always cuts at a boundary. */
  lemma CutAtTailIsBoundary(v: Bytes, b: nat)
    requires Valid(v) && b <= |v|
    ensures Boundary(v, b - Tail(v[..b]))
  {
    hide Valid; hide Tail;
    var k := Tail(v[..b]);
    if k == 0 && b < |v| && IsContinuation(v[b]) {
      CutInsideCharacter(v, b);
    }
    assert k > 0 ==> v[..b][b - k] == v[b - k];
  }

  // ---- The bytes themselves ----

  /** Every character, whatever its length, is valid UTF-8 by itself. */
  lemma CharIsValid(c: Bytes)
    requires IsChar(c)
    ensures Valid(c)
  {
    assert c[..|c|] == c && c[|c|..] == [];
  }

  lemma {:induction false} ValidPlus(v: Bytes, w: Bytes)
    requires Valid(v) && Valid(w)
    ensures Valid(v + w)
    decreases |v|
  {
    hide Valid; hide IsChar;
    if v == [] {
      assert v + w == w;
    } else {
      FirstChar(v);
      var k := Announced(v[0]);
      ValidPlus(v[k..], w);
      OneMoreChar(v[..k], v[k..] + w);
      assert v + w == v[..k] + (v[k..] + w);
    }
  }

  ghost predicate AreChars(chars: seq<Bytes>)
  {
    forall i | 0 <= i < |chars| :: IsChar(chars[i])
  }

  lemma {:induction false} CharsAreValid(chars: seq<Bytes>)
    requires AreChars(chars)
    ensures Valid(Concat(chars))
  {
    hide IsChar; hide Valid;
    if chars == [] {
      NothingIsValid();
    } else {
      var n := |chars| - 1;
      CharsAreValid(chars[..n]);
      CharIsValid(chars[n]);
      ValidPlus(Concat(chars[..n]), chars[n]);
    }
  }

  lemma NothingIsValid()
    ensures Valid([])
  {
  }

  lemma {:induction false} CharsOf(v: Bytes) returns (chars: seq<Bytes>)
    requires Valid(v)
    ensures AreChars(chars) && Concat(chars) == v
    decreases |v|
  {
    hide IsChar;
    if v == [] {
      chars := [];
    } else {
      FirstChar(v);
      var k := Announced(v[0]);
      var rest := CharsOf(v[k..]);
      chars := [v[..k]] + rest;
      ConcatPlus([v[..k]], rest);
      ConcatOne(v[..k]);
    }
  }

  /** The valid byte strings are exactly the sequences of characters of section 4 of RFC 3629. */
  lemma ValidIff(v: Bytes)
    ensures Valid(v) <==> exists chars: seq<Bytes> :: AreChars(chars) && Concat(chars) == v
  {
    hide Valid; hide AreChars;
    if Valid(v) {
      var chars := CharsOf(v);
      assert AreChars(chars) && Concat(chars) == v;
    }
    if chars: seq<Bytes> :| AreChars(chars) && Concat(chars) == v {
      CharsAreValid(chars);
    }
  }

  /** Every code point but the surrogates. */
  predicate IsScalar(u: int)
  {
    0 <= u < 0xD800 || 0xE000 <= u < 0x11_0000
  }

  /** `c` has the value bits of `u` below the length mark of its lead byte and in six-bit groups: section 3 of RFC 3629. */
  predicate Encodes(c: Bytes, u: int)
  {
    && (forall i | 1 <= i < |c| :: 0x80 <= c[i] <= 0xBF)
    && match |c|
       case 1 => u < 0x80 && u == c[0] as int
       case 2 => 0x80 <= u < 0x800 && u == 0x40 * (c[0] as int - 0xC0) + (c[1] as int - 0x80)
       case 3 =>
         && 0x800 <= u < 0x1_0000
         && u == 0x1000 * (c[0] as int - 0xE0) + 0x40 * (c[1] as int - 0x80) + (c[2] as int - 0x80)
       case 4 =>
         && 0x1_0000 <= u < 0x11_0000
         && u == 0x4_0000 * (c[0] as int - 0xF0) + 0x1000 * (c[1] as int - 0x80) + 0x40 * (c[2] as int - 0x80)
                 + (c[3] as int - 0x80)
       case _ => false
  }

  /** The characters are exactly the encodings of the scalar values. */
  lemma CharIffEncodesScalar(c: Bytes)
    ensures IsChar(c) <==> exists u :: IsScalar(u) && Encodes(c, u)
  {
    if IsChar(c) {
      var u := if |c| == 1 then c[0] as int
               else if |c| == 2 then 0x40 * (c[0] as int - 0xC0) + (c[1] as int - 0x80)
               else if |c| == 3 then 0x1000 * (c[0] as int - 0xE0) + 0x40 * (c[1] as int - 0x80) + (c[2] as int - 0x80)
               else 0x4_0000 * (c[0] as int - 0xF0) + 0x1000 * (c[1] as int - 0x80) + 0x40 * (c[2] as int - 0x80)
                    + (c[3] as int - 0x80);
      assert IsScalar(u) && Encodes(c, u);
    }
  }

  /** A character cut short is withheld, all of what has arrived of it, whatever came before. */
  lemma CutCharIsTail(before: Bytes, c: Bytes, n: nat)
    requires IsChar(c) && 0 < n < |c|
    ensures Tail(before + c[..n]) == n
  {
    var s := before + c[..n];
    assert forall i | 0 <= i < n :: s[|before| + i] == c[i];
    assert TruncatedFrom(s, |before|);
  }

  /**
   * What is withheld, byte by byte: a lead byte C0 to DF alone, E0 to EF with at most one
   * continuation byte, F0 to F7, of which F5 to F7 begin no character at all, with at most two.
   */
  lemma TailByBytes(before: Bytes, lead: Byte, rest: Bytes)
    requires !(0x80 <= lead <= 0xBF) && forall i | 0 <= i < |rest| :: 0x80 <= rest[i] <= 0xBF
    ensures Tail(before + [lead] + rest) ==
            if || (0xC0 <= lead <= 0xDF && |rest| == 0)
               || (0xE0 <= lead <= 0xEF && |rest| <= 1)
               || (0xF0 <= lead <= 0xF7 && |rest| <= 2)
            then 1 + |rest| else 0
  {
    hide Tail;
    var s := before + [lead] + rest;
    var p := |before|;
    assert s[p] == lead && forall i | p < i < |s| :: s[i] == rest[i - p - 1];
    var k := Tail(s);
    if k > 0 {
      assert TruncatedFrom(s, |s| - k);
    }
    if TruncatedFrom(s, p) {
      assert k == |s| - p;
    }
  }

  /** And of a text of continuation bytes alone, nothing. */
  lemma NoLeadNoTail(s: Bytes)
    requires forall i | 0 <= i < |s| :: 0x80 <= s[i] <= 0xBF
    ensures Tail(s) == 0
  {
  }
}
