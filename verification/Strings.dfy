/** String tokens: quotes at both ends, backslash escapes in between. */
module Strings {
  import opened Bytes
  import opened Wrappers

  const NUL: Byte := 0
  const TAB: Byte := 9
  const NEWLINE: Byte := 10
  const RETURN: Byte := 13
  const QUOTE: Byte := 34
  const DIGIT_ZERO: Byte := 48
  const BACKSLASH: Byte := 92
  const LETTER_N: Byte := 110
  const LETTER_R: Byte := 114
  const LETTER_T: Byte := 116

  /** The byte emitted for a backslash followed by `letter`.
      An unknown letter is dropped and the backslash itself is emitted. */
  function Escaped(letter: Byte): Byte {
    if letter == DIGIT_ZERO then NUL
    else if letter == LETTER_N then NEWLINE
    else if letter == LETTER_T then TAB
    else if letter == LETTER_R then RETURN
    else if letter == QUOTE then QUOTE
    else BACKSLASH
  }

  /** The bytes a token body stands for; None when it ends in a dangling backslash. */
  function Unescape(body: seq<Byte>): (r: Option<seq<Byte>>)
    ensures r.Some? ==> |r.value| <= |body|
  {
    if body == [] then Some([])
    else if body[0] != BACKSLASH then
      match Unescape(body[1..])
      case None => None
      case Some(rest) => Some([body[0]] + rest)
    else if |body| == 1 then None
    else
      match Unescape(body[2..])
      case None => None
      case Some(rest) => Some([Escaped(body[1])] + rest)
  }

  /** The C string inside a byte sequence: everything before the first NUL. */
  function CString(text: seq<Byte>): (s: seq<Byte>)
    ensures s <= text && NUL !in s
    ensures s == text || text[|s|] == NUL
  {
    if text == [] || text[0] == NUL then [] else
      var tail := CString(text[1..]);
      assert text == [text[0]] + text[1..];
      [text[0]] + tail
  }

  predicate Quoted(s: seq<Byte>) {
    |s| >= 2 && s[0] == QUOTE && s[|s| - 1] == QUOTE
  }

  /** The bytes a string token emits; None where the source's asserts fail. */
  function Contents(token: seq<Byte>): Option<seq<Byte>> {
    var s := CString(token);
    if Quoted(s) then Unescape(s[1..|s| - 1]) else None
  }

  /** How to write one byte inside a token. */
  function Escape1(b: Byte): seq<Byte> {
    if b == NUL then [BACKSLASH, DIGIT_ZERO]
    else if b == NEWLINE then [BACKSLASH, LETTER_N]
    else if b == TAB then [BACKSLASH, LETTER_T]
    else if b == RETURN then [BACKSLASH, LETTER_R]
    else if b == QUOTE then [BACKSLASH, QUOTE]
    else if b == BACKSLASH then [BACKSLASH, BACKSLASH]
    else [b]
  }

  function Escape(bytes: seq<Byte>): (r: seq<Byte>)
    ensures NUL !in r
  {
    if bytes == [] then [] else Escape1(bytes[0]) + Escape(bytes[1..])
  }

  function Quote(bytes: seq<Byte>): seq<Byte> {
    [QUOTE] + Escape(bytes) + [QUOTE]
  }

  lemma {:induction false} UnescapeEscape(bytes: seq<Byte>)
    ensures Unescape(Escape(bytes)) == Some(bytes)
  {
    if bytes != [] {
      var head, tail := Escape1(bytes[0]), Escape(bytes[1..]);
      assert (head + tail)[|head|..] == tail;
      UnescapeEscape(bytes[1..]);
      assert bytes == [bytes[0]] + bytes[1..];
    }
  }

  lemma {:induction false} CStringWhole(text: seq<Byte>)
    requires NUL !in text
    ensures CString(text) == text
  {
    if text != [] {
      CStringWhole(text[1..]);
    }
  }

  /** Every byte sequence can be written as a token that emits exactly it. */
  lemma StringRoundTrip(bytes: seq<Byte>)
    ensures Contents(Quote(bytes)) == Some(bytes)
  {
    var token := Quote(bytes);
    CStringWhole(token);
    assert token[1..|token| - 1] == Escape(bytes);
    UnescapeEscape(bytes);
  }

  // ---------- Escapes ----------

  /** What a backslash and a letter stand for. */
  lemma EscapeLetters(letter: Byte)
    ensures letter == 'n' as int ==> Escaped(letter) == '\n' as int == 10
    ensures letter == 't' as int ==> Escaped(letter) == '\t' as int == 9
    ensures letter == 'r' as int ==> Escaped(letter) == '\r' as int == 13
    ensures letter == '0' as int ==> Escaped(letter) == 0
    ensures letter == '\"' as int ==> Escaped(letter) == '\"' as int
    ensures (forall c :: c in "ntr0\"" ==> letter != c as int) ==> Escaped(letter) == '\\' as int
  {
    var known := "ntr0\"";
    assert known[0] in known && known[1] in known && known[2] in known && known[3] in known && known[4] in known;
  }

  /** One byte that is no backslash, or a backslash and a letter. */
  predicate Piece(piece: seq<Byte>) {
    (|piece| == 1 && piece[0] != '\\' as int) || (|piece| == 2 && piece[0] == '\\' as int)
  }

  function Meaning(piece: seq<Byte>): Byte
    requires Piece(piece)
  {
    if |piece| == 1 then piece[0] else Escaped(piece[1])
  }

  lemma FirstPiece(piece: seq<Byte>, rest: seq<Byte>)
    requires Piece(piece) && Unescape(rest).Some?
    ensures Unescape(piece + rest) == Some([Meaning(piece)] + Unescape(rest).value)
  {
    assert (piece + rest)[|piece|..] == rest;
  }

  lemma TakeFirst(body: seq<Byte>) returns (piece: seq<Byte>)
    requires body != [] && Unescape(body).Some?
    ensures Piece(piece) && piece <= body && Unescape(body[|piece|..]).Some?
  {
    piece := if body[0] == BACKSLASH then body[..2] else body[..1];
  }

  /** A body is read from the left: a byte that is no backslash stands for itself, and a backslash for what the letter
      behind it says, whatever comes before and after. */
  lemma {:induction false} UnescapePieces(front: seq<Byte>, piece: seq<Byte>, rest: seq<Byte>)
    requires Unescape(front).Some? && Piece(piece) && Unescape(rest).Some?
    ensures Unescape(front + (piece + rest))
      == Some(Unescape(front).value + ([Meaning(piece)] + Unescape(rest).value))
    decreases |front|
  {
    FirstPiece(piece, rest);
    var tail := [Meaning(piece)] + Unescape(rest).value;
    if front == [] {
      assert front + (piece + rest) == piece + rest;
      assert [] + tail == tail;
    } else {
      var first := TakeFirst(front);
      var more := front[|first|..];
      assert front == first + more;
      UnescapePieces(more, piece, rest);
      OneMore(first, more, piece + rest, tail);
    }
  }

  /** A piece in front of what is read already. */
  lemma OneMore(first: seq<Byte>, more: seq<Byte>, body: seq<Byte>, tail: seq<Byte>)
    requires Piece(first) && Unescape(more).Some? && Unescape(more + body) == Some(Unescape(more).value + tail)
    ensures Unescape(first + more) == Some([Meaning(first)] + Unescape(more).value)
    ensures Unescape(first + more + body) == Some([Meaning(first)] + Unescape(more).value + tail)
  {
    FirstPiece(first, more);
    FirstPiece(first, more + body);
    Assoc(first, more, body);
    Assoc([Meaning(first)], Unescape(more).value, tail);
  }

  lemma Assoc(a: seq<Byte>, b: seq<Byte>, c: seq<Byte>)
    ensures a + b + c == a + (b + c)
  {
  }

  /** A token is read exactly if its C string stands between two quotes and an even number of backslashes is in front of
      the second one. */
  lemma ContentsDefined(token: seq<Byte>)
    ensures var s := CString(token);
      Contents(token).Some? <==>
        |s| >= 2 && s[0] == '\"' as int && s[|s| - 1] == '\"' as int && TrailingBackslashes(s[1..|s| - 1]) % 2 == 0
  {
    var s := CString(token);
    if Quoted(s) {
      UnescapeDefined(s[1..|s| - 1]);
    }
  }

  /** Number of backslashes at the end of a body. */
  function TrailingBackslashes(body: seq<Byte>): nat {
    if body == [] || body[|body| - 1] != BACKSLASH then 0
    else 1 + TrailingBackslashes(body[..|body| - 1])
  }

  /** Every byte is a backslash. */
  lemma {:induction false} AllBackslashes(body: seq<Byte>)
    requires TrailingBackslashes(body) == |body|
    ensures forall k :: 0 <= k < |body| ==> body[k] == BACKSLASH
  {
    if body != [] {
      AllBackslashes(body[..|body| - 1]);
    }
  }

  /** Dropping bytes from the front leaves the run of backslashes at the end, unless it reached that far. */
  lemma {:induction false} TrailingAfterDrop(body: seq<Byte>, d: nat)
    requires d <= |body|
    ensures TrailingBackslashes(body) <= |body|
    ensures TrailingBackslashes(body[d..]) ==
      if TrailingBackslashes(body) <= |body| - d then TrailingBackslashes(body) else |body| - d
    decreases |body|
  {
    if d < |body| {
      var front := body[..|body| - 1];
      assert body[d..][..|body| - d - 1] == front[d..];
      TrailingAfterDrop(front, d);
    } else if body != [] {
      TrailingAfterDrop(body[..|body| - 1], d - 1);
    }
  }

  /** The byte just before the final run is not a backslash. */
  lemma {:induction false} TrailingStart(body: seq<Byte>, k: nat)
    requires 1 <= k <= |body| && TrailingBackslashes(body) == |body| - k
    ensures body[k - 1] != BACKSLASH
  {
    if k < |body| {
      TrailingStart(body[..|body| - 1], k);
    }
  }

  /** A body has no dangling backslash exactly when an even number of backslashes ends it. */
  lemma {:induction false} UnescapeDefined(body: seq<Byte>)
    ensures Unescape(body).Some? <==> TrailingBackslashes(body) % 2 == 0
  {
    if body == [] {
    } else if body[0] != BACKSLASH {
      TrailingAfterDrop(body, 1);
      if TrailingBackslashes(body) == |body| {
        AllBackslashes(body);
        assert false;
      }
      UnescapeDefined(body[1..]);
    } else if |body| == 1 {
      assert TrailingBackslashes(body[..0]) == 0;
    } else {
      TrailingAfterDrop(body, 2);
      var t := TrailingBackslashes(body);
      if t == |body| - 1 {
        TrailingStart(body, 1);
      }
      UnescapeDefined(body[2..]);
    }
  }
}
