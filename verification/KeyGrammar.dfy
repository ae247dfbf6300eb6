/** The byte sequences that stand for keys, stated without a state machine:
    characters and control bytes, optionally after one ESC; escape, CSI and SS3
    sequences (section 5.4 of ECMA-48); control strings (section 5.6) and
    bracketed pastes, each of which ends at its first terminator. */
module KeyGrammar {
  import opened Common
  import opened KeyUtf8

  datatype Key = Character(c: Scalar) | Enter | EscapeKey | Other

  datatype KeyEvent = KeyEvent(key: Key, control: bool, alt: bool)

  const ESC: byte := 27
  const BEL: byte := 7
  const OTHER := KeyEvent(Other, false, false)
  const ESCAPE := KeyEvent(EscapeKey, false, false)
  const MAX_SEQUENCE: nat := 65536
  const MAX_PENDING: nat := 128
  const PASTE_NAME: seq<byte> := [50, 48, 48, 126]
  const PASTE_START: seq<byte> := [27, 91, 50, 48, 48, 126]
  const PASTE_END: seq<byte> := [27, 91, 50, 48, 49, 126]
  const MOUSE_NAME: seq<byte> := [77]

  predicate IsIntermediate(b: byte) { 0x20 <= b <= 0x2f }
  predicate IsParameter(b: byte) { 0x20 <= b <= 0x3f }
  predicate IsFinal(b: byte) { 0x40 <= b <= 0x7e }

  ghost predicate AllParameters(bytes: seq<byte>) {
    forall i :: 0 <= i < |bytes| ==> IsParameter(bytes[i])
  }

  ghost predicate AllIntermediates(bytes: seq<byte>) {
    forall i :: 0 <= i < |bytes| ==> IsIntermediate(bytes[i])
  }

  /** Bytes that stand for a key by themselves. */
  predicate IsPlain(token: seq<byte>, key: Key, control: bool) {
    match key
    case Enter => !control && (token == [13] || token == [10])
    case EscapeKey => false
    case Other => !control && |token| == 1 && (token[0] == 0 || 28 <= token[0] <= 31 || token[0] == 127)
    case Character(c) =>
      if control then |token| == 1 && 1 <= token[0] <= 26 && token[0] != 10 && token[0] != 13 && c == 96 + token[0]
      else (32 <= c <= 126 || c >= 128) && token == Encode(c)
  }

  predicate OpensString(b: byte) {
    b == 93 || b == 80 || b == 95 || b == 94 || b == 88
  }

  /** What may not follow ESC for it to mean Alt. */
  predicate OpensSequence(b: byte) {
    b == 91 || b == 79 || b == ESC || OpensString(b) || IsIntermediate(b)
  }

  ghost predicate IsEscapeSequence(token: seq<byte>) {
    && 3 <= |token| <= MAX_PENDING + 1 && token[0] == ESC
    && AllIntermediates(token[1..|token| - 1])
    && 0x30 <= token[|token| - 1] <= 0x7e
  }

  /** Parameters and one final byte, at most 128 in all. */
  ghost predicate IsFunction(body: seq<byte>) {
    1 <= |body| <= MAX_PENDING && AllParameters(body[..|body| - 1]) && IsFinal(body[|body| - 1])
  }

  ghost predicate IsCsi(token: seq<byte>) {
    && |token| >= 2 && token[..2] == [ESC, 91] && IsFunction(token[2..])
    && token[2..] != PASTE_NAME && token[2..] != MOUSE_NAME
  }

  ghost predicate IsSs3(token: seq<byte>) {
    |token| >= 2 && token[..2] == [ESC, 79] && IsFunction(token[2..])
  }

  /** The last `k` bytes are the first `k` of the paste terminator. */
  predicate Matches(body: seq<byte>, k: nat) {
    k <= 6 && k <= |body| && body[|body| - k..] == PASTE_END[..k]
  }

  ghost predicate NoPasteEnd(body: seq<byte>) {
    forall k :: 0 <= k <= |body| ==> !Matches(body[..k], 6)
  }

  ghost predicate IsPaste(token: seq<byte>) {
    && 6 < |token| <= MAX_SEQUENCE && token[..6] == PASTE_START
    && Matches(token[6..], 6) && NoPasteEnd(token[6..|token| - 1])
  }

  /** The string body ends here: BEL where allowed, or ESC backslash. */
  predicate StringEnds(bell: bool, body: seq<byte>) {
    && body != []
    && ((bell && body[|body| - 1] == BEL)
        || (|body| >= 2 && body[|body| - 2] == ESC && body[|body| - 1] == 92))
  }

  ghost predicate NoStringEnd(bell: bool, body: seq<byte>) {
    forall k :: 0 <= k <= |body| ==> !StringEnds(bell, body[..k])
  }

  ghost predicate IsString(token: seq<byte>) {
    && 2 < |token| <= MAX_SEQUENCE && token[0] == ESC && OpensString(token[1])
    && StringEnds(token[1] == 93, token[2..]) && NoStringEnd(token[1] == 93, token[2..|token| - 1])
  }

  /** `token` is one complete sequence standing for `e`. */
  ghost predicate IsSequence(token: seq<byte>, e: KeyEvent) {
    || (!e.alt && IsPlain(token, e.key, e.control))
    || (e.alt && |token| >= 2 && token[0] == ESC && !OpensSequence(token[1]) && IsPlain(token[1..], e.key, e.control))
    || (e == OTHER && (IsEscapeSequence(token) || IsCsi(token) || IsSs3(token) || IsPaste(token) || IsString(token)))
  }

  /** A lone ESC is a key only once something else shows it was not a prefix. */
  ghost predicate IsToken(token: seq<byte>, e: KeyEvent) {
    IsSequence(token, e) || (token == [ESC] && e == ESCAPE)
  }

  // ---- the paste terminator

  /** The longest partial match of the terminator at the end of `body`. */
  ghost predicate LongestMatch(body: seq<byte>, m: nat) {
    m < 6 && Matches(body, m) && forall k :: m < k <= 6 ==> !Matches(body, k)
  }

  lemma MatchesExtends(body: seq<byte>, b: byte, k: nat)
    requires k < 6
    ensures Matches(body + [b], k + 1) <==> Matches(body, k) && b == PASTE_END[k]
  {
    if k <= |body| {
      assert (body + [b])[|body| - k..] == body[|body| - k..] + [b];
      assert PASTE_END[..k + 1] == PASTE_END[..k] + [PASTE_END[k]];
      if Matches(body + [b], k + 1) {
        assert (body[|body| - k..] + [b])[..k] == (PASTE_END[..k] + [PASTE_END[k]])[..k];
        assert (body[|body| - k..] + [b])[k] == (PASTE_END[..k] + [PASTE_END[k]])[k];
      }
    }
  }

  /** ESC occurs in the terminator only at its start, so two partial matches
      of different positive lengths cannot both hold. */
  lemma OnlyOneMatch(body: seq<byte>, j: nat, k: nat)
    requires 0 < j < k && Matches(body, k)
    ensures !Matches(body, j)
  {
    assert body[|body| - k..][k - j] == body[|body| - j];
    assert PASTE_END[..k][k - j] != ESC;
    assert body[|body| - j..][0] == body[|body| - j] && PASTE_END[..j][0] == ESC;
  }

  /** How the longest match moves by one byte. */
  lemma LongestMatchMoves(body: seq<byte>, m: nat, b: byte)
    requires LongestMatch(body, m)
    ensures b == PASTE_END[m] && m == 5 ==> Matches(body + [b], 6)
    ensures b == PASTE_END[m] && m < 5 ==> LongestMatch(body + [b], m + 1)
    ensures b != PASTE_END[m] ==> LongestMatch(body + [b], if b == ESC then 1 else 0)
  {
    forall k | 0 <= k < 6
      ensures Matches(body + [b], k + 1) <==> Matches(body, k) && b == PASTE_END[k]
    {
      MatchesExtends(body, b, k);
    }
    assert Matches(body, 0) && Matches(body + [b], 0);
    if b != PASTE_END[m] {
      var m' := if b == ESC then 1 else 0;
      forall k | m' < k <= 6
        ensures !Matches(body + [b], k)
      {
        assert Matches(body + [b], (k - 1) + 1) <==> Matches(body, k - 1) && b == PASTE_END[k - 1];
        if 0 < k - 1 < m {
          OnlyOneMatch(body, k - 1, m);
        }
      }
      assert Matches(body + [b], 0 + 1) <==> Matches(body, 0) && b == PASTE_END[0];
    } else if m < 5 {
      forall k | m + 1 < k <= 6
        ensures !Matches(body + [b], k)
      {
        var j: nat := k - 1;
        assert Matches(body + [b], j + 1) ==> Matches(body, j);
      }
    }
  }

  lemma NoPasteEndExtends(body: seq<byte>, b: byte)
    requires NoPasteEnd(body)
    ensures NoPasteEnd(body + [b]) <==> !Matches(body + [b], 6)
  {
    var all := body + [b];
    assert all[..|all|] == all;
    forall k | 0 <= k <= |body|
      ensures all[..k] == body[..k]
    {
    }
  }

  lemma NoStringEndExtends(bell: bool, body: seq<byte>, b: byte)
    requires NoStringEnd(bell, body)
    ensures NoStringEnd(bell, body + [b]) <==> !StringEnds(bell, body + [b])
  {
    var all := body + [b];
    assert all[..|all|] == all;
    forall k | 0 <= k <= |body|
      ensures all[..k] == body[..k]
    {
    }
  }
}
