/** Tokenization theorems of the key decoder. */
module KeyTokens {
  import opened Common
  import opened KeyUtf8
  import opened KeyGrammar
  import opened KeyDecoder

  // ---- soundness of one push, state by state

  lemma SoundCharacter(alt: bool, b: byte)
    requires if alt then !OpensSequence(b) else b != ESC
    ensures var partial := if alt then [ESC] else [];
            Sound(partial, b, PushCharacter([], |partial| + 1, b, alt))
  {
    var partial: seq<byte> := if alt then [ESC] else [];
    var p := PushCharacter([], |partial| + 1, b, alt);
    var all := partial + [b];
    assert alt ==> all[1..] == [b];
    assert !alt ==> all == [b];
    if p.output.Emit? {
      if 32 <= b <= 126 {
        assert Encode(b) == [b];
      }
      assert IsPlain([b], p.output.event.key, p.output.event.control);
    } else if p.output.Incomplete? {
      assert [] + [b] == [b];
    }
  }

  lemma SoundEscape(b: byte)
    ensures Sound([ESC], b, PushEscape([], 2, b))
  {
    var all: seq<byte> := [ESC] + [b];
    if !OpensSequence(b) {
      SoundCharacter(true, b);
    } else if b == 91 || b == 79 {
      assert all == [ESC, b] + [];
    } else if OpensString(b) {
      assert all[2..] == [];
      assert NoStringEnd(b == 93, all[2..]);
    } else if IsIntermediate(b) {
      assert all[1..] == [b];
    }
  }

  lemma SoundIntermediate(partial: seq<byte>, b: byte)
    requires Describes(Config(EscapeIntermediate, [], |partial|), partial)
    ensures Sound(partial, b, PushIntermediate([], |partial| + 1, b))
  {
    var all := partial + [b];
    assert all[1..] == partial[1..] + [b];
    assert all[1..|all| - 1] == partial[1..];
    if !IsIntermediate(b) && 0x30 <= b <= 0x7e {
      assert IsEscapeSequence(all);
    }
  }

  lemma SoundUtf8(length: nat, alt: bool, pending: seq<byte>, partial: seq<byte>, b: byte)
    requires Describes(Config(Utf8(length, alt), pending, |partial|), partial)
    ensures Sound(partial, b, PushUtf8(length, alt, pending, |partial| + 1, b))
  {
    hide DescribesPaste, DescribesString, IsPaste, IsString, IsEscapeSequence, IsCsi, IsSs3;
    var all := pending + [b];
    assert partial + [b] == (if alt then [ESC] else []) + all;
    assert LeadLength(pending[0]) <= 4;
    if |all| == length {
      FirstCharacterOfOne(all);
      if FirstCharacter(all).Some? {
        var c := FirstCharacter(all).value;
        assert Encode(c) == all;
        assert c >= 128;
        if alt {
          assert (partial + [b])[1..] == all && (partial + [b])[1] == all[0];
        } else {
          assert partial + [b] == all;
        }
        assert IsPlain(all, Character(c), false);
      }
    }
  }

  lemma SoundFunction(csi: bool, pending: seq<byte>, partial: seq<byte>, b: byte)
    requires DescribesFunction(if csi then 91 else 79, pending, partial) && |partial| + 1 <= MAX_SEQUENCE
    ensures Sound(partial, b, PushFunction(csi, pending, |partial| + 1, b))
  {
    hide DescribesPaste, DescribesString, IsPaste, IsString, IsEscapeSequence, IsPlain;
    var opener: byte := if csi then 91 else 79;
    var all, body := partial + [b], pending + [b];
    assert all == [ESC, opener] + body;
    if |pending| < MAX_PENDING && IsFinal(b) {
      if csi && body == PASTE_NAME {
        PasteIsDescribed(all);
      } else {
        assert body[..|body| - 1] == pending && IsFunction(body);
        assert all[..2] == [ESC, opener] && all[2..] == body;
      }
    }
  }

  lemma PasteIsDescribed(all: seq<byte>)
    requires all == [ESC, 91] + PASTE_NAME
    ensures Describes(Config(Paste(0), [], 6), all)
  {
    assert all == PASTE_START;
    assert all[..6] == PASTE_START && all[6..] == [];
    assert Matches([], 0);
    assert LongestMatch(all[6..], 0);
  }

  lemma SoundPaste(matched: nat, partial: seq<byte>, b: byte)
    requires DescribesPaste(matched, partial) && |partial| + 1 <= MAX_SEQUENCE
    ensures Sound(partial, b, PushPaste(matched, [], |partial| + 1, b))
  {
    var all, body := partial + [b], partial[6..];
    assert all[..6] == PASTE_START && all[6..] == body + [b] && all[6..|all| - 1] == body;
    LongestMatchMoves(body, matched, b);
    NoPasteEndExtends(body, b);
  }

  lemma SoundString(bell: bool, escape: bool, partial: seq<byte>, b: byte)
    requires DescribesString(bell, escape, partial) && |partial| + 1 <= MAX_SEQUENCE
    ensures Sound(partial, b, PushString(bell, escape, [], |partial| + 1, b))
  {
    var all, body := partial + [b], partial[2..];
    assert all[2..] == body + [b] && all[2..|all| - 1] == body;
    NoStringEndExtends(bell, body, b);
  }

  lemma PushIsSound(c: Config, partial: seq<byte>, b: byte)
    requires Describes(c, partial)
    ensures Sound(partial, b, Push(c, b))
  {
    if |partial| + 1 <= MAX_SEQUENCE {
      match c.state
      case Ground => if b == ESC { assert [] + [b] == [ESC]; } else { SoundCharacter(false, b); }
      case Escape => SoundEscape(b);
      case EscapeIntermediate => SoundIntermediate(partial, b);
      case Utf8(length, alt) => SoundUtf8(length, alt, c.pending, partial, b);
      case Csi => SoundFunction(true, c.pending, partial, b);
      case Ss3 => SoundFunction(false, c.pending, partial, b);
      case Paste(matched) => SoundPaste(matched, partial, b);
      case String(bell, escape) => SoundString(bell, escape, partial, b);
    }
  }

  // ---- whole runs

  datatype Decoded = Decoded(config: Config, events: seq<KeyEvent>)

  function Run(c: Config, input: seq<byte>): Decoded
    decreases |input|
  {
    if input == [] then Decoded(c, [])
    else
      var p := Push(c, input[0]);
      var rest := Run(p.config, input[1..]);
      if p.output.Emit? then Decoded(rest.config, [p.output.event] + rest.events) else rest
  }

  lemma {:induction false} RunConcat(c: Config, first: seq<byte>, second: seq<byte>)
    ensures var r := Run(c, first);
            var s := Run(r.config, second);
            Run(c, first + second) == Decoded(s.config, r.events + s.events)
    decreases |first|
  {
    hide Push;
    if first == [] {
      assert first + second == second;
    } else {
      assert (first + second)[1..] == first[1..] + second;
      RunConcat(Push(c, first[0]).config, first[1..], second);
    }
  }

  /** A silent stretch followed by whatever its end decodes to. */
  lemma Then(c0: Config, first: seq<byte>, c1: Config, second: seq<byte>, d: Decoded)
    requires Run(c0, first) == Decoded(c1, []) && Run(c1, second) == d
    ensures Run(c0, first + second) == d
  {
    RunConcat(c0, first, second);
    assert [] + d.events == d.events;
  }

  function Concat(tokens: seq<seq<byte>>): seq<byte> {
    if tokens == [] then [] else tokens[0] + Concat(tokens[1..])
  }

  ghost predicate AreTokens(tokens: seq<seq<byte>>, events: seq<KeyEvent>) {
    |tokens| == |events| && forall i :: 0 <= i < |tokens| ==> IsToken(tokens[i], events[i])
  }

  /** A failed decoder is poisoned: it emits nothing, whatever follows. */
  lemma {:induction false} FailureIsPermanent(c: Config, input: seq<byte>)
    requires c.state.Failed?
    ensures Run(c, input).events == [] && Run(c, input).config.state.Failed?
    decreases |input|
  {
    if input != [] {
      FailureIsPermanent(Push(c, input[0]).config, input[1..]);
    }
  }

  /** The input so far is one token per event, in order and without gaps,
      then either the current partial sequence or, after a failure, bytes that
      yielded nothing. */
  lemma {:induction false} InputSplitsIntoTokens(c: Config, partial: seq<byte>, input: seq<byte>)
    returns (tokens: seq<seq<byte>>, rest: seq<byte>)
    requires Describes(c, partial)
    ensures AreTokens(tokens, Run(c, input).events)
    ensures Concat(tokens) + rest == partial + input
    ensures Run(c, input).config.state.Failed? || Describes(Run(c, input).config, rest)
    decreases |input|
  {
    hide Push, Describes, IsToken, Concat;
    if input == [] {
      assert partial + input == partial;
      tokens, rest := NoTokens(partial);
      return;
    }
    var p := Push(c, input[0]);
    PushIsSound(c, partial, input[0]);
    var partial' := partial + [input[0]];
    assert partial' + input[1..] == partial + input;
    if p.output.Malformed? {
      FailureIsPermanent(p.config, input[1..]);
      tokens, rest := NoTokens(partial + input);
    } else if p.output.Incomplete? {
      tokens, rest := InputSplitsIntoTokens(p.config, partial', input[1..]);
    } else {
      var token, next := TokenAndRest(c, partial, input[0]);
      var tokens';
      tokens', rest := InputSplitsIntoTokens(p.config, next, input[1..]);
      assert token + (next + input[1..]) == (token + next) + input[1..];
      tokens := PrependToken(token, p.output.event, tokens', Run(p.config, input[1..]).events, rest, next + input[1..]);
    }
  }

  /** An emitted event takes up the partial sequence and the byte, except that
      a second escape begins the next sequence. */
  lemma TokenAndRest(c: Config, partial: seq<byte>, b: byte) returns (token: seq<byte>, next: seq<byte>)
    requires Describes(c, partial) && Push(c, b).output.Emit?
    ensures token + next == partial + [b]
    ensures IsToken(token, Push(c, b).output.event) && Describes(Push(c, b).config, next)
  {
    PushIsSound(c, partial, b);
    if Push(c, b).config == INITIAL {
      token, next := partial + [b], [];
    } else {
      token, next := [ESC], [ESC];
    }
  }

  lemma NoTokens(input: seq<byte>) returns (tokens: seq<seq<byte>>, rest: seq<byte>)
    ensures tokens == [] && rest == input && AreTokens(tokens, []) && Concat(tokens) + rest == input
  {
    tokens, rest := [], input;
    assert [] + input == input;
  }

  lemma PrependToken(token: seq<byte>, e: KeyEvent, tokens: seq<seq<byte>>, events: seq<KeyEvent>,
                     rest: seq<byte>, input: seq<byte>)
    returns (all: seq<seq<byte>>)
    requires IsToken(token, e) && AreTokens(tokens, events) && Concat(tokens) + rest == input
    ensures AreTokens(all, [e] + events) && Concat(all) + rest == token + input
  {
    all := [token] + tokens;
    assert all[1..] == tokens;
    assert Concat(all) + rest == token + (Concat(tokens) + rest);
  }

  /** The same from a new decoder. */
  lemma EveryInputIsTokenized(input: seq<byte>) returns (tokens: seq<seq<byte>>, rest: seq<byte>)
    ensures AreTokens(tokens, Run(INITIAL, input).events)
    ensures input == Concat(tokens) + rest
    ensures var c := Run(INITIAL, input).config;
            c.state.Failed? || (Describes(c, rest) && c.consumed == |rest| && |c.pending| <= MAX_PENDING)
  {
    tokens, rest := InputSplitsIntoTokens(INITIAL, [], input);
    assert [] + input == input;
  }

  // ---- every sequence decodes to its event

  lemma {:induction false} FunctionDecodes(csi: bool, pending: seq<byte>, consumed: nat, body: seq<byte>)
    requires body != [] && IsFunction(pending + body) && consumed + |body| <= MAX_SEQUENCE
    requires csi ==> pending + body != PASTE_NAME && pending + body != MOUSE_NAME
    ensures Run(Config(if csi then Csi else Ss3, pending, consumed), body) == Decoded(INITIAL, [OTHER])
    decreases |body|
  {
    hide Run;
    var whole := pending + body;
    var b, rest := body[0], body[1..];
    var pending' := pending + [b];
    var state := if csi then Csi else Ss3;
    assert whole == pending' + rest && whole[|pending|] == b;
    if rest != [] {
      assert whole[..|whole| - 1][|pending|] == b;
      QuietByte(Config(state, pending, consumed), body, Config(state, pending', consumed + 1));
      FunctionDecodes(csi, pending', consumed + 1, rest);
    } else {
      assert whole == pending' && body == [b];
      LastByteCloses(Config(state, pending, consumed), b);
    }
  }

  lemma RunNothing(c: Config)
    ensures Run(c, []) == Decoded(c, [])
  {
  }

  /** A byte that only moves the decoder on. */
  lemma QuietByte(c: Config, body: seq<byte>, next: Config)
    requires body != [] && Push(c, body[0]) == Pushed(next, Incomplete)
    ensures Run(c, body) == Run(next, body[1..])
  {
  }

  lemma {:induction false} Utf8Decodes(alt: bool, pending: seq<byte>, consumed: nat, body: seq<byte>, c: Scalar)
    requires pending != [] && body != [] && pending + body == Encode(c) && consumed + |body| <= MAX_SEQUENCE
    ensures Run(Config(Utf8(|Encode(c)|, alt), pending, consumed), body)
         == Decoded(INITIAL, [KeyEvent(Character(c), false, alt)])
    decreases |body|
  {
    var b, rest := body[0], body[1..];
    var pending' := pending + [b];
    assert pending + body == pending' + rest;
    if rest != [] {
      Utf8Decodes(alt, pending', consumed + 1, rest, c);
    } else {
      assert pending' == Encode(c);
      EncodingsDecode(c);
      FirstCharacterOfOne(pending');
      var e := KeyEvent(Character(c), false, alt);
      assert [e] + [] == [e];
    }
  }

  lemma {:induction false} IntermediatesDecode(consumed: nat, body: seq<byte>)
    requires body != [] && consumed + |body| <= MAX_PENDING + 1
    requires AllIntermediates(body[..|body| - 1]) && 0x30 <= body[|body| - 1] <= 0x7e
    ensures Run(Config(EscapeIntermediate, [], consumed), body) == Decoded(INITIAL, [OTHER])
    decreases |body|
  {
    var b, rest := body[0], body[1..];
    if rest != [] {
      assert body[..|body| - 1][0] == b;
      assert rest[..|rest| - 1] == body[..|body| - 1][1..];
      IntermediatesDecode(consumed + 1, rest);
    } else {
      assert [OTHER] + [] == [OTHER];
    }
  }

  /** Bytes inside a paste, up to but excluding its terminator, change nothing
      but the match position; past the length limit they poison the decoder. */
  lemma {:induction false} PasteSwallows(before: seq<byte>, matched: nat, body: seq<byte>)
    returns (matched': nat)
    requires LongestMatch(before, matched) && NoPasteEnd(before + body) && 6 + |before| <= MAX_SEQUENCE
    ensures var r := Run(Config(Paste(matched), [], 6 + |before|), body);
            && r.events == []
            && (if 6 + |before| + |body| <= MAX_SEQUENCE
                then r.config == Config(Paste(matched'), [], 6 + |before| + |body|)
                     && LongestMatch(before + body, matched')
                else r.config.state.Failed?)
    decreases |body|
  {
    if body == [] {
      assert before + body == before;
      return matched;
    }
    var b, rest := body[0], body[1..];
    var before' := before + [b];
    assert before + body == before' + rest;
    assert (before + body)[..|before'|] == before';
    LongestMatchMoves(before, matched, b);
    var p := Push(Config(Paste(matched), [], 6 + |before|), b);
    if 6 + |before| + 1 <= MAX_SEQUENCE {
      matched' := PasteSwallows(before', p.config.state.matched, rest);
    } else {
      FailureIsPermanent(p.config, rest);
      matched' := 0;
    }
  }

  lemma {:induction false} StringSwallows(bell: bool, before: seq<byte>, body: seq<byte>)
    requires NoStringEnd(bell, before + body) && 2 + |before| <= MAX_SEQUENCE
    ensures var c := Config(String(bell, before != [] && before[|before| - 1] == ESC), [], 2 + |before|);
            var all := before + body;
            var r := Run(c, body);
            && r.events == []
            && (if 2 + |all| <= MAX_SEQUENCE
                then r.config == Config(String(bell, all != [] && all[|all| - 1] == ESC), [], 2 + |all|)
                else r.config.state.Failed?)
    decreases |body|
  {
    hide Run;
    if body == [] {
      assert before + body == before;
      RunNothing(Config(String(bell, before != [] && before[|before| - 1] == ESC), [], 2 + |before|));
    } else {
      var c := Config(String(bell, before != [] && before[|before| - 1] == ESC), [], 2 + |before|);
      var b, rest := body[0], body[1..];
      var before' := before + [b];
      assert before + body == before' + rest;
      assert (before + body)[..|before'|] == before';
      if 2 + |before'| <= MAX_SEQUENCE {
        QuietByte(c, body, Config(String(bell, b == ESC), [], 2 + |before'|));
        StringSwallows(bell, before', rest);
      } else {
        FailingByte(c, body);
      }
    }
  }

  lemma FailingByte(c: Config, body: seq<byte>)
    requires body != [] && Push(c, body[0]).output.Malformed?
    ensures Run(c, body).events == [] && Run(c, body).config.state.Failed?
  {
    FailureIsPermanent(Push(c, body[0]).config, body[1..]);
  }

  lemma NothingMatchedYet()
    ensures LongestMatch([], 0)
  {
    assert Matches([], 0);
  }

  /** After its start marker a paste yields nothing while no end marker has
      come, and past 64 KiB it poisons the decoder. */
  lemma PasteLeaksNothing(start: seq<byte>, body: seq<byte>)
    requires start == PASTE_START && NoPasteEnd(body)
    ensures var r := Run(INITIAL, start + body);
            r.events == [] && (r.config.state.Failed? <==> 6 + |body| > MAX_SEQUENCE)
  {
    hide Push, Run, NoPasteEnd;
    var c := PasteOpens(INITIAL, start);
    NothingMatchedYet();
    assert [] + body == body;
    var _ := PasteSwallows([], 0, body);
    Then(INITIAL, start, c, body, Run(c, body));
  }

  /** At its first end marker a paste yields exactly one event, the only one. */
  lemma PasteEndsAtFirstMarker(start: seq<byte>, body: seq<byte>)
    requires start == PASTE_START
    requires Matches(body, 6) && NoPasteEnd(body[..|body| - 1]) && 6 + |body| <= MAX_SEQUENCE
    ensures Run(INITIAL, start + body) == Decoded(INITIAL, [OTHER])
  {
    var c := PasteOpens(INITIAL, start);
    var inside, last := body[..|body| - 1], body[|body| - 1];
    assert body == inside + [last];
    PasteCloses(c, inside, last);
    Then(INITIAL, start, c, body, Decoded(INITIAL, [OTHER]));
  }

  lemma PasteOpens(c0: Config, start: seq<byte>) returns (c6: Config)
    requires c0 == INITIAL && start == PASTE_START
    ensures c6 == Config(Paste(0), [], 6) && Run(c0, start) == Decoded(c6, [])
  {
    var c1 := Push(c0, 27).config;
    var c2 := Push(c1, 91).config;
    var c3 := Push(c2, 50).config;
    var c4 := Push(c3, 48).config;
    var c5 := Push(c4, 48).config;
    c6 := Push(c5, 126).config;
    assert c6 == Config(Paste(0), [], 6);
    assert Run(c6, []) == Decoded(c6, []);
    assert Run(c5, [126]) == Decoded(c6, []);
    assert Run(c4, [48, 126]) == Decoded(c6, []) by { assert [48, 126][1..] == [126]; }
    assert Run(c3, [48, 48, 126]) == Decoded(c6, []) by { assert [48, 48, 126][1..] == [48, 126]; }
    assert Run(c2, [50, 48, 48, 126]) == Decoded(c6, []) by { assert [50, 48, 48, 126][1..] == [48, 48, 126]; }
    assert Run(c1, [91, 50, 48, 48, 126]) == Decoded(c6, []) by {
      assert [91, 50, 48, 48, 126][1..] == [50, 48, 48, 126];
    }
    assert start[1..] == [91, 50, 48, 48, 126];
  }

  lemma PasteCloses(c: Config, inside: seq<byte>, last: byte)
    requires c == Config(Paste(0), [], 6)
    requires Matches(inside + [last], 6) && NoPasteEnd(inside) && 7 + |inside| <= MAX_SEQUENCE
    ensures Run(c, inside + [last]) == Decoded(INITIAL, [OTHER])
  {
    NothingMatchedYet();
    assert [] + inside == inside;
    var matched := PasteSwallows([], 0, inside);
    MatchesExtends(inside, last, 5);
    assert matched == 5;
    var c' := Config(Paste(matched), [], 6 + |inside|);
    LastByteCloses(c', last);
    Then(c, inside, c', [last], Decoded(INITIAL, [OTHER]));
  }

  lemma LastByteCloses(c: Config, last: byte)
    requires Push(c, last) == Event(Other, false, false)
    ensures Run(c, [last]) == Decoded(INITIAL, [OTHER])
  {
    assert [last][1..] == [] && [OTHER] + [] == [OTHER];
  }

  /** Likewise for a control string and its first BEL or ESC backslash. */
  lemma StringLeaksNothing(start: seq<byte>, body: seq<byte>)
    requires |start| == 2 && start[0] == ESC && OpensString(start[1]) && NoStringEnd(start[1] == 93, body)
    ensures var r := Run(INITIAL, start + body);
            r.events == [] && (r.config.state.Failed? <==> 2 + |body| > MAX_SEQUENCE)
  {
    hide Run, NoStringEnd;
    var bell := start[1] == 93;
    var c := TwoByteOpening(start, String(bell, false));
    assert [] + body == body;
    StringSwallows(bell, [], body);
    Then(INITIAL, start, c, body, Run(c, body));
  }

  lemma StringEndsAtFirstTerminator(start: seq<byte>, body: seq<byte>)
    requires |start| == 2 && start[0] == ESC && OpensString(start[1]) && 2 + |body| <= MAX_SEQUENCE
    requires StringEnds(start[1] == 93, body) && NoStringEnd(start[1] == 93, body[..|body| - 1])
    ensures Run(INITIAL, start + body) == Decoded(INITIAL, [OTHER])
  {
    var bell := start[1] == 93;
    var c := TwoByteOpening(start, String(bell, false));
    var inside, last := body[..|body| - 1], body[|body| - 1];
    assert body == inside + [last];
    StringCloses(c, bell, inside, last);
    Then(INITIAL, start, c, body, Decoded(INITIAL, [OTHER]));
  }

  lemma TwoByteOpening(start: seq<byte>, state: State) returns (c2: Config)
    requires |start| == 2 && start[0] == ESC
    requires Push(Config(Escape, [], 1), start[1]) == Wait(state, [], 2)
    ensures c2 == Config(state, [], 2) && Run(INITIAL, start) == Decoded(c2, [])
  {
    c2 := Config(state, [], 2);
    var c1 := Config(Escape, [], 1);
    assert Push(INITIAL, ESC) == Wait(Escape, [], 1);
    assert start[1..] == [start[1]] && start[1..][1..] == [];
    assert Run(c2, []) == Decoded(c2, []);
    assert Run(c1, start[1..]) == Decoded(c2, []);
  }

  lemma StringCloses(c: Config, bell: bool, inside: seq<byte>, last: byte)
    requires c == Config(String(bell, false), [], 2)
    requires StringEnds(bell, inside + [last]) && NoStringEnd(bell, inside) && 3 + |inside| <= MAX_SEQUENCE
    ensures Run(c, inside + [last]) == Decoded(INITIAL, [OTHER])
  {
    assert [] + inside == inside;
    StringSwallows(bell, [], inside);
    var c' := Config(String(bell, inside != [] && inside[|inside| - 1] == ESC), [], 2 + |inside|);
    LastByteCloses(c', last);
    Then(c, inside, c', [last], Decoded(INITIAL, [OTHER]));
  }

  // ---- the decoder and the grammar agree

  lemma PlainDecodes(token: seq<byte>, e: KeyEvent)
    requires IsPlain(token, e.key, e.control)
    requires if e.alt then !OpensSequence(token[0]) else token[0] != ESC
    ensures Run(if e.alt then Config(Escape, [], 1) else INITIAL, token) == Decoded(INITIAL, [e])
  {
    var c := if e.alt then Config(Escape, [], 1) else INITIAL;
    if e.key.Character? && e.key.c >= 128 {
      EncodingsDecode(e.key.c);
      var lead := token[0];
      assert token == [lead] + token[1..];
      assert [] + [lead] == [lead];
      assert Push(c, lead) == Wait(Utf8(|token|, e.alt), [lead], c.consumed + 1);
      Utf8Decodes(e.alt, [lead], c.consumed + 1, token[1..], e.key.c);
    } else {
      assert Push(c, token[0]) == Pushed(INITIAL, Emit(e));
      assert token[1..] == [] && [e] + [] == [e];
    }
  }

  lemma PlainStartsFree(token: seq<byte>, key: Key, control: bool)
    requires IsPlain(token, key, control)
    ensures token != [] && token[0] != ESC
  {
    if key.Character? && !control && key.c >= 128 {
      EncodingsDecode(key.c);
    }
  }

  lemma AfterEscape(rest: seq<byte>, d: Decoded)
    requires Run(Config(Escape, [], 1), rest) == d
    ensures Run(INITIAL, [ESC] + rest) == d
  {
    assert ([ESC] + rest)[1..] == rest;
    assert Push(INITIAL, ESC) == Wait(Escape, [], 1);
  }

  /** Feeding a complete sequence to a new decoder yields its event and leaves
      the decoder as new. */
  lemma SequenceDecodes(token: seq<byte>, e: KeyEvent)
    requires IsSequence(token, e)
    ensures Run(INITIAL, token) == Decoded(INITIAL, [e])
  {
    if !e.alt && IsPlain(token, e.key, e.control) {
      PlainStartsFree(token, e.key, e.control);
      PlainDecodes(token, e);
    } else if e.alt {
      PlainDecodes(token[1..], e);
      AfterEscape(token[1..], Decoded(INITIAL, [e]));
      assert token == [ESC] + token[1..];
    } else {
      OpenedSequenceDecodes(token);
    }
  }

  lemma OpenedSequenceDecodes(token: seq<byte>)
    requires IsEscapeSequence(token) || IsCsi(token) || IsSs3(token) || IsPaste(token) || IsString(token)
    ensures Run(INITIAL, token) == Decoded(INITIAL, [OTHER])
  {
    if IsEscapeSequence(token) {
      EscapeSequenceDecodes(token);
    } else if IsCsi(token) || IsSs3(token) {
      FunctionSequenceDecodes(token);
    } else if IsPaste(token) {
      assert token == token[..6] + token[6..];
      assert token[6..|token| - 1] == token[6..][..|token| - 7];
      PasteEndsAtFirstMarker(token[..6], token[6..]);
    } else {
      assert token == token[..2] + token[2..];
      assert token[2..|token| - 1] == token[2..][..|token| - 3];
      StringEndsAtFirstTerminator(token[..2], token[2..]);
    }
  }

  lemma EscapeSequenceDecodes(token: seq<byte>)
    requires IsEscapeSequence(token)
    ensures Run(INITIAL, token) == Decoded(INITIAL, [OTHER])
  {
    var start, body := token[..2], token[2..];
    assert token == start + body;
    assert token[1..|token| - 1][0] == start[1];
    assert body[..|body| - 1] == token[1..|token| - 1][1..];
    var c := TwoByteOpening(start, EscapeIntermediate);
    IntermediatesDecode(2, body);
    Then(INITIAL, start, c, body, Decoded(INITIAL, [OTHER]));
  }

  lemma FunctionSequenceDecodes(token: seq<byte>)
    requires IsCsi(token) || IsSs3(token)
    ensures Run(INITIAL, token) == Decoded(INITIAL, [OTHER])
  {
    var csi := IsCsi(token);
    var start, body := token[..2], token[2..];
    assert token == start + body;
    assert [] + body == body;
    var c := TwoByteOpening(start, if csi then Csi else Ss3);
    FunctionDecodes(csi, [], 2, body);
    Then(INITIAL, start, c, body, Decoded(INITIAL, [OTHER]));
  }

  /** Sequences are exactly the inputs that take a new decoder to one event
      and back to new. */
  lemma SequencesAreWhatDecodesToOneEvent(token: seq<byte>, e: KeyEvent)
    ensures Run(INITIAL, token) == Decoded(INITIAL, [e]) <==> IsSequence(token, e)
  {
    if IsSequence(token, e) {
      SequenceDecodes(token, e);
    }
    if Run(INITIAL, token) == Decoded(INITIAL, [e]) {
      var tokens, rest := EveryInputIsTokenized(token);
      assert rest == [] && tokens == [tokens[0]] && IsToken(tokens[0], [e][0]);
      assert Concat(tokens[1..]) == [] && tokens[0] + [] == tokens[0];
      assert Concat(tokens) + rest == tokens[0];
      if token == [ESC] {
        AfterEscape([], Decoded(Config(Escape, [], 1), []));
        assert [ESC] + [] == [ESC];
      }
    }
  }

  /** Any list of sequences, run together, decodes back to the same list. */
  lemma {:induction false} SequencesDecodeInOrder(tokens: seq<seq<byte>>, events: seq<KeyEvent>)
    requires |tokens| == |events|
    requires forall i :: 0 <= i < |tokens| ==> IsSequence(tokens[i], events[i])
    ensures Run(INITIAL, Concat(tokens)) == Decoded(INITIAL, events)
    decreases |tokens|
  {
    if tokens != [] {
      SequenceDecodes(tokens[0], events[0]);
      SequencesDecodeInOrder(tokens[1..], events[1..]);
      RunConcat(INITIAL, tokens[0], Concat(tokens[1..]));
      assert [events[0]] + events[1..] == events;
    }
  }

  // ---- keys a terminal can spell unambiguously

  predicate Spellable(e: KeyEvent) {
    match e.key
    case EscapeKey => false
    case Enter => !e.control
    case Other => !e.control
    case Character(c) =>
      if e.control then 97 <= c <= 122 && c != 106 && c != 109
      else (32 <= c <= 126 || c >= 128) && (e.alt ==> !OpensSequence(Encode(c)[0]))
  }

  function Spell(e: KeyEvent): seq<byte>
    requires Spellable(e)
  {
    (if e.alt then [ESC] else []) +
    match e.key
    case Enter => [13]
    case Other => [0]
    case Character(c) => if e.control then [c - 96] else Encode(c)
  }

  function SpellAll(events: seq<KeyEvent>): seq<seq<byte>>
    requires forall e :: e in events ==> Spellable(e)
  {
    if events == [] then [] else [Spell(events[0])] + SpellAll(events[1..])
  }

  lemma SpellingIsASequence(e: KeyEvent)
    requires Spellable(e)
    ensures IsSequence(Spell(e), e)
  {
    var token := Spell(e);
    if e.alt {
      assert IsPlain(token[1..], e.key, e.control);
    } else {
      assert IsPlain(token, e.key, e.control);
    }
  }

  lemma {:induction false} SpellingsAreSequences(events: seq<KeyEvent>)
    requires forall e :: e in events ==> Spellable(e)
    ensures |SpellAll(events)| == |events|
    ensures forall i :: 0 <= i < |events| ==> IsSequence(SpellAll(events)[i], events[i])
    decreases |events|
  {
    if events != [] {
      SpellingIsASequence(events[0]);
      SpellingsAreSequences(events[1..]);
    }
  }

  /** Typing is decoded back: spelled keys, run together, give the same keys. */
  lemma SpelledKeysRoundTrip(events: seq<KeyEvent>)
    requires forall e :: e in events ==> Spellable(e)
    ensures Run(INITIAL, Concat(SpellAll(events))) == Decoded(INITIAL, events)
  {
    SpellingsAreSequences(events);
    SequencesDecodeInOrder(SpellAll(events), events);
  }

  /** Waiting out what is left of any input: it splits into tokens and a rest;
      a key comes if and only if the rest is a lone ESC, nothing if and only if
      it is empty, and any other rest poisons the decoder. */
  lemma FinishingResolvesOnlyALoneEscape(input: seq<byte>) returns (tokens: seq<seq<byte>>, rest: seq<byte>)
    ensures AreTokens(tokens, Run(INITIAL, input).events) && input == Concat(tokens) + rest
    ensures var c := Run(INITIAL, input).config;
            && (Finish(c).output == Emit(ESCAPE) <==> !c.state.Failed? && rest == [ESC])
            && (Finish(c).output == Incomplete <==> !c.state.Failed? && rest == [])
            && (Finish(c).output.Malformed? <==> Finish(c).config.state.Failed?)
            && (!Finish(c).config.state.Failed? ==> Finish(c).config == INITIAL)
  {
    tokens, rest := EveryInputIsTokenized(input);
    var c := Run(INITIAL, input).config;
    if !c.state.Failed? {
      DescribedByTheState(c, rest);
    }
  }
}
