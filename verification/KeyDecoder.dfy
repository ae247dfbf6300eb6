/** The incremental terminal-key decoder as a function from one configuration
    and byte to the next, and what each configuration says about the bytes fed
    since the last event. */
module KeyDecoder {
  import opened Common
  import opened KeyUtf8
  import opened KeyGrammar

  datatype State =
    | Ground
    | Escape
    | EscapeIntermediate
    | Utf8(length: nat, alt: bool)
    | Csi
    | Ss3
    | Paste(matched: nat)
    | String(bell: bool, escape: bool)
    | Failed

  datatype Config = Config(state: State, pending: seq<byte>, consumed: nat)

  datatype Output = Incomplete | Emit(event: KeyEvent) | Malformed

  datatype Pushed = Pushed(config: Config, output: Output)

  const INITIAL := Config(Ground, [], 0)

  // ---- one byte, by state

  function Failure(consumed: nat): Pushed {
    Pushed(Config(Failed, [], consumed), Malformed)
  }

  function Event(key: Key, control: bool, alt: bool): Pushed {
    Pushed(INITIAL, Emit(KeyEvent(key, control, alt)))
  }

  function Wait(state: State, pending: seq<byte>, consumed: nat): Pushed {
    Pushed(Config(state, pending, consumed), Incomplete)
  }

  function PushCharacter(pending: seq<byte>, consumed: nat, b: byte, alt: bool): Pushed {
    if b == 13 || b == 10 then Event(Enter, false, alt)
    else if 1 <= b <= 26 then Event(Character(97 + b - 1), true, alt)
    else if 32 <= b <= 126 then Event(Character(b), false, alt)
    else if b == 0 || 28 <= b <= 31 || b == 127 then Event(Other, false, alt)
    else if 0xc2 <= b <= 0xf4 then
      Wait(Utf8(if b < 0xe0 then 2 else if b < 0xf0 then 3 else 4, alt), pending + [b], consumed)
    else Failure(consumed)
  }

  function PushEscape(pending: seq<byte>, consumed: nat, b: byte): Pushed {
    if b == 91 then Wait(Csi, pending, consumed)
    else if b == 79 then Wait(Ss3, pending, consumed)
    else if b == ESC then Pushed(Config(Escape, [], 1), Emit(ESCAPE))
    else if OpensString(b) then Wait(String(b == 93, false), pending, consumed)
    else if IsIntermediate(b) then Wait(EscapeIntermediate, pending, consumed)
    else PushCharacter(pending, consumed, b, true)
  }

  function PushIntermediate(pending: seq<byte>, consumed: nat, b: byte): Pushed {
    if IsIntermediate(b) && consumed <= MAX_PENDING then Wait(EscapeIntermediate, pending, consumed)
    else if 0x30 <= b <= 0x7e then Event(Other, false, false)
    else Failure(consumed)
  }

  function PushUtf8(length: nat, alt: bool, pending: seq<byte>, consumed: nat, b: byte): Pushed {
    var all := pending + [b];
    if |all| < length then Wait(Utf8(length, alt), all, consumed)
    else
      match FirstCharacter(all)
      case Some(c) => Event(Character(c), false, alt)
      case None => Failure(consumed)
  }

  function PushFunction(csi: bool, pending: seq<byte>, consumed: nat, b: byte): Pushed {
    if |pending| >= MAX_PENDING then Failure(consumed)
    else
      var all := pending + [b];
      if IsParameter(b) then Wait(if csi then Csi else Ss3, all, consumed)
      else if IsFinal(b) && csi && all == PASTE_NAME then Wait(Paste(0), [], consumed)
      else if csi && all == MOUSE_NAME then Failure(consumed)
      else if IsFinal(b) then Event(Other, false, false)
      else Failure(consumed)
  }

  function PushPaste(matched: nat, pending: seq<byte>, consumed: nat, b: byte): Pushed {
    var matched' := if matched < 6 && b == PASTE_END[matched] then matched + 1 else if b == ESC then 1 else 0;
    if matched' == 6 then Event(Other, false, false) else Wait(Paste(matched'), pending, consumed)
  }

  function PushString(bell: bool, escape: bool, pending: seq<byte>, consumed: nat, b: byte): Pushed {
    if (bell && b == BEL) || (escape && b == 92) then Event(Other, false, false)
    else Wait(String(bell, b == ESC), pending, consumed)
  }

  function Push(c: Config, b: byte): Pushed {
    var n := c.consumed + 1;
    if n > MAX_SEQUENCE then Failure(n)
    else
      match c.state
      case Failed => Failure(n)
      case Ground => if b == ESC then Wait(Escape, c.pending, n) else PushCharacter(c.pending, n, b, false)
      case Escape => PushEscape(c.pending, n, b)
      case EscapeIntermediate => PushIntermediate(c.pending, n, b)
      case Utf8(length, alt) => PushUtf8(length, alt, c.pending, n, b)
      case Csi => PushFunction(true, c.pending, n, b)
      case Ss3 => PushFunction(false, c.pending, n, b)
      case Paste(matched) => PushPaste(matched, c.pending, n, b)
      case String(bell, escape) => PushString(bell, escape, c.pending, n, b)
  }

  function Finish(c: Config): Pushed {
    match c.state
    case Ground => Pushed(c, Incomplete)
    case Escape => Event(EscapeKey, false, false)
    case _ => Failure(c.consumed)
  }

  // ---- what each state says about the bytes since the last event

  ghost predicate DescribesUtf8(length: nat, alt: bool, pending: seq<byte>, partial: seq<byte>) {
    && 1 <= |pending| < length && LeadLength(pending[0]) == length
    && partial == (if alt then [ESC] else []) + pending
  }

  ghost predicate DescribesFunction(opener: byte, pending: seq<byte>, partial: seq<byte>) {
    partial == [ESC, opener] + pending && |pending| <= MAX_PENDING && AllParameters(pending)
  }

  ghost predicate DescribesPaste(matched: nat, partial: seq<byte>) {
    && |partial| >= 6 && partial[..6] == PASTE_START
    && NoPasteEnd(partial[6..]) && LongestMatch(partial[6..], matched)
  }

  ghost predicate DescribesString(bell: bool, escape: bool, partial: seq<byte>) {
    && |partial| >= 2 && partial[0] == ESC && OpensString(partial[1]) && bell == (partial[1] == 93)
    && escape == (|partial| >= 3 && partial[|partial| - 1] == ESC)
    && NoStringEnd(bell, partial[2..])
  }

  ghost predicate Describes(c: Config, partial: seq<byte>) {
    && c.consumed == |partial| <= MAX_SEQUENCE
    && match c.state
       case Ground => partial == [] && c.pending == []
       case Escape => partial == [ESC] && c.pending == []
       case EscapeIntermediate =>
         c.pending == [] && 2 <= |partial| <= MAX_PENDING && partial[0] == ESC && AllIntermediates(partial[1..])
       case Utf8(length, alt) => DescribesUtf8(length, alt, c.pending, partial)
       case Csi => DescribesFunction(91, c.pending, partial)
       case Ss3 => DescribesFunction(79, c.pending, partial)
       case Paste(matched) => c.pending == [] && DescribesPaste(matched, partial)
       case String(bell, escape) => c.pending == [] && DescribesString(bell, escape, partial)
       case Failed => false
  }

  /** Only the escape state describes a lone ESC, and only rest an empty one. */
  lemma DescribedByTheState(c: Config, partial: seq<byte>)
    requires Describes(c, partial)
    ensures c.state.Escape? <==> partial == [ESC]
    ensures c.state.Ground? <==> partial == []
  {
    if partial == [ESC] {
      assert partial[0] == ESC && |partial| == 1;
    }
  }

  /** What one push may do to a described configuration. */
  ghost predicate Sound(partial: seq<byte>, b: byte, p: Pushed) {
    match p.output
    case Incomplete => Describes(p.config, partial + [b])
    case Emit(e) =>
      || (p.config == INITIAL && IsSequence(partial + [b], e))
      || (partial == [ESC] && b == ESC && e == ESCAPE && Describes(p.config, [ESC]))
    case Malformed => p.config.state.Failed? && p.config.pending == []
  }
}
