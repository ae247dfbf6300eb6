/** The decoder as an object: fed a byte at a time, it keeps its input split
    into the sequences of the events it has emitted and the one under way. */
module KeyStream {
  import opened Common
  import opened KeyUtf8
  import opened KeyGrammar
  import opened KeyDecoder
  import opened KeyTokens

  /** The decoder object: each push updates its three fields. The ghost fields
      record what it was fed and has emitted, and how the one splits into the
      other. */
  class Decoder {
    var state: State
    var pending: seq<byte>
    var consumed: nat

    ghost var fed: seq<byte>
    ghost var events: seq<KeyEvent>
    ghost var tokens: seq<seq<byte>>
    ghost var partial: seq<byte>

    constructor ()
      ensures Valid() && View() == INITIAL && fed == [] && events == []
    {
      state, pending, consumed := Ground, [], 0;
      fed, events, tokens, partial := [], [], [], [];
    }

    /** One token per event, in order and without gaps, then the bytes of the
        sequence under way; after a failure, bytes that yielded nothing. */
    ghost predicate Valid()
      reads this
    {
      && AreTokens(tokens, events) && fed == Concat(tokens) + partial
      && (state.Failed? || Describes(View(), partial))
    }

    function View(): Config
      reads this
    {
      Config(state, pending, consumed)
    }

    method Fail() returns (out: Output)
      modifies this`state, this`pending, this`consumed
      ensures Pushed(View(), out) == Failure(old(consumed))
    {
      state := Failed;
      pending := [];
      out := Malformed;
    }

    method EmitEvent(key: Key, control: bool, alt: bool) returns (out: Output)
      modifies this`state, this`pending, this`consumed
      ensures Pushed(View(), out) == Event(key, control, alt)
    {
      state := Ground;
      pending := [];
      consumed := 0;
      out := Emit(KeyEvent(key, control, alt));
    }

    method TakeCharacter(b: byte, alt: bool) returns (out: Output)
      modifies this`state, this`pending, this`consumed
      ensures Pushed(View(), out) == PushCharacter(old(pending), old(consumed), b, alt)
    {
      var key := Other;
      if b == 13 || b == 10 {
        key := Enter;
      } else if 1 <= b <= 26 {
        out := EmitEvent(Character(97 + b - 1), true, alt);
        return;
      } else if 32 <= b <= 126 {
        key := Character(b);
      } else if b == 0 || 28 <= b <= 31 || b == 127 {
        key := Other;
      } else if 0xc2 <= b <= 0xf4 {
        pending := pending + [b];
        state := Utf8(if b < 0xe0 then 2 else if b < 0xf0 then 3 else 4, alt);
        return Incomplete;
      } else {
        out := Fail();
        return;
      }
      out := EmitEvent(key, false, alt);
    }

    method TakeAfterEscape(b: byte) returns (out: Output)
      modifies this`state, this`pending, this`consumed
      ensures Pushed(View(), out) == PushEscape(old(pending), old(consumed), b)
    {
      out := Incomplete;
      if b == 91 {
        state := Csi;
      } else if b == 79 {
        state := Ss3;
      } else if b == ESC {
        out := EmitEvent(EscapeKey, false, false);
        state := Escape;
        consumed := 1;
      } else if OpensString(b) {
        state := String(b == 93, false);
      } else if IsIntermediate(b) {
        state := EscapeIntermediate;
      } else {
        out := TakeCharacter(b, true);
      }
    }

    method TakeUtf8(length: nat, alt: bool, b: byte) returns (out: Output)
      requires state == Utf8(length, alt)
      modifies this`state, this`pending, this`consumed
      ensures Pushed(View(), out) == PushUtf8(length, alt, old(pending), old(consumed), b)
    {
      pending := pending + [b];
      if |pending| < length {
        return Incomplete;
      }
      match FirstCharacter(pending)
      case Some(c) => out := EmitEvent(Character(c), false, alt);
      case None => out := Fail();
    }

    method TakeFunction(csi: bool, b: byte) returns (out: Output)
      requires state == if csi then Csi else Ss3
      modifies this`state, this`pending, this`consumed
      ensures Pushed(View(), out) == PushFunction(csi, old(pending), old(consumed), b)
    {
      if |pending| >= MAX_PENDING {
        out := Fail();
        return;
      }
      pending := pending + [b];
      if IsParameter(b) {
        out := Incomplete;
      } else if IsFinal(b) && csi && pending == PASTE_NAME {
        pending := [];
        state := Paste(0);
        out := Incomplete;
      } else if csi && pending == MOUSE_NAME {
        out := Fail();
      } else if IsFinal(b) {
        out := EmitEvent(Other, false, false);
      } else {
        out := Fail();
      }
    }

    method TakePaste(matched: nat, b: byte) returns (out: Output)
      modifies this`state, this`pending, this`consumed
      ensures Pushed(View(), out) == PushPaste(matched, old(pending), old(consumed), b)
    {
      var next := if b == ESC then 1 else 0;
      if matched < 6 && b == PASTE_END[matched] {
        next := matched + 1;
      }
      if next == 6 {
        out := EmitEvent(Other, false, false);
        return;
      }
      state := Paste(next);
      out := Incomplete;
    }

    /** The transition on one byte. */
    method Advance(b: byte) returns (out: Output)
      modifies this`state, this`pending, this`consumed
      ensures Pushed(View(), out) == Push(old(View()), b)
    {
      consumed := consumed + 1;
      if consumed > MAX_SEQUENCE {
        out := Fail();
        return;
      }
      match state
      case Failed => out := Fail();
      case Ground =>
        if b == ESC {
          state := Escape;
          out := Incomplete;
        } else {
          out := TakeCharacter(b, false);
        }
      case Escape => out := TakeAfterEscape(b);
      case EscapeIntermediate =>
        if IsIntermediate(b) && consumed <= MAX_PENDING {
          out := Incomplete;
        } else if 0x30 <= b <= 0x7e {
          out := EmitEvent(Other, false, false);
        } else {
          out := Fail();
        }
      case Utf8(length, alt) => out := TakeUtf8(length, alt, b);
      case Csi => out := TakeFunction(true, b);
      case Ss3 => out := TakeFunction(false, b);
      case Paste(matched) => out := TakePaste(matched, b);
      case String(bell, escape) =>
        if (bell && b == BEL) || (escape && b == 92) {
          out := EmitEvent(Other, false, false);
        } else {
          state := String(bell, b == ESC);
          out := Incomplete;
        }
    }

    /** Feed one byte: it joins the sequence under way, completes it, or, as a
        second ESC, completes a lone ESC and begins the next; a failure is for
        good and emits nothing. */
    method PushByte(b: byte) returns (out: Output)
      requires Valid()
      modifies this
      ensures Valid() && fed == old(fed) + [b]
      ensures Pushed(View(), out) == Push(old(View()), b)
      ensures events == old(events) + if out.Emit? then [out.event] else []
      ensures out.Malformed? <==> state.Failed?
      ensures old(state.Failed?) ==> out.Malformed?
      ensures |pending| <= MAX_PENDING && (!state.Failed? ==> consumed == |partial|)
    {
      hide IsToken, Concat, AreTokens, Push, Describes;
      ghost var before := View();
      PushOutcome(before, partial, b);
      out := Advance(b);
      fed := fed + [b];
      if out.Emit? {
        ghost var token, next := TokenAndRest(before, partial, b);
        AppendToken(tokens, events, token, out.event, next, fed, partial + [b]);
        tokens, events, partial := tokens + [token], events + [out.event], next;
      } else {
        Regroup(Concat(tokens), partial, [b]);
        partial := partial + [b];
      }
      PendingIsBounded(View(), partial);
    }

    /** Resolve the sequence under way once the caller has waited long enough: a
        key if and only if it is a lone ESC, nothing if it is empty, and a
        failure for any other. */
    method FinishPending() returns (out: Output)
      requires Valid()
      modifies this
      ensures Valid() && fed == old(fed)
      ensures Pushed(View(), out) == Finish(old(View()))
      ensures out == Emit(ESCAPE) <==> !old(state.Failed?) && old(partial) == [ESC]
      ensures out == Incomplete <==> !old(state.Failed?) && old(partial) == []
      ensures out.Malformed? <==> state.Failed?
      ensures events == old(events) + if out.Emit? then [ESCAPE] else []
    {
      if !state.Failed? {
        DescribedByTheState(View(), partial);
      }
      match state
      case Ground => out := Incomplete;
      case Escape =>
        out := EmitEvent(EscapeKey, false, false);
        Regroup(Concat(tokens), [ESC], []);
        AppendToken(tokens, events, [ESC], ESCAPE, [], fed, partial);
        tokens, events, partial := tokens + [[ESC]], events + [ESCAPE], [];
      case _ => out := Fail();
    }
  }

  lemma {:induction false} ConcatAppends(tokens: seq<seq<byte>>, token: seq<byte>)
    ensures Concat(tokens + [token]) == Concat(tokens) + token
    decreases |tokens|
  {
    if tokens == [] {
      assert [token][1..] == [] && tokens + [token] == [token];
    } else {
      assert (tokens + [token])[1..] == tokens[1..] + [token];
      ConcatAppends(tokens[1..], token);
      Regroup(tokens[0], Concat(tokens[1..]), token);
    }
  }

  lemma AppendToken(tokens: seq<seq<byte>>, events: seq<KeyEvent>, token: seq<byte>, e: KeyEvent,
                    next: seq<byte>, fed: seq<byte>, partial: seq<byte>)
    requires AreTokens(tokens, events) && IsToken(token, e)
    requires token + next == partial && fed == Concat(tokens) + partial
    ensures AreTokens(tokens + [token], events + [e])
    ensures fed == Concat(tokens + [token]) + next
  {
    ConcatAppends(tokens, token);
    Regroup(Concat(tokens), token, next);
  }

  /** What a push can lead to, from a described configuration or a failed one. */
  lemma PushOutcome(c: Config, partial: seq<byte>, b: byte)
    requires c.state.Failed? || Describes(c, partial)
    ensures var p := Push(c, b);
            && (p.output.Malformed? <==> p.config.state.Failed?)
            && (p.config.state.Failed? ==> p.config.pending == [])
            && (c.state.Failed? ==> p.output.Malformed?)
            && (p.output.Incomplete? ==> Describes(p.config, partial + [b]))
            && (p.output.Emit? ==> Describes(c, partial))
  {
    if !c.state.Failed? {
      PushIsSound(c, partial, b);
    }
  }

  lemma PendingIsBounded(c: Config, partial: seq<byte>)
    requires Describes(c, partial) || (c.state.Failed? && c.pending == [])
    ensures |c.pending| <= MAX_PENDING
  {
  }
}
