/** Bounded reading of a response body in whatever chunks the transport hands
    over and whatever buffer sizes the caller brings. */
module HttpBody {
  import opened Common

  const COLLECT_BUFFER_BYTES: nat := 65536

  /** The transport's next answers; when they run out the body has ended. */
  datatype Pull = Chunk(bytes: seq<byte>) | TransportError

  datatype Body = Body(remaining: nat, pending: seq<byte>, failed: bool, eof: bool, pulls: seq<Pull>)

  datatype ReadError = AlreadyFailed | DeadlineExpired | TooLong | Transport

  datatype Result = Ok(bytes: seq<byte>) | Err(error: ReadError)

  datatype Stepped = Stepped(body: Body, result: Result)

  function NewBody(maxBytes: nat, pulls: seq<Pull>): Body {
    Body(maxBytes, [], false, false, pulls)
  }

  /** Pull until something is pending, the body ends or it fails. */
  function Fill(b: Body): Stepped
    decreases |b.pulls|
  {
    if b.pending != [] || b.eof then Stepped(b, Ok([]))
    else if b.pulls == [] then Stepped(b.(eof := true), Ok([]))
    else
      var rest := b.(pulls := b.pulls[1..]);
      match b.pulls[0]
      case TransportError => Stepped(rest.(failed := true), Err(Transport))
      case Chunk(bytes) =>
        if |bytes| > b.remaining then Stepped(rest.(failed := true), Err(TooLong))
        else Fill(rest.(remaining := b.remaining - |bytes|, pending := bytes))
  }

  /** One read into a buffer of `size` bytes. */
  function Read(b: Body, size: nat, expired: bool): Stepped {
    if b.failed then Stepped(b, Err(AlreadyFailed))
    else if size == 0 then Stepped(b, Ok([]))
    else if !b.eof && expired then Stepped(b.(failed := true, pending := []), Err(DeadlineExpired))
    else
      var filled := Fill(b);
      if filled.result.Err? then filled
      else
        var n := Min(size, |filled.body.pending|);
        Stepped(filled.body.(pending := filled.body.pending[n..]), Ok(filled.body.pending[..n]))
  }

  /** The response object. */
  class Response {
    var remaining: nat
    var pending: seq<byte>
    var failed: bool
    var eof: bool
    var pulls: seq<Pull>

    constructor (maxBytes: nat, pulls: seq<Pull>)
      ensures View() == NewBody(maxBytes, pulls)
    {
      remaining, pending, failed, eof := maxBytes, [], false, false;
      this.pulls := pulls;
    }

    function View(): Body
      reads this
    {
      Body(remaining, pending, failed, eof, pulls)
    }

    method ReadInto(size: nat, expired: bool) returns (r: Result)
      modifies this
      ensures Stepped(View(), r) == Read(old(View()), size, expired)
    {
      if failed {
        return Err(AlreadyFailed);
      }
      if size == 0 {
        return Ok([]);
      }
      if !eof && expired {
        failed := true;
        pending := [];
        return Err(DeadlineExpired);
      }
      ghost var before := View();
      while pending == [] && !eof
        invariant Fill(View()) == Fill(before) && !failed
        decreases |pulls|, !eof
      {
        if pulls == [] {
          eof := true;
        } else {
          var pull := pulls[0];
          pulls := pulls[1..];
          match pull {
            case TransportError =>
              failed := true;
              return Err(Transport);
            case Chunk(bytes) =>
              if |bytes| > remaining {
                failed := true;
                return Err(TooLong);
              }
              remaining := remaining - |bytes|;
              pending := bytes;
          }
        }
      }
      var n := Min(size, |pending|);
      r := Ok(pending[..n]);
      pending := pending[n..];
    }

    /** Collect everything not read yet. */
    method IntoBytes(expired: nat -> bool) returns (r: Result)
      modifies this
      ensures r == Collect(old(View()), expired, 0)
    {
      var body: seq<byte> := [];
      var turn := 0;
      ghost var start := View();
      while true
        invariant Collect(start, expired, 0) == Prefixed(body, Collect(View(), expired, turn))
        decreases |pulls|, |pending|
      {
        ReadShrinks(View(), COLLECT_BUFFER_BYTES, expired(turn));
        r := ReadInto(COLLECT_BUFFER_BYTES, expired(turn));
        if r.Err? {
          return;
        }
        turn := turn + 1;
        if r.bytes == [] {
          assert body + [] == body;
          return Ok(body);
        }
        PrefixedTwice(body, r.bytes, Collect(View(), expired, turn));
        body := body + r.bytes;
      }
    }
  }

  // ---- collecting, as a function

  function Prefixed(bytes: seq<byte>, r: Result): Result {
    match r
    case Ok(rest) => Ok(bytes + rest)
    case Err(e) => Err(e)
  }

  lemma PrefixedTwice(first: seq<byte>, second: seq<byte>, r: Result)
    ensures Prefixed(first, Prefixed(second, r)) == Prefixed(first + second, r)
  {
    if r.Ok? {
      assert first + (second + r.bytes) == (first + second) + r.bytes;
    }
  }

  function Collect(b: Body, expired: nat -> bool, turn: nat): Result
    decreases |b.pulls|, |b.pending|
  {
    var step := Read(b, COLLECT_BUFFER_BYTES, expired(turn));
    if step.result.Err? || step.result.bytes == [] then step.result
    else
      ReadShrinks(b, COLLECT_BUFFER_BYTES, expired(turn));
      Prefixed(step.result.bytes, Collect(step.body, expired, turn + 1))
  }

  // ---- what is still to come

  /** The bytes the transport will yield before it ends or breaks. */
  function Stream(pulls: seq<Pull>): seq<byte> {
    if pulls == [] || pulls[0].TransportError? then [] else pulls[0].bytes + Stream(pulls[1..])
  }

  function Content(b: Body): seq<byte> {
    b.pending + Stream(b.pulls)
  }

  /** Once the end was seen nothing is left to pull. */
  predicate Valid(b: Body) {
    b.eof ==> b.pulls == []
  }

  lemma {:induction false} FillConserves(b: Body)
    requires Valid(b) && !b.failed
    ensures var f := Fill(b);
            && Valid(f.body) && |f.body.pulls| <= |b.pulls|
            && (f.result.Err? <==> f.body.failed)
            && (f.result.Ok? ==>
                  && f.result.bytes == [] && Content(f.body) == Content(b)
                  && |f.body.pending| + f.body.remaining == |b.pending| + b.remaining
                  && (f.body.pending == [] ==> f.body.eof))
            && (b.pending != [] ==> f.body == b)
            && (b.pending == [] && f.body.pending != [] ==> |f.body.pulls| < |b.pulls|)
    decreases |b.pulls|
  {
    if b.pending == [] && !b.eof && b.pulls != [] && b.pulls[0].Chunk? && |b.pulls[0].bytes| <= b.remaining {
      var bytes := b.pulls[0].bytes;
      var next := b.(pulls := b.pulls[1..], remaining := b.remaining - |bytes|, pending := bytes);
      assert Content(next) == Content(b);
      FillConserves(next);
    }
  }

  /** A read hands over a prefix of what is to come and loses nothing; until a
      failure the budget accounts for every byte. */
  lemma ReadConserves(b: Body, size: nat, expired: bool)
    requires Valid(b)
    ensures var s := Read(b, size, expired);
            && Valid(s.body)
            && (s.result.Err? <==> s.body.failed)
            && (b.failed ==> s == Stepped(b, Err(AlreadyFailed)))
            && (s.result.Ok? ==>
                  && |s.result.bytes| <= size
                  && s.result.bytes + Content(s.body) == Content(b)
                  && |s.result.bytes| + |s.body.pending| + s.body.remaining == |b.pending| + b.remaining
                  && (size > 0 && s.result.bytes == [] ==> Content(b) == [] && s.body.eof))
  {
    if !b.failed && size > 0 && !(!b.eof && expired) {
      FillConserves(b);
      var f := Fill(b);
      if f.result.Ok? {
        var n := Min(size, |f.body.pending|);
        assert f.body.pending[..n] + (f.body.pending[n..] + Stream(f.body.pulls)) == Content(f.body);
      }
    }
  }

  /** A read after the deadline, before the end of the body was seen, fails for
      good and drops what was pending; once the end was seen there is no
      deadline. */
  lemma DeadlinesEndTheBody(b: Body, size: nat, calls: seq<Call>)
    requires Valid(b) && !b.failed && size > 0
    ensures !b.eof ==>
              && Read(b, size, true).result == Err(DeadlineExpired)
              && Read(b, size, true).body.pending == []
              && ReadAll(Read(b, size, true).body, calls).delivered == []
    ensures b.eof ==> Read(b, size, true) == Read(b, size, false) && Read(b, size, true).result.Ok?
  {
    if !b.eof {
      FailureIsPermanent(Read(b, size, true).body, calls);
    }
  }

  lemma ReadShrinks(b: Body, size: nat, expired: bool)
    requires size > 0
    ensures var s := Read(b, size, expired);
            s.result.Ok? && s.result.bytes != [] ==>
              |s.body.pulls| < |b.pulls| || (|s.body.pulls| == |b.pulls| && |s.body.pending| < |b.pending|)
  {
    FillShrinks(b);
  }

  lemma {:induction false} FillShrinks(b: Body)
    ensures var f := Fill(b).body;
            && |f.pulls| <= |b.pulls| && (b.pending != [] ==> f == b)
            && (b.pending == [] && f.pending != [] ==> |f.pulls| < |b.pulls|)
    decreases |b.pulls|
  {
    if b.pending == [] && !b.eof && b.pulls != [] && b.pulls[0].Chunk? && |b.pulls[0].bytes| <= b.remaining {
      FillShrinks(b.(pulls := b.pulls[1..], remaining := b.remaining - |b.pulls[0].bytes|,
                     pending := b.pulls[0].bytes));
    }
  }

  // ---- any sequence of reads

  datatype Call = Call(size: nat, expired: bool)

  datatype Session = Session(body: Body, delivered: seq<byte>)

  function ReadAll(b: Body, calls: seq<Call>): Session
    decreases |calls|
  {
    if calls == [] then Session(b, [])
    else
      var step := Read(b, calls[0].size, calls[0].expired);
      var rest := ReadAll(step.body, calls[1..]);
      if step.result.Ok? then Session(rest.body, step.result.bytes + rest.delivered) else rest
  }

  lemma {:induction false} FailureIsPermanent(b: Body, calls: seq<Call>)
    requires b.failed
    ensures ReadAll(b, calls) == Session(b, [])
    decreases |calls|
  {
    if calls != [] {
      FailureIsPermanent(b, calls[1..]);
    }
  }

  lemma {:induction false} ReadsConserve(b: Body, calls: seq<Call>)
    requires Valid(b)
    ensures var s := ReadAll(b, calls);
            && Valid(s.body)
            && s.delivered <= Content(b) && |s.delivered| <= |b.pending| + b.remaining
            && (!s.body.failed ==>
                  && !b.failed && s.delivered + Content(s.body) == Content(b)
                  && |s.delivered| + |s.body.pending| + s.body.remaining == |b.pending| + b.remaining)
    decreases |calls|
  {
    if calls == [] {
      assert [] + Content(b) == Content(b);
    } else {
      var step := Read(b, calls[0].size, calls[0].expired);
      ReadConserves(b, calls[0].size, calls[0].expired);
      if step.result.Ok? {
        ReadsConserve(step.body, calls[1..]);
        var rest := ReadAll(step.body, calls[1..]);
        PrefixExtends(step.result.bytes, rest.delivered, Content(step.body), Content(rest.body));
      } else {
        FailureIsPermanent(step.body, calls[1..]);
      }
    }
  }

  lemma PrefixExtends(head: seq<byte>, tail: seq<byte>, whole: seq<byte>, left: seq<byte>)
    requires tail <= whole
    ensures head + tail <= head + whole
    ensures tail + left == whole ==> (head + tail) + left == head + whole
  {
    assert head + (tail + left) == (head + tail) + left;
  }

  /** Over any reads of any sizes the caller gets the transport's bytes in
      order, never more than the ceiling, with every byte accounted for until
      a failure; a zero-length answer means the body is complete. */
  lemma BodyIsDeliveredInOrder(maxBytes: nat, pulls: seq<Pull>, calls: seq<Call>, size: nat, expired: bool)
    ensures var s := ReadAll(NewBody(maxBytes, pulls), calls);
            && s.delivered <= Stream(pulls) && |s.delivered| <= maxBytes
            && (!s.body.failed ==> |s.delivered| + |s.body.pending| + s.body.remaining == maxBytes)
            && (size > 0 && Read(s.body, size, expired).result == Ok([]) ==> s.delivered == Stream(pulls))
  {
    var b := NewBody(maxBytes, pulls);
    assert Content(b) == Stream(pulls);
    ReadsConserve(b, calls);
    var s := ReadAll(b, calls);
    ReadConserves(s.body, size, expired);
    if size > 0 && Read(s.body, size, expired).result == Ok([]) {
      assert s.delivered + [] == s.delivered;
    }
  }

  /** Collecting succeeds exactly when nothing breaks and the rest fits, and
      then returns exactly the unread rest. */
  lemma {:induction false} CollectReturnsTheRest(b: Body, expired: nat -> bool, turn: nat)
    requires Valid(b)
    ensures Collect(b, expired, turn).Ok? ==> Collect(b, expired, turn).bytes == Content(b)
    ensures Collect(b, expired, turn).Ok? ==> !b.failed && Fits(b)
    ensures (forall t :: !expired(t)) && !b.failed && Fits(b) ==> Collect(b, expired, turn).Ok?
    decreases |b.pulls|, |b.pending|
  {
    var step := CollectStep(b, expired, turn);
    if step.result.Ok? && step.result.bytes != [] {
      CollectReturnsTheRest(step.body, expired, turn + 1);
    }
  }

  /** What one turn of collecting leaves to the next. */
  lemma CollectStep(b: Body, expired: nat -> bool, turn: nat) returns (step: Stepped)
    requires Valid(b)
    ensures !b.failed && Fits(b) && !expired(turn) ==> step.result.Ok?
    ensures step.result.Err? ==> Collect(b, expired, turn) == step.result
    ensures step.result.Ok? ==> !b.failed && !step.body.failed && Valid(step.body)
    ensures step.result.Ok? && step.result.bytes == [] ==>
              Collect(b, expired, turn) == Ok([]) && Content(b) == [] && Fits(b)
    ensures step.result.Ok? && step.result.bytes != [] ==>
              && Collect(b, expired, turn) == Prefixed(step.result.bytes, Collect(step.body, expired, turn + 1))
              && step.result.bytes + Content(step.body) == Content(b)
              && (Fits(step.body) <==> Fits(b))
              && (|step.body.pulls| < |b.pulls|
                  || (|step.body.pulls| == |b.pulls| && |step.body.pending| < |b.pending|))
  {
    step := Read(b, COLLECT_BUFFER_BYTES, expired(turn));
    ReadConserves(b, COLLECT_BUFFER_BYTES, expired(turn));
    ReadKeepsFit(b, COLLECT_BUFFER_BYTES, expired(turn));
    ReadShrinks(b, COLLECT_BUFFER_BYTES, expired(turn));
  }

  /** No transport error ahead, and what is to come is within the ceiling. */
  ghost predicate Fits(b: Body) {
    TransportError !in b.pulls && |Stream(b.pulls)| <= b.remaining
  }

  lemma {:induction false} FillKeepsFit(b: Body)
    requires !b.failed
    ensures Fits(b) ==> Fill(b).result.Ok?
    ensures Fill(b).result.Ok? ==> (Fits(Fill(b).body) <==> Fits(b))
    decreases |b.pulls|
  {
    if b.pending == [] && !b.eof && b.pulls != [] && b.pulls[0].Chunk? {
      var bytes, rest := b.pulls[0].bytes, b.pulls[1..];
      assert b.pulls == [b.pulls[0]] + rest;
      if |bytes| <= b.remaining {
        FillKeepsFit(b.(pulls := rest, remaining := b.remaining - |bytes|, pending := bytes));
      }
    }
  }

  lemma ReadKeepsFit(b: Body, size: nat, expired: bool)
    requires Valid(b) && size > 0
    ensures var s := Read(b, size, expired);
            && (!b.failed && Fits(b) && !expired ==> s.result.Ok?)
            && (s.result.Ok? ==> (Fits(s.body) <==> Fits(b)))
            && (s.result == Ok([]) ==> Fits(b))
  {
    if !b.failed {
      FillKeepsFit(b);
      FillConserves(b);
    }
  }
}
