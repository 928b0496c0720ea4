/**
 * The `/ai` loop of cmd/main.go: every well-formed frame is one independent
 * generation request whose rendered response is written back.
 */
module AiRelay {
  import opened Wrappers
  import opened Render
  import opened Frames

  /**
   * The single-shot generation call numbered `n` (from 0) on this
   * connection; `None` is an error from the model.
   */
  type Generate = (nat, string) -> Option<Response>

  datatype Served = Served(sent: seq<string>, stop: Stop)

  /**
   * The replies written and the reason the loop ended, after `calls`
   * generation calls and `written` replies.
   */
  function Serve(frames: seq<Frame>, generate: Generate, writeOk: Writer, calls: nat, written: nat): Served
    decreases |frames|
  {
    if frames == [] then Served([], Pending)
    else match frames[0]
      case ReadErr => Served([], ReadFailed)
      case Malformed => Serve(frames[1..], generate, writeOk, calls, written)
      case Ok(content) =>
        match generate(calls, content)
        case None => Serve(frames[1..], generate, writeOk, calls + 1, written)
        case Some(resp) =>
          if !writeOk(written) then Served([], WriteFailed)
          else
            var rest := Serve(frames[1..], generate, writeOk, calls + 1, written + 1);
            Served([ResponseText(resp)] + rest.sent, rest.stop)
  }

  /** The replies `generate` gives rise to, ignoring transport failures. */
  function Answers(frames: seq<Frame>, generate: Generate, calls: nat): seq<string>
    decreases |frames|
  {
    if frames == [] then []
    else if !frames[0].Ok? then Answers(frames[1..], generate, calls)
    else match generate(calls, frames[0].content)
      case Some(resp) => [ResponseText(resp)] + Answers(frames[1..], generate, calls + 1)
      case None => Answers(frames[1..], generate, calls + 1)
  }

  /** The `for` loop of the `/ai` handler over the frames the client sends. */
  method ServeLoop(frames: seq<Frame>, generate: Generate, writeOk: Writer)
    returns (sent: seq<string>, stop: Stop)
    ensures Served(sent, stop) == Serve(frames, generate, writeOk, 0, 0)
  {
    sent := [];
    var calls := 0;
    var i := 0;
    while i < |frames|
      invariant 0 <= i <= |frames|
      invariant Serve(frames, generate, writeOk, 0, 0)
             == var rest := Serve(frames[i..], generate, writeOk, calls, |sent|);
                Served(sent + rest.sent, rest.stop)
      decreases |frames| - i
    {
      match frames[i]
      case ReadErr =>
        return sent, ReadFailed;
      case Malformed =>
        assert frames[i..][1..] == frames[i + 1..];
        i := i + 1;
      case Ok(content) =>
        assert frames[i..][0] == frames[i] && frames[i..][1..] == frames[i + 1..];
        var resp := generate(calls, content);
        calls := calls + 1;
        if resp.Some? {
          var got := ResponseString(resp.value);
          if !writeOk(|sent|) {
            return sent, WriteFailed;
          }
          sent := sent + [got];
        }
        i := i + 1;
    }
    stop := Pending;
  }

  /** A malformed frame produces no reply and the loop goes on. */
  lemma MalformedSkipped(rest: seq<Frame>, generate: Generate, writeOk: Writer, calls: nat, written: nat)
    ensures Serve([Malformed] + rest, generate, writeOk, calls, written)
         == Serve(rest, generate, writeOk, calls, written)
  {
    assert ([Malformed] + rest)[1..] == rest;
  }

  /** A read error ends the loop with nothing more written. */
  lemma ReadErrStops(rest: seq<Frame>, generate: Generate, writeOk: Writer, calls: nat, written: nat)
    ensures Serve([ReadErr] + rest, generate, writeOk, calls, written) == Served([], ReadFailed)
  {
  }

  /** A model error produces no reply and the loop goes on. */
  lemma ModelErrorSkipped(content: string, rest: seq<Frame>, generate: Generate, writeOk: Writer, calls: nat, written: nat)
    requires generate(calls, content).None?
    ensures Serve([Ok(content)] + rest, generate, writeOk, calls, written)
         == Serve(rest, generate, writeOk, calls + 1, written)
  {
    assert ([Ok(content)] + rest)[1..] == rest;
  }

  /** A failed write ends the loop. */
  lemma WriteErrStops(content: string, rest: seq<Frame>, generate: Generate, writeOk: Writer, calls: nat, written: nat)
    requires generate(calls, content).Some? && !writeOk(written)
    ensures Serve([Ok(content)] + rest, generate, writeOk, calls, written) == Served([], WriteFailed)
  {
  }

  /**
   * Without transport failures, every frame the model answers gets its
   * rendered response written back, in order, and the others get nothing.
   */
  lemma {:induction false} AllAnswered(frames: seq<Frame>, generate: Generate, writeOk: Writer, calls: nat, written: nat)
    requires NoReadErr(frames)
    requires forall k :: writeOk(k)
    ensures Serve(frames, generate, writeOk, calls, written) == Served(Answers(frames, generate, calls), Pending)
    decreases |frames|
  {
    if frames != [] {
      assert NoReadErr(frames[1..]) by {
        forall i | 0 <= i < |frames[1..]| ensures !frames[1..][i].ReadErr? {
          assert frames[1..][i] == frames[i + 1];
        }
      }
      assert !frames[0].ReadErr?;
      if !frames[0].Ok? {
        AllAnswered(frames[1..], generate, writeOk, calls, written);
      } else if generate(calls, frames[0].content).Some? {
        AllAnswered(frames[1..], generate, writeOk, calls + 1, written + 1);
      } else {
        AllAnswered(frames[1..], generate, writeOk, calls + 1, written);
      }
    }
  }

  /** The loop never writes more replies than it received well-formed frames. */
  lemma {:induction false} RepliesBounded(frames: seq<Frame>, generate: Generate, writeOk: Writer, calls: nat, written: nat)
    ensures |Serve(frames, generate, writeOk, calls, written).sent| <= |Messages(frames)|
    decreases |frames|
  {
    if frames != [] {
      if !frames[0].Ok? {
        RepliesBounded(frames[1..], generate, writeOk, calls, written);
      } else if generate(calls, frames[0].content).Some? {
        RepliesBounded(frames[1..], generate, writeOk, calls + 1, written + 1);
      } else {
        RepliesBounded(frames[1..], generate, writeOk, calls + 1, written);
      }
    }
  }
}
