/**
 * The `/start-chat` loop of cmd/main.go: one chat session per connection,
 * every well-formed frame is sent through the session and the text of the
 * last history entry is written back.
 */
module ChatRelay {
  import opened Session
  import opened Frames

  datatype Served = Served(state: SessionState, sent: seq<string>, stop: Stop)

  /** The session, the replies written and why the loop ended, `written` replies in. */
  function Serve(st: SessionState, frames: seq<Frame>, model: Model, writeOk: Writer, written: nat): Served
    decreases |frames|
  {
    if frames == [] then Served(st, [], Pending)
    else match frames[0]
      case ReadErr => Served(st, [], ReadFailed)
      case Malformed => Serve(st, frames[1..], model, writeOk, written)
      case Ok(content) =>
        var s := ChatSend(st, content, model);
        match s.outcome
        case IndexPanic => Served(s.state, [], Panicked)
        case Reply(text) =>
          if !writeOk(written) then Served(s.state, [], WriteFailed)
          else
            var rest := Serve(s.state, frames[1..], model, writeOk, written + 1);
            Served(rest.state, [text] + rest.sent, rest.stop)
  }

  /** The `for` loop of the `/start-chat` handler. */
  method ServeLoop(session: ChatSession, frames: seq<Frame>, model: Model, writeOk: Writer)
    returns (sent: seq<string>, stop: Stop)
    modifies session
    ensures Served(session.State(), sent, stop) == Serve(old(session.State()), frames, model, writeOk, 0)
  {
    sent := [];
    var i := 0;
    while i < |frames|
      invariant 0 <= i <= |frames|
      invariant Serve(old(session.State()), frames, model, writeOk, 0)
             == var rest := Serve(session.State(), frames[i..], model, writeOk, |sent|);
                Served(rest.state, sent + rest.sent, rest.stop)
      decreases |frames| - i
    {
      match frames[i]
      case ReadErr =>
        return sent, ReadFailed;
      case Malformed =>
        assert frames[i..][1..] == frames[i + 1..];
        i := i + 1;
      case Ok(content) =>
        assert frames[i..][0] == frames[i] && frames[i..][1..] == frames[i + 1..];
        var r := session.SendChat(content, model);
        match r
        case IndexPanic =>
          return sent, Panicked;
        case Reply(text) =>
          if !writeOk(|sent|) {
            return sent, WriteFailed;
          }
          sent := sent + [text];
          i := i + 1;
    }
    stop := Pending;
  }

  /** The non-empty messages, the ones that reach the model. */
  function Submitted(msgs: seq<string>): nat
    decreases |msgs|
  {
    if msgs == [] then 0 else (if msgs[0] != "" then 1 else 0) + Submitted(msgs[1..])
  }

  /** A malformed frame produces no reply, changes nothing and the loop goes on. */
  lemma MalformedSkipped(st: SessionState, rest: seq<Frame>, model: Model, writeOk: Writer, written: nat)
    ensures Serve(st, [Malformed] + rest, model, writeOk, written)
         == Serve(st, rest, model, writeOk, written)
  {
    assert ([Malformed] + rest)[1..] == rest;
  }

  /** A read error ends the loop with the session as it was. */
  lemma ReadErrStops(st: SessionState, rest: seq<Frame>, model: Model, writeOk: Writer, written: nat)
    ensures Serve(st, [ReadErr] + rest, model, writeOk, written) == Served(st, [], ReadFailed)
  {
  }

  /**
   * History bookkeeping over a whole connection: with a model that appends
   * two entries per submission and no transport failure, the history grows
   * by exactly 2N for the N non-empty messages, nothing is logged, and every
   * well-formed frame, the empty one included, gets one reply.
   */
  lemma {:induction false} HistoryGrowth(st: SessionState, frames: seq<Frame>, model: Model, writeOk: Writer, written: nat)
    requires WellBehaved(model)
    requires NoReadErr(frames)
    requires forall k :: writeOk(k)
    ensures var r := Serve(st, frames, model, writeOk, written);
      && |r.state.history| == |st.history| + 2 * Submitted(Messages(frames))
      && r.state.log == st.log
      && |r.sent| == |Messages(frames)|
      && r.stop == Pending
    decreases |frames|
  {
    if frames != [] {
      assert NoReadErr(frames[1..]) by {
        forall i | 0 <= i < |frames[1..]| ensures !frames[1..][i].ReadErr? {
          assert frames[1..][i] == frames[i + 1];
        }
      }
      assert !frames[0].ReadErr?;
      if frames[0].Ok? {
        var c := frames[0].content;
        var s := ChatSend(st, c, model);
        if c != "" {
          SubmitWellBehaved(st, c, model);
        }
        HistoryGrowth(s.state, frames[1..], model, writeOk, written + 1);
        assert Messages(frames) == [c] + Messages(frames[1..]);
        assert ([c] + Messages(frames[1..]))[1..] == Messages(frames[1..]);
      } else {
        HistoryGrowth(st, frames[1..], model, writeOk, written);
      }
    }
  }

  /**
   * History bookkeeping for any model: the log only grows, and when a whole
   * connection without transport failure logs no history mismatch, its N
   * non-empty messages grew the history by exactly 2N and every well-formed
   * frame got one reply.
   */
  lemma {:induction false} HistoryGrowthUnlessLogged(st: SessionState, frames: seq<Frame>, model: Model, writeOk: Writer, written: nat)
    requires NoReadErr(frames)
    requires forall k :: writeOk(k)
    ensures var r := Serve(st, frames, model, writeOk, written);
      && st.log <= r.state.log
      && (r.state.log == st.log ==>
            && |r.state.history| == |st.history| + 2 * Submitted(Messages(frames))
            && |r.sent| == |Messages(frames)|
            && r.stop == Pending)
    decreases |frames|
  {
    if frames != [] {
      assert NoReadErr(frames[1..]) by {
        forall i | 0 <= i < |frames[1..]| ensures !frames[1..][i].ReadErr? {
          assert frames[1..][i] == frames[i + 1];
        }
      }
      assert !frames[0].ReadErr?;
      if frames[0].Ok? {
        var c := frames[0].content;
        var s := ChatSend(st, c, model);
        assert Messages(frames) == [c] + Messages(frames[1..]);
        assert ([c] + Messages(frames[1..]))[1..] == Messages(frames[1..]);
        if c != "" {
          SubmitEffect(st, c, model);
        }
        assert st.log <= s.state.log;
        assert s.state.log == st.log ==> |s.state.history| == |st.history| + (if c != "" then 2 else 0);
        if s.outcome.Reply? {
          HistoryGrowthUnlessLogged(s.state, frames[1..], model, writeOk, written + 1);
          var r := Serve(s.state, frames[1..], model, writeOk, written + 1);
          assert Serve(st, frames, model, writeOk, written).state == r.state;
          if r.state.log == st.log {
            assert |st.log| <= |s.state.log| <= |r.state.log|;
            assert s.state.log == st.log;
          }
        } else {
          assert s.state.log != st.log;
        }
      } else {
        HistoryGrowthUnlessLogged(st, frames[1..], model, writeOk, written);
      }
    }
  }
}
