/**
 * A chat session with the remote model and the two `send` closures of
 * cmd/main.go that drive it: the one of `/start-chat` and the one of `/ops`.
 * The remote model is an oracle that, given how many prompts the session
 * has already submitted, the history and a prompt, returns the entries the
 * client library appends to the history (normally the user turn and the
 * model turn). The call number lets the same prompt on the same history get
 * a different answer later, as a remote service may.
 */
module Session {
  import opened Wrappers
  import opened Render

  /** The remote model: the entries the submission numbered `n` (from 0) appends. */
  type Model = (nat, seq<Content>, string) -> seq<Content>

  /** Lines the server writes to its log while relaying. */
  datatype LogLine =
    | HistoryLength(got: nat, want: nat)
    | CommandFailed(output: string)
    | RepairFailed(output: string, command: string)

  /**
   * A `send` either returns the text of the last history entry or panics
   * indexing `History[len(History)-1]` on an empty history.
   */
  datatype SendOutcome = Reply(text: string) | IndexPanic

  /** The history, the log, and the prompts submitted to the model so far. */
  datatype SessionState = SessionState(history: seq<Content>, log: seq<LogLine>, asked: seq<string>)

  datatype Sent = Sent(state: SessionState, outcome: SendOutcome)

  const EchoTrue: string := "echo true"
  const EchoFalse: string := "echo false"

  /** The two replies `/ops` passes through without contacting the model. */
  predicate IsSentinel(msg: string) {
    msg == EchoTrue || msg == EchoFalse
  }

  /** Submits `msg`, logs a history growth other than two, reads the last entry. */
  function Submission(st: SessionState, msg: string, model: Model): Sent {
    var want := |st.history| + 2;
    var h := st.history + model(|st.asked|, st.history, msg);
    var log := if |h| != want then st.log + [HistoryLength(|h|, want)] else st.log;
    Sent(SessionState(h, log, st.asked + [msg]),
         if |h| == 0 then IndexPanic else Reply(ContentText(Some(h[|h| - 1]))))
  }

  /** The `send` closure of `/start-chat`. */
  function ChatSend(st: SessionState, msg: string, model: Model): Sent {
    if msg == "" then Sent(st, Reply("")) else Submission(st, msg, model)
  }

  /** The `send` closure of `/ops`. */
  function OpsSend(st: SessionState, msg: string, model: Model): Sent {
    if IsSentinel(msg) then Sent(st, Reply(msg)) else Submission(st, msg, model)
  }

  /** A model that always appends exactly a user turn and a model turn. */
  ghost predicate WellBehaved(model: Model) {
    forall n, h, p :: |model(n, h, p)| == 2
  }

  /** `genai.ChatSession` together with the bookkeeping of the closures. */
  class ChatSession {
    var history: seq<Content>
    var log: seq<LogLine>
    var asked: seq<string>

    function State(): SessionState
      reads this
    {
      SessionState(history, log, asked)
    }

    /** `model.StartChat()`: a fresh session with an empty history. */
    constructor ()
      ensures State() == SessionState([], [], [])
    {
      history, log, asked := [], [], [];
    }

    /** The oracle call: the library appends the model's entries to the history. */
    method Submit(msg: string, model: Model) returns (r: SendOutcome)
      modifies this
      ensures Sent(State(), r) == Submission(old(State()), msg, model)
    {
      var nh := |history|;
      history := history + model(|asked|, history, msg);
      asked := asked + [msg];
      if |history| != nh + 2 {
        log := log + [HistoryLength(|history|, nh + 2)];
      }
      if |history| == 0 {
        return IndexPanic;
      }
      var text := ContentString(Some(history[|history| - 1]));
      r := Reply(text);
    }

    /** `send` of `/start-chat`: the empty message is answered with "". */
    method SendChat(msg: string, model: Model) returns (r: SendOutcome)
      modifies this
      ensures Sent(State(), r) == ChatSend(old(State()), msg, model)
    {
      if msg == "" {
        return Reply("");
      }
      r := Submit(msg, model);
    }

    /** `send` of `/ops`: a sentinel is returned unchanged. */
    method SendOps(msg: string, model: Model) returns (r: SendOutcome)
      modifies this
      ensures Sent(State(), r) == OpsSend(old(State()), msg, model)
    {
      if msg == EchoTrue || msg == EchoFalse {
        return Reply(msg);
      }
      r := Submit(msg, model);
    }
  }

  // ---------------------------------------------------------------------
  // Properties of the two closures.

  /**
   * On `/start-chat` the empty message returns "" and leaves the session as
   * it was, whatever the model would have answered.
   */
  lemma ChatEmptyMessage(st: SessionState, model: Model, other: Model)
    ensures ChatSend(st, "", model) == Sent(st, Reply(""))
    ensures ChatSend(st, "", model) == ChatSend(st, "", other)
  {
  }

  /**
   * On `/ops` a sentinel comes back unchanged, and the session is untouched
   * whatever the model would have answered.
   */
  lemma OpsSentinelMessage(st: SessionState, msg: string, model: Model, other: Model)
    requires IsSentinel(msg)
    ensures OpsSend(st, msg, model) == Sent(st, Reply(msg))
    ensures OpsSend(st, msg, model) == OpsSend(st, msg, other)
  {
  }

  /**
   * A submitted message is recorded as asked, the history grows by what the
   * model appended, a growth other than two is logged without changing the
   * outcome, and the reply is the rendering of the last entry.
   */
  lemma SubmitEffect(st: SessionState, msg: string, model: Model)
    ensures var r := Submission(st, msg, model);
      && r.state.history == st.history + model(|st.asked|, st.history, msg)
      && r.state.asked == st.asked + [msg]
      && (r.state.log == st.log <==> |r.state.history| == |st.history| + 2)
      && (r.state.log != st.log ==>
            r.state.log == st.log + [HistoryLength(|r.state.history|, |st.history| + 2)])
      && (r.outcome.IndexPanic? <==> r.state.history == [])
      && (r.outcome.Reply? ==>
            r.outcome.text == ContentText(Some(r.state.history[|r.state.history| - 1])))
  {
  }

  /**
   * Every message but the empty one is submitted on `/start-chat`, and every
   * message but a sentinel on `/ops` (including the empty one there).
   */
  lemma SendSubmits(st: SessionState, msg: string, model: Model)
    ensures msg != "" ==> ChatSend(st, msg, model) == Submission(st, msg, model)
    ensures !IsSentinel(msg) ==> OpsSend(st, msg, model) == Submission(st, msg, model)
    ensures OpsSend(st, "", model) == Submission(st, "", model)
  {
  }

  /**
   * With a model that appends two entries, a submission never panics, logs
   * nothing, grows the history by two and returns the model turn's text.
   */
  lemma SubmitWellBehaved(st: SessionState, msg: string, model: Model)
    requires WellBehaved(model)
    ensures var r := Submission(st, msg, model);
      && |r.state.history| == |st.history| + 2
      && r.state.log == st.log
      && r.outcome == Reply(ContentText(Some(model(|st.asked|, st.history, msg)[1])))
  {
    var added := model(|st.asked|, st.history, msg);
    assert |added| == 2;
    var h := st.history + added;
    assert h[|h| - 1] == added[1];
  }

  /** A non-empty history never makes a submission panic. */
  lemma SubmitOnNonEmpty(st: SessionState, msg: string, model: Model)
    requires st.history != []
    ensures Submission(st, msg, model).outcome.Reply?
    ensures st.history <= Submission(st, msg, model).state.history
  {
  }
}
