/**
 * The `/ops` handler of cmd/main.go: the model's replies are run as `bash -c`
 * command lines; a failing command triggers exactly one repair prompt whose
 * reply is run once more; the output of the FIRST command is what is written
 * back, because the repair's `output` is a new variable in an inner scope.
 */
module OpsRelay {
  import opened Wrappers
  import opened Render
  import opened Session
  import opened Frames

  /** What `cmd.CombinedOutput()` yields: merged stdout and stderr, and `err == nil`. */
  datatype ShellResult = ShellResult(output: string, ok: bool)

  /**
   * `bash -c <command>` for the command numbered `n` (from 0) on this
   * connection; the number lets the same command line succeed once and fail
   * later, as commands with side effects do.
   */
  type Shell = (nat, string) -> ShellResult

  /** The instruction sent, not streamed, when the connection opens. */
  const InitInstruction: string :=
    "you are connected to a bash terminal that runs on a Debian GNU/Linux 12 (bookworm).Everything you reply will be copy pasted to bash as is to be ran. Please don't reply with anything other than bash commands. if you don't know return echo false. You will be pasted the reply of the bash terminal as a response and if the task is done return echo true. Please make sure that all commands you send return and don't hang forver and are cli ready meaning that you cannot confirum. don't install any new packages unless asked."

  const RepairPrefix: string := "There was an error running the command. Output was: "
  const RepairSuffix: string := "\nFix it."

  /** The prompt that reports a failed command and asks for a fix. */
  function RepairPrompt(output: string): string {
    RepairPrefix + output + RepairSuffix
  }

  datatype TurnOutcome = Respond(content: string) | TurnPanic

  /** The session after one frame, the commands run (in order), and the result. */
  datatype Turn = Turn(state: SessionState, ran: seq<string>, outcome: TurnOutcome)

  /** One iteration of the `/ops` loop body for a well-formed message, `runs` commands in. */
  function TurnOf(st: SessionState, msg: string, model: Model, shell: Shell, runs: nat): Turn {
    var first := OpsSend(st, msg, model);
    match first.outcome
    case IndexPanic => Turn(first.state, [], TurnPanic)
    case Reply(reply) =>
      var run := shell(runs, reply);
      if run.ok then Turn(first.state, [reply], Respond(run.output))
      else
        var logged := first.state.(log := first.state.log + [CommandFailed(run.output)]);
        var repair := OpsSend(logged, RepairPrompt(run.output), model);
        match repair.outcome
        case IndexPanic => Turn(repair.state, [reply], TurnPanic)
        case Reply(fixed) =>
          var rerun := shell(runs + 1, fixed);
          var log := if rerun.ok then repair.state.log
                     else repair.state.log + [RepairFailed(rerun.output, fixed)];
          Turn(repair.state.(log := log), [reply, fixed], Respond(run.output))
  }

  /** The loop body: send, run, repair at most once, pick the output to write back. */
  method RunTurn(session: ChatSession, msg: string, model: Model, shell: Shell, runs: nat)
    returns (ran: seq<string>, outcome: TurnOutcome)
    modifies session
    ensures Turn(session.State(), ran, outcome) == TurnOf(old(session.State()), msg, model, shell, runs)
  {
    var r := session.SendOps(msg, model);
    if r.IndexPanic? {
      return [], TurnPanic;
    }
    var reply := r.text;
    var result := shell(runs, reply);
    var output, ok := result.output, result.ok;
    ran := [reply];
    if !ok {
      session.log := session.log + [CommandFailed(output)];
      var fixedReply := session.SendOps(RepairPrompt(output), model);
      if fixedReply.IndexPanic? {
        return ran, TurnPanic;
      }
      var fixed := fixedReply.text;
      var rerun := shell(runs + 1, fixed);
      var output, ok := rerun.output, rerun.ok;
      if !ok {
        session.log := session.log + [RepairFailed(output, fixed)];
      }
      ran := ran + [fixed];
    }
    outcome := Respond(output);
  }

  datatype Served = Served(state: SessionState, sent: seq<string>, ran: seq<string>, stop: Stop)

  /** The `for` loop of the `/ops` handler, `runs` commands and `written` replies in. */
  function Serve(st: SessionState, frames: seq<Frame>, model: Model, shell: Shell, writeOk: Writer, runs: nat, written: nat): Served
    decreases |frames|
  {
    if frames == [] then Served(st, [], [], Pending)
    else match frames[0]
      case ReadErr => Served(st, [], [], ReadFailed)
      case Malformed => Serve(st, frames[1..], model, shell, writeOk, runs, written)
      case Ok(content) =>
        var t := TurnOf(st, content, model, shell, runs);
        match t.outcome
        case TurnPanic => Served(t.state, [], t.ran, Panicked)
        case Respond(output) =>
          if !writeOk(written) then Served(t.state, [], t.ran, WriteFailed)
          else
            var rest := Serve(t.state, frames[1..], model, shell, writeOk, runs + |t.ran|, written + 1);
            Served(rest.state, [output] + rest.sent, t.ran + rest.ran, rest.stop)
  }

  /** A whole `/ops` connection: a fresh session, the instruction, then the loop. */
  function Connection(frames: seq<Frame>, model: Model, shell: Shell, writeOk: Writer): Served {
    var init := OpsSend(SessionState([], [], []), InitInstruction, model);
    if init.outcome.IndexPanic? then Served(init.state, [], [], Panicked)
    else Serve(init.state, frames, model, shell, writeOk, 0, 0)
  }

  method ServeLoop(session: ChatSession, frames: seq<Frame>, model: Model, shell: Shell, writeOk: Writer)
    returns (sent: seq<string>, ran: seq<string>, stop: Stop)
    modifies session
    ensures Served(session.State(), sent, ran, stop)
         == Serve(old(session.State()), frames, model, shell, writeOk, 0, 0)
  {
    sent, ran := [], [];
    var i := 0;
    while i < |frames|
      invariant 0 <= i <= |frames|
      invariant Serve(old(session.State()), frames, model, shell, writeOk, 0, 0)
             == var rest := Serve(session.State(), frames[i..], model, shell, writeOk, |ran|, |sent|);
                Served(rest.state, sent + rest.sent, ran + rest.ran, rest.stop)
      decreases |frames| - i
    {
      match frames[i]
      case ReadErr =>
        return sent, ran, ReadFailed;
      case Malformed =>
        assert frames[i..][1..] == frames[i + 1..];
        i := i + 1;
      case Ok(content) =>
        assert frames[i..][0] == frames[i] && frames[i..][1..] == frames[i + 1..];
        var commands, outcome := RunTurn(session, content, model, shell, |ran|);
        assert |ran + commands| == |ran| + |commands|;
        ran := ran + commands;
        match outcome
        case TurnPanic =>
          return sent, ran, Panicked;
        case Respond(output) =>
          if !writeOk(|sent|) {
            return sent, ran, WriteFailed;
          }
          sent := sent + [output];
          i := i + 1;
    }
    stop := Pending;
  }

  /** The `/ops` handler after the upgrade. */
  method Handle(frames: seq<Frame>, model: Model, shell: Shell, writeOk: Writer)
    returns (session: ChatSession, sent: seq<string>, ran: seq<string>, stop: Stop)
    ensures fresh(session)
    ensures Served(session.State(), sent, ran, stop) == Connection(frames, model, shell, writeOk)
  {
    session := new ChatSession();
    var init := session.SendOps(InitInstruction, model);
    if init.IndexPanic? {
      return session, [], [], Panicked;
    }
    sent, ran, stop := ServeLoop(session, frames, model, shell, writeOk);
  }

  // ---------------------------------------------------------------------
  // Properties of one turn.

  lemma InitNotSentinel()
    ensures !IsSentinel(InitInstruction)
  {
    assert |InitInstruction| > |EchoFalse|;
  }

  /** The repair prompt is never a sentinel, so the repair always reaches the model. */
  lemma RepairPromptNotSentinel(output: string)
    ensures !IsSentinel(RepairPrompt(output))
  {
    assert |RepairPrompt(output)| >= |RepairPrefix| > |EchoFalse|;
  }

  /**
   * A sentinel is returned by `send` unchanged and then run through bash as
   * it is; if that command succeeds, the session is untouched and its output
   * is written back.
   */
  lemma SentinelTurn(st: SessionState, msg: string, model: Model, shell: Shell, runs: nat)
    requires IsSentinel(msg)
    ensures var t := TurnOf(st, msg, model, shell, runs);
      && |t.ran| > 0 && t.ran[0] == msg
      && (shell(runs, msg).ok ==> t == Turn(st, [msg], Respond(shell(runs, msg).output)))
  {
  }

  /**
   * A command that succeeds is not repaired: it is the only command run and
   * its output is written back; the model was asked at most the message.
   */
  lemma SuccessTurn(st: SessionState, msg: string, model: Model, shell: Shell, runs: nat)
    requires var first := OpsSend(st, msg, model);
      first.outcome.Reply? && shell(runs, first.outcome.text).ok
    ensures var first := OpsSend(st, msg, model);
      TurnOf(st, msg, model, shell, runs)
        == Turn(first.state, [first.outcome.text], Respond(shell(runs, first.outcome.text).output))
  {
  }

  /**
   * A failing command gets exactly one repair prompt, reporting its output
   * (given a non-empty history, as on every frame after the instruction);
   * the reply to it is run exactly once, a second failure is only logged, and
   * the first command's output is still what is written back.
   */
  lemma RepairTurn(st: SessionState, msg: string, model: Model, shell: Shell, runs: nat)
    requires var first := OpsSend(st, msg, model);
      first.outcome.Reply? && !shell(runs, first.outcome.text).ok
    requires st.history != [] || !IsSentinel(msg)
    ensures var first := OpsSend(st, msg, model);
      var output := shell(runs, first.outcome.text).output;
      var logged := first.state.(log := first.state.log + [CommandFailed(output)]);
      var repair := Submission(logged, RepairPrompt(output), model);
      var t := TurnOf(st, msg, model, shell, runs);
      && repair.outcome.Reply?
      && t.outcome == Respond(output)
      && t.ran == [first.outcome.text, repair.outcome.text]
      && t.state.asked == first.state.asked + [RepairPrompt(output)]
      && t.state.history == first.state.history + model(|first.state.asked|, first.state.history, RepairPrompt(output))
      && t.state.log == repair.state.log
           + (if shell(runs + 1, t.ran[1]).ok then [] else [RepairFailed(shell(runs + 1, t.ran[1]).output, t.ran[1])])
  {
    var first := OpsSend(st, msg, model);
    assert first.state.history != [];
    var output := shell(runs, first.outcome.text).output;
    RepairPromptNotSentinel(output);
    var logged := first.state.(log := first.state.log + [CommandFailed(output)]);
    SubmitOnNonEmpty(logged, RepairPrompt(output), model);
  }

  /**
   * Whatever runs, the content written back is the output of the first
   * command, the one the model's reply to the message named; the reply text
   * itself is never the content.
   */
  lemma FirstOutputWritten(st: SessionState, msg: string, model: Model, shell: Shell, runs: nat)
    requires TurnOf(st, msg, model, shell, runs).outcome.Respond?
    ensures var t := TurnOf(st, msg, model, shell, runs);
      && 1 <= |t.ran| <= 2
      && OpsSend(st, msg, model).outcome == Reply(t.ran[0])
      && t.outcome.content == shell(runs, t.ran[0]).output
      && (|t.ran| == 2 <==> !shell(runs, t.ran[0]).ok)
  {
  }

  /**
   * A turn never panics once the message's own send has returned and the
   * history is non-empty, as it is on every frame after the instruction.
   */
  lemma RepairNeverPanics(st: SessionState, msg: string, model: Model, shell: Shell, runs: nat)
    requires OpsSend(st, msg, model).outcome.Reply?
    requires st.history != [] || !IsSentinel(msg)
    ensures TurnOf(st, msg, model, shell, runs).outcome.Respond?
  {
    var first := OpsSend(st, msg, model);
    var reply := first.outcome.text;
    if !shell(runs, reply).ok {
      var output := shell(runs, reply).output;
      RepairPromptNotSentinel(output);
      assert first.state.history != [];
      SubmitOnNonEmpty(first.state.(log := first.state.log + [CommandFailed(output)]), RepairPrompt(output), model);
    }
  }

  /**
   * With a model that appends two entries per submission, the history grows
   * by two for the message unless it is a sentinel, and by two more when a
   * repair ran.
   */
  lemma TurnGrowth(st: SessionState, msg: string, model: Model, shell: Shell, runs: nat)
    requires WellBehaved(model)
    ensures var t := TurnOf(st, msg, model, shell, runs);
      && t.outcome.Respond?
      && |t.state.history| == |st.history| + (if IsSentinel(msg) then 0 else 2)
                                            + (if |t.ran| == 2 then 2 else 0)
  {
    var first := OpsSend(st, msg, model);
    if !IsSentinel(msg) {
      SubmitWellBehaved(st, msg, model);
    }
    if first.outcome.Reply? && !shell(runs, first.outcome.text).ok {
      var output := shell(runs, first.outcome.text).output;
      RepairPromptNotSentinel(output);
      SubmitWellBehaved(first.state.(log := first.state.log + [CommandFailed(output)]), RepairPrompt(output), model);
    }
  }

  /**
   * The repair's output is discarded: here the repaired command succeeds
   * with "fixed\n", yet the failing first command's output is written back.
   */
  lemma RepairOutputDiscarded()
    ensures var model: Model := (n, h, p) =>
        [Content("user", Some([p])), Content("model", Some([if p == "list" then "ls -z" else "ls"]))];
      var shell: Shell := (n, c) =>
        if c == "ls" then ShellResult("fixed\n", true) else ShellResult("fail\n", false);
      var t := TurnOf(SessionState([], [], []), "list", model, shell, 0);
      t.ran == ["ls -z", "ls"] && t.outcome == Respond("fail\n")
  {
  }

  /**
   * The shell keeps its effects between commands: the same reply "mkdir d"
   * succeeds on the first frame and fails on the second, which alone is
   * repaired.
   */
  lemma SameCommandLaterFails()
    ensures var model: Model := (n, h, p) =>
        [Content("user", Some([p])), Content("model", Some([if |p| > 20 then "ls" else "mkdir d"]))];
      var shell: Shell := (n, c) =>
        if c == "mkdir d" && n > 0 then ShellResult("exists\n", false) else ShellResult("", true);
      var r := Serve(SessionState([], [], []), [Ok("make d"), Ok("make d")], model, shell, k => true, 0, 0);
      r.ran == ["mkdir d", "mkdir d", "ls"] && r.sent == ["", "exists\n"] && r.stop == Pending
  {
    var frames: seq<Frame> := [Ok("make d"), Ok("make d")];
    assert frames[1..] == [Ok("make d")];
    assert frames[1..][1..] == [];
    assert |RepairPrompt("exists\n")| > 20;
  }

  // ---------------------------------------------------------------------
  // Properties of the loop and the connection.

  lemma {:induction false} TurnExtends(st: SessionState, msg: string, model: Model, shell: Shell, runs: nat)
    ensures st.history <= TurnOf(st, msg, model, shell, runs).state.history
    ensures st.asked <= TurnOf(st, msg, model, shell, runs).state.asked
  {
    var first := OpsSend(st, msg, model);
    if first.outcome.Reply? && !shell(runs, first.outcome.text).ok {
      var output := shell(runs, first.outcome.text).output;
      RepairPromptNotSentinel(output);
    }
  }

  /** The loop only ever appends to the history and to the prompts asked. */
  lemma {:induction false} ServeExtends(st: SessionState, frames: seq<Frame>, model: Model, shell: Shell, writeOk: Writer, runs: nat, written: nat)
    ensures var r := Serve(st, frames, model, shell, writeOk, runs, written);
      st.history <= r.state.history && st.asked <= r.state.asked
    decreases |frames|
  {
    if frames != [] && frames[0].Ok? {
      var t := TurnOf(st, frames[0].content, model, shell, runs);
      TurnExtends(st, frames[0].content, model, shell, runs);
      if t.outcome.Respond? && writeOk(written) {
        ServeExtends(t.state, frames[1..], model, shell, writeOk, runs + |t.ran|, written + 1);
      }
    } else if frames != [] && frames[0].Malformed? {
      ServeExtends(st, frames[1..], model, shell, writeOk, runs, written);
    }
  }

  /**
   * The instruction is the first prompt of every connection, submitted
   * before any frame is read: what follows is the loop on the session it
   * leaves, and if it panics no frame is read at all.
   */
  lemma InitFirst(frames: seq<Frame>, model: Model, shell: Shell, writeOk: Writer)
    ensures var r := Connection(frames, model, shell, writeOk);
      |r.state.asked| > 0 && r.state.asked[0] == InitInstruction
    ensures var init := Submission(SessionState([], [], []), InitInstruction, model);
      Connection(frames, model, shell, writeOk)
        == if init.outcome.IndexPanic? then Served(init.state, [], [], Panicked)
           else Serve(init.state, frames, model, shell, writeOk, 0, 0)
  {
    InitNotSentinel();
    var init := OpsSend(SessionState([], [], []), InitInstruction, model);
    assert init.state.asked == [InitInstruction];
    if init.outcome.Reply? {
      ServeExtends(init.state, frames, model, shell, writeOk, 0, 0);
    }
  }

  /** A malformed frame produces no reply, runs nothing, and the loop goes on. */
  lemma MalformedSkipped(st: SessionState, rest: seq<Frame>, model: Model, shell: Shell, writeOk: Writer, runs: nat, written: nat)
    ensures Serve(st, [Malformed] + rest, model, shell, writeOk, runs, written)
         == Serve(st, rest, model, shell, writeOk, runs, written)
  {
    assert ([Malformed] + rest)[1..] == rest;
  }

  /** A read error ends the loop with the session as it was. */
  lemma ReadErrStops(st: SessionState, rest: seq<Frame>, model: Model, shell: Shell, writeOk: Writer, runs: nat, written: nat)
    ensures Serve(st, [ReadErr] + rest, model, shell, writeOk, runs, written) == Served(st, [], [], ReadFailed)
  {
  }

  /** How many of the messages reach the model, that is, are not sentinels. */
  function NonSentinels(msgs: seq<string>): nat
    decreases |msgs|
  {
    if msgs == [] then 0 else (if IsSentinel(msgs[0]) then 0 else 1) + NonSentinels(msgs[1..])
  }

  /**
   * With a model that appends two entries per submission and no transport
   * failure, no turn panics, every well-formed frame, sentinels included,
   * gets exactly one reply and runs one or two commands, and the history
   * grows by two for each non-sentinel message plus two for each repair
   * (each command run beyond one per message).
   */
  lemma {:induction false} AllAnswered(st: SessionState, frames: seq<Frame>, model: Model, shell: Shell, writeOk: Writer, runs: nat, written: nat)
    requires WellBehaved(model)
    requires NoReadErr(frames)
    requires forall k :: writeOk(k)
    ensures var r := Serve(st, frames, model, shell, writeOk, runs, written);
      && r.stop == Pending
      && |r.sent| == |Messages(frames)|
      && |Messages(frames)| <= |r.ran| <= 2 * |Messages(frames)|
      && |r.state.history| == |st.history| + 2 * NonSentinels(Messages(frames))
                                           + 2 * (|r.ran| - |Messages(frames)|)
    decreases |frames|
  {
    if frames != [] {
      assert NoReadErr(frames[1..]) by {
        forall i | 0 <= i < |frames[1..]| ensures !frames[1..][i].ReadErr? {
          assert frames[1..][i] == frames[i + 1];
        }
      }
      assert !frames[0].ReadErr?;
      if frames[0].Ok? {
        var c := frames[0].content;
        var t := TurnOf(st, c, model, shell, runs);
        TurnGrowth(st, c, model, shell, runs);
        FirstOutputWritten(st, c, model, shell, runs);
        AllAnswered(t.state, frames[1..], model, shell, writeOk, runs + |t.ran|, written + 1);
        assert Messages(frames) == [c] + Messages(frames[1..]);
        assert ([c] + Messages(frames[1..]))[1..] == Messages(frames[1..]);
      } else {
        AllAnswered(st, frames[1..], model, shell, writeOk, runs, written);
      }
    }
  }

  /** The same for a whole connection, the instruction adding its own two entries. */
  lemma ConnectionAnswered(frames: seq<Frame>, model: Model, shell: Shell, writeOk: Writer)
    requires WellBehaved(model)
    requires NoReadErr(frames)
    requires forall k :: writeOk(k)
    ensures var r := Connection(frames, model, shell, writeOk);
      && r.stop == Pending
      && |r.sent| == |Messages(frames)|
      && |Messages(frames)| <= |r.ran| <= 2 * |Messages(frames)|
      && |r.state.history| == 2 + 2 * NonSentinels(Messages(frames))
                                + 2 * (|r.ran| - |Messages(frames)|)
  {
    InitNotSentinel();
    SubmitWellBehaved(SessionState([], [], []), InitInstruction, model);
    var init := OpsSend(SessionState([], [], []), InitInstruction, model);
    AllAnswered(init.state, frames, model, shell, writeOk, 0, 0);
  }

  // ---------------------------------------------------------------------
  // History bookkeeping for any model, conditioned on the log.

  /** No history-length mismatch is among these log lines. */
  predicate NoMismatch(lines: seq<LogLine>) {
    forall i :: 0 <= i < |lines| ==> !lines[i].HistoryLength?
  }

  /** A mismatch-free stretch of log stays mismatch-free in each of its parts. */
  lemma NoMismatchSplit(a: seq<LogLine>, b: seq<LogLine>, c: seq<LogLine>)
    requires a <= b <= c
    requires NoMismatch(c[|a|..])
    ensures NoMismatch(b[|a|..]) && NoMismatch(c[|b|..])
  {
    forall i | 0 <= i < |b[|a|..]| ensures !b[|a|..][i].HistoryLength? {
      assert b[|a|..][i] == c[|a|..][i];
    }
    forall i | 0 <= i < |c[|b|..]| ensures !c[|b|..][i].HistoryLength? {
      assert c[|b|..][i] == c[|a|..][i + |b| - |a|];
    }
  }

  /**
   * For any model a turn only appends to the log, and when it logs no
   * history mismatch it does not panic, runs one or two commands, and grows
   * the history by 0 for a sentinel or 2 otherwise, plus 2 for a repair.
   */
  lemma TurnUnlessLogged(st: SessionState, msg: string, model: Model, shell: Shell, runs: nat)
    ensures var t := TurnOf(st, msg, model, shell, runs);
      && st.log <= t.state.log
      && (NoMismatch(t.state.log[|st.log|..]) ==>
            && t.outcome.Respond?
            && 1 <= |t.ran| <= 2
            && |t.state.history| == |st.history| + (if IsSentinel(msg) then 0 else 2)
                                                  + (if |t.ran| == 2 then 2 else 0))
  {
    var first := OpsSend(st, msg, model);
    var t := TurnOf(st, msg, model, shell, runs);
    if !IsSentinel(msg) {
      SubmitEffect(st, msg, model);
    }
    assert st.log <= first.state.log;
    assert first.state.log != st.log ==> first.state.log[|st.log|..][0].HistoryLength?;
    if first.outcome.Reply? && !shell(runs, first.outcome.text).ok {
      var output := shell(runs, first.outcome.text).output;
      RepairPromptNotSentinel(output);
      var logged := first.state.(log := first.state.log + [CommandFailed(output)]);
      SubmitEffect(logged, RepairPrompt(output), model);
      var repair := Submission(logged, RepairPrompt(output), model);
      assert repair.state.log != logged.log ==> repair.state.log[|logged.log|..][0].HistoryLength?;
      assert first.state.log <= logged.log <= repair.state.log <= t.state.log;
      if NoMismatch(t.state.log[|st.log|..]) {
        NoMismatchSplit(st.log, first.state.log, t.state.log);
        NoMismatchSplit(first.state.log, logged.log, t.state.log);
        NoMismatchSplit(logged.log, repair.state.log, t.state.log);
        assert first.state.log == st.log;
        assert repair.state.log == logged.log;
      }
    } else if NoMismatch(t.state.log[|st.log|..]) {
      assert t.state.log == first.state.log;
      assert first.state.log == st.log;
    }
  }

  /**
   * For any model and no transport failure, the loop only appends to the
   * log, and when it logged no history mismatch nothing panicked, every
   * well-formed frame got one reply and ran one or two commands, and the
   * history grew by 2 per non-sentinel message plus 2 per repair.
   */
  lemma {:induction false} ServeUnlessLogged(st: SessionState, frames: seq<Frame>, model: Model, shell: Shell, writeOk: Writer, runs: nat, written: nat)
    requires NoReadErr(frames)
    requires forall k :: writeOk(k)
    ensures var r := Serve(st, frames, model, shell, writeOk, runs, written);
      && st.log <= r.state.log
      && (NoMismatch(r.state.log[|st.log|..]) ==>
            && r.stop == Pending
            && |r.sent| == |Messages(frames)|
            && |Messages(frames)| <= |r.ran| <= 2 * |Messages(frames)|
            && |r.state.history| == |st.history| + 2 * NonSentinels(Messages(frames))
                                                 + 2 * (|r.ran| - |Messages(frames)|))
    decreases |frames|
  {
    if frames != [] {
      assert NoReadErr(frames[1..]) by {
        forall i | 0 <= i < |frames[1..]| ensures !frames[1..][i].ReadErr? {
          assert frames[1..][i] == frames[i + 1];
        }
      }
      assert !frames[0].ReadErr?;
      if frames[0].Ok? {
        var c := frames[0].content;
        var t := TurnOf(st, c, model, shell, runs);
        TurnUnlessLogged(st, c, model, shell, runs);
        assert Messages(frames) == [c] + Messages(frames[1..]);
        assert ([c] + Messages(frames[1..]))[1..] == Messages(frames[1..]);
        if t.outcome.Respond? {
          ServeUnlessLogged(t.state, frames[1..], model, shell, writeOk, runs + |t.ran|, written + 1);
          var r := Serve(t.state, frames[1..], model, shell, writeOk, runs + |t.ran|, written + 1);
          if NoMismatch(r.state.log[|st.log|..]) {
            NoMismatchSplit(st.log, t.state.log, r.state.log);
          }
        }
      } else {
        ServeUnlessLogged(st, frames[1..], model, shell, writeOk, runs, written);
      }
    }
  }

  /** The same for a whole connection, the instruction adding its own two entries. */
  lemma ConnectionUnlessLogged(frames: seq<Frame>, model: Model, shell: Shell, writeOk: Writer)
    requires NoReadErr(frames)
    requires forall k :: writeOk(k)
    ensures var r := Connection(frames, model, shell, writeOk);
      NoMismatch(r.state.log) ==>
        && r.stop == Pending
        && |r.sent| == |Messages(frames)|
        && |Messages(frames)| <= |r.ran| <= 2 * |Messages(frames)|
        && |r.state.history| == 2 + 2 * NonSentinels(Messages(frames))
                                  + 2 * (|r.ran| - |Messages(frames)|)
  {
    var empty := SessionState([], [], []);
    InitNotSentinel();
    SubmitEffect(empty, InitInstruction, model);
    var init := OpsSend(empty, InitInstruction, model);
    assert init == Submission(empty, InitInstruction, model);
    assert init.state.log != [] ==> init.state.log[0].HistoryLength?;
    if init.outcome.Reply? {
      ServeUnlessLogged(init.state, frames, model, shell, writeOk, 0, 0);
      var r := Serve(init.state, frames, model, shell, writeOk, 0, 0);
      if NoMismatch(r.state.log) {
        assert r.state.log[|empty.log|..] == r.state.log;
        NoMismatchSplit([], init.state.log, r.state.log);
        assert init.state.log[|empty.log|..] == init.state.log;
        assert init.state.log == [];
      }
    } else {
      assert init.state.log[0].HistoryLength?;
    }
  }
}
