/**
 * The packaged `OffPromptSession` and `OffPromptShellSession` as objects:
 * the console transport, the logger and the operator's dialogs are objects
 * that record what is done to them, and `HandleInput` follows the Python
 * branch by branch, with the control-flow exceptions turned into a `Raised`
 * value. Its postcondition is that it does exactly what `HandleLine` says.
 */
module Session {
  import opened Wrappers
  import opened PyStr
  import opened Policy
  import opened Commands
  import opened Dispatch

  /** The console transport (`MsfRpcConsole` and the RPC objects behind it). */
  class Console {
    var calls: seq<ConsoleCall>
    /** The keys of `console.rpc.sessions.list`. */
    var sessions: set<string>
    /** `msf_console.prompt`. */
    var prompt: string

    constructor (sessions: set<string>, prompt: string)
      ensures calls == [] && this.sessions == sessions && this.prompt == prompt
    {
      calls := [];
      this.sessions := sessions;
      this.prompt := prompt;
    }

    /** `msf_console.execute(command)`. */
    method Execute(command: string)
      modifies this`calls
      ensures calls == old(calls) + [ExecuteCall(command)]
    {
      calls := calls + [ExecuteCall(command)];
    }

    /** `shell.run_with_output(command, marker, timeout=...)` on a session; `fails` says whether it raises. */
    method RunWithOutput(session: string, command: string, marker: string, timeout: int, fails: bool)
      returns (ok: bool)
      modifies this`calls
      ensures calls == old(calls) + [RunWithOutputCall(session, command, marker, timeout)]
      ensures ok == !fails
    {
      calls := calls + [RunWithOutputCall(session, command, marker, timeout)];
      ok := !fails;
    }
  }

  /** The `logging` module: every `logging.warning` record, in order. */
  class Logger {
    var entries: seq<LogEntry>

    constructor ()
      ensures entries == []
    {
      entries := [];
    }

    method Warning(e: LogEntry)
      modifies this`entries
      ensures entries == old(entries) + [e]
    {
      entries := entries + [e];
    }
  }

  /** The operator at the terminal: the dialogs shown so far. */
  class Operator {
    var shown: seq<Dialog>

    constructor ()
      ensures shown == []
    {
      shown := [];
    }

    /** `yes_no_dialog(...)`, answered with `answer`. */
    method YesNoDialog(d: Dialog, answer: bool) returns (yes: bool)
      modifies this`shown
      ensures shown == old(shown) + [d] && yes == answer
    {
      shown := shown + [d];
      yes := answer;
    }
  }

  /** The exception in flight when the branch chain of `handle_input` ends. */
  datatype Raised =
    | NotRaised
    | UserOverride(v: Violation)
    | UserOverrideDenied(record: LogEntry)
    | OtherException(failure: Failure)

  /** The effects `e` were appended to what the console, the operator and the log had recorded. */
  twostate predicate Recorded(console: Console, logger: Logger, operator: Operator, e: Effects)
    reads console, logger, operator
  {
    && console.calls == old(console.calls) + e.calls
    && operator.shown == old(operator.shown) + e.dialogs
    && logger.entries == old(logger.entries) + e.log
  }

  /**
   * `OffPromptShellSession.handle_input`: `exit` and `background` raise
   * `ShellExitError` (here: `exit` is true); any other non-blank line goes
   * verbatim to the shell, and a failure of the shell is logged and swallowed.
   */
  method ShellHandleInput(shell: ShellSession, console: Console, logger: Logger, text: string, env: Environment)
    returns (exit: bool)
    modifies console`calls, logger`entries
    ensures var s := ShellStep(shell, text, env);
      && exit == s.shell.None?
      && console.calls == old(console.calls) + s.effects.calls
      && logger.entries == old(logger.entries) + s.effects.log
  {
    var lower := Normalize(text);
    if lower == "background" || lower == "exit" {
      return true;
    } else if lower != [] {
      var ok := console.RunWithOutput(shell.session, text, RunMarker, RunTimeout, env.shellFails);
      if !ok {
        logger.Warning(ErrorWarning(ShellCommandFailed));
      }
    }
    return false;
  }

  /**
   * The outer `try`'s ending: the final `execute` when nothing was raised,
   * the `UserOverride` handler that logs and executes, the
   * `UserOverrideDenied` handler that only logs, and the catch-all.
   */
  method Conclude(console: Console, logger: Logger, text: string, raised: Raised, env: Environment)
    modifies console`calls, logger`entries
    ensures console.calls == old(console.calls) +
      (if raised.NotRaised? || raised.UserOverride? then [ExecuteCall(text)] else [])
    ensures logger.entries == old(logger.entries) +
      match raised
      case NotRaised => []
      case UserOverride(v) => [OverrideApproved(env.user, v)]
      case UserOverrideDenied(record) => [record]
      case OtherException(f) => [ErrorWarning(f)]
  {
    match raised
    case NotRaised =>
      console.Execute(text);
    case UserOverride(v) =>
      logger.Warning(OverrideApproved(env.user, v));
      console.Execute(text);
    case UserOverrideDenied(record) =>
      logger.Warning(record);
    case OtherException(f) =>
      logger.Warning(ErrorWarning(f));
  }

  /** The `except InvalidTargetError` / `except InvalidPermissionError` handlers. */
  method NegotiateOverride(logger: Logger, operator: Operator, allowOverrides: bool,
                           v: Violation, d: Dialog, env: Environment) returns (raised: Raised)
    modifies logger`entries, operator`shown
    ensures logger.entries == old(logger.entries) + [ViolationWarning(v)]
    ensures operator.shown == old(operator.shown) + (if allowOverrides then [d] else [])
    ensures raised ==
      if !allowOverrides then UserOverrideDenied(DisallowedAction(env.user, v))
      else if env.answer then UserOverride(v)
      else UserOverrideDenied(OverrideDeclined(env.user, v))
  {
    logger.Warning(ViolationWarning(v));
    if allowOverrides {
      var yes := operator.YesNoDialog(d, env.answer);
      if yes {
        raised := UserOverride(v);
      } else {
        raised := UserOverrideDenied(OverrideDeclined(env.user, v));
      }
    } else {
      raised := UserOverrideDenied(DisallowedAction(env.user, v));
    }
  }

  /** The `exploit` branch: the confirmation dialog. */
  method HandleExploit(console: Console, logger: Logger, operator: Operator, text: string, env: Environment)
    modifies console`calls, logger`entries, operator`shown
    ensures Recorded(console, logger, operator,
      if env.answer then Effects([ExecuteCall(text)], [ConfirmExploit], [])
      else Effects([], [ConfirmExploit], [ErrorWarning(ExploitAborted)]))
  {
    var raised := NotRaised;
    var confirm := operator.YesNoDialog(ConfirmExploit, env.answer);
    if !confirm {
      raised := OtherException(ExploitAborted);
    }
    Conclude(console, logger, text, raised, env);
  }

  /** The `set ... rhost` branch: every extracted target must be listed. */
  method HandleSetRhost(console: Console, logger: Logger, operator: Operator, allowOverrides: bool,
                        text: string, env: Environment)
    modifies console`calls, logger`entries, operator`shown
    ensures Recorded(console, logger, operator, SetRhostEffects(text, allowOverrides, env))
  {
    if env.allowedTargets.None? && ExtractTargets(text) != [] {
      // `allowed_targets` fails on the first target and returns `[]`
      logger.Warning(ErrorWarning(TargetsUnreadable));
    }
    label loaded:
    DecideTargets(console, logger, operator, allowOverrides, text, env);
    assert logger.entries == old@loaded(logger.entries) + TargetDecision(text, allowOverrides, env).log;
  }

  /** `validate_targets` against the loaded list, the override protocol on a refusal, and the outer `try`'s ending. */
  method DecideTargets(console: Console, logger: Logger, operator: Operator, allowOverrides: bool,
                       text: string, env: Environment)
    modifies console`calls, logger`entries, operator`shown
    ensures Recorded(console, logger, operator, TargetDecision(text, allowOverrides, env))
  {
    var raised := NotRaised;
    var check := ValidateTargets(ExtractTargets(text), AllowedTargets(env));
    if check.InvalidTarget? {
      raised := NegotiateOverride(logger, operator, allowOverrides, TargetNotAllowed(check.target), TargetOverride, env);
    }
    Conclude(console, logger, text, raised, env);
  }

  /** The `use` branch: only a refused permission is negotiated; other errors fall through to `execute`. */
  method HandleUse(console: Console, logger: Logger, operator: Operator, allowOverrides: bool,
                   text: string, lower: string, env: Environment)
    modifies console`calls, logger`entries, operator`shown
    ensures Recorded(console, logger, operator, UseEffects(text, lower, allowOverrides, env))
  {
    var raised := NotRaised;
    var name := ModuleName(lower);
    if name.None? {
      logger.Warning(ErrorWarning(NoModuleName));
    } else if env.permissions.None? {
      logger.Warning(ErrorWarning(PermissionsUnreadable));
    } else {
      var check := ValidateUserPerms(name.value, env.user, env.permissions.value);
      if check.PermsFailure? {
        logger.Warning(ErrorWarning(PermissionsMalformed(check.error)));
      } else if check == InvalidPermission {
        raised := NegotiateOverride(logger, operator, allowOverrides, ModuleNotAllowed(name.value), PermissionOverride, env);
      }
    }
    Conclude(console, logger, text, raised, env);
  }

  class OffPromptSession {
    const console: Console
    const logger: Logger
    const operator: Operator
    const allowOverrides: bool
    /** The shell the operator is interacting with, if any. */
    var activeShell: Option<ShellSession>

    constructor (console: Console, logger: Logger, operator: Operator, allowOverrides: bool)
      ensures this.console == console && this.logger == logger && this.operator == operator
      ensures this.allowOverrides == allowOverrides && activeShell == None
    {
      this.console := console;
      this.logger := logger;
      this.operator := operator;
      this.allowOverrides := allowOverrides;
      activeShell := None;
    }

    /** `prompt_text`. */
    function PromptText(): string
      reads this, console
    {
      PromptFor(activeShell, console.prompt)
    }

    /** The `sessions -i` branch: look the session up, then raise regardless. */
    method HandleSessions(text: string, lower: string, env: Environment)
      requires activeShell.None? && Classify(lower) == SessionInteract && lower == Normalize(text)
      modifies this`activeShell, console`calls, logger`entries
      ensures var s := TopLevelStep(text, allowOverrides, old(console.sessions), env);
        Recorded(console, logger, operator, s.effects) && activeShell == s.shell
    {
      var id := SessionId(lower);
      ghost var step := TopLevelStep(text, allowOverrides, console.sessions, env);
      assert step.shell == if id.Some? && id.value in console.sessions then Some(ShellSession(id.value)) else None;
      assert step.effects.calls == [] && step.effects.dialogs == [];
      assert step.effects.log == (if id.None? then [ErrorWarning(NoSessionNumber)] else []) + [ErrorWarning(SessionsUnsupported)];
      if id.None? {
        logger.Warning(ErrorWarning(NoSessionNumber));
      } else if id.value in console.sessions {
        activeShell := Some(ShellSession(id.value));
      }
      Conclude(console, logger, text, OtherException(SessionsUnsupported), env);
    }

    /** `handle_input(text)`: exactly the effects and the shell transition `HandleLine` describes. */
    method HandleInput(text: string, env: Environment) returns (exited: bool)
      modifies this`activeShell, console`calls, logger`entries, operator`shown
      ensures var s := HandleLine(old(activeShell), text, allowOverrides, old(console.sessions), env);
        Recorded(console, logger, operator, s.effects) && activeShell == s.shell && exited == s.exited
    {
      if activeShell.Some? {
        var exit := ShellHandleInput(activeShell.value, console, logger, text, env);
        if exit {
          activeShell := None;
        }
        return false;
      }
      exited := HandleTopLevel(text, env);
    }

    /** The `if`/`elif` chain of `handle_input` with no shell active. */
    method HandleTopLevel(text: string, env: Environment) returns (exited: bool)
      requires activeShell.None?
      modifies this`activeShell, console`calls, logger`entries, operator`shown
      ensures var s := TopLevelStep(text, allowOverrides, old(console.sessions), env);
        Recorded(console, logger, operator, s.effects) && activeShell == s.shell && exited == s.exited
    {
      var lower := Normalize(text);
      var category := Classify(lower);
      ghost var step := TopLevelStep(text, allowOverrides, console.sessions, env);
      if category == ExitCommand {
        return true;
      } else if category == SessionInteract {
        HandleSessions(text, lower, env);
      } else if category == ExploitCommand {
        assert step.effects == if env.answer then Effects([ExecuteCall(text)], [ConfirmExploit], [])
          else Effects([], [ConfirmExploit], [ErrorWarning(ExploitAborted)]);
        HandleExploit(console, logger, operator, text, env);
      } else if category == SetRhost {
        assert step.effects == SetRhostEffects(text, allowOverrides, env);
        HandleSetRhost(console, logger, operator, allowOverrides, text, env);
      } else if category == UseModule {
        assert step.effects == UseEffects(text, lower, allowOverrides, env);
        HandleUse(console, logger, operator, allowOverrides, text, lower, env);
      } else {
        assert step.effects == Executed(text);
        Conclude(console, logger, text, NotRaised, env);
      }
      return false;
    }
  }
}
