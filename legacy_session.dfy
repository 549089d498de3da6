/**
 * The earlier `OffPromptSession.handle_input` (top-level `offpromptsession.py`):
 * the same checks as the packaged copy but no shell slot and no
 * `sessions -i` branch, so such a line goes to the console like any other.
 */
module LegacySession {
  import opened Wrappers
  import opened PyStr
  import opened Policy
  import opened Commands
  import opened Dispatch
  import opened Session

  /** The `exit` test, then the `exploit` / `set ... rhost` / `use` chain. */
  function LegacyClassify(lower: string): Category {
    if lower == "exit" then ExitCommand
    else if StartsWith(lower, "exploit") then ExploitCommand
    else if StartsWith(lower, "set") && Contains(lower, "rhost") then SetRhost
    else if StartsWith(lower, "use") then UseModule
    else PlainCommand
  }

  /** One line handled by the earlier session. */
  function LegacyStep(text: string, allowOverrides: bool, env: Environment): Step {
    var lower := Normalize(text);
    match LegacyClassify(lower)
    case ExitCommand => Step(NoEffects, None, true)
    case ExploitCommand =>
      if env.answer then Step(Effects([ExecuteCall(text)], [ConfirmExploit], []), None, false)
      else Step(Effects([], [ConfirmExploit], [ErrorWarning(ExploitAborted)]), None, false)
    case SetRhost => Step(SetRhostEffects(text, allowOverrides, env), None, false)
    case UseModule => Step(UseEffects(text, lower, allowOverrides, env), None, false)
    case _ => Step(Executed(text), None, false)
  }

  /** The earlier class: no field changes after construction. */
  class LegacyOffPromptSession {
    const console: Console
    const logger: Logger
    const operator: Operator
    const allowOverrides: bool

    constructor (console: Console, logger: Logger, operator: Operator, allowOverrides: bool)
      ensures this.console == console && this.logger == logger && this.operator == operator
      ensures this.allowOverrides == allowOverrides
    {
      this.console := console;
      this.logger := logger;
      this.operator := operator;
      this.allowOverrides := allowOverrides;
    }

    /** `handle_input(text)`: exactly the effects `LegacyStep` describes. */
    method HandleInput(text: string, env: Environment) returns (exited: bool)
      modifies console`calls, logger`entries, operator`shown
      ensures var s := LegacyStep(text, allowOverrides, env);
        Recorded(console, logger, operator, s.effects) && exited == s.exited
    {
      var lower := Normalize(text);
      if lower == "exit" {
        return true;
      }
      var category := LegacyClassify(lower);
      ghost var step := LegacyStep(text, allowOverrides, env);
      if category == ExploitCommand {
        assert step == Step(if env.answer then Effects([ExecuteCall(text)], [ConfirmExploit], [])
          else Effects([], [ConfirmExploit], [ErrorWarning(ExploitAborted)]), None, false);
        HandleExploit(console, logger, operator, text, env);
      } else if category == SetRhost {
        assert step == Step(SetRhostEffects(text, allowOverrides, env), None, false);
        HandleSetRhost(console, logger, operator, allowOverrides, text, env);
      } else if category == UseModule {
        assert step == Step(UseEffects(text, lower, allowOverrides, env), None, false);
        HandleUse(console, logger, operator, allowOverrides, text, lower, env);
      } else {
        assert step == Step(Executed(text), None, false);
        Conclude(console, logger, text, NotRaised, env);
      }
      return false;
    }
  }

  /** Away from `sessions -i`, the two copies handle a line identically (the packaged one with no shell active). */
  lemma LegacyAgreesOffSessions(text: string, allowOverrides: bool, sessions: set<string>, env: Environment)
    requires !StartsWith(Normalize(text), "sessions -i")
    ensures LegacyStep(text, allowOverrides, env) == HandleLine(None, text, allowOverrides, sessions, env)
  {
    assert LegacyClassify(Normalize(text)) == Classify(Normalize(text));
  }

  /** The earlier copy passes `sessions -i N` to the console unchecked, where the packaged copy never executes it. */
  lemma LegacyExecutesSessionsLines(text: string, allowOverrides: bool, sessions: set<string>, env: Environment)
    requires StartsWith(Normalize(text), "sessions -i")
    ensures LegacyStep(text, allowOverrides, env) == Step(Executed(text), None, false)
    ensures HandleLine(None, text, allowOverrides, sessions, env).effects.calls == []
  {
    SessionsLineIsPlain(Normalize(text));
    SessionsLineNeverExecuted(text, allowOverrides, sessions, env);
  }

  lemma SessionsLineIsPlain(lower: string)
    requires StartsWith(lower, "sessions -i")
    ensures LegacyClassify(lower) == PlainCommand
  {
    assert lower[0] == lower[..11][0] == 's';
    assert lower[2] == lower[..11][2] == 's';
    assert lower != "exit";
  }
}
