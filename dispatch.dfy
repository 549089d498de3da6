/**
 * What `OffPromptSession.handle_input` (the packaged copy) and
 * `OffPromptShellSession.handle_input` do with one submitted line, as a
 * function of the session state and of what the operator, the policy files
 * and the console answer. The class in `Session` is proved to behave
 * exactly like `HandleLine`; the lemmas here state the safety properties.
 */
module Dispatch {
  import opened Wrappers
  import opened PyStr
  import opened Policy
  import opened Commands

  /** A call on the console transport. */
  datatype ConsoleCall =
    | ExecuteCall(command: string)
    | RunWithOutputCall(session: string, command: string, marker: string, timeout: int)

  /** The yes/no dialogs `yes_no_dialog` puts to the operator. */
  datatype Dialog = ConfirmExploit | TargetOverride | PermissionOverride

  datatype Violation = TargetNotAllowed(target: string) | ModuleNotAllowed(moduleName: string)

  /** The exceptions that `handle_input`, and `allowed_targets` for the target file, swallow and log. */
  datatype Failure =
    | ExploitAborted                      // "User aborted exploitation"
    | SessionsUnsupported                 // "Interacting with sessions is not currently supported"
    | NoSessionNumber                     // IndexError from the session-number findall
    | NoModuleName                        // IndexError from the module findall
    | TargetsUnreadable                   // the target file cannot be opened or unpickled
    | PermissionsUnreadable               // the module file cannot be opened or unpickled
    | PermissionsMalformed(e: PermsError) // TypeError from a None entry
    | ShellCommandFailed                  // run_with_output raised

  /** One `logging.warning` record, by what it reports. */
  datatype LogEntry =
    | ViolationWarning(v: Violation)               // the InvalidTarget/InvalidPermission message
    | OverrideApproved(user: string, v: Violation) // "USER WARNING OVERRIDE"
    | OverrideDeclined(user: string, v: Violation) // "... chose not to overide warning"
    | DisallowedAction(user: string, v: Violation) // "... attempted disallowed action"
    | ErrorWarning(f: Failure)

  /**
   * What the outside world answers while one line is handled: the login
   * name, the dialog's answer (at most one dialog is shown per line), the
   * unpickled target list and module map (each `None` when its file cannot
   * be read), and whether the shell transport fails.
   */
  datatype Environment = Environment(
    user: string,
    answer: bool,
    allowedTargets: Option<seq<TargetEntry>>,
    permissions: Option<PermissionMap>,
    shellFails: bool)

  /** An `OffPromptShellSession`: the remote session it talks to. */
  datatype ShellSession = ShellSession(session: string)

  const ShellPrompt: string := "unknown-shell > "
  const RunMarker: string := "DummyString"
  const RunTimeout: int := 10

  datatype Effects = Effects(calls: seq<ConsoleCall>, dialogs: seq<Dialog>, log: seq<LogEntry>)

  /** The effects of one line, the active shell afterwards, and whether `exit(0)` ended the program. */
  datatype Step = Step(effects: Effects, shell: Option<ShellSession>, exited: bool)

  const NoEffects := Effects([], [], [])

  /**
   * The override protocol after a failed check: the warning is logged; with
   * overrides off the line is refused outright (`UserOverrideDenied`), with
   * overrides on the dialog decides between `UserOverride`, whose handler
   * executes the line, and `UserOverrideDenied`.
   */
  function Negotiate(text: string, v: Violation, d: Dialog, allowOverrides: bool, env: Environment): Effects {
    if !allowOverrides then
      Effects([], [], [ViolationWarning(v), DisallowedAction(env.user, v)])
    else if env.answer then
      Effects([ExecuteCall(text)], [d], [ViolationWarning(v), OverrideApproved(env.user, v)])
    else
      Effects([], [d], [ViolationWarning(v), OverrideDeclined(env.user, v)])
  }

  /** A line that reaches the final `execute` untouched. */
  function Executed(text: string): Effects {
    Effects([ExecuteCall(text)], [], [])
  }

  /** The `use` branch: failures other than a refused permission are logged and the line still runs. */
  function UseEffects(text: string, lower: string, allowOverrides: bool, env: Environment): Effects {
    match ModuleName(lower)
    case None => Effects([ExecuteCall(text)], [], [ErrorWarning(NoModuleName)])
    case Some(m) =>
      match env.permissions
      case None => Effects([ExecuteCall(text)], [], [ErrorWarning(PermissionsUnreadable)])
      case Some(perms) =>
        match CheckPermission(m, env.user, perms)
        case ModuleAllowed => Executed(text)
        case PermsFailure(e) => Effects([ExecuteCall(text)], [], [ErrorWarning(PermissionsMalformed(e))])
        case InvalidPermission => Negotiate(text, ModuleNotAllowed(m), PermissionOverride, allowOverrides, env)
  }

  /** What `allowed_targets` returns: the unpickled list, or `[]` when the file cannot be read. */
  function AllowedTargets(env: Environment): seq<TargetEntry> {
    if env.allowedTargets.Some? then env.allowedTargets.value else []
  }

  /**
   * The records `allowed_targets` logs while the targets are validated: the
   * file is loaded once per target until one is refused, so an unreadable
   * file is reported once when there is a target (which it then refuses)
   * and not at all when there is none.
   */
  function TargetLoadLog(text: string, env: Environment): seq<LogEntry> {
    if env.allowedTargets.None? && ExtractTargets(text) != [] then [ErrorWarning(TargetsUnreadable)] else []
  }

  /** `validate_targets` and what follows it, once the target list is loaded. */
  function TargetDecision(text: string, allowOverrides: bool, env: Environment): Effects {
    match CheckTargets(ExtractTargets(text), AllowedTargets(env))
    case TargetsAllowed => Executed(text)
    case InvalidTarget(t) => Negotiate(text, TargetNotAllowed(t), TargetOverride, allowOverrides, env)
  }

  /** The `set ... rhost` branch: any load failure is logged before the decision's records. */
  function SetRhostEffects(text: string, allowOverrides: bool, env: Environment): Effects {
    var d := TargetDecision(text, allowOverrides, env);
    Effects(d.calls, d.dialogs, TargetLoadLog(text, env) + d.log)
  }

  /** `handle_input` with no active shell; `sessions` are the ids the console lists. */
  function TopLevelStep(text: string, allowOverrides: bool, sessions: set<string>, env: Environment): Step {
    var lower := Normalize(text);
    match Classify(lower)
    case ExitCommand => Step(NoEffects, None, true)
    case SessionInteract =>
      var id := SessionId(lower);
      var shell := if id.Some? && id.value in sessions then Some(ShellSession(id.value)) else None;
      var lookup := if id.None? then [ErrorWarning(NoSessionNumber)] else [];
      Step(Effects([], [], lookup + [ErrorWarning(SessionsUnsupported)]), shell, false)
    case ExploitCommand =>
      if env.answer then Step(Effects([ExecuteCall(text)], [ConfirmExploit], []), None, false)
      else Step(Effects([], [ConfirmExploit], [ErrorWarning(ExploitAborted)]), None, false)
    case SetRhost => Step(SetRhostEffects(text, allowOverrides, env), None, false)
    case UseModule => Step(UseEffects(text, lower, allowOverrides, env), None, false)
    case PlainCommand => Step(Executed(text), None, false)
  }

  /** `OffPromptShellSession.handle_input`, with its `ShellExitError` turned into clearing the slot. */
  function ShellStep(shell: ShellSession, text: string, env: Environment): Step {
    var lower := Normalize(text);
    if lower == "background" || lower == "exit" then Step(NoEffects, None, false)
    else if lower != [] then
      var failed := if env.shellFails then [ErrorWarning(ShellCommandFailed)] else [];
      Step(Effects([RunWithOutputCall(shell.session, text, RunMarker, RunTimeout)], [], failed), Some(shell), false)
    else Step(NoEffects, Some(shell), false)
  }

  /** One line handled by the packaged session whose shell slot holds `active`. */
  function HandleLine(active: Option<ShellSession>, text: string, allowOverrides: bool,
                      sessions: set<string>, env: Environment): Step {
    match active
    case Some(shell) => ShellStep(shell, text, env)
    case None => TopLevelStep(text, allowOverrides, sessions, env)
  }

  /** `prompt_text`: the shell's fixed label while one is active, else the console's prompt. */
  function PromptFor(active: Option<ShellSession>, consolePrompt: string): string {
    if active.Some? then ShellPrompt else consolePrompt
  }

  // ---------------------------------------------------------------------------
  // Properties
  // ---------------------------------------------------------------------------

  /** While a shell is active every line goes to it alone, verbatim, and only `exit`/`background` leave it. */
  lemma ShellOwnsEveryLine(shell: ShellSession, text: string, allowOverrides: bool,
                           sessions: set<string>, env: Environment)
    ensures var s := HandleLine(Some(shell), text, allowOverrides, sessions, env);
      && (forall c :: c in s.effects.calls ==> c == RunWithOutputCall(shell.session, text, RunMarker, RunTimeout))
      && s.effects.dialogs == [] && !s.exited
      && (s.shell == None <==> Normalize(text) in {"exit", "background"})
      && (s.shell != None ==> s.shell == Some(shell))
      && (|s.effects.calls| == 1 <==> Normalize(text) !in {"exit", "background", ""})
  {
  }

  /** `sessions -i N` is never executed: it opens a shell on a listed session and otherwise changes nothing. */
  lemma SessionsLineNeverExecuted(text: string, allowOverrides: bool, sessions: set<string>, env: Environment)
    requires StartsWith(Normalize(text), "sessions -i")
    ensures var s := TopLevelStep(text, allowOverrides, sessions, env);
      && s.effects.calls == [] && s.effects.dialogs == [] && !s.exited
      && (s.shell.Some? <==> SessionId(Normalize(text)).Some? && SessionId(Normalize(text)).value in sessions)
      && (s.shell.Some? ==> s.shell.value.session == SessionId(Normalize(text)).value)
  {
    assert Normalize(text) != "exit";
  }

  /** The override protocol runs the line only on an approved override, and asks only when overrides are on. */
  lemma NegotiateShape(text: string, v: Violation, d: Dialog, allowOverrides: bool, env: Environment)
    ensures var e := Negotiate(text, v, d, allowOverrides, env);
      && e.calls == (if allowOverrides && env.answer then [ExecuteCall(text)] else [])
      && e.dialogs == (if allowOverrides then [d] else [])
  {
  }

  /** The `use` branch executes at most the typed line and asks at most the permission dialog. */
  lemma UseEffectsShape(text: string, lower: string, allowOverrides: bool, env: Environment)
    ensures var e := UseEffects(text, lower, allowOverrides, env);
      && |e.calls| <= 1 && (forall c :: c in e.calls ==> c == ExecuteCall(text))
      && (e.dialogs == [] || (allowOverrides && e.dialogs == [PermissionOverride]))
  {
    match ModuleName(lower)
    case None =>
    case Some(m) =>
      match env.permissions
      case None =>
      case Some(perms) =>
        NegotiateShape(text, ModuleNotAllowed(m), PermissionOverride, allowOverrides, env);
  }

  /** The `set ... rhost` branch executes at most the typed line and asks at most the target dialog. */
  lemma SetRhostEffectsShape(text: string, allowOverrides: bool, env: Environment)
    ensures var e := SetRhostEffects(text, allowOverrides, env);
      && |e.calls| <= 1 && (forall c :: c in e.calls ==> c == ExecuteCall(text))
      && (e.dialogs == [] || (allowOverrides && e.dialogs == [TargetOverride]))
  {
    match CheckTargets(ExtractTargets(text), AllowedTargets(env))
    case TargetsAllowed =>
    case InvalidTarget(t) => NegotiateShape(text, TargetNotAllowed(t), TargetOverride, allowOverrides, env);
  }

  /** Whatever the line, the only command the top level executes is the line exactly as typed, at most once. */
  lemma ExecutesOnlyTheTypedLine(text: string, allowOverrides: bool, sessions: set<string>, env: Environment)
    ensures var calls := TopLevelStep(text, allowOverrides, sessions, env).effects.calls;
      |calls| <= 1 && forall c :: c in calls ==> c == ExecuteCall(text)
  {
    var lower := Normalize(text);
    match Classify(lower)
    case SetRhost => SetRhostEffectsShape(text, allowOverrides, env);
    case UseModule => UseEffectsShape(text, lower, allowOverrides, env);
    case _ =>
  }

  /** At most one dialog is shown per line, and with overrides off never an override dialog. */
  lemma AtMostOneDialog(active: Option<ShellSession>, text: string, allowOverrides: bool,
                        sessions: set<string>, env: Environment)
    ensures var d := HandleLine(active, text, allowOverrides, sessions, env).effects.dialogs;
      |d| <= 1 && (!allowOverrides ==> forall x :: x in d ==> x == ConfirmExploit)
  {
    if active.None? {
      var lower := Normalize(text);
      match Classify(lower)
      case SetRhost => SetRhostEffectsShape(text, allowOverrides, env);
      case UseModule => UseEffectsShape(text, lower, allowOverrides, env);
      case _ =>
    }
  }

  /** A `set ... rhost` line with an unlisted target runs only through an approved override. */
  lemma DeniedTargetNotExecuted(text: string, allowOverrides: bool, sessions: set<string>, env: Environment)
    requires Classify(Normalize(text)) == SetRhost
    requires exists t :: t in ExtractTargets(text) && !Listed(t, AllowedTargets(env))
    ensures var s := TopLevelStep(text, allowOverrides, sessions, env);
      && (s.effects.calls == [ExecuteCall(text)] <==> allowOverrides && env.answer)
      && (s.effects.calls == [] <==> !(allowOverrides && env.answer))
      && (allowOverrides <==> s.effects.dialogs == [TargetOverride])
  {
    var r := CheckTargets(ExtractTargets(text), AllowedTargets(env));
    assert r.InvalidTarget?;
  }

  /**
   * A `use` line naming a module the user's allow-list refuses runs only
   * through an approved override; the refusal is logged either way.
   */
  lemma DeniedModuleNotExecuted(text: string, allowOverrides: bool, sessions: set<string>, env: Environment)
    requires Classify(Normalize(text)) == UseModule
    requires ModuleName(Normalize(text)).Some? && env.permissions.Some?
    requires CheckPermission(ModuleName(Normalize(text)).value, env.user, env.permissions.value) == InvalidPermission
    ensures var s := TopLevelStep(text, allowOverrides, sessions, env);
      var v := ModuleNotAllowed(ModuleName(Normalize(text)).value);
      && (s.effects.calls == [ExecuteCall(text)] <==> allowOverrides && env.answer)
      && (s.effects.calls == [] <==> !(allowOverrides && env.answer))
      && (allowOverrides <==> s.effects.dialogs == [PermissionOverride])
      && |s.effects.log| == 2 && s.effects.log[0] == ViolationWarning(v)
      && s.shell.None? && !s.exited
  {
    var m := ModuleName(Normalize(text)).value;
    NegotiateShape(text, ModuleNotAllowed(m), PermissionOverride, allowOverrides, env);
  }

  /** A `use` line is handled by the `use` branch alone. */
  lemma UseLineStep(text: string, allowOverrides: bool, sessions: set<string>, env: Environment)
    requires Classify(Normalize(text)) == UseModule
    ensures TopLevelStep(text, allowOverrides, sessions, env)
      == Step(UseEffects(text, Normalize(text), allowOverrides, env), None, false)
  {
  }

  /** With every target listed, a `set ... rhost` line is executed with no dialog. */
  lemma ListedTargetsExecuted(text: string, allowOverrides: bool, sessions: set<string>, env: Environment)
    requires Classify(Normalize(text)) == SetRhost
    requires forall t :: t in ExtractTargets(text) ==> Listed(t, AllowedTargets(env))
    ensures TopLevelStep(text, allowOverrides, sessions, env) == Step(Executed(text), None, false)
  {
    SetRhostLineStep(text, allowOverrides, sessions, env);
  }

  /**
   * A declined or disallowed override leaves exactly one denial record
   * naming the violation, after the report of an unreadable target file.
   */
  lemma DenialIsAudited(text: string, allowOverrides: bool, sessions: set<string>, env: Environment)
    requires Classify(Normalize(text)) == SetRhost
    requires CheckTargets(ExtractTargets(text), AllowedTargets(env)).InvalidTarget?
    requires !(allowOverrides && env.answer)
    ensures var t := CheckTargets(ExtractTargets(text), AllowedTargets(env)).target;
      var log := TopLevelStep(text, allowOverrides, sessions, env).effects.log;
      log == (if env.allowedTargets.None? then [ErrorWarning(TargetsUnreadable)] else []) +
             [ViolationWarning(TargetNotAllowed(t)),
              if allowOverrides then OverrideDeclined(env.user, TargetNotAllowed(t))
              else DisallowedAction(env.user, TargetNotAllowed(t))]
  {
  }

  /**
   * With the target file unreadable, a `set ... rhost` line naming a target
   * refuses its first target, and the log opens with the load failure.
   */
  lemma UnreadableTargetsRefused(text: string, allowOverrides: bool, sessions: set<string>, env: Environment)
    requires Classify(Normalize(text)) == SetRhost
    requires env.allowedTargets.None? && ExtractTargets(text) != []
    ensures var s := TopLevelStep(text, allowOverrides, sessions, env);
      var v := TargetNotAllowed(ExtractTargets(text)[0]);
      && s.effects.log == [ErrorWarning(TargetsUnreadable), ViolationWarning(v),
                           if !allowOverrides then DisallowedAction(env.user, v)
                           else if env.answer then OverrideApproved(env.user, v)
                           else OverrideDeclined(env.user, v)]
      && (s.effects.calls == [] <==> !(allowOverrides && env.answer))
  {
    SetRhostLineStep(text, allowOverrides, sessions, env);
  }

  /** A `set ... rhost` line is handled by the `set ... rhost` branch alone. */
  lemma SetRhostLineStep(text: string, allowOverrides: bool, sessions: set<string>, env: Environment)
    requires Classify(Normalize(text)) == SetRhost
    ensures TopLevelStep(text, allowOverrides, sessions, env)
      == Step(SetRhostEffects(text, allowOverrides, env), None, false)
  {
  }

  /** An `exploit...` line runs exactly when the operator confirms it. */
  lemma ExploitNeedsConfirmation(text: string, allowOverrides: bool, sessions: set<string>, env: Environment)
    requires StartsWith(Normalize(text), "exploit")
    ensures var s := TopLevelStep(text, allowOverrides, sessions, env);
      && s.effects.dialogs == [ConfirmExploit]
      && (s.effects.calls == [ExecuteCall(text)] <==> env.answer)
      && (s.effects.calls == [] <==> !env.answer)
  {
    var lower := Normalize(text);
    assert lower[0] == lower[..7][0] == 'e';
    assert !StartsWith(lower, "sessions -i");
  }

  /** A line matching none of the prefixes is executed once, with no dialog and no log. */
  lemma PlainLineExecutedOnce(text: string, allowOverrides: bool, sessions: set<string>, env: Environment)
    requires Classify(Normalize(text)) == PlainCommand
    ensures TopLevelStep(text, allowOverrides, sessions, env) == Step(Executed(text), None, false)
  {
  }

  /** A bare `use` has no module to check; the failure is logged and the line is still executed. */
  lemma BareUseStillExecuted(text: string, allowOverrides: bool, sessions: set<string>, env: Environment)
    requires Normalize(text) == "use"
    ensures TopLevelStep(text, allowOverrides, sessions, env)
      == Step(Effects([ExecuteCall(text)], [], [ErrorWarning(NoModuleName)]), None, false)
  {
    assert !OccursAt("use", "use ", 0);
    assert ModuleName("use").None?;
  }

  /** The module a `use` line is checked against never holds an upper-case letter. */
  lemma ModuleCheckedLowerCased(text: string)
    requires ModuleName(Normalize(text)).Some?
    ensures forall c :: c in ModuleName(Normalize(text)).value ==> !('A' <= c <= 'Z')
  {
    NormalizedHasNoUpper(text);
  }

  lemma NormalizedHasNoUpper(text: string)
    ensures forall c :: c in Normalize(text) ==> !('A' <= c <= 'Z')
  {
    var l := Lower(text);
    StripByWithin(l, IsSpace);
    forall c | c in l ensures !('A' <= c <= 'Z') {
      var k :| 0 <= k < |l| && l[k] == c;
    }
  }

  /** After `background`/`exit` in a shell the prompt is the console's again; after entering one it is the shell label. */
  lemma PromptFollowsShellSlot(shell: ShellSession, text: string, allowOverrides: bool,
                               sessions: set<string>, env: Environment, consolePrompt: string)
    ensures Normalize(text) in {"exit", "background"} ==>
      PromptFor(HandleLine(Some(shell), text, allowOverrides, sessions, env).shell, consolePrompt) == consolePrompt
    ensures StartsWith(Normalize(text), "sessions -i") && SessionId(Normalize(text)).Some?
            && SessionId(Normalize(text)).value in sessions ==>
      PromptFor(HandleLine(None, text, allowOverrides, sessions, env).shell, consolePrompt) == ShellPrompt
  {
    if StartsWith(Normalize(text), "sessions -i") {
      SessionsLineNeverExecuted(text, allowOverrides, sessions, env);
    }
  }

  // ---------------------------------------------------------------------------
  // The decision depends on the line only up to letter case
  // ---------------------------------------------------------------------------

  /** Two strings that lower-case alike agree on every digit and dot. */
  predicate SameDigitsAndDots(a: string, b: string) {
    |a| == |b| && forall k :: 0 <= k < |a| ==> (DigitOrDot(a[k]) || DigitOrDot(b[k])) ==> a[k] == b[k]
  }

  lemma LowerKeepsDigitsAndDots(a: string, b: string)
    requires Lower(a) == Lower(b)
    ensures SameDigitsAndDots(a, b)
  {
    forall k | 0 <= k < |a| && (DigitOrDot(a[k]) || DigitOrDot(b[k])) ensures a[k] == b[k] {
      assert LowerChar(a[k]) == Lower(a)[k] == Lower(b)[k] == LowerChar(b[k]);
    }
  }

  lemma {:induction false} DigitRunAgrees(a: string, b: string, p: nat)
    requires SameDigitsAndDots(a, b)
    ensures DigitRun(a, p) == DigitRun(b, p)
    decreases |a| - p
  {
    if p < |a| && (IsAsciiDigit(a[p]) || IsAsciiDigit(b[p])) {
      DigitRunAgrees(a, b, p + 1);
    }
  }

  lemma GroupDotEndAgrees(a: string, b: string, p: nat)
    requires SameDigitsAndDots(a, b)
    ensures GroupDotEnd(a, p) == GroupDotEnd(b, p)
  {
    DigitRunAgrees(a, b, p);
    var n := DigitRun(a, p);
    if p + n < |a| && (a[p + n] == '.' || b[p + n] == '.') {
      assert a[p + n] == b[p + n];
    }
  }

  lemma Ipv4MatchAgrees(a: string, b: string, p: nat)
    requires SameDigitsAndDots(a, b)
    ensures Ipv4MatchAt(a, p) == Ipv4MatchAt(b, p)
  {
    GroupDotEndAgrees(a, b, p);
    var g1 := GroupDotEnd(a, p);
    if g1.Some? {
      GroupDotEndAgrees(a, b, g1.value);
      var g2 := GroupDotEnd(a, g1.value);
      if g2.Some? {
        GroupDotEndAgrees(a, b, g2.value);
        var g3 := GroupDotEnd(a, g2.value);
        if g3.Some? {
          DigitRunAgrees(a, b, g3.value);
        }
      }
    }
  }

  lemma {:induction false} FindIpv4Agrees(a: string, b: string, p: nat)
    requires SameDigitsAndDots(a, b)
    ensures FindIpv4From(a, p) == FindIpv4From(b, p)
    decreases |a| - p
  {
    if p < |a| {
      Ipv4MatchAgrees(a, b, p);
      var m := Ipv4MatchAt(a, p);
      if m.Some? {
        var e := m.value;
        FindIpv4Take(a, p, e);
        FindIpv4Take(b, p, e);
        SliceAgrees(a, b, p, e);
        FindIpv4Agrees(a, b, e);
      } else {
        FindIpv4Skip(a, p);
        FindIpv4Skip(b, p);
        FindIpv4Agrees(a, b, p + 1);
      }
    }
  }

  lemma SliceAgrees(a: string, b: string, p: nat, e: nat)
    requires SameDigitsAndDots(a, b) && p <= e <= |a|
    requires forall k :: p <= k < e ==> DigitOrDot(a[k])
    ensures a[p..e] == b[p..e]
  {
  }

  /** Two texts with the same extracted targets get the same `set ... rhost` decision. */
  lemma SetRhostIgnoresText(t1: string, t2: string, allowOverrides: bool, env: Environment)
    requires ExtractTargets(t1) == ExtractTargets(t2)
    ensures var e1 := SetRhostEffects(t1, allowOverrides, env);
      var e2 := SetRhostEffects(t2, allowOverrides, env);
      && e1.dialogs == e2.dialogs && e1.log == e2.log
      && (e1.calls == [ExecuteCall(t1)] <==> e2.calls == [ExecuteCall(t2)])
      && (e1.calls == [] <==> e2.calls == [])
  {
    match CheckTargets(ExtractTargets(t1), AllowedTargets(env))
    case TargetsAllowed =>
    case InvalidTarget(t) =>
      NegotiateShape(t1, TargetNotAllowed(t), TargetOverride, allowOverrides, env);
      NegotiateShape(t2, TargetNotAllowed(t), TargetOverride, allowOverrides, env);
  }

  /** The `use` decision is taken on the lower-cased line alone. */
  lemma UseIgnoresText(t1: string, t2: string, lower: string, allowOverrides: bool, env: Environment)
    ensures var e1 := UseEffects(t1, lower, allowOverrides, env);
      var e2 := UseEffects(t2, lower, allowOverrides, env);
      && e1.dialogs == e2.dialogs && e1.log == e2.log
      && (e1.calls == [ExecuteCall(t1)] <==> e2.calls == [ExecuteCall(t2)])
      && (e1.calls == [] <==> e2.calls == [])
  {
    match ModuleName(lower)
    case None =>
    case Some(m) =>
      match env.permissions
      case None =>
      case Some(perms) =>
        NegotiateShape(t1, ModuleNotAllowed(m), PermissionOverride, allowOverrides, env);
        NegotiateShape(t2, ModuleNotAllowed(m), PermissionOverride, allowOverrides, env);
  }

  /**
   * Category, checks, dialogs, log and shell transition depend on the line
   * only through its lower-cased form; what is executed is the line as typed.
   */
  lemma DecisionIgnoresCase(t1: string, t2: string, allowOverrides: bool, sessions: set<string>, env: Environment)
    requires Lower(t1) == Lower(t2)
    ensures var s1 := TopLevelStep(t1, allowOverrides, sessions, env);
      var s2 := TopLevelStep(t2, allowOverrides, sessions, env);
      && s1.effects.dialogs == s2.effects.dialogs && s1.effects.log == s2.effects.log
      && s1.shell == s2.shell && s1.exited == s2.exited
      && (s1.effects.calls == [ExecuteCall(t1)] <==> s2.effects.calls == [ExecuteCall(t2)])
      && (s1.effects.calls == [] <==> s2.effects.calls == [])
  {
    var lower := Normalize(t1);
    assert Normalize(t2) == lower;
    match Classify(lower)
    case SetRhost =>
      LowerKeepsDigitsAndDots(t1, t2);
      FindIpv4Agrees(t1, t2, 0);
      SetRhostIgnoresText(t1, t2, allowOverrides, env);
    case UseModule => UseIgnoresText(t1, t2, lower, allowOverrides, env);
    case _ =>
  }
}
