# msf_prompt, modelled in Dafny

msf_prompt is a wrapper around Metasploit's `msfconsole`. The operator types
commands into a prompt_toolkit prompt, and each line is sent to an `msfrpcd`
console over RPC. Before forwarding a line, the wrapper checks it against two
allow-lists:
- the targets a `set ... rhost` line may name;
- the modules each user may `use`.

A failed check is refused, or it is put to the operator as a yes/no override.
`exploit` needs a confirmation. `sessions -i N` switches the prompt to a shell
sub-session.

Around this sit several smaller parts:
- an administration tool that edits the two allow-lists;
- a `key:value #comment` configuration reader;
- a splitter that turns the console's prompt into styled segments;
- the prompt's typing aids: suggestion from history, wordlist and console, and
  tab-completion.

Most of these parts exist in two copies: the packaged one under `msf_prompt/`,
and an earlier one at the top of the repository. Both are modelled, together
with lemmas relating the two.

The modules:

- `Wrappers`: `Option` and `Result`.
- `PyStr`: the Python `str` operations the program uses. This covers
  `lower()`, `strip()` with and without characters, `startswith`, `in`,
  `find`, slicing past the end, `rsplit(..., 1)[-1]` and the two-way
  `split`. It includes the round-trip of `a, b = s.split(sep)`.
- `Policy`: `validate_targets`, `allowed_modules` and `validate_user_perms`.
  These are the same in both copies of the session class. `ValidateTargets`
  and `ValidateUserPerms` are the source's loops, each proved equal to a
  specification function.
- `Commands`: how a line is classified, plus the three `re.findall`
  extractions. These are the IPv4 literals of a `set ... rhost` line, the
  session number of `sessions -i N`, and the module of `use ...`.
- `Dispatch`: what one line does, as a pure function (`HandleLine`) of the
  session's shell slot and of the answers of the outside world. The
  `Environment` holds the login name, the dialog answer, the unpickled
  allow-lists, and whether the shell transport fails. The result is the
  console calls, the dialogs shown, the log records, the new shell slot and
  whether `exit(0)` ended the program. The safety lemmas live here.
- `Session`: the packaged `OffPromptSession` as a class whose field
  `activeShell` is updated in place. It also holds `OffPromptShellSession`'s
  `handle_input`, and the console, logger and operator as classes recording
  their traces. `OffPromptSession.HandleInput` is proved to append exactly
  the effects `HandleLine` describes and to set the slot it gives.
- `LegacySession`: the earlier `OffPromptSession`. It has no shell slot and no
  `sessions -i` branch.
- `Suggest`: `MsfAutoSuggest.get_suggestion` and
  `MsfCompleter.get_completions`, as methods with loops proved against
  specification functions.
- `Admin`: `usr_tgt_mod.py`'s add/delete of targets and permissions. Each
  operation is a function on the loaded list or map. The class
  `AllowListFiles` holds the two pickled files and counts how often each was
  saved.
- `Config` and `LegacyConfig`: the two `parseconfig` functions. Each is a
  loop over the file's lines proved against a left-to-right fold.
- `PromptStyles` and `LegacyPromptStyles`: `get_formatted_prompt` and
  `get_prompt_text`.

Where the repository's own description and its code differ, the model follows
the code:

- **Target membership.** The allowed-target check is a literal `in` test on
  the unpickled list, not address-in-network containment. The admin tool
  stores `ipaddress` objects, and no extracted target string ever equals one
  (`Admin.ToolWrittenListRefusesTargets`).
- **`sessions -i N`.** The line is never executed and always ends in the
  "not currently supported" exception. The shell slot is still set first when
  `N` is a listed session, so later lines do go to that shell.
- **Whitespace lines in the config file.** The config docstring says
  whitespace lines are ignored. The packaged reader fails on them (see
  Findings).

## Model

| member | source | states |
|---|---|---|
| PyStr.Lower | msf_prompt/offpromptsession.py:321-323 | lower-casing keeps the length and maps each character on its own |
| PyStr.Strip | msf_prompt/offpromptsession.py:321-323 | the stripped text is empty or begins and ends with a non-whitespace character |
| PyStr.LastPart | msf_prompt/offpromptsession.py:164-166 | the last part is a suffix with no separator in it, preceded by a separator unless it is the whole text |
| PyStr.SplitPairRoundTrip | msf_prompt/usr_tgt_mod.py:144 | `a, b = s.split(sep)` yields `(a, b)` exactly when `s` is `a + sep + b` with no `sep` in either half |
| Policy.CheckTargets | msf_prompt/offpromptsession.py:506-509 | targets are allowed iff every one is a literal member of the list (so an empty list passes); otherwise the error names the first non-member in order |
| Policy.ValidateTargets | msf_prompt/offpromptsession.py:506-509 | the early-exit loop returns exactly `CheckTargets` |
| Policy.AllowedModules | msf_prompt/offpromptsession.py:562-582 | succeeds iff neither the user's entry nor `ALL`'s is `None` (a missing key reads as `[]`); a pattern is then allowed iff it is in either list |
| Policy.AllowedModulesOrder | msf_prompt/offpromptsession.py:582 | the user's patterns come first and `ALL`'s after them, none dropped |
| Policy.ValidateUserPerms | msf_prompt/offpromptsession.py:531-544 | fails iff the pattern list cannot be built; accepts iff the module is listed exactly or a pattern containing `*`, stripped of its `*`s at both ends, is a prefix of it; equals `CheckPermission` |
| Commands.FindIpv4From | msf_prompt/offpromptsession.py:404 | every extracted target is 7 to 15 digits and dots, beginning and ending with a digit |
| Commands.Ipv4MatchAt | msf_prompt/offpromptsession.py:404 | a dotted-quad match spans 7 to 15 characters of digits and dots |
| Commands.Ipv4MatchOf | msf_prompt/offpromptsession.py:404 | four groups of one to three digits joined by dots, not followed by a digit, match at their start and the match ends after the fourth group |
| Commands.FindIpv4FirstAt | msf_prompt/offpromptsession.py:404 | `findall` takes the leftmost match at or after the search position, then searches on from that match's end |
| Commands.NoIpv4 | msf_prompt/offpromptsession.py:404 | with no match from a position on, nothing more is found |
| Commands.NoDigitNoTargets | msf_prompt/offpromptsession.py:404 | a line with no digit yields no targets |
| Commands.OneTargetExtracted | msf_prompt/offpromptsession.py:404 | a line holding one dotted quad with no other digit yields exactly that quad |
| Commands.SessionIdFrom | msf_prompt/offpromptsession.py:347-349 | the captured session number is 1 to 9 ASCII digits |
| Commands.SessionIdFirstAt | msf_prompt/offpromptsession.py:347-349 | `findall(...)[0]` is the capture of the leftmost match: with no match before position `k` and one at `k`, the result is that match's capture |
| Commands.NoSessionId | msf_prompt/offpromptsession.py:347-349 | with no match from a position on, the search from there finds no session number (the `IndexError`) |
| Commands.NoDigitNoSession | msf_prompt/offpromptsession.py:347-349 | a line with no digit, such as a bare `sessions -i`, names no session |
| Commands.SessionNumberCaptured | msf_prompt/offpromptsession.py:347-349 | `sessions -i N` followed by nothing or a non-digit, with `N` one to nine digits, names exactly session `N` |
| Commands.ModuleName | msf_prompt/offpromptsession.py:436 | there is no module iff the lower-cased line has no `use `; otherwise the module is the text right after the first `use `, holding no newline and ending at a newline or at the end of the line |
| Commands.ModuleNameOf | msf_prompt/offpromptsession.py:436 | a line `pre + "use " + m + post`, with no `use ` before the given one, `m` free of newlines and `post` empty or starting with a newline, names exactly module `m` |
| Dispatch.ShellOwnsEveryLine | msf_prompt/offpromptsession.py:325-332 | with a shell active, a line reaches only that shell, verbatim, with the fixed marker and timeout; no dialog, no `execute`; only `exit`/`background` clear the slot; a blank line does nothing |
| Dispatch.SessionsLineNeverExecuted | msf_prompt/offpromptsession.py:341-376 | `sessions -i N` is never executed and shows no dialog; a shell is opened iff `N` is captured and listed, on that session |
| Dispatch.NegotiateShape | msf_prompt/offpromptsession.py:408-429 | after a failed check the line runs iff overrides are on and the operator approves; the dialog appears iff overrides are on |
| Dispatch.UseEffectsShape | msf_prompt/offpromptsession.py:434-464 | the `use` branch executes at most the typed line and shows at most the permission dialog, only with overrides on |
| Dispatch.SetRhostEffectsShape | msf_prompt/offpromptsession.py:400-429 | the `set ... rhost` branch executes at most the typed line and shows at most the target dialog, only with overrides on, whether or not the target file loads |
| Dispatch.ExecutesOnlyTheTypedLine | msf_prompt/offpromptsession.py:297-485 | whatever the line, the top level executes nothing but the line as typed, at most once |
| Dispatch.AtMostOneDialog | msf_prompt/offpromptsession.py:297-485 | at most one dialog per line; with overrides off, only the exploit confirmation |
| Dispatch.DeniedModuleNotExecuted | msf_prompt/offpromptsession.py:434-464 | a `use` line whose module the user's allow-list refuses runs iff overrides are on and the operator approves; the permission dialog appears iff overrides are on; the violation warning comes first in the log; the shell slot stays empty and the program goes on |
| Dispatch.DeniedTargetNotExecuted | msf_prompt/offpromptsession.py:400-429 | with a target not on the loaded list (or any target when the file cannot be loaded), the line runs iff overrides are on and the operator approves; the dialog appears iff overrides are on |
| Dispatch.ListedTargetsExecuted | msf_prompt/offpromptsession.py:400-469 | with every target on the loaded list, the line is executed once, with no dialog and no log |
| Dispatch.DenialIsAudited | msf_prompt/offpromptsession.py:408-481 | a refused target leaves exactly the violation warning and one declined/disallowed record naming the user and target, preceded by the load failure iff the target file cannot be read |
| Dispatch.UnreadableTargetsRefused | msf_prompt/offpromptsession.py:585-595 | with the target file unreadable, a line naming a target logs the load failure, then the violation on its first target, then the one record the override protocol calls for, and runs only through an approved override |
| Dispatch.ExploitNeedsConfirmation | msf_prompt/offpromptsession.py:378-395 | an `exploit` line always asks for confirmation and is executed iff confirmed |
| Dispatch.PlainLineExecutedOnce | msf_prompt/offpromptsession.py:469 | a line matching no prefix is executed once with no dialog, no log and no shell change |
| Dispatch.BareUseStillExecuted | msf_prompt/offpromptsession.py:434-469 | a bare `use` fails extraction, the failure is logged, and the line is still executed |
| Dispatch.ModuleCheckedLowerCased | msf_prompt/offpromptsession.py:436-437 | the module checked against the permissions holds no upper-case letter |
| Dispatch.NormalizedHasNoUpper | msf_prompt/offpromptsession.py:321-323 | the lower-cased, stripped line has no upper-case letter |
| Dispatch.PromptFollowsShellSlot | msf_prompt/offpromptsession.py:601-604 | the prompt is the console's after leaving a shell, and the shell's label after opening one |
| Dispatch.FindIpv4Agrees | msf_prompt/offpromptsession.py:404 | two lines that lower-case alike yield the same extracted targets |
| Dispatch.SetRhostIgnoresText | msf_prompt/offpromptsession.py:400-429 | lines with the same extracted targets get the same dialogs, log (load failure included) and execute decision |
| Dispatch.UseIgnoresText | msf_prompt/offpromptsession.py:434-464 | the `use` decision depends on the lower-cased line alone |
| Dispatch.DecisionIgnoresCase | msf_prompt/offpromptsession.py:321-469 | category, dialogs, log and shell transition depend only on the lower-cased line, while the line executed is the one typed |
| Session.ShellHandleInput | msf_prompt/offpromptsession.py:663-680 | the shell's `handle_input` records exactly `ShellStep`'s calls and log, and asks to leave iff the line is `exit`/`background` |
| Session.Conclude | msf_prompt/offpromptsession.py:469-485 | the line is executed iff nothing, or a `UserOverride`, was raised; each handler appends its one record |
| Session.NegotiateOverride | msf_prompt/offpromptsession.py:408-429 | logs the violation, shows the dialog iff overrides are on, and raises the override or the denial the answer calls for |
| Session.HandleExploit | msf_prompt/offpromptsession.py:378-395 | records exactly the exploit branch's effects |
| Session.HandleSetRhost | msf_prompt/offpromptsession.py:400-429 | records exactly `SetRhostEffects`: the target file's load failure, when there is a target, then the decision |
| Session.DecideTargets | msf_prompt/offpromptsession.py:406-429 | records exactly `TargetDecision`: the check against the loaded list and the override protocol |
| Session.HandleUse | msf_prompt/offpromptsession.py:434-464 | records exactly `UseEffects` |
| Session.OffPromptSession.HandleSessions | msf_prompt/offpromptsession.py:341-376 | records the `sessions -i` effects and sets the slot as `TopLevelStep` says |
| Session.OffPromptSession.HandleTopLevel | msf_prompt/offpromptsession.py:333-485 | with no shell active, appends exactly `TopLevelStep`'s calls, dialogs and log, sets the shell slot and reports `exit` as `TopLevelStep` does |
| Session.OffPromptSession.HandleInput | msf_prompt/offpromptsession.py:297-485 | appends exactly `HandleLine`'s calls, dialogs and log to the three traces, sets the shell slot and reports `exit` as `HandleLine` does |
| LegacySession.LegacyOffPromptSession.HandleInput | offpromptsession.py:140-276 | appends exactly `LegacyStep`'s effects and reports `exit` |
| LegacySession.LegacyAgreesOffSessions | offpromptsession.py:163-276 | away from `sessions -i`, the earlier session handles a line exactly as the packaged one with no shell active |
| LegacySession.LegacyExecutesSessionsLines | offpromptsession.py:163-260 | the earlier session executes `sessions -i N` as a plain line, while the packaged one never does |
| LegacySession.SessionsLineIsPlain | offpromptsession.py:168-225 | the earlier chain classifies a `sessions -i` line as plain |
| Suggest.FirstWordFor | msf_prompt/offpromptsession.py:169-172 | the index found is the first wordlist word extending the text; none iff no word extends it |
| Suggest.ScanWordlist | msf_prompt/offpromptsession.py:169-172 | the loop with `break` returns exactly `FirstWordFor` |
| Suggest.FirstWordIs | msf_prompt/offpromptsession.py:169-172 | a word extending the text with no earlier one doing so is the one found |
| Suggest.GetSuggestion | msf_prompt/offpromptsession.py:162-182 | the method returns exactly `Suggestion` |
| Suggest.HistoryFirstNothingOnBlank | msf_prompt/offpromptsession.py:162-167 | a history suggestion always wins, and a blank current line gets nothing else |
| Suggest.WordlistBeforeConsole | msf_prompt/offpromptsession.py:168-172 | with no history match, a wordlist word extending the line wins: the suggestion completes the line to the first such word |
| Suggest.ConsoleLast | msf_prompt/offpromptsession.py:173-181 | only with no history match and no wordlist word is the rest of the console's first completion used, and nothing when it has none |
| Suggest.FirstHalfEndsTyped | msf_prompt/offpromptsession.py:99-101 | the replaced word is the end of the typed text back to its last space or `/` |
| Suggest.PartialRunsToSlash | msf_prompt/offpromptsession.py:96-98 | the inserted rest is the candidate from the cursor to its next `/` or its end |
| Suggest.AcceptingFollowsCandidate | msf_prompt/offpromptsession.py:95-110 | accepting a completion at offset `-len(first_half)` leaves the line a prefix of the candidate that extends the typed text and stops at the next `/` or the end |
| Suggest.Candidates | msf_prompt/offpromptsession.py:95-102 | one completion per console candidate, in order |
| Suggest.EveryCandidateOffered | msf_prompt/offpromptsession.py:103-110 | after the loop, every candidate's completion text has been offered |
| Suggest.GetCompletions | msf_prompt/offpromptsession.py:89-110 | no completion text is yielded twice; what is yielded is the first completion of each distinct text, in the order the candidates first show that text (`InOrder`); every candidate's text is among them |
| Admin.ParseTarget | msf_prompt/usr_tgt_mod.py:65-70 | a target parses iff `ip_address` or `ip_network` accepts it; the address parser is tried first, and the value is the object that parser returns |
| Admin.Without | msf_prompt/usr_tgt_mod.py:101 | the filtered list holds exactly the other elements, and is no longer |
| Admin.WithoutConcat | msf_prompt/usr_tgt_mod.py:101 | filtering distributes over concatenation |
| Admin.AddTargetAppends | msf_prompt/usr_tgt_mod.py:63-72 | a parsed target is appended once at the end with earlier entries unchanged: the `ip_address` object when the text parses as one, else the `ip_network` object; anything else leaves the list as loaded |
| Admin.DeleteTargetRemoves | msf_prompt/usr_tgt_mod.py:100-106 | the object removed is the `ip_address` one when the text parses as one, else the `ip_network` one; a present target is removed everywhere and every other entry kept in order; a valid but absent one leaves the list as loaded |
| Admin.DeleteUndoesAdd | msf_prompt/usr_tgt_mod.py:63-109 | deleting a target just added to a list without it restores the list |
| Admin.DeleteStarAsWrittenFails | msf_prompt/usr_tgt_mod.py:92-104 | as written, `*` never reaches the wildcard branch: it stops on the unbound `tgt` |
| Admin.DeleteIntendedAgrees | msf_prompt/usr_tgt_mod.py:100-106 | the intended deletion empties the list on `*`, agrees with the code wherever the code saves for another input, and keeps the list where the code stops |
| Admin.ToolWrittenListRefusesTargets | msf_prompt/usr_tgt_mod.py:66-69 | against a list holding only `ipaddress` objects, the session refuses every non-empty target list at its first target |
| Admin.ToolKeepsAddressObjects | msf_prompt/usr_tgt_mod.py:63-109 | adding and deleting keep a list of address objects only |
| Admin.AddPermissionAsWrittenBreaksChecks | msf_prompt/usr_tgt_mod.py:143-146 | as written, after adding `user:module` the user's entry is `None`, and every later permission check for that user fails |
| Admin.AddPermissionAsWrittenOpensUse | msf_prompt/usr_tgt_mod.py:145-146 | after such an add, any `use` line by that user is executed with no permission dialog |
| Admin.AddPermissionGrants | msf_prompt/usr_tgt_mod.py:143-146 | with the intended append, the module is granted to the user and no other user's entry changes |
| Admin.MalformedEntryIgnored | msf_prompt/usr_tgt_mod.py:143-148 | an entry with no `:` or with two does not unpack, and adding or deleting it leaves the map as loaded |
| Admin.DeletePermissionRevokes | msf_prompt/usr_tgt_mod.py:165-179 | deleting `user:module` removes that module and keeps the user's other patterns; `user:*` removes the user; an unknown user or unlisted module leaves the map; other users are untouched |
| Admin.DeleteUndoesAddPermission | msf_prompt/usr_tgt_mod.py:143-176 | deleting a permission just added (intended append) restores the map |
| Admin.AllowListFiles.AddTarget | msf_prompt/usr_tgt_mod.py:63-75 | the target file becomes `TargetsAfterAdd` of the old one and is saved once more; the permission file is untouched |
| Admin.AllowListFiles.DeleteTarget | msf_prompt/usr_tgt_mod.py:90-109 | an error iff neither parse succeeds, in which case nothing changes and nothing is saved; otherwise the file becomes `TargetsAfterDelete` and is saved |
| Admin.AllowListFiles.AddPermission | msf_prompt/usr_tgt_mod.py:141-150 | the permission file becomes the as-written result and is saved once more |
| Admin.AllowListFiles.DeletePermission | msf_prompt/usr_tgt_mod.py:165-181 | the permission file becomes `PermissionsAfterDelete` of the old one and is saved once more |
| Config.FileLines | msf_prompt/utils/utils.py:37-38 | iterating the file yields non-empty lines, each ending at its newline, whose concatenation is the file |
| Config.IntRoundTrip | msf_prompt/utils/utils.py:51-54 | `int()` reads back every integer's decimal text |
| Config.OptionText | msf_prompt/utils/utils.py:39-42 | the option text holds no `#` |
| Config.LineRoundTrip | msf_prompt/utils/utils.py:39-62 | a line `key:value` written from a plain key and value reads back as that key and that coerced value |
| Config.ValueTextCoerces | msf_prompt/utils/utils.py:51-60 | integers coerce to ints, exactly `True`/`False` to booleans, other plain text stays a string |
| Config.CommentIgnored | msf_prompt/utils/utils.py:39-43 | text from the first `#` on is ignored, and a line starting with `#` sets nothing |
| Config.EntryTrimmed | msf_prompt/utils/utils.py:44-48 | a key read is whitespace-trimmed; a string value has no quote at either end and reads as neither a number nor a bool (whitespace inside quotes is kept, see `QuotedSpacesKept`) |
| Config.QuotedSpacesKept | msf_prompt/utils/utils.py:44-48 | `key: ' x '` sets `key` to the string ` x `: the value is stripped of whitespace before its quotes are removed |
| Config.ErrorSticks | msf_prompt/utils/utils.py:36-65 | once a line fails, the whole read fails with that error |
| Config.FirstErrorWins | msf_prompt/utils/utils.py:38-62 | the read succeeds iff every line does; otherwise it fails with the first failing line's error |
| Config.KeysSet | msf_prompt/utils/utils.py:38-62 | a key is in the options iff some line sets it |
| Config.LastWins | msf_prompt/utils/utils.py:62 | a key's value is the one from the last line setting it |
| Config.ParseLines | msf_prompt/utils/utils.py:38-62 | the loop over the lines returns exactly the fold `OptionsOf` |
| Config.ParseConfig | msf_prompt/utils/utils.py:35-65 | equals `ParseConfigSpec`; a missing file gives no options |
| Config.WhitespaceLineFails | msf_prompt/utils/utils.py:41-44 | as written, a whitespace-only line is a malformed option and fails the whole read |
| Config.IntendedAgreesOnAccepted | msf_prompt/utils/utils.py:39-44 | the intended line reader agrees with the code on every line the code accepts |
| Config.IntendedSkipsWhitespaceLines | msf_prompt/utils/utils.py:21-23 | with the intended reader, a whitespace-only line changes nothing |
| Config.IntendedAgreesOnAcceptedFiles | msf_prompt/utils/utils.py:38-62 | on every file the code reads, the intended reader gives the same options |
| LegacyConfig.LegacyParseLines | utils.py:42-63 | the earlier loop returns exactly the fold with the earlier line rule |
| LegacyConfig.LegacyParseConfig | utils.py:40-64 | the loop returns exactly the earlier reader's specification, under which a missing file is an error |
| LegacyConfig.LegacyIgnoresUncommented | utils.py:43-45 | the earlier reader ignores every line without `#` |
| LegacyConfig.VersionsAgreeOnCommentedLines | utils.py:41-63 | on files whose lines all hold `#` the two readers agree; they differ on a missing file |
| LegacyConfig.UncommentedOptionOnlyInPackaged | utils.py:43 | an option line without a comment is read by the packaged reader and ignored by the earlier one |
| PromptStyles.MsfTag | msf_prompt/msf_prompt_styles.py:33-37 | none iff the prompt has no `msf`; otherwise the first `msf`, four characters long exactly when a digit follows it, and then with that digit |
| PromptStyles.PremoduleFrom | msf_prompt/msf_prompt_styles.py:38-41 | a match is a space followed by at least one word character |
| PromptStyles.PremoduleFirstAt | msf_prompt/msf_prompt_styles.py:38-41 | the leftmost ` word(` match is the one taken |
| PromptStyles.Premodule | msf_prompt/msf_prompt_styles.py:38-41 | the premodule is empty or a space followed by word characters |
| PromptStyles.GroupFrom | msf_prompt/msf_prompt_styles.py:42-46 | a parenthesised group holds no `)` and no newline |
| PromptStyles.GroupFirstAt | msf_prompt/msf_prompt_styles.py:42-46 | the leftmost `(` followed by `)` on the same line is the group taken, up to the next `)` |
| PromptStyles.Printable | msf_prompt/msf_prompt_styles.py:44 | the filter keeps exactly the printable characters of the group |
| PromptStyles.PrintableConcat | msf_prompt/msf_prompt_styles.py:44 | the filter works piece by piece: filtering `a + b` gives the filtered `a` followed by the filtered `b` |
| PromptStyles.PrintableChar | msf_prompt/msf_prompt_styles.py:44 | one character is kept iff it is printable |
| PromptStyles.PrintableKeeps | msf_prompt/msf_prompt_styles.py:44 | text made only of printable characters passes unchanged |
| PromptStyles.ModuleText | msf_prompt/msf_prompt_styles.py:42-46 | the module is printable, with no `)` and no newline |
| PromptStyles.FormattedPromptShape | msf_prompt/msf_prompt_styles.py:33-63 | a prompt without `msf` comes back as one unstyled segment; otherwise six segments, the tag first, ` > ` last, with parentheses iff the module is non-empty |
| PromptStyles.ConsolePromptRoundTrip | msf_prompt/msf_prompt_styles.py:33-63 | a prompt `msfV word(module) > ` is split back into exactly its tag, ` word`, the parentheses and the module |
| LegacyPromptStyles.TagOrDefault | msf_prompt_styles.py:18-21 | the tag is `msf` or `msf` plus a digit, and `msf` when the prompt has none |
| LegacyPromptStyles.PromptTextShape | msf_prompt_styles.py:17-47 | always six segments, the tag first, ` > ` last, with parentheses iff the module is non-empty |
| LegacyPromptStyles.SplittersAgree | msf_prompt_styles.py:18-21 | the two splitters agree on every prompt containing `msf`; on any other, the earlier one still styles an `msf` tag |
| LegacyPromptStyles.ShellPromptStyledAsConsole | msf_prompt_styles.py:17-45 | a shell prompt without `msf` or `(` is shown by the earlier splitter as a bare `msf > ` |

## Left out

- I/O of every kind is a parameter or a recorded trace. This covers pickle
  load and dump, file reads, `os.getlogin()`, `yes_no_dialog`, `print`,
  `logging` and the RPC transport. Log records are identified by what they
  report; their message text is not modelled.
- Pickle files that fail to load are logged failures. An unreadable target
  file is reported once, on the first target, and the empty list it yields
  refuses that target. An unreadable module file lets the line run. Values
  of other types in those files are not modelled.
- `ipaddress` parsing is abstract (`Admin.IpParser`). Only "parses as an
  address" and "parses as a network", with a canonical text, are modelled.
- Subnet containment: the code has none, so the model has none either.
- `lower()`, `\w`, `\d` and `int()` are modelled on ASCII. Python applies
  them to all of Unicode as well.
- The history search of `AutoSuggestFromHistory` is an oracle input, the
  history's suggestion, and so is the console's `tabs` call.
- The main loops of `msf_prompt.py`, the `usr_tgt_mod.main` menu,
  `parseargs`, the validators that only print, the stdout shim and the
  packaging files are not part of this model.
- `exit(0)` is a terminal outcome of the step, not process termination.
- Session ids are compared as strings. The key type of the RPC session list
  is not part of this model.
- Admin.AllowListFiles.AddPermission: models the list `append` only through
  its result (`None`); the in-place append to a list that another reference
  shares is not modelled.
- Admin.AllowListFiles.DeletePermission: the slice assignment
  `perms[:] = ...` replaces the user's list in place; the model builds a new
  list, so a reference to the old list held elsewhere is not modelled.
- Config.FileLines: splits on `\n` only. Python's text mode also turns `\r`
  and `\r\n` into `\n`, and opening the file with `"r+"` can raise
  `PermissionError`; neither is modelled.
- Config.ParseLines: requires every line to be non-empty, which iterating a
  file guarantees.

## Findings

| source | as written | input that shows it | evidently intended | confidence | as-written member | corrected member |
|---|---|---|---|---|---|---|
| msf_prompt/usr_tgt_mod.py:145-146 | the user's entry is set to the result of `list.append`, which is `None` | entry `alice:exploit/x` for any map | append the module to the user's list | not executed | Admin.AddPermissionAsWrittenBreaksChecks | Admin.AddPermissionGrants |
| msf_prompt/usr_tgt_mod.py:92-104 | the `*` branch is reached only after `tgt` is bound, and `*` parses neither as an address nor as a network | target `*` | empty the allow-list | not executed | Admin.DeleteStarAsWrittenFails | Admin.DeleteIntendedAgrees |
| msf_prompt/utils/utils.py:41-44 | a whitespace-only line is non-empty, so it is split on `:` and raises | a file holding a blank line `\n` | skip whitespace lines, as the docstring says | not executed | Config.WhitespaceLineFails | Config.IntendedSkipsWhitespaceLines |

For each finding, the code as written is what the classes and methods model:
`AllowListFiles`, `ParseLines` and `ParseConfig`. The corrected definitions
are `PermissionsAfterAdd`, `TargetsAfterDeleteIntended` and
`LineEntryIntended`. Each is proved to agree with the code wherever the code
behaves as intended, and the intended property is proved of it.
