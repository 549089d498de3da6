/**
 * The allow-list administration tool (`usr_tgt_mod.py`): adding and deleting
 * allowed targets, and adding and deleting `user:module` permissions. Each
 * operation loads the pickled list or map, changes it and dumps it again;
 * here the two files are fields of `AllowListFiles`, the operator's typed
 * answer is a parameter, and `ipaddress` parsing is the `IpParser` given.
 */
module Admin {
  import opened Wrappers
  import opened PyStr
  import opened Policy
  import opened Commands
  import opened Dispatch

  /**
   * `ipaddress.ip_address` and `ipaddress.ip_network`: the canonical text of
   * the parsed object, or `None` where the call raises.
   */
  datatype IpParser = IpParser(address: string -> Option<string>, network: string -> Option<string>)

  /** The address reading is tried first and the network reading only when it fails. */
  function ParseTarget(p: IpParser, target: string): (r: Option<IpValue>)
    ensures r.Some? <==> p.address(target).Some? || p.network(target).Some?
    ensures p.address(target).Some? ==> r.Some? && r.value.IpAddress? && r.value.address == p.address(target).value
    ensures r.Some? && r.value.IpNetwork? ==> p.address(target).None? && r.value.network == p.network(target).value
  {
    match p.address(target)
    case Some(a) => Some(IpAddress(a))
    case None =>
      match p.network(target)
      case Some(n) => Some(IpNetwork(n))
      case None => None
  }

  /** `[y for y in xs if y != x]`. */
  function Without<T(==, !new)>(xs: seq<T>, x: T): (r: seq<T>)
    ensures forall y :: y in r <==> y in xs && y != x
    ensures |r| <= |xs|
  {
    if xs == [] then []
    else (if xs[0] == x then [] else [xs[0]]) + Without(xs[1..], x)
  }

  /** Removing an element keeps the others in order: the filter distributes over concatenation. */
  lemma {:induction false} WithoutConcat<T(!new)>(a: seq<T>, b: seq<T>, x: T)
    ensures Without(a + b, x) == Without(a, x) + Without(b, x)
  {
    if a == [] {
      assert a + b == b;
    } else {
      assert (a + b)[0] == a[0] && (a + b)[1..] == a[1..] + b;
      WithoutConcat(a[1..], b, x);
    }
  }

  /** Filtering out an absent element changes nothing. */
  lemma {:induction false} WithoutAbsent<T(!new)>(xs: seq<T>, x: T)
    requires x !in xs
    ensures Without(xs, x) == xs
  {
    if xs != [] {
      assert xs[0] != x;
      WithoutAbsent(xs[1..], x);
      assert xs == [xs[0]] + xs[1..];
    }
  }

  // ---------------------------------------------------------------------------
  // add_target and delete_target
  // ---------------------------------------------------------------------------

  /** The list `add_target` saves: the parsed target appended, or the list as loaded. */
  function TargetsAfterAdd(targets: seq<TargetEntry>, p: IpParser, target: string): seq<TargetEntry> {
    match ParseTarget(p, target)
    case Some(v) => targets + [IpTarget(v)]
    case None => targets
  }

  /** Why `delete_target` stops before saving: `tgt` is never bound when neither parse succeeds. */
  datatype DeleteError = UnboundTarget

  /**
   * The list `delete_target` saves, as written: every entry equal to the
   * parsed target removed; else `[]` for the input `*`; else the list as
   * loaded. An input neither parse accepts reaches the membership test with
   * `tgt` unbound, and nothing is saved.
   */
  function TargetsAfterDelete(targets: seq<TargetEntry>, p: IpParser, target: string)
    : Result<seq<TargetEntry>, DeleteError>
  {
    match ParseTarget(p, target)
    case None => Err(UnboundTarget)
    case Some(v) =>
      if IpTarget(v) in targets then Ok(Without(targets, IpTarget(v)))
      else if target == "*" then Ok([])
      else Ok(targets)
  }

  /**
   * The list `delete_target` evidently means to save: `*` empties it, a
   * parsed target is filtered out, and an input neither parse accepts is
   * reported and leaves the list as loaded.
   */
  function TargetsAfterDeleteIntended(targets: seq<TargetEntry>, p: IpParser, target: string): seq<TargetEntry> {
    if target == "*" then []
    else match ParseTarget(p, target)
      case None => targets
      case Some(v) => Without(targets, IpTarget(v))
  }

  /**
   * As written, `*` reaches the wildcard branch only if it parses as an
   * address or network, which `ipaddress` never allows: with a parser that
   * rejects it, deleting `*` stops on the unbound `tgt` and the list is kept.
   */
  lemma DeleteStarAsWrittenFails(targets: seq<TargetEntry>, p: IpParser)
    requires p.address("*").None? && p.network("*").None?
    ensures TargetsAfterDelete(targets, p, "*") == Err(UnboundTarget)
    ensures TargetsAfterDeleteIntended(targets, p, "*") == []
  {
  }

  /**
   * The intended deletion agrees with the code wherever the code saves a
   * list for an input other than `*`, keeps the list where the code stops,
   * and always empties it for `*`.
   */
  lemma DeleteIntendedAgrees(targets: seq<TargetEntry>, p: IpParser, target: string)
    ensures var r := TargetsAfterDelete(targets, p, target);
      var fixed := TargetsAfterDeleteIntended(targets, p, target);
      (target != "*" && r.Ok? ==> fixed == r.value)
      && (target != "*" && r.Err? ==> fixed == targets)
      && (target == "*" ==> fixed == [])
  {
    if target != "*" && ParseTarget(p, target).Some? {
      var v := IpTarget(ParseTarget(p, target).value);
      if v !in targets {
        WithoutAbsent(targets, v);
      }
    }
  }

  /**
   * The address `ip_address` reads, or else the network `ip_network` reads,
   * is appended after the unchanged entries; an input neither accepts leaves
   * the list as it was.
   */
  lemma AddTargetAppends(targets: seq<TargetEntry>, p: IpParser, target: string)
    ensures var r := TargetsAfterAdd(targets, p, target);
      (ParseTarget(p, target).Some? ==> |r| == |targets| + 1 && r[..|targets|] == targets)
      && (p.address(target).Some? ==> r[|targets|] == IpTarget(IpAddress(p.address(target).value)))
      && (p.address(target).None? && p.network(target).Some? ==>
            r[|targets|] == IpTarget(IpNetwork(p.network(target).value)))
      && (p.address(target).None? && p.network(target).None? ==> r == targets)
  {
    if ParseTarget(p, target).Some? {
      assert TargetsAfterAdd(targets, p, target)[..|targets|] == targets;
    }
  }

  /**
   * Deleting a present target (read as an address first, else as a network)
   * removes exactly its entries and keeps the rest in order; a valid but
   * absent target leaves the list as it was.
   */
  lemma DeleteTargetRemoves(targets: seq<TargetEntry>, p: IpParser, target: string)
    requires ParseTarget(p, target).Some?
    ensures var v := IpTarget(ParseTarget(p, target).value);
      var r := TargetsAfterDelete(targets, p, target);
      r.Ok?
      && (p.address(target).Some? ==> v == IpTarget(IpAddress(p.address(target).value)))
      && (p.address(target).None? ==> v == IpTarget(IpNetwork(p.network(target).value)))
      && (v in targets ==>
            r.value == Without(targets, v) && v !in r.value
            && forall e :: e in targets && e != v ==> e in r.value)
      && (v !in targets && target != "*" ==> r.value == targets)
  {
  }

  /** Deleting what was just added to a list that did not hold it restores the list. */
  lemma DeleteUndoesAdd(targets: seq<TargetEntry>, p: IpParser, target: string)
    requires ParseTarget(p, target).Some? && IpTarget(ParseTarget(p, target).value) !in targets
    ensures TargetsAfterDelete(TargetsAfterAdd(targets, p, target), p, target) == Ok(targets)
  {
    var v := IpTarget(ParseTarget(p, target).value);
    var added := TargetsAfterAdd(targets, p, target);
    assert added == targets + [v];
    WithoutConcat(targets, [v], v);
    WithoutAbsent(targets, v);
    assert Without([v], v) == [];
    assert Without(added, v) == targets + [];
    assert targets + [] == targets;
  }

  /**
   * A list only the tool has written holds `ipaddress` objects alone, which
   * no extracted target string ever equals: every non-empty target list is
   * then refused at its first element.
   */
  lemma ToolWrittenListRefusesTargets(targets: seq<string>, allowed: seq<TargetEntry>)
    requires forall e :: e in allowed ==> e.IpTarget?
    requires targets != []
    ensures CheckTargets(targets, allowed) == InvalidTarget(targets[0])
  {
    assert !Listed(targets[0], allowed);
  }

  /** Adding and deleting keep a list made of `ipaddress` objects only. */
  lemma ToolKeepsAddressObjects(targets: seq<TargetEntry>, p: IpParser, target: string)
    requires forall e :: e in targets ==> e.IpTarget?
    ensures forall e :: e in TargetsAfterAdd(targets, p, target) ==> e.IpTarget?
    ensures TargetsAfterDelete(targets, p, target).Ok? ==>
      forall e :: e in TargetsAfterDelete(targets, p, target).value ==> e.IpTarget?
  {
  }

  // ---------------------------------------------------------------------------
  // add_permission and delete_permission
  // ---------------------------------------------------------------------------

  /** `user, module = perm.split(":")`. */
  function SplitEntry(entry: string): Option<(string, string)> {
    SplitPair(entry, ':')
  }

  /**
   * The map `add_permission` saves, as written: `list.append` returns `None`,
   * and that `None` becomes the user's entry; a user whose entry is already
   * `None` makes `append` raise, and the map stays as loaded.
   */
  function PermissionsAfterAddAsWritten(perms: PermissionMap, entry: string): PermissionMap {
    match SplitEntry(entry)
    case None => perms
    case Some((user, _)) =>
      if user in perms && perms[user] == PyNone then perms else perms[user := PyNone]
  }

  /**
   * The map `add_permission` evidently means to save: the module appended to
   * the user's list, which is created when the user has none.
   */
  function PermissionsAfterAdd(perms: PermissionMap, entry: string): PermissionMap {
    match SplitEntry(entry)
    case None => perms
    case Some((user, moduleName)) =>
      if user !in perms then perms[user := PermList([moduleName])]
      else match perms[user]
        case PermList(ps) => perms[user := PermList(ps + [moduleName])]
        case PyNone => perms
  }

  /**
   * As written, adding any permission for a user leaves that user's entry
   * `None`, so every later permission check for the user fails with
   * `TypeError` instead of granting the module.
   */
  lemma AddPermissionAsWrittenBreaksChecks(perms: PermissionMap, user: string, moduleName: string, probe: string)
    requires ':' !in user && ':' !in moduleName
    ensures var r := PermissionsAfterAddAsWritten(perms, user + ":" + moduleName);
      user in r && r[user] == PyNone && CheckPermission(probe, user, r) == PermsFailure(NoneEntry(user))
  {
    SplitPairRoundTrip(user + ":" + moduleName, user, moduleName, ':');
  }

  /**
   * The consequence in the session: once a permission has been added for the
   * user as written, a `use` line naming any module is executed with no
   * permission dialog, because the failing check is logged and swallowed.
   */
  lemma AddPermissionAsWrittenOpensUse(text: string, allowOverrides: bool, sessions: set<string>,
                                      env: Environment, perms: PermissionMap, granted: string)
    requires ':' !in env.user && ':' !in granted
    requires Classify(Normalize(text)) == UseModule && ModuleName(Normalize(text)).Some?
    requires env.permissions == Some(PermissionsAfterAddAsWritten(perms, env.user + ":" + granted))
    ensures var s := TopLevelStep(text, allowOverrides, sessions, env);
      s.effects.calls == [ExecuteCall(text)] && s.effects.dialogs == [] && !s.exited
  {
    var m := ModuleName(Normalize(text)).value;
    AddPermissionAsWrittenBreaksChecks(perms, env.user, granted, m);
    UseLineStep(text, allowOverrides, sessions, env);
    assert UseEffects(text, Normalize(text), allowOverrides, env)
      == Effects([ExecuteCall(text)], [], [ErrorWarning(PermissionsMalformed(NoneEntry(env.user)))]);
  }

  /**
   * With the intended append, the module is then granted to the user, and
   * no other user's entry changes.
   */
  lemma AddPermissionGrants(perms: PermissionMap, user: string, moduleName: string)
    requires ':' !in user && ':' !in moduleName
    requires Lookup(perms, user).Ok? && Lookup(perms, AllUsers).Ok?
    ensures var r := PermissionsAfterAdd(perms, user + ":" + moduleName);
      CheckPermission(moduleName, user, r) == ModuleAllowed
      && forall k :: k != user ==> (k in r <==> k in perms) && (k in r ==> r[k] == perms[k])
  {
    SplitPairRoundTrip(user + ":" + moduleName, user, moduleName, ':');
    var r := PermissionsAfterAdd(perms, user + ":" + moduleName);
    assert moduleName in Lookup(r, user).value;
  }

  /**
   * The map `delete_permission` saves: with module `*` the user's key is
   * removed; a listed module is filtered out of that user's list. An unknown
   * user (`KeyError`), a `None` entry (`TypeError` from `in`), an unlisted
   * module or a malformed entry leave the map as loaded.
   */
  function PermissionsAfterDelete(perms: PermissionMap, entry: string): PermissionMap {
    match SplitEntry(entry)
    case None => perms
    case Some((user, moduleName)) =>
      if user !in perms then perms
      else if moduleName == "*" then perms - {user}
      else match perms[user]
        case PyNone => perms
        case PermList(ps) => if moduleName !in ps then perms else perms[user := PermList(Without(ps, moduleName))]
  }

  /**
   * Deleting `user:module` leaves the user without that module and with every
   * other pattern they had, and leaves other users alone; `user:*` removes
   * the user's key.
   */
  lemma DeletePermissionRevokes(perms: PermissionMap, user: string, moduleName: string)
    requires ':' !in user && ':' !in moduleName
    ensures var r := PermissionsAfterDelete(perms, user + ":" + moduleName);
      (forall k :: k != user ==> (k in r <==> k in perms) && (k in r ==> r[k] == perms[k]))
      && (moduleName == "*" ==> user !in r)
      && (user in perms && perms[user].PermList? && moduleName != "*" ==>
            user in r && r[user].PermList? && moduleName !in r[user].patterns
            && forall q :: q in perms[user].patterns && q != moduleName ==> q in r[user].patterns)
      && (user in perms && perms[user].PermList? && moduleName != "*" && moduleName !in perms[user].patterns ==>
            r == perms)
      && (user !in perms ==> r == perms)
  {
    SplitPairRoundTrip(user + ":" + moduleName, user, moduleName, ':');
  }

  /**
   * An entry with no `:` or with more than one does not unpack into
   * `user, module`: adding or deleting it leaves the map as loaded.
   */
  lemma MalformedEntryIgnored(perms: PermissionMap, entry: string)
    requires ':' !in entry || exists i, j :: 0 <= i < j < |entry| && entry[i] == ':' && entry[j] == ':'
    ensures SplitEntry(entry).None?
    ensures PermissionsAfterAddAsWritten(perms, entry) == perms
    ensures PermissionsAfterAdd(perms, entry) == perms
    ensures PermissionsAfterDelete(perms, entry) == perms
  {
    if ':' !in entry {
      CountZero(entry, ':');
    } else {
      var i, j :| 0 <= i < j < |entry| && entry[i] == ':' && entry[j] == ':';
      assert entry == entry[..j] + entry[j..];
      CountConcat(entry[..j], entry[j..], ':');
      assert entry[..j][i] == ':';
      CountZero(entry[..j], ':');
      assert entry[j..][0] == ':';
      CountZero(entry[j..], ':');
    }
  }

  /** Deleting a permission just added (with the intended append) restores the map. */
  lemma DeleteUndoesAddPermission(perms: PermissionMap, user: string, moduleName: string)
    requires ':' !in user && ':' !in moduleName && moduleName != "*"
    requires user in perms && perms[user].PermList? && moduleName !in perms[user].patterns
    ensures PermissionsAfterDelete(PermissionsAfterAdd(perms, user + ":" + moduleName), user + ":" + moduleName) == perms
  {
    SplitPairRoundTrip(user + ":" + moduleName, user, moduleName, ':');
    var ps := perms[user].patterns;
    var added := PermissionsAfterAdd(perms, user + ":" + moduleName);
    assert added == perms[user := PermList(ps + [moduleName])];
    WithoutConcat(ps, [moduleName], moduleName);
    WithoutAbsent(ps, moduleName);
    assert Without([moduleName], moduleName) == [];
    assert Without(ps + [moduleName], moduleName) == ps + [];
    assert ps + [] == ps;
    assert moduleName in ps + [moduleName];
    assert added[user := PermList(ps)] == perms;
  }

  // ---------------------------------------------------------------------------
  // The files the tool rewrites
  // ---------------------------------------------------------------------------

  /**
   * The pickled allowed-target list and user-to-modules map, with a count of
   * the times each has been dumped.
   */
  class AllowListFiles {
    var targetFile: seq<TargetEntry>
    var permissionFile: PermissionMap
    var targetSaves: nat
    var permissionSaves: nat

    constructor (targets: seq<TargetEntry>, perms: PermissionMap)
      ensures targetFile == targets && permissionFile == perms
      ensures targetSaves == 0 && permissionSaves == 0
    {
      targetFile := targets;
      permissionFile := perms;
      targetSaves := 0;
      permissionSaves := 0;
    }

    /** `add_target`: the list is saved again whether or not the input parsed. */
    method AddTarget(p: IpParser, target: string)
      modifies this
      ensures targetFile == TargetsAfterAdd(old(targetFile), p, target)
      ensures targetSaves == old(targetSaves) + 1
      ensures permissionFile == old(permissionFile) && permissionSaves == old(permissionSaves)
    {
      var targets := targetFile;
      match p.address(target) {
        case Some(a) =>
          targets := targets + [IpTarget(IpAddress(a))];
        case None =>
          match p.network(target) {
            case Some(n) =>
              targets := targets + [IpTarget(IpNetwork(n))];
            case None =>
          }
      }
      targetFile := targets;
      targetSaves := targetSaves + 1;
    }

    /** `delete_target`: an input neither parse accepts stops it before the save. */
    method DeleteTarget(p: IpParser, target: string) returns (error: Option<DeleteError>)
      modifies this
      ensures error.Some? <==> TargetsAfterDelete(old(targetFile), p, target).Err?
      ensures error.None? ==> targetFile == TargetsAfterDelete(old(targetFile), p, target).value
                              && targetSaves == old(targetSaves) + 1
      ensures error.Some? ==> targetFile == old(targetFile) && targetSaves == old(targetSaves)
      ensures permissionFile == old(permissionFile) && permissionSaves == old(permissionSaves)
    {
      var targets := targetFile;
      var tgt := ParseTarget(p, target);
      if tgt.None? {
        return Some(UnboundTarget);
      }
      if IpTarget(tgt.value) in targets {
        targets := Without(targets, IpTarget(tgt.value));
      } else if target == "*" {
        targets := [];
      }
      targetFile := targets;
      targetSaves := targetSaves + 1;
      return None;
    }

    /** `add_permission`, as written; the map is saved again in every case. */
    method AddPermission(entry: string)
      modifies this
      ensures permissionFile == PermissionsAfterAddAsWritten(old(permissionFile), entry)
      ensures permissionSaves == old(permissionSaves) + 1
      ensures targetFile == old(targetFile) && targetSaves == old(targetSaves)
    {
      var permissions := permissionFile;
      var split := SplitEntry(entry);
      if split.Some? {
        var user := split.value.0;
        var current: PermValue := if user in permissions then permissions[user] else PermList([]);
        if current.PermList? {
          permissions := permissions[user := PyNone];
        }
      }
      permissionFile := permissions;
      permissionSaves := permissionSaves + 1;
    }

    /** `delete_permission`; the map is saved again in every case. */
    method DeletePermission(entry: string)
      modifies this
      ensures permissionFile == PermissionsAfterDelete(old(permissionFile), entry)
      ensures permissionSaves == old(permissionSaves) + 1
      ensures targetFile == old(targetFile) && targetSaves == old(targetSaves)
    {
      var permissions := permissionFile;
      var split := SplitEntry(entry);
      if split.Some? && split.value.0 in permissions {
        var (user, moduleName) := split.value;
        var perms := permissions[user];
        if moduleName == "*" {
          permissions := permissions - {user};
        } else if perms.PermList? && moduleName in perms.patterns {
          permissions := permissions[user := PermList(Without(perms.patterns, moduleName))];
        }
      }
      permissionFile := permissions;
      permissionSaves := permissionSaves + 1;
    }
  }
}
